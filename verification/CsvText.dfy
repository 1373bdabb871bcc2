/** CSV text: field quoting, records, and a reader in the sense of section 2 of RFC 4180. */
module CsvText {
  import opened Machine

  type Byte = b: nat | b < 256

  type Bytes = seq<Byte>

  const COMMA: Byte := ',' as int
  const QUOTE: Byte := '"' as int
  const LF: Byte := '\n' as int
  const CR: Byte := '\r' as int

  // ----- writing a field

  predicate Special(b: Byte) { b == COMMA || b == QUOTE || b == LF || b == CR }

  predicate NeedsQuote(value: Bytes) {
    exists i :: 0 <= i < |value| && Special(value[i])
  }

  /** Every quote doubled. */
  function Doubled(value: Bytes): Bytes {
    if value == [] then []
    else Doubled(value[..|value| - 1]) + if value[|value| - 1] == QUOTE then [QUOTE, QUOTE] else [value[|value| - 1]]
  }

  function EncodeField(value: Bytes): Bytes {
    if NeedsQuote(value) then [QUOTE] + Doubled(value) + [QUOTE] else value
  }

  /** The bytes of a comma, a quotation mark, a line feed or a carriage return. */
  ghost predicate Separates(b: Byte) { b == 0x2C || b == 0x22 || b == 0x0A || b == 0x0D }

  lemma {:induction false} NeedsQuoteIsSeparated(value: Bytes)
    ensures NeedsQuote(value) <==> exists i :: 0 <= i < |value| && Separates(value[i])
  {
    forall i | 0 <= i < |value| ensures Special(value[i]) <==> Separates(value[i]) {
    }
  }

  method WriteCsvBytes(value: Bytes, output: Bytes) returns (r: Bytes)
    ensures r == output + EncodeField(value)
    ensures var quoted := exists i :: 0 <= i < |value| && Separates(value[i]);
            r == output + if quoted then [0x22] + Doubled(value) + [0x22] else value
  {
    NeedsQuoteIsSeparated(value);
    if !NeedsQuote(value) { return output + value; }
    r := output + [QUOTE];
    ghost var start := r;
    for i := 0 to |value|
      invariant r == start + Doubled(value[..i])
    {
      DoubledSnoc(start, value, i);
      if value[i] == QUOTE { r := r + [QUOTE, QUOTE]; } else { r := r + [value[i]]; }
    }
    assert value[..|value|] == value;
    r := r + [QUOTE];
    assert output + [QUOTE] + Doubled(value) + [QUOTE] == output + ([QUOTE] + Doubled(value) + [QUOTE]);
  }

  lemma {:induction false} DoubledSnoc(start: Bytes, value: Bytes, i: nat)
    requires i < |value|
    ensures start + Doubled(value[..i + 1]) ==
              start + Doubled(value[..i]) + if value[i] == QUOTE then [QUOTE, QUOTE] else [value[i]]
  {
    assert value[..i + 1][..i] == value[..i];
  }

  // ----- records and lines

  /** The fields of a record, comma-separated. */
  function Join(fields: seq<Bytes>): Bytes {
    if fields == [] then []
    else if |fields| == 1 then EncodeField(fields[0])
    else EncodeField(fields[0]) + [COMMA] + Join(fields[1..])
  }

  /** The records of a table, each ended by a line feed. */
  function Lines(table: seq<seq<Bytes>>): Bytes {
    if table == [] then [] else Join(table[0]) + [LF] + Lines(table[1..])
  }

  lemma {:induction false} JoinSnoc(fields: seq<Bytes>, field: Bytes)
    ensures Join(fields + [field]) ==
              if fields == [] then EncodeField(field) else Join(fields) + [COMMA] + EncodeField(field)
  {
    if |fields| == 1 {
      assert (fields + [field])[1..] == [field];
    } else if |fields| > 1 {
      assert (fields + [field])[1..] == fields[1..] + [field];
      JoinSnoc(fields[1..], field);
    }
  }

  lemma {:induction false} LinesSnoc(table: seq<seq<Bytes>>, record: seq<Bytes>)
    ensures Lines(table + [record]) == Lines(table) + Join(record) + [LF]
  {
    if table == [] {
      assert (table + [record])[1..] == [];
    } else {
      assert (table + [record])[1..] == table[1..] + [record];
      LinesSnoc(table[1..], record);
    }
  }

  // ----- reading (RFC 4180, section 2, rules 5 to 7; records end with a line feed). The reader spells
  // out the bytes of the comma (0x2C), the quotation mark (0x22), the line feed (0x0A) and the carriage return (0x0D).

  /** The rest of a quoted field, after its opening quote. */
  function ReadQuoted(s: Bytes): (r: Option<(Bytes, Bytes)>)
    ensures r.Some? ==> |r.value.1| < |s|
  {
    if s == [] then None
    else if s[0] != 0x22 then
      match ReadQuoted(s[1..])
      case None => None
      case Some((field, rest)) => Some(([s[0]] + field, rest))
    else if |s| > 1 && s[1] == 0x22 then
      match ReadQuoted(s[2..])
      case None => None
      case Some((field, rest)) => Some(([0x22] + field, rest))
    else Some(([], s[1..]))
  }

  /** An unquoted field ends before a comma or a line end, and holds no quote. */
  function ReadPlain(s: Bytes): (r: Option<(Bytes, Bytes)>)
    ensures r.Some? ==> |r.value.1| <= |s|
  {
    if s == [] then None
    else if s[0] == 0x2C || s[0] == 0x0A then Some(([], s))
    else if s[0] == 0x22 || s[0] == 0x0D then None
    else
      match ReadPlain(s[1..])
      case None => None
      case Some((field, rest)) => Some(([s[0]] + field, rest))
  }

  function ReadField(s: Bytes): (r: Option<(Bytes, Bytes)>)
    ensures r.Some? ==> |r.value.1| <= |s|
  {
    if s != [] && s[0] == 0x22 then ReadQuoted(s[1..]) else ReadPlain(s)
  }

  function ReadRecord(s: Bytes): (r: Option<(seq<Bytes>, Bytes)>)
    ensures r.Some? ==> |r.value.1| < |s|
    decreases |s|
  {
    match ReadField(s)
    case None => None
    case Some((field, rest)) =>
      if rest == [] then None
      else if rest[0] == 0x0A then Some(([field], rest[1..]))
      else if rest[0] != 0x2C then None
      else
        match ReadRecord(rest[1..])
        case None => None
        case Some((fields, end)) => Some(([field] + fields, end))
  }

  function ReadTable(s: Bytes): Option<seq<seq<Bytes>>>
    decreases |s|
  {
    if s == [] then Some([])
    else
      match ReadRecord(s)
      case None => None
      case Some((record, rest)) =>
        match ReadTable(rest)
        case None => None
        case Some(table) => Some([record] + table)
  }

  // ----- reading undoes writing

  lemma {:induction false} DoubledFront(value: Bytes)
    requires value != []
    ensures Doubled(value) == (if value[0] == QUOTE then [QUOTE, QUOTE] else [value[0]]) + Doubled(value[1..])
  {
    if |value| > 1 {
      var init := value[..|value| - 1];
      DoubledFront(init);
      assert init[1..] == value[1..][..|value| - 2];
    }
  }

  /** What may follow a field: a comma or the end of the record. */
  predicate FieldEnd(rest: Bytes) { rest != [] && (rest[0] == COMMA || rest[0] == LF) }

  lemma {:induction false} ReadQuotedUndoes(value: Bytes, rest: Bytes)
    requires FieldEnd(rest)
    ensures ReadQuoted(Doubled(value) + [QUOTE] + rest) == Some((value, rest))
  {
    var s := Doubled(value) + [QUOTE] + rest;
    if value == [] {
      assert s == [QUOTE] + rest && s[1..] == rest;
    } else {
      DoubledFront(value);
      var tail := Doubled(value[1..]) + [QUOTE] + rest;
      ReadQuotedUndoes(value[1..], rest);
      if value[0] == QUOTE {
        assert s == [QUOTE, QUOTE] + tail && s[2..] == tail;
      } else {
        assert s == [value[0]] + tail && s[1..] == tail;
      }
      assert [value[0]] + value[1..] == value;
    }
  }

  lemma {:induction false} ReadPlainUndoes(value: Bytes, rest: Bytes)
    requires !NeedsQuote(value) && FieldEnd(rest)
    ensures ReadPlain(value + rest) == Some((value, rest))
  {
    if value == [] {
      assert value + rest == rest;
    } else {
      assert !Special(value[0]);
      assert !NeedsQuote(value[1..]) by {
        forall i | 0 <= i < |value| - 1 ensures !Special(value[1..][i]) {
          assert !Special(value[i + 1]);
        }
      }
      ReadPlainUndoes(value[1..], rest);
      assert (value + rest)[1..] == value[1..] + rest;
      assert [value[0]] + value[1..] == value;
    }
  }

  lemma {:induction false} ReadFieldUndoes(value: Bytes, rest: Bytes)
    requires FieldEnd(rest)
    ensures ReadField(EncodeField(value) + rest) == Some((value, rest))
  {
    var s := EncodeField(value) + rest;
    if NeedsQuote(value) {
      var inner := Doubled(value) + [QUOTE] + rest;
      assert s == [QUOTE] + inner;
      assert s[1..] == inner;
      ReadQuotedUndoes(value, rest);
    } else {
      assert s[0] != QUOTE by {
        if value == [] { assert s == rest; } else { assert s[0] == value[0] && !Special(value[0]); }
      }
      ReadPlainUndoes(value, rest);
    }
  }

  lemma {:induction false} ReadRecordUndoes(fields: seq<Bytes>, rest: Bytes)
    requires fields != []
    ensures ReadRecord(Join(fields) + [LF] + rest) == Some((fields, rest))
  {
    var s := Join(fields) + [LF] + rest;
    if |fields| == 1 {
      assert s == EncodeField(fields[0]) + ([LF] + rest);
      ReadFieldUndoes(fields[0], [LF] + rest);
      assert ([LF] + rest)[1..] == rest && [fields[0]] == fields;
    } else {
      var tail := Join(fields[1..]) + [LF] + rest;
      assert s == EncodeField(fields[0]) + ([COMMA] + tail);
      ReadFieldUndoes(fields[0], [COMMA] + tail);
      assert ([COMMA] + tail)[1..] == tail;
      ReadRecordUndoes(fields[1..], rest);
      assert [fields[0]] + fields[1..] == fields;
    }
  }

  /** A record without fields prints like one with a single empty field. */
  function Padded(record: seq<Bytes>): seq<Bytes> {
    if record == [] then [[]] else record
  }

  function AllPadded(table: seq<seq<Bytes>>): (r: seq<seq<Bytes>>)
    ensures |r| == |table| && forall i :: 0 <= i < |table| ==> r[i] == Padded(table[i])
  {
    if table == [] then [] else [Padded(table[0])] + AllPadded(table[1..])
  }

  /** Every table is read back, records without fields as records with one empty field. */
  lemma {:induction false} ReadTableOfLines(table: seq<seq<Bytes>>)
    ensures ReadTable(Lines(table)) == Some(AllPadded(table))
  {
    if table != [] {
      ReadRecordUndoes(Padded(table[0]), Lines(table[1..]));
      ReadTableOfLines(table[1..]);
      assert Join(Padded(table[0])) == Join(table[0]);
    }
  }

  /** A table is read back as it was written exactly when every record has a field. */
  lemma {:induction false} ReadTableUndoes(table: seq<seq<Bytes>>)
    ensures ReadTable(Lines(table)) == Some(table) <==> forall i :: 0 <= i < |table| ==> table[i] != []
  {
    ReadTableOfLines(table);
    if forall i :: 0 <= i < |table| ==> table[i] != [] {
      assert AllPadded(table) == table;
    } else {
      var i :| 0 <= i < |table| && table[i] == [];
      assert AllPadded(table)[i] != table[i];
    }
  }

  // ----- numbers

  /** Decimal digits, most significant first. */
  function Digits(n: nat): Bytes {
    if n < 10 then [48 + n] else Digits(n / 10) + [48 + n % 10]
  }

  function FormatInt(v: int): Bytes {
    if v < 0 then [45] + Digits(-v) else Digits(v)
  }

  predicate IsDigit(b: Byte) { '0' as int <= b <= '9' as int }

  predicate AllDigits(s: Bytes) {
    forall i :: 0 <= i < |s| ==> IsDigit(s[i])
  }

  function ParseDigits(s: Bytes): int {
    if s == [] then 0 else 10 * ParseDigits(s[..|s| - 1]) + (s[|s| - 1] as int - '0' as int)
  }

  lemma {:induction false} DigitsParse(n: nat)
    ensures Digits(n) != [] && AllDigits(Digits(n)) && (Digits(n)[0] == 48 ==> n == 0)
    ensures ParseDigits(Digits(n)) == n
  {
    if n >= 10 {
      DigitsParse(n / 10);
      assert Digits(n)[..|Digits(n)| - 1] == Digits(n / 10);
    }
  }

  /** The integer a field stands for; nothing for a field that is no integer. */
  function ParseInt(s: Bytes): Option<int> {
    var negative := s != [] && s[0] == '-' as int;
    var digits := if negative then s[1..] else s;
    if digits == [] || !AllDigits(digits) then None
    else Some(if negative then -ParseDigits(digits) else ParseDigits(digits))
  }

  /** A sign only for a negative number, and no leading zero. */
  predicate IsNumeral(s: Bytes) {
    var digits := if s != [] && s[0] == '-' as int then s[1..] else s;
    digits != [] && (digits[0] == '0' as int ==> s == ['0' as int])
  }

  lemma {:induction false} AllDigitsInit(s: Bytes)
    requires s != [] && AllDigits(s)
    ensures AllDigits(s[..|s| - 1]) && IsDigit(s[|s| - 1])
  {
    var init := s[..|s| - 1];
    forall i | 0 <= i < |init| ensures IsDigit(init[i]) {
      assert init[i] == s[i] && IsDigit(s[i]);
    }
  }

  lemma {:induction false} LeadingDigitCounts(s: Bytes)
    requires s != [] && AllDigits(s)
    ensures ParseDigits(s) >= 0 && (s[0] != 48 ==> ParseDigits(s) > 0)
  {
    AllDigitsInit(s);
    if |s| > 1 { LeadingDigitCounts(s[..|s| - 1]); }
  }

  lemma {:induction false} DigitsAreUnique(a: Bytes, b: Bytes)
    requires a != [] && b != [] && AllDigits(a) && AllDigits(b) && ParseDigits(a) == ParseDigits(b)
    requires (a[0] == 48 ==> |a| == 1) && (b[0] == 48 ==> |b| == 1)
    ensures a == b
  {
    var x, y := a[..|a| - 1], b[..|b| - 1];
    AllDigitsInit(a);
    AllDigitsInit(b);
    if x != [] { LeadingDigitCounts(x); }
    if y != [] { LeadingDigitCounts(y); }
    if x != [] && y != [] { DigitsAreUnique(x, y); }
    assert a == x + [a[|a| - 1]] && b == y + [b[|b| - 1]];
  }

  /** An integer has one numeral. */
  lemma {:induction false} NumeralIsUnique(a: Bytes, b: Bytes)
    requires IsNumeral(a) && IsNumeral(b) && ParseInt(a).Some? && ParseInt(a) == ParseInt(b)
    ensures a == b
  {
    var x, y := if a[0] == 45 then a[1..] else a, if b[0] == 45 then b[1..] else b;
    LeadingDigitCounts(x);
    LeadingDigitCounts(y);
    DigitsAreUnique(x, y);
  }

  /** The printed number is a numeral that parses back, and never needs quotes. */
  lemma {:induction false} FormatParses(v: int)
    ensures ParseInt(FormatInt(v)) == Some(v) && IsNumeral(FormatInt(v)) && !NeedsQuote(FormatInt(v))
  {
    var n := if v < 0 then -v else v;
    DigitsParse(n);
    assert IsDigit(Digits(n)[0]);
    if v < 0 {
      assert FormatInt(v)[1..] == Digits(n);
    }
    forall i | 0 <= i < |FormatInt(v)| ensures !Special(FormatInt(v)[i]) {
      assert IsDigit(FormatInt(v)[i]) || FormatInt(v)[i] == 45 by {
        if v < 0 && i > 0 { assert FormatInt(v)[i] == Digits(n)[i - 1]; }
      }
    }
  }
}
