/** The CSV writers: the generic row loop and the specialised ones. */
module CsvWriters {
  import opened Machine
  import opened CsvText

  datatype QuoteMode = Never | CheckEachValue

  /** What a printed float may hold: digits, a sign, a point, an exponent, or the letters of `inf` and `NaN`. */
  predicate FloatByte(b: Byte) {
    48 <= b <= 57 || b in [43, 45, 46, 69, 78, 97, 101, 102, 105, 110]
  }

  /** A float as it is printed. */
  type FloatText = text: Bytes | forall i :: 0 <= i < |text| ==> FloatByte(text[i])

  /** A column of a batch; None is a null. */
  datatype CsvColumn =
    | Int32(ints: seq<Option<int>>)
    | Int64(longs: seq<Option<int>>)
    | UInt32(uints: seq<Option<int>>)
    | UInt64(ulongs: seq<Option<int>>)
    | Float64(floats: seq<Option<FloatText>>)
    | Utf8(texts: seq<Option<Bytes>>, quoteMode: QuoteMode)
    | Boolean(bools: seq<Option<bool>>)
  {
    function Rows(): nat {
      match this
      case Int32(v) => |v|
      case Int64(v) => |v|
      case UInt32(v) => |v|
      case UInt64(v) => |v|
      case Float64(v) => |v|
      case Utf8(v, _) => |v|
      case Boolean(v) => |v|
    }

    /** The text of a value; a null has none. */
    function Text(row: nat): Bytes
      requires row < Rows()
    {
      match this
      case Int32(v) => IntText(v[row])
      case Int64(v) => IntText(v[row])
      case UInt32(v) => IntText(v[row])
      case UInt64(v) => IntText(v[row])
      case Float64(v) => v[row].GetOr([])
      case Utf8(v, _) => v[row].GetOr([])
      case Boolean(v) => BoolText(v[row])
    }
  }

  function IntText(value: Option<int>): Bytes {
    match value
    case Some(v) => FormatInt(v)
    case None => []
  }

  const TRUE: Bytes := [0x74, 0x72, 0x75, 0x65]
  const FALSE: Bytes := [0x66, 0x61, 0x6C, 0x73, 0x65]

  function BoolText(value: Option<bool>): Bytes {
    match value
    case Some(v) => if v then TRUE else FALSE
    case None => []
  }

  /** An array as the batch holds it, before a quote mode is chosen. */
  datatype ArrayData = Column(column: CsvColumn) | Unsupported

  predicate HasRows(columns: seq<CsvColumn>, rows: nat) {
    forall c :: 0 <= c < |columns| ==> columns[c].Rows() == rows
  }

  /** A never-quote column holds no value that needs quotes. */
  ghost predicate ModeHolds(column: CsvColumn) {
    column.Utf8? && column.quoteMode.Never? ==>
      forall r :: 0 <= r < |column.texts| && column.texts[r].Some? ==> !NeedsQuote(column.texts[r].value)
  }

  ghost predicate ModesHold(columns: seq<CsvColumn>) {
    forall c :: 0 <= c < |columns| ==> ModeHolds(columns[c])
  }

  /** The texts of the first `n` columns of a row. */
  function RecordOf(columns: seq<CsvColumn>, row: nat, n: nat): seq<Bytes>
    requires n <= |columns| && forall c :: 0 <= c < n ==> row < columns[c].Rows()
  {
    if n == 0 then [] else RecordOf(columns, row, n - 1) + [columns[n - 1].Text(row)]
  }

  /** The texts of the first `n` rows. */
  function TableOf(columns: seq<CsvColumn>, rows: nat, n: nat): seq<seq<Bytes>>
    requires HasRows(columns, rows) && n <= rows
  {
    if n == 0 then [] else TableOf(columns, rows, n - 1) + [RecordOf(columns, n - 1, |columns|)]
  }

  lemma {:induction false} TextNeedsNoQuote(column: CsvColumn, row: nat)
    requires row < column.Rows() && (column.Utf8? ==> column.texts[row].None?)
    ensures !NeedsQuote(column.Text(row))
  {
    match column
    case Int32(v) => if v[row].Some? { FormatParses(v[row].value); }
    case Int64(v) => if v[row].Some? { FormatParses(v[row].value); }
    case UInt32(v) => if v[row].Some? { FormatParses(v[row].value); }
    case UInt64(v) => if v[row].Some? { FormatParses(v[row].value); }
    case Float64(v) =>
      forall i | 0 <= i < |column.Text(row)| ensures !Special(column.Text(row)[i]) {
        assert FloatByte(v[row].value[i]);
      }
    case _ =>
  }

  // ----- what a field stands for

  /** The field is the decimal numeral of the integer, or empty for a null. */
  ghost predicate StandsForInt(value: Option<int>, field: Bytes) {
    match value
    case Some(v) => ParseInt(field) == Some(v) && IsNumeral(field)
    case None => field == []
  }

  /** The field is this text, or empty for a null. */
  ghost predicate StandsForText(value: Option<Bytes>, field: Bytes) {
    match value
    case Some(text) => field == text
    case None => field == []
  }

  /** The field is `true` or `false`, or empty for a null. */
  ghost predicate StandsForBool(value: Option<bool>, field: Bytes) {
    match value
    case Some(true) => field == ['t' as int, 'r' as int, 'u' as int, 'e' as int]
    case Some(false) => field == ['f' as int, 'a' as int, 'l' as int, 's' as int, 'e' as int]
    case None => field == []
  }

  /** The field stands for the value that the column has in this row. */
  ghost predicate StandsFor(column: CsvColumn, row: nat, field: Bytes)
    requires row < column.Rows()
  {
    match column
    case Int32(v) => StandsForInt(v[row], field)
    case Int64(v) => StandsForInt(v[row], field)
    case UInt32(v) => StandsForInt(v[row], field)
    case UInt64(v) => StandsForInt(v[row], field)
    case Float64(v) => StandsForText(v[row], field)
    case Utf8(v, _) => StandsForText(v[row], field)
    case Boolean(v) => StandsForBool(v[row], field)
  }

  lemma {:induction false} TextStandsFor(column: CsvColumn, row: nat)
    requires row < column.Rows()
    ensures StandsFor(column, row, column.Text(row))
  {
    match column
    case Int32(v) => if v[row].Some? { FormatParses(v[row].value); }
    case Int64(v) => if v[row].Some? { FormatParses(v[row].value); }
    case UInt32(v) => if v[row].Some? { FormatParses(v[row].value); }
    case UInt64(v) => if v[row].Some? { FormatParses(v[row].value); }
    case _ =>
  }

  /** The record has one field for each column, which stands for the column's value in this row. */
  ghost predicate RecordStandsFor(columns: seq<CsvColumn>, row: nat, record: seq<Bytes>) {
    && |record| == |columns|
    && forall c :: 0 <= c < |columns| ==> row < columns[c].Rows() && StandsFor(columns[c], row, record[c])
  }

  /** A reader gets back a table with one record for each row, every field standing for its value. */
  ghost predicate ReadsBack(text: Bytes, columns: seq<CsvColumn>, rows: nat) {
    var table := ReadTable(text);
    && table.Some? && |table.value| == rows
    && forall row :: 0 <= row < rows ==> RecordStandsFor(columns, row, table.value[row])
  }

  lemma {:induction false} RecordOfAt(columns: seq<CsvColumn>, row: nat, n: nat, c: nat)
    requires c < n <= |columns| && forall d :: 0 <= d < n ==> row < columns[d].Rows()
    ensures |RecordOf(columns, row, n)| == n && RecordOf(columns, row, n)[c] == columns[c].Text(row)
  {
    if c < n - 1 {
      RecordOfAt(columns, row, n - 1, c);
    } else if n > 1 {
      RecordOfAt(columns, row, n - 1, 0);
    }
  }

  lemma {:induction false} RecordOfStandsFor(columns: seq<CsvColumn>, row: nat)
    requires forall c :: 0 <= c < |columns| ==> row < columns[c].Rows()
    ensures RecordStandsFor(columns, row, RecordOf(columns, row, |columns|))
  {
    forall c | 0 <= c < |columns|
      ensures |RecordOf(columns, row, |columns|)| == |columns|
      ensures StandsFor(columns[c], row, RecordOf(columns, row, |columns|)[c])
    {
      RecordOfAt(columns, row, |columns|, c);
      TextStandsFor(columns[c], row);
    }
  }

  lemma {:induction false} TableOfAt(columns: seq<CsvColumn>, rows: nat, n: nat)
    requires HasRows(columns, rows) && n <= rows
    ensures |TableOf(columns, rows, n)| == n
    ensures forall i :: 0 <= i < n ==> TableOf(columns, rows, n)[i] == RecordOf(columns, i, |columns|)
  {
    if n > 0 { TableOfAt(columns, rows, n - 1); }
  }

  /** The lines of the table read back as the values, exactly when there is a column or no row. */
  lemma {:induction false} LinesReadBack(columns: seq<CsvColumn>, rows: nat)
    requires HasRows(columns, rows)
    ensures ReadsBack(Lines(TableOf(columns, rows, rows)), columns, rows) <==> columns != [] || rows == 0
  {
    var table := TableOf(columns, rows, rows);
    TableOfAt(columns, rows, rows);
    ReadTableOfLines(table);
    forall row | 0 <= row < rows ensures columns != [] ==> RecordStandsFor(columns, row, AllPadded(table)[row]) {
      RecordOfStandsFor(columns, row);
    }
    if columns == [] && rows > 0 { assert !RecordStandsFor(columns, 0, AllPadded(table)[0]); }
  }

  // ----- one value

  method WriteValue(column: CsvColumn, row: nat, output: Bytes) returns (r: Bytes)
    requires row < column.Rows() && ModeHolds(column)
    ensures r == output + EncodeField(column.Text(row)) && StandsFor(column, row, column.Text(row))
  {
    r := output;
    TextStandsFor(column, row);
    match column {
      case Int32(v) =>
        TextNeedsNoQuote(column, row);
        if v[row].Some? { r := r + FormatInt(v[row].value); }
      case Int64(v) =>
        TextNeedsNoQuote(column, row);
        if v[row].Some? { r := r + FormatInt(v[row].value); }
      case UInt32(v) =>
        TextNeedsNoQuote(column, row);
        if v[row].Some? { r := r + FormatInt(v[row].value); }
      case UInt64(v) =>
        TextNeedsNoQuote(column, row);
        if v[row].Some? { r := r + FormatInt(v[row].value); }
      case Float64(v) =>
        TextNeedsNoQuote(column, row);
        if v[row].Some? { r := r + v[row].value; }
      case Utf8(v, mode) =>
        if v[row].Some? {
          match mode {
            case Never => r := r + v[row].value;
            case CheckEachValue => r := WriteCsvBytes(v[row].value, r);
          }
        }
      case Boolean(v) =>
        TextNeedsNoQuote(column, row);
        if v[row].Some? { r := r + if v[row].value then TRUE else FALSE; }
    }
  }

  // ----- the bytes in writing order

  /** The output after the first `n` fields of a row. */
  function AfterFields(output: Bytes, columns: seq<CsvColumn>, row: nat, n: nat): Bytes
    requires n <= |columns| && forall c :: 0 <= c < n ==> row < columns[c].Rows()
  {
    if n == 0 then output
    else if n == 1 then output + EncodeField(columns[0].Text(row))
    else AfterFields(output, columns, row, n - 1) + [COMMA] + EncodeField(columns[n - 1].Text(row))
  }

  /** The output after the first `n` rows. */
  function AfterRows(output: Bytes, columns: seq<CsvColumn>, rows: nat, n: nat): Bytes
    requires HasRows(columns, rows) && n <= rows
  {
    if n == 0 then output else AfterFields(AfterRows(output, columns, rows, n - 1), columns, n - 1, |columns|) + [LF]
  }

  lemma {:induction false} Regroup(a: Bytes, b: Bytes, c: Bytes, d: Bytes)
    ensures a + b + c + d == a + (b + c + d)
  {
  }

  /** One more row of an integer and a text column. */
  lemma {:induction false} AfterPair(output: Bytes, columns: seq<CsvColumn>, left: seq<Option<int>>, right: CsvColumn,
                                     rows: nat, row: nat)
    requires columns == [Int32(left), right] && |left| == right.Rows() == rows && row < rows
    ensures HasRows(columns, rows)
    ensures AfterRows(output, columns, rows, row + 1) ==
              AfterRows(output, columns, rows, row)
              + EncodeField(IntText(left[row])) + [COMMA] + EncodeField(right.Text(row)) + [LF]
  {
    var before := AfterRows(output, columns, rows, row);
    assert AfterFields(before, columns, row, 1) == before + EncodeField(IntText(left[row]));
    assert AfterFields(before, columns, row, 2) ==
           AfterFields(before, columns, row, 1) + [COMMA] + EncodeField(right.Text(row));
  }

  lemma {:induction false} AfterFieldsIsJoin(output: Bytes, columns: seq<CsvColumn>, row: nat, n: nat)
    requires n <= |columns| && forall c :: 0 <= c < n ==> row < columns[c].Rows()
    ensures AfterFields(output, columns, row, n) == output + Join(RecordOf(columns, row, n))
    ensures |RecordOf(columns, row, n)| == n
  {
    if n > 0 {
      var before, text := RecordOf(columns, row, n - 1), columns[n - 1].Text(row);
      assert RecordOf(columns, row, n) == before + [text];
      AfterFieldsIsJoin(output, columns, row, n - 1);
      JoinSnoc(before, text);
      if n > 1 {
        assert before != [];
        Regroup(output, Join(before), [COMMA], EncodeField(text));
      }
    }
  }

  /** Writing row by row yields the lines of the table. */
  lemma {:induction false} AfterRowsIsLines(output: Bytes, columns: seq<CsvColumn>, rows: nat, n: nat)
    requires HasRows(columns, rows) && n <= rows
    ensures AfterRows(output, columns, rows, n) == output + Lines(TableOf(columns, rows, n))
  {
    if n == 0 {
      assert output + [] == output;
    } else {
      AfterRowsIsLines(output, columns, rows, n - 1);
      AfterRowIsLine(output, columns, rows, n - 1);
    }
  }

  lemma {:induction false} AfterRowIsLine(output: Bytes, columns: seq<CsvColumn>, rows: nat, row: nat)
    requires HasRows(columns, rows) && row < rows
    requires AfterRows(output, columns, rows, row) == output + Lines(TableOf(columns, rows, row))
    ensures AfterRows(output, columns, rows, row + 1) == output + Lines(TableOf(columns, rows, row + 1))
  {
    var before, table, record := AfterRows(output, columns, rows, row), TableOf(columns, rows, row),
                                 RecordOf(columns, row, |columns|);
    assert TableOf(columns, rows, row + 1) == table + [record];
    AfterFieldsIsJoin(before, columns, row, |columns|);
    LinesSnoc(table, record);
    Regroup(output, Lines(table), Join(record), [LF]);
  }

  /** What the rows added to the output reads back as the values, exactly when there is a column or no row. */
  lemma {:induction false} RowsReadBack(output: Bytes, columns: seq<CsvColumn>, rows: nat)
    requires HasRows(columns, rows)
    ensures var r := AfterRows(output, columns, rows, rows);
            && |output| <= |r| && r[..|output|] == output
            && (ReadsBack(r[|output|..], columns, rows) <==> columns != [] || rows == 0)
  {
    AfterRowsIsLines(output, columns, rows, rows);
    LinesReadBack(columns, rows);
    var added := Lines(TableOf(columns, rows, rows));
    assert (output + added)[|output|..] == added;
  }

  // ----- the generic row loop

  method WriteRecord(columns: seq<CsvColumn>, rows: nat, row: nat, output: Bytes) returns (r: Bytes)
    requires HasRows(columns, rows) && ModesHold(columns) && row < rows
    ensures r == AfterFields(output, columns, row, |columns|) + [LF]
  {
    r := output;
    for c := 0 to |columns|
      invariant r == AfterFields(output, columns, row, c)
    {
      if c > 0 { r := r + [COMMA]; }
      r := WriteValue(columns[c], row, r);
    }
    r := r + [LF];
  }

  method WriteGenericCsvBatch(columns: seq<CsvColumn>, rows: nat, output: Bytes) returns (r: Bytes)
    requires HasRows(columns, rows) && ModesHold(columns)
    ensures r == AfterRows(output, columns, rows, rows)
    ensures |output| <= |r| && r[..|output|] == output
    ensures ReadsBack(r[|output|..], columns, rows) <==> columns != [] || rows == 0
  {
    r := output;
    for row := 0 to rows
      invariant r == AfterRows(output, columns, rows, row)
    {
      r := WriteRecord(columns, rows, row, r);
    }
    RowsReadBack(output, columns, rows);
  }

  // ----- the specialised writers

  method WriteInt32(value: Option<int>, output: Bytes) returns (r: Bytes)
    ensures r == output + EncodeField(IntText(value))
  {
    r := output;
    if value.Some? {
      FormatParses(value.value);
      r := r + FormatInt(value.value);
    }
  }

  method WriteI32CsvBatch(values: seq<Option<int>>, rows: nat, output: Bytes) returns (r: Bytes)
    requires |values| == rows
    ensures r == AfterRows(output, [Int32(values)], rows, rows)
  {
    r := output;
    for row := 0 to rows
      invariant r == AfterRows(output, [Int32(values)], rows, row)
    {
      r := WriteInt32(values[row], r);
      r := r + [LF];
    }
  }

  /** One row of an integer and a never-quoted text. */
  method WriteI32TextPair(left: Option<int>, right: Option<Bytes>, checkNulls: bool, output: Bytes) returns (r: Bytes)
    requires !checkNulls ==> left.Some? && right.Some?
    requires right.Some? ==> !NeedsQuote(right.value)
    ensures r == output + EncodeField(IntText(left)) + [COMMA] + EncodeField(right.GetOr([])) + [LF]
  {
    if checkNulls {
      r := WriteInt32(left, output);
    } else {
      FormatParses(left.value);
      r := output + FormatInt(left.value);
    }
    r := r + [COMMA];
    if !checkNulls || right.Some? { r := r + right.value; }
    r := r + [LF];
  }

  /** Without nulls the null tests are skipped. */
  method WriteI32Utf8NoQuoteCsvBatch(left: seq<Option<int>>, right: seq<Option<Bytes>>, rows: nat, output: Bytes)
    returns (r: Bytes)
    requires |left| == |right| == rows && ModeHolds(Utf8(right, Never))
    ensures r == AfterRows(output, [Int32(left), Utf8(right, Never)], rows, rows)
  {
    var noNulls := (forall i :: 0 <= i < rows ==> left[i].Some?) && (forall i :: 0 <= i < rows ==> right[i].Some?);
    ghost var columns := [Int32(left), Utf8(right, Never)];
    r := output;
    for row := 0 to rows
      invariant r == AfterRows(output, columns, rows, row)
    {
      AfterPair(output, columns, left, Utf8(right, Never), rows, row);
      r := WriteI32TextPair(left[row], right[row], !noNulls, r);
    }
  }

  /** One row of an integer and a text that is quoted where needed. */
  method WriteI32QuotedPair(left: Option<int>, right: Option<Bytes>, output: Bytes) returns (r: Bytes)
    ensures r == output + EncodeField(IntText(left)) + [COMMA] + EncodeField(right.GetOr([])) + [LF]
  {
    r := WriteInt32(left, output);
    r := r + [COMMA];
    if right.Some? { r := WriteCsvBytes(right.value, r); }
    r := r + [LF];
  }

  method WriteI32Utf8CsvBatch(left: seq<Option<int>>, right: seq<Option<Bytes>>, rows: nat, output: Bytes)
    returns (r: Bytes)
    requires |left| == |right| == rows
    ensures r == AfterRows(output, [Int32(left), Utf8(right, CheckEachValue)], rows, rows)
  {
    ghost var columns := [Int32(left), Utf8(right, CheckEachValue)];
    r := output;
    for row := 0 to rows
      invariant r == AfterRows(output, columns, rows, row)
    {
      AfterPair(output, columns, left, Utf8(right, CheckEachValue), rows, row);
      r := WriteI32QuotedPair(left[row], right[row], r);
    }
  }

  predicate NoNulls(texts: seq<seq<Option<Bytes>>>) {
    forall c :: 0 <= c < |texts| ==> forall r :: 0 <= r < |texts[c]| ==> texts[c][r].Some?
  }

  /** The columns are the integers followed by the never-quoted texts. */
  predicate IntThenTexts(columns: seq<CsvColumn>, left: seq<Option<int>>, texts: seq<seq<Option<Bytes>>>) {
    && |columns| == |texts| + 1 && columns[0] == Int32(left)
    && forall c :: 0 <= c < |texts| ==> columns[c + 1] == Utf8(texts[c], Never)
  }

  /** The output after the first `n` texts of a row, each behind a comma and none quoted. */
  function AfterTexts(output: Bytes, texts: seq<seq<Option<Bytes>>>, row: nat, n: nat): Bytes
    requires n <= |texts| && forall c :: 0 <= c < n ==> row < |texts[c]|
  {
    if n == 0 then output else AfterTexts(output, texts, row, n - 1) + [COMMA] + texts[n - 1][row].GetOr([])
  }

  lemma {:induction false} AfterTextsAreFields(output: Bytes, columns: seq<CsvColumn>, left: seq<Option<int>>,
                                               texts: seq<seq<Option<Bytes>>>, rows: nat, row: nat, n: nat)
    requires IntThenTexts(columns, left, texts) && HasRows(columns, rows) && ModesHold(columns)
    requires row < rows && n <= |texts|
    ensures |left| == rows && forall c :: 0 <= c < |texts| ==> |texts[c]| == rows
    ensures AfterTexts(output + EncodeField(IntText(left[row])), texts, row, n) ==
              AfterFields(output, columns, row, n + 1)
  {
    assert columns[0].Rows() == rows;
    forall c | 0 <= c < |texts| ensures |texts[c]| == rows {
      assert columns[c + 1].Rows() == rows;
    }
    if n > 0 {
      AfterTextsAreFields(output, columns, left, texts, rows, row, n - 1);
      assert columns[n] == Utf8(texts[n - 1], Never) && ModeHolds(columns[n]);
    }
  }

  /** One row: the integer, then each text after a comma. */
  method WriteI32TextRow(left: seq<Option<int>>, texts: seq<seq<Option<Bytes>>>, rows: nat, row: nat, checkNulls: bool,
                         ghost columns: seq<CsvColumn>, output: Bytes)
    returns (r: Bytes)
    requires IntThenTexts(columns, left, texts)
    requires row < rows && HasRows(columns, rows) && ModesHold(columns)
    requires !checkNulls ==> left[row].Some? && NoNulls(texts)
    ensures r == AfterFields(output, columns, row, |columns|) + [LF]
  {
    AfterTextsAreFields(output, columns, left, texts, rows, row, |texts|);
    if checkNulls {
      r := WriteInt32(left[row], output);
    } else {
      FormatParses(left[row].value);
      r := output + FormatInt(left[row].value);
    }
    r := WriteTexts(texts, row, checkNulls, r);
    r := r + [LF];
  }

  /** A never-quoted text after a comma. */
  method WriteText(text: Option<Bytes>, checkNulls: bool, output: Bytes) returns (r: Bytes)
    requires !checkNulls ==> text.Some?
    ensures r == output + [COMMA] + text.GetOr([])
  {
    r := output + [COMMA];
    if !checkNulls || text.Some? { r := r + text.value; }
  }

  /** The texts of a row, each after a comma. */
  method WriteTexts(texts: seq<seq<Option<Bytes>>>, row: nat, checkNulls: bool, output: Bytes) returns (r: Bytes)
    requires forall c :: 0 <= c < |texts| ==> row < |texts[c]|
    requires !checkNulls ==> NoNulls(texts)
    ensures r == AfterTexts(output, texts, row, |texts|)
  {
    r := output;
    for c := 0 to |texts|
      invariant r == AfterTexts(output, texts, row, c)
    {
      r := WriteText(texts[c][row], checkNulls, r);
    }
  }

  method WriteI32Utf8ColumnsNoQuoteCsvBatch(left: seq<Option<int>>, texts: seq<seq<Option<Bytes>>>, rows: nat,
                                            ghost columns: seq<CsvColumn>, output: Bytes)
    returns (r: Bytes)
    requires IntThenTexts(columns, left, texts) && HasRows(columns, rows) && ModesHold(columns)
    ensures r == AfterRows(output, columns, rows, rows)
  {
    var noNulls := (forall i :: 0 <= i < |left| ==> left[i].Some?) && NoNulls(texts);
    assert columns[0].Rows() == rows;
    r := output;
    for row := 0 to rows
      invariant r == AfterRows(output, columns, rows, row)
    {
      r := WriteI32TextRow(left, texts, rows, row, !noNulls, columns, r);
    }
  }

  // ----- dispatch

  /** One integer column; an integer and a text column; or an integer and never-quote text columns. */
  predicate Specialised(columns: seq<CsvColumn>) {
    && columns != [] && columns[0].Int32?
    && (|columns| == 1 || (|columns| == 2 && columns[1].Utf8?)
        || forall c :: 1 <= c < |columns| ==> columns[c].Utf8? && columns[c].quoteMode.Never?)
  }

  /** One of the specialised writers, when the columns have its shape. */
  method WriteSpecializedCsvBatch(columns: seq<CsvColumn>, rows: nat, output: Bytes) returns (handled: bool, r: Bytes)
    requires HasRows(columns, rows) && ModesHold(columns)
    ensures handled ==> r == AfterRows(output, columns, rows, rows)
    ensures !handled ==> r == output
    ensures handled <==> Specialised(columns)
  {
    if columns == [] || !columns[0].Int32? { return false, output; }
    var left := columns[0].ints;
    if |columns| == 1 {
      assert columns == [Int32(left)];
      r := WriteI32CsvBatch(left, rows, output);
      return true, r;
    }
    if |columns| == 2 && columns[1].Utf8? {
      assert columns == [Int32(left), columns[1]];
      match columns[1].quoteMode {
        case Never => r := WriteI32Utf8NoQuoteCsvBatch(left, columns[1].texts, rows, output);
        case CheckEachValue => r := WriteI32Utf8CsvBatch(left, columns[1].texts, rows, output);
      }
      return true, r;
    }
    if forall c :: 1 <= c < |columns| ==> columns[c].Utf8? && columns[c].quoteMode.Never? {
      var texts := seq(|columns| - 1, c requires 0 <= c < |columns| - 1 => columns[c + 1].texts);
      r := WriteI32Utf8ColumnsNoQuoteCsvBatch(left, texts, rows, columns, output);
      return true, r;
    }
    return false, output;
  }

  method Utf8QuoteMode(texts: seq<Option<Bytes>>) returns (mode: QuoteMode)
    ensures mode.Never? <==> forall r :: 0 <= r < |texts| && texts[r].Some? ==> !NeedsQuote(texts[r].value)
  {
    for row := 0 to |texts|
      invariant forall r :: 0 <= r < row && texts[r].Some? ==> !NeedsQuote(texts[r].value)
    {
      if texts[row].Some? && NeedsQuote(texts[row].value) { return CheckEachValue; }
    }
    return Never;
  }

  /** Same values: the columns differ at most in the quote modes. */
  ghost predicate SameValues(a: CsvColumn, b: CsvColumn) {
    a == b || (a.Utf8? && b.Utf8? && a.texts == b.texts)
  }

  /** Picks the quote mode of every text column; an unsupported array stops the batch. */
  method ChooseColumns(arrays: seq<ArrayData>) returns (r: Option<seq<CsvColumn>>)
    ensures r.Some? <==> forall c :: 0 <= c < |arrays| ==> arrays[c].Column?
    ensures r.Some? ==> |r.value| == |arrays| && ModesHold(r.value)
                        && forall c :: 0 <= c < |arrays| ==> SameValues(r.value[c], arrays[c].column)
  {
    var columns: seq<CsvColumn> := [];
    for c := 0 to |arrays|
      invariant |columns| == c && ModesHold(columns)
      invariant forall d :: 0 <= d < c ==> arrays[d].Column? && SameValues(columns[d], arrays[d].column)
    {
      match arrays[c] {
        case Unsupported => return None;
        case Column(column) =>
          if column.Utf8? {
            var mode := Utf8QuoteMode(column.texts);
            columns := columns + [Utf8(column.texts, mode)];
          } else {
            columns := columns + [column];
          }
      }
    }
    r := Some(columns);
  }

  function ColumnsOf(arrays: seq<ArrayData>): seq<CsvColumn>
    requires forall c :: 0 <= c < |arrays| ==> arrays[c].Column?
  {
    seq(|arrays|, c requires 0 <= c < |arrays| => arrays[c].column)
  }

  lemma {:induction false} SameRecord(a: seq<CsvColumn>, b: seq<CsvColumn>, row: nat, n: nat)
    requires |a| == |b| && n <= |a|
    requires forall c :: 0 <= c < |a| ==> SameValues(a[c], b[c]) && row < a[c].Rows() && row < b[c].Rows()
    ensures RecordOf(a, row, n) == RecordOf(b, row, n) && |RecordOf(a, row, n)| == n
  {
    if n > 0 { SameRecord(a, b, row, n - 1); }
  }

  lemma {:induction false} SameTable(a: seq<CsvColumn>, b: seq<CsvColumn>, rows: nat, n: nat)
    requires |a| == |b| && HasRows(a, rows) && HasRows(b, rows) && n <= rows
    requires forall c :: 0 <= c < |a| ==> SameValues(a[c], b[c])
    ensures TableOf(a, rows, n) == TableOf(b, rows, n)
    ensures |TableOf(a, rows, n)| == n && forall i :: 0 <= i < n ==> |TableOf(a, rows, n)[i]| == |a|
  {
    if n > 0 {
      SameTable(a, b, rows, n - 1);
      SameRecord(a, b, n - 1, |a|);
    }
  }

  /** What the quote mode is does not matter to a reader. */
  lemma {:induction false} SameValuesReadBack(a: seq<CsvColumn>, b: seq<CsvColumn>, rows: nat, text: Bytes)
    requires |a| == |b| && forall c :: 0 <= c < |a| ==> SameValues(a[c], b[c])
    requires ReadsBack(text, a, rows)
    ensures ReadsBack(text, b, rows)
  {
    forall row | 0 <= row < rows ensures RecordStandsFor(b, row, ReadTable(text).value[row]) {
      assert RecordStandsFor(a, row, ReadTable(text).value[row]);
    }
  }

  /**
   * A batch is written as one record a row, whichever writer the columns select. An RFC 4180
   * reader gets back every value of every column, a null as an empty field, exactly when the
   * batch has a column.
   */
  method WriteCsvRecordBatch(arrays: seq<ArrayData>, rows: nat, writer: Bytes) returns (r: Option<Bytes>)
    requires forall c :: 0 <= c < |arrays| ==> arrays[c].Column? ==> arrays[c].column.Rows() == rows
    ensures r.Some? <==> rows == 0 || forall c :: 0 <= c < |arrays| ==> arrays[c].Column?
    ensures r.Some? && rows == 0 ==> r.value == writer
    ensures r.Some? && rows > 0 ==> r.value == writer + Lines(TableOf(ColumnsOf(arrays), rows, rows))
    ensures r.Some? && rows > 0 ==>
              && |writer| <= |r.value| && r.value[..|writer|] == writer
              && (ReadsBack(r.value[|writer|..], ColumnsOf(arrays), rows) <==> arrays != [])
  {
    if rows == 0 { return Some(writer); }
    var chosen := ChooseColumns(arrays);
    if chosen.None? { return None; }
    var columns := chosen.value;
    assert HasRows(columns, rows) by {
      forall c | 0 <= c < |columns| ensures columns[c].Rows() == rows {
        assert SameValues(columns[c], arrays[c].column);
      }
    }
    SameTable(columns, ColumnsOf(arrays), rows, rows);
    LinesReadBack(ColumnsOf(arrays), rows);
    var handled, buffer := WriteSpecializedCsvBatch(columns, rows, []);
    if !handled { buffer := WriteGenericCsvBatch(columns, rows, buffer); }
    AfterRowsIsLines([], columns, rows, rows);
    assert [] + Lines(TableOf(columns, rows, rows)) == Lines(TableOf(columns, rows, rows));
    r := Some(writer + buffer);
  }

  /** Both ways of writing agree byte for byte wherever a specialised writer applies. */
  method WriteBothWays(columns: seq<CsvColumn>, rows: nat, output: Bytes)
    returns (handled: bool, specialised: Bytes, generic: Bytes)
    requires HasRows(columns, rows) && ModesHold(columns)
    ensures handled ==> specialised == generic
    ensures generic == output + Lines(TableOf(columns, rows, rows))
  {
    handled, specialised := WriteSpecializedCsvBatch(columns, rows, output);
    generic := WriteGenericCsvBatch(columns, rows, output);
    AfterRowsIsLines(output, columns, rows, rows);
  }
}
