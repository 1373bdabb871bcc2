/**
 * Running sums per key that note, while they are added up, which keys cross a threshold,
 * so that the final filter need not scan every sum.
 */
module ThresholdSum {
  import opened Machine
  import AdaptiveMap

  ghost predicate NoDuplicates(keys: seq<int>) {
    forall i, j :: 0 <= i < j < |keys| ==> keys[i] != keys[j]
  }

  /** The entries of a dense sum array that a filter keeps. */
  function Scan(dense: seq<real>, keep: real -> bool): map<int, real> {
    map i | 0 <= i < |dense| && keep(dense[i]) :: dense[i]
  }

  /** The entries of the listed keys that a filter keeps. */
  function ScanListed(dense: seq<real>, keys: seq<int>, keep: real -> bool): map<int, real> {
    map k | k in keys && 0 <= k < |dense| && keep(dense[k]) :: dense[k]
  }

  function SumOr0(m: map<int, real>, key: int): real {
    if key in m then m[key] else 0.0
  }

  class DenseI64F64Sum {
    var dense: seq<real>
    var fallback: AdaptiveMap.AdaptiveI64Map?<real>
    const threshold: Option<real>
    var candidates: seq<int>
    var allNonNegative: bool

    /** The sum of a key; untouched keys sum to zero. */
    ghost function SumOf(key: int): real
      reads this, fallback
    {
      if fallback != null then SumOr0(fallback.Contents(), key)
      else if 0 <= key < |dense| then dense[key] else 0.0
    }

    /**
     * While every addend was non-negative, the candidates are the keys above the
     * threshold, each listed once. Below a negative threshold nothing ever crosses.
     */
    ghost predicate Tracked()
      reads this
    {
      threshold.Some? && allNonNegative ==>
        && NoDuplicates(candidates)
        && (forall i :: 0 <= i < |dense| ==> dense[i] >= 0.0)
        && (forall k :: k in candidates <==> 0 <= k < |dense| && threshold.value >= 0.0 && dense[k] > threshold.value)
    }

    ghost predicate Valid()
      reads this, fallback
    {
      && |dense| <= I64_MAX + 1
      && (fallback == null ==> Tracked())
      && (fallback != null ==> fallback.Valid() && dense == [])
    }

    constructor (threshold: Option<real>)
      ensures Valid() && fallback == null && dense == [] && this.threshold == threshold
      ensures forall key :: SumOf(key) == 0.0
    {
      this.threshold := threshold;
      dense, fallback, candidates, allNonNegative := [], null, [], true;
    }

    /** Adds to a reserved key. */
    method AddDenseIndex(index: nat, value: real)
      requires Valid() && index < |dense|
      modifies `dense, `candidates, `allNonNegative
      ensures Valid() && |dense| == |old(dense)|
      ensures forall key :: SumOf(key) == old(SumOf(key)) + if key == index then value else 0.0
      ensures allNonNegative <==> old(allNonNegative) && value >= 0.0
    {
      if value < 0.0 { allNonNegative := false; }
      var previous := dense[index];
      dense := dense[index := previous + value];
      if threshold.Some? && previous <= threshold.value && dense[index] > threshold.value {
        candidates := candidates + [index];
      }
    }

    /** Extends the array with zero sums. */
    method ReserveDenseTo(maxKey: nat)
      requires Valid() && maxKey <= I64_MAX
      modifies `dense
      ensures Valid() && forall key :: SumOf(key) == old(SumOf(key))
      ensures |dense| == if fallback == null then Max(maxKey + 1, |old(dense)|) else |old(dense)|
    {
      if fallback == null && maxKey >= |dense| {
        dense := Resize(dense, maxKey + 1, 0.0);
      }
    }

    /** Extends the array within a byte budget, or changes nothing. */
    method TryReserveDenseTo(maxKey: nat, maxBytes: Usize) returns (ok: bool)
      requires Valid()
      modifies `dense
      ensures Valid() && forall key :: SumOf(key) == old(SumOf(key))
      ensures ok <==> fallback == null && 8 * (maxKey + 1) <= maxBytes
      ensures |dense| == if ok then Max(maxKey + 1, |old(dense)|) else |old(dense)|
    {
      if fallback != null { return false; }
      var required;
      match CheckedAdd(maxKey, 1) {
        case None => return false;
        case Some(entries) => required := entries;
      }
      match CheckedMul(required, 8) {
        case None => return false;
        case Some(bytes) => if bytes > maxBytes { return false; }
      }
      if required > |dense| { dense := Resize(dense, required, 0.0); }
      ok := true;
    }

    /** Adds to a key inside the array, which is empty after a conversion, or changes nothing. */
    method TryAddDenseKey(key: I64, value: real) returns (ok: bool)
      requires Valid()
      modifies `dense, `candidates, `allNonNegative
      ensures Valid() && |dense| == |old(dense)|
      ensures ok <==> 0 <= key < |dense|
      ensures forall k :: SumOf(k) == old(SumOf(k)) + if ok && k == key then value else 0.0
    {
      if key < 0 || key >= |dense| { return false; }
      AddDenseIndex(key, value);
      ok := true;
    }

    /** Moves every non-zero sum to an adaptive map; no sum changes. */
    method ConvertToFallback()
      requires Valid()
      modifies this
      ensures Valid() && fallback != null
      ensures forall key :: SumOf(key) == old(SumOf(key))
      ensures old(fallback) != null ==> fallback == old(fallback)
      ensures old(fallback) == null ==> fresh(fallback)
    {
      if fallback != null { return; }
      var moved := new AdaptiveMap.AdaptiveI64Map.NewDense(0.0);
      for i := 0 to |dense|
        invariant moved.Valid() && fresh(moved) && unchanged(this)
        invariant forall k :: SumOr0(moved.Contents(), k) == if 0 <= k < i then dense[k] else 0.0
      {
        ghost var before := moved.Contents();
        if dense[i] != 0.0 { moved.Insert(i, dense[i]); }
        assert forall k :: SumOr0(moved.Contents(), k) == if k == i then dense[i] else SumOr0(before, k);
      }
      dense, fallback, candidates := [], moved, [];
    }

    /** An addition through `fallback_mut`. */
    method AddFallback(key: I64, value: real)
      requires Valid() && fallback != null
      modifies fallback
      ensures Valid() && forall k :: SumOf(k) == old(SumOf(k)) + if k == key then value else 0.0
    {
      fallback.Update(key, () => 0.0, (x: real) => x + value);
    }

    ghost predicate UsesShortcut()
      reads this
    {
      fallback == null && threshold.Some? && allNonNegative
    }

    /** Keys with a place in the array or an entry in the fallback; all other sums are zero. */
    ghost predicate Stored(key: int)
      reads this, fallback
    {
      if fallback != null then key in fallback.Contents() else 0 <= key < |dense|
    }

    /** No kept sum is hidden from the shortcut. */
    ghost predicate Complete(keep: real -> bool)
      reads this, fallback
    {
      UsesShortcut() ==> forall key :: Stored(key) && keep(SumOf(key)) ==> 0.0 <= threshold.value < SumOf(key)
    }

    /**
     * The stored sums that the filter keeps. The shortcut misses those not above a
     * non-negative threshold, so all of them are returned exactly when it hides none. A
     * filter that drops zero gets every key of which it keeps the sum.
     */
    method IntoFilteredHash(keep: real -> bool) returns (r: map<int, real>)
      requires Valid()
      ensures forall key :: key in r ==> r[key] == SumOf(key) && Stored(key) && keep(SumOf(key))
      ensures Complete(keep) <==> forall key :: Stored(key) && keep(SumOf(key)) ==> key in r
      ensures Complete(keep) && !keep(0.0) ==> forall key :: key in r <==> keep(SumOf(key))
    {
      assert forall key :: !Stored(key) ==> SumOf(key) == 0.0;
      if fallback != null {
        r := fallback.IntoFilteredHash(keep);
      } else if threshold.Some? && allNonNegative {
        r := ScanListed(dense, candidates, keep);
      } else {
        r := Scan(dense, keep);
      }
    }
  }

  /**
   * The candidate shortcut returns the full scan exactly when every kept sum lies above a
   * non-negative threshold.
   */
  lemma {:induction false} ShortcutIsFullScan(s: DenseI64F64Sum, keep: real -> bool)
    requires s.Valid() && s.UsesShortcut()
    ensures ScanListed(s.dense, s.candidates, keep) == Scan(s.dense, keep) <==>
            forall i :: 0 <= i < |s.dense| && keep(s.dense[i]) ==> 0.0 <= s.threshold.value < s.dense[i]
  {
    var listed, full := ScanListed(s.dense, s.candidates, keep), Scan(s.dense, keep);
    forall i | 0 <= i < |s.dense| && keep(s.dense[i])
      ensures i in listed <==> 0.0 <= s.threshold.value < s.dense[i]
    {
    }
    if listed == full {
      forall i | 0 <= i < |s.dense| && keep(s.dense[i]) ensures 0.0 <= s.threshold.value < s.dense[i] {
        assert i in full;
      }
    }
  }

  // ----- whole histories

  datatype Operation =
    | Reserve(maxKey: I64)
    | TryReserve(upTo: nat, maxBytes: Usize)
    | Add(key: I64, value: real)
    | Convert

  /** Totals per key; an addition outside the reserved keys is refused while the sums are dense. */
  datatype Abstract = Abstract(totals: map<int, real>, reserved: Option<nat>)

  function Step(a: Abstract, op: Operation): Abstract {
    match op
    case Reserve(maxKey) =>
      if maxKey >= 0 && a.reserved.Some? then a.(reserved := Some(Max(maxKey + 1, a.reserved.value))) else a
    case TryReserve(maxKey, maxBytes) =>
      if a.reserved.Some? && 8 * (maxKey + 1) <= maxBytes
      then a.(reserved := Some(Max(maxKey + 1, a.reserved.value))) else a
    case Add(key, value) =>
      if a.reserved.Some? && !(0 <= key < a.reserved.value) then a
      else a.(totals := a.totals[key as int := SumOr0(a.totals, key) + value])
    case Convert => a.(reserved := None)
  }

  function Run(ops: seq<Operation>): Abstract {
    if ops == [] then Abstract(map[], Some(0)) else Step(Run(ops[..|ops| - 1]), ops[|ops| - 1])
  }

  ghost predicate Refines(s: DenseI64F64Sum, a: Abstract)
    reads s, s.fallback
  {
    && s.Valid()
    && (forall key :: s.SumOf(key) == SumOr0(a.totals, key))
    && a.reserved == if s.fallback == null then Some(|s.dense|) else None
  }

  method Apply(s: DenseI64F64Sum, op: Operation, ghost a: Abstract)
    requires Refines(s, a)
    modifies s, s.fallback
    ensures Refines(s, Step(a, op))
    ensures s.fallback == old(s.fallback) || fresh(s.fallback)
  {
    match op {
      case Reserve(maxKey) =>
        if maxKey >= 0 { s.ReserveDenseTo(maxKey); }
      case TryReserve(maxKey, maxBytes) =>
        var _ := s.TryReserveDenseTo(maxKey, maxBytes);
      case Add(key, value) =>
        if s.fallback == null {
          var _ := s.TryAddDenseKey(key, value);
        } else {
          s.AddFallback(key, value);
        }
      case Convert =>
        s.ConvertToFallback();
    }
  }

  /**
   * For a threshold t >= 0 and a filter that keeps only sums above t, the result is the
   * plain filter of the totals, for every sequence of additions, reservations and
   * conversions, with or without negative addends.
   */
  method FilterTotals(ops: seq<Operation>, t: real, keep: real -> bool) returns (r: map<int, real>)
    requires t >= 0.0 && forall v :: keep(v) ==> v > t
    ensures r == map k | k in Run(ops).totals && keep(Run(ops).totals[k]) :: Run(ops).totals[k]
  {
    var s := new DenseI64F64Sum(Some(t));
    for i := 0 to |ops|
      invariant fresh(s) && s.threshold == Some(t) && (s.fallback != null ==> fresh(s.fallback))
      invariant Refines(s, Run(ops[..i]))
    {
      assert ops[..i + 1][..i] == ops[..i];
      Apply(s, ops[i], Run(ops[..i]));
    }
    assert ops[..|ops|] == ops;
    SumsAreCandidates(s, keep, t);
    r := s.IntoFilteredHash(keep);
    KeptSums(s, Run(ops), keep, r);
  }

  lemma {:induction false} SumsAreCandidates(s: DenseI64F64Sum, keep: real -> bool, t: real)
    requires s.Valid() && s.threshold == Some(t) && t >= 0.0 && forall v :: keep(v) ==> v > t
    ensures s.Complete(keep) && !keep(0.0)
  {
  }

  lemma {:induction false} KeptSums(s: DenseI64F64Sum, a: Abstract, keep: real -> bool, r: map<int, real>)
    requires Refines(s, a) && !keep(0.0)
    requires forall k :: k in r <==> keep(s.SumOf(k))
    requires forall k :: k in r ==> r[k] == s.SumOf(k)
    ensures r == map k | k in a.totals && keep(a.totals[k]) :: a.totals[k]
  {
    var expected := map k | k in a.totals && keep(a.totals[k]) :: a.totals[k];
    forall k ensures k in r <==> k in expected {
      assert s.SumOf(k) == SumOr0(a.totals, k);
    }
    forall k | k in r ensures r[k] == expected[k] {
      assert s.SumOf(k) == SumOr0(a.totals, k);
    }
  }
}
