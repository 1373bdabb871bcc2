/**
 * The base-offset dense map: values in an array that starts at a base key, a sentinel
 * for missing entries, growth in both directions, and a fallback to the adaptive map.
 */
module DenseMap {
  import opened Machine
  import AdaptiveMap
  import opened RankMap

  // ----- granting a key range

  /** The window (first key, number of slots) that covers the old window and [minKey, maxKey]. */
  function Widened(base: I64, len: nat, minKey: I64, maxKey: I64): (int, int) {
    if len == 0 then (minKey, maxKey - minKey + 1)
    else
      var first := Min(base, minKey);
      (first, Max(base + len - 1, maxKey) - first + 1)
  }

  /** Exactly when a reservation is granted, overflow checks included. */
  predicate Grantable(base: I64, len: nat, minKey: I64, maxKey: I64, maxEntries: nat) {
    && 0 <= minKey <= maxKey
    && (len > 0 ==> base + len <= I64_MAX)
    && Widened(base, len, minKey, maxKey).1 <= Min(maxEntries, I64_MAX)
  }

  /** The window of `width` slots from `first` on holds these slots. */
  ghost predicate Covers(first: int, width: nat, base: int, len: nat) {
    len == 0 || (first <= base && base + len <= first + width)
  }

  /** The window is large enough for the slots there are and for the keys of the range. */
  ghost predicate CoversBoth(first: int, width: nat, base: int, len: nat, minKey: int, maxKey: int)
    requires minKey <= maxKey
  {
    Covers(first, width, base, len) && Covers(first, width, minKey, maxKey - minKey + 1)
  }

  /** Some window within the limit covers the old one and the range. */
  ghost predicate SomeWindowFits(base: int, len: nat, minKey: int, maxKey: int, maxEntries: nat)
    requires minKey <= maxKey
  {
    exists first: int, width: nat ::
      CoversBoth(first, width, base, len, minKey, maxKey) && width <= maxEntries && width <= I64_MAX
  }

  /** The widened window is the smallest that covers both. */
  lemma {:induction false} WidenedIsSmallest(base: I64, len: nat, minKey: I64, maxKey: I64, first: int, width: nat)
    requires minKey <= maxKey
    ensures var (newBase, newLen) := Widened(base, len, minKey, maxKey);
            && newLen >= 0 && CoversBoth(newBase, newLen, base, len, minKey, maxKey)
            && (CoversBoth(first, width, base, len, minKey, maxKey) ==> first <= newBase && newLen <= width)
  {
  }

  /** A range of keys is granted exactly when some window within the limit can hold it besides the old slots. */
  lemma {:induction false} GrantedWhenItFits(base: I64, len: nat, minKey: I64, maxKey: I64, maxEntries: nat)
    ensures Grantable(base, len, minKey, maxKey, maxEntries) <==>
            && 0 <= minKey <= maxKey && (len > 0 ==> base + len <= I64_MAX)
            && SomeWindowFits(base, len, minKey, maxKey, maxEntries)
  {
    if minKey <= maxKey {
      var (newBase, newLen) := Widened(base, len, minKey, maxKey);
      WidenedIsSmallest(base, len, minKey, maxKey, newBase, newLen);
      if SomeWindowFits(base, len, minKey, maxKey, maxEntries) {
        var first: int, width: nat :|
          CoversBoth(first, width, base, len, minKey, maxKey) && width <= maxEntries && width <= I64_MAX;
        WidenedIsSmallest(base, len, minKey, maxKey, first, width);
      }
    }
  }

  /** `vec![missing; width]` with the old slots copied to `offset` */
  function Shifted<V>(dense: seq<V>, offset: nat, width: nat, missing: V): seq<V>
    requires offset + |dense| <= width
  {
    seq(width, i requires 0 <= i < width => if offset <= i < offset + |dense| then dense[i - offset] else missing)
  }

  /** The entry of a key in a window of slots. */
  ghost function Slot<V>(dense: seq<V>, base: int, missing: V, key: int): Option<V> {
    if base <= key < base + |dense| && dense[key - base] != missing then Some(dense[key - base]) else None
  }

  /** The entries of a window of slots. */
  ghost function Window<V>(dense: seq<V>, base: int, missing: V): map<int, V> {
    map k: int | base <= k < base + |dense| && Slot(dense, base, missing, k).Some? ::
      Slot(dense, base, missing, k).value
  }

  /** A window with more slots on either side, all missing, has the same entries. */
  lemma {:induction false} WindowGrows<V>(dense: seq<V>, base: int, missing: V, grown: seq<V>, offset: nat)
    requires offset + |dense| <= |grown|
    requires forall i :: 0 <= i < |grown| ==>
               grown[i] == if offset <= i < offset + |dense| then dense[i - offset] else missing
    ensures Window(grown, base - offset, missing) == Window(dense, base, missing)
  {
    forall k ensures Slot(grown, base - offset, missing, k) == Slot(dense, base, missing, k) {
    }
    var a, b := Window(grown, base - offset, missing), Window(dense, base, missing);
    assert a.Keys == b.Keys;
  }

  lemma {:induction false} WindowAssigns<V>(dense: seq<V>, base: int, missing: V, i: nat, value: V)
    requires i < |dense|
    ensures Window(dense[i := value], base, missing) == Assigned(Window(dense, base, missing), base + i, value, missing)
  {
    var a := Window(dense[i := value], base, missing);
    var b := Assigned(Window(dense, base, missing), base + i, value, missing);
    forall k ensures k in a <==> k in b {
      assert Slot(dense[i := value], base, missing, k) ==
        if k == base + i then (if value == missing then None else Some(value)) else Slot(dense, base, missing, k);
    }
  }

  lemma {:induction false} WindowSnoc<V>(dense: seq<V>, base: int, missing: V, i: nat)
    requires i < |dense|
    ensures Window(dense[..i + 1], base, missing) ==
              if dense[i] != missing then Window(dense[..i], base, missing)[base + i := dense[i]]
              else Window(dense[..i], base, missing)
  {
    forall k ensures Slot(dense[..i + 1], base, missing, k) ==
        if k == base + i then (if dense[i] != missing then Some(dense[i]) else None)
        else Slot(dense[..i], base, missing, k) {
    }
  }

  function WithoutValue<V(==)>(m: map<int, V>, missing: V): map<int, V> {
    map k | k in m && m[k] != missing :: m[k]
  }

  /** Storing the sentinel deletes the key. */
  function Assigned<V(==)>(m: map<int, V>, key: int, value: V, missing: V): map<int, V> {
    if value == missing then m - {key} else m[key := value]
  }

  class DenseI64Map<V(==)> {
    var dense: seq<V>
    var base: I64
    const missing: V
    const default: V
    var fallback: AdaptiveMap.AdaptiveI64Map?<V>

    ghost predicate Valid()
      reads this, fallback
    {
      && base >= 0 && base + |dense| - 1 <= I64_MAX
      && (fallback != null ==> fallback.Valid() && dense == [])
    }

    ghost function Contents(): map<int, V>
      reads this, fallback
    {
      if fallback != null then fallback.Contents() else Window(dense, base, missing)
    }

    function Get(key: I64): Option<V>
      reads this, fallback
    {
      if fallback != null then fallback.repr.Get(key)
      else match CheckedI64(key - base)
        case None => None
        case Some(index) =>
          if 0 <= index < |dense| && dense[index] != missing then Some(dense[index]) else None
    }

    constructor (missing: V, default: V)
      ensures Valid() && Contents() == map[] && fallback == null && dense == [] && base == 0
      ensures this.missing == missing && this.default == default
    {
      this.missing, this.default := missing, default;
      dense, base, fallback := [], 0, null;
    }

    /**
     * Makes every key of [minKey, maxKey] writable, or refuses and changes nothing. The
     * entries stay as they are either way.
     */
    method ReserveDenseRange(minKey: I64, maxKey: I64, maxEntries: nat) returns (ok: bool)
      requires Valid() && fallback == null
      modifies `dense, `base
      ensures Valid() && Contents() == old(Contents())
      ensures ok == Grantable(old(base), |old(dense)|, minKey, maxKey, maxEntries)
      ensures ok <==> && 0 <= minKey <= maxKey && (old(dense) != [] ==> old(base) + |old(dense)| <= I64_MAX)
                      && SomeWindowFits(old(base), |old(dense)|, minKey, maxKey, maxEntries)
      ensures !ok ==> dense == old(dense) && base == old(base)
      ensures ok ==> base <= minKey && maxKey < base + |dense| && |dense| <= maxEntries
      ensures ok ==> (base as int, |dense| as int) == Widened(old(base), |old(dense)|, minKey, maxKey)
    {
      GrantedWhenItFits(base, |dense|, minKey, maxKey, maxEntries);
      if minKey < 0 || maxKey < minKey { return false; }
      var newMin, newMax := minKey, maxKey;
      if dense != [] {
        match CheckedI64(base + |dense|) {
          case None => return false;
          case Some(end) => newMin, newMax := Min(base, minKey), Max(end - 1, maxKey);
        }
      }
      var width: nat;
      match CheckedI64(newMax - newMin + 1) {
        case None => return false;
        case Some(w) => width := w;
      }
      if width > maxEntries { return false; }
      WidenTo(newMin, width);
      ok := true;
    }

    /** Lays the window out from `newMin` on: created, grown to the right, or shifted to the left. */
    method WidenTo(newMin: I64, width: nat)
      requires Valid() && fallback == null && 0 <= newMin && newMin + width - 1 <= I64_MAX
      requires dense == [] || (newMin <= base && base + |dense| <= newMin + width)
      modifies `dense, `base
      ensures Valid() && Contents() == old(Contents()) && base == newMin && |dense| == width
    {
      if dense == [] {
        WindowGrows(dense, newMin, missing, Resize([], width, missing), 0);
        base, dense := newMin, Resize([], width, missing);
      } else if newMin == base {
        WindowGrows(dense, base, missing, Resize(dense, width, missing), 0);
        if width > |dense| { dense := Resize(dense, width, missing); }
      } else {
        WindowGrows(dense, base, missing, Shifted(dense, base - newMin, width, missing), base - newMin);
        base, dense := newMin, Shifted(dense, base - newMin, width, missing);
      }
    }

    /** Writes a key inside the window; any other key is ignored. */
    method InsertDenseKey(key: I64, value: V)
      requires Valid() && fallback == null
      modifies `dense
      ensures Valid() && |dense| == |old(dense)|
      ensures Contents() == if base <= key < base + |dense| then Assigned(old(Contents()), key, value, missing)
                            else old(Contents())
    {
      match CheckedI64(key - base)
      case Some(index) =>
        if 0 <= index < |dense| {
          WindowAssigns(dense, base, missing, index, value);
          dense := dense[index := value];
        }
      case None =>
    }

    /** Moves the entries to an adaptive map; every lookup stays the same. */
    method ConvertToFallback()
      requires Valid()
      modifies this
      ensures Valid() && Contents() == old(Contents()) && fallback != null
      ensures old(fallback) != null ==> fallback == old(fallback)
      ensures old(fallback) == null ==> fresh(fallback)
    {
      if fallback != null { return; }
      var moved := new AdaptiveMap.AdaptiveI64Map.NewDense(default);
      for i := 0 to |dense|
        invariant moved.Valid() && fresh(moved) && unchanged(this)
        invariant moved.Contents() == Window(dense[..i], base, missing)
      {
        if dense[i] != missing {
          moved.Insert(base + i, dense[i]);
        }
        WindowSnoc(dense, base, missing, i);
      }
      assert dense[..|dense|] == dense;
      dense, fallback := [], moved;
    }

    /** An insertion through `fallback_mut`. */
    method InsertFallback(key: I64, value: V)
      requires Valid() && fallback != null
      modifies fallback
      ensures Valid() && Contents() == old(Contents())[key as int := value]
    {
      fallback.Insert(key, value);
    }

    /** Used by the policy constructor for pairs that do not fit the dense layout. */
    method AdoptFallback(entries: map<int, V>)
      requires Valid() && fallback == null && dense == []
      modifies this
      ensures Valid() && Contents() == entries && fresh(fallback)
    {
      fallback := new AdaptiveMap.AdaptiveI64Map.FromHashMap(entries, default);
    }
  }

  /** A lookup answers for the entries, in the dense form and after conversion. */
  lemma {:induction false} GetIsLookup<V>(m: DenseI64Map<V>, key: I64)
    requires m.Valid()
    ensures m.Get(key) == AdaptiveMap.Lookup(m.Contents(), key)
  {
    if m.fallback != null { AdaptiveMap.LookupsAgree(m.fallback.repr, key); }
  }

  // ----- the layout policy

  datatype Amplification = Finite(factor: real) | NotFinite

  predicate WithinAmplification(minKey: I64, maxKey: I64, rows: nat, limit: Amplification) {
    rows == 0 ||
    (limit.Finite? && limit.factor >= 1.0 && maxKey - minKey + 1 <= I64_MAX
     && (maxKey - minKey + 1) as real <= rows as real * limit.factor)
  }

  /** The pairs whose map is laid out densely. */
  predicate DenseLayout<V>(pairs: seq<(I64, V)>, maxEntries: nat, limit: Amplification) {
    && pairs != [] && MinKey(pairs) >= 0
    && WithinAmplification(MinKey(pairs), MaxKey(pairs), |pairs|, limit)
    && Grantable(0, 0, MinKey(pairs), MaxKey(pairs), maxEntries)
  }

  /** Dense keys are not negative, and span no more than the limit, the largest `i64` and the amplified pair count. */
  lemma {:induction false} DenseLayoutBySpan<V>(pairs: seq<(I64, V)>, maxEntries: nat, limit: Amplification)
    ensures var span := MaxKey(pairs) - MinKey(pairs) + 1;
            DenseLayout(pairs, maxEntries, limit) <==>
              && pairs != [] && MinKey(pairs) >= 0 && span <= I64_MAX && span <= maxEntries
              && limit.Finite? && limit.factor >= 1.0 && span as real <= |pairs| as real * limit.factor
  {
    if pairs != [] { Extremes(pairs); }
  }

  /** Later pairs win. */
  function Collected<V>(pairs: seq<(I64, V)>): map<int, V> {
    if pairs == [] then map[] else Collected(pairs[..|pairs| - 1])[pairs[|pairs| - 1].0 as int := pairs[|pairs| - 1].1]
  }

  lemma {:induction false} CollectedIsLast<V>(pairs: seq<(I64, V)>, key: int)
    ensures AdaptiveMap.Lookup(Collected(pairs), key) == LastValue(pairs, key)
  {
    if pairs != [] { CollectedIsLast(pairs[..|pairs| - 1], key); }
  }

  /** The key bounds, unless a negative key already rules the dense layout out. */
  method ScanKeys<V>(pairs: seq<(I64, V)>) returns (fallbackRequired: bool, minKey: I64, maxKey: I64)
    ensures fallbackRequired <==> MinKey(pairs) < 0
    ensures !fallbackRequired ==> minKey == MinKey(pairs) && maxKey == MaxKey(pairs)
  {
    minKey, maxKey, fallbackRequired := I64_MAX, I64_MIN, false;
    for i := 0 to |pairs|
      invariant !fallbackRequired && minKey == MinKey(pairs[..i]) && maxKey == MaxKey(pairs[..i]) && minKey >= 0
    {
      assert pairs[..i + 1][..i] == pairs[..i];
      MinKeyOfPrefix(pairs, i + 1);
      if pairs[i].0 < 0 {
        fallbackRequired := true;
        return;
      }
      minKey, maxKey := Min(minKey, pairs[i].0), Max(maxKey, pairs[i].0);
    }
    assert pairs[..|pairs|] == pairs;
  }

  method FromPairsWithDenseRangePolicy<V(==)>(pairs: seq<(I64, V)>, missing: V, default: V, maxEntries: nat,
                                              limit: Amplification)
    returns (m: DenseI64Map<V>)
    ensures fresh(m) && m.Valid() && m.missing == missing && (m.fallback != null ==> fresh(m.fallback))
    ensures m.Contents() == if DenseLayout(pairs, maxEntries, limit) then WithoutValue(Collected(pairs), missing)
                            else Collected(pairs)
    ensures pairs != [] ==> (m.fallback == null <==> DenseLayout(pairs, maxEntries, limit))
    ensures var span := MaxKey(pairs) - MinKey(pairs) + 1;
            pairs != [] ==>
              (m.fallback == null <==>
               && MinKey(pairs) >= 0 && span <= I64_MAX && span <= maxEntries
               && limit.Finite? && limit.factor >= 1.0 && span as real <= |pairs| as real * limit.factor)
  {
    DenseLayoutBySpan(pairs, maxEntries, limit);
    m := new DenseI64Map(missing, default);
    if pairs == [] { return; }
    var fallbackRequired, minKey, maxKey := ScanKeys(pairs);
    var dense := !fallbackRequired && WithinAmplification(minKey, maxKey, |pairs|, limit);
    if dense {
      dense := m.ReserveDenseRange(minKey, maxKey, maxEntries);
    }
    if dense {
      InsertPairs(m, pairs);
    } else {
      var entries := CollectPairs(pairs);
      m.AdoptFallback(entries);
    }
  }

  /** Inserts all pairs into a window that holds their keys. */
  method InsertPairs<V(==)>(m: DenseI64Map<V>, pairs: seq<(I64, V)>)
    requires m.Valid() && m.fallback == null && m.Contents() == map[]
    requires m.base <= MinKey(pairs) && MaxKey(pairs) < m.base + |m.dense|
    modifies m`dense
    ensures m.Valid() && m.Contents() == WithoutValue(Collected(pairs), m.missing)
  {
    for i := 0 to |pairs|
      invariant m.Valid()
      invariant m.base <= MinKey(pairs) && MaxKey(pairs) < m.base + |m.dense|
      invariant m.Contents() == WithoutValue(Collected(pairs[..i]), m.missing)
    {
      KeyInRange(pairs, i);
      CollectedSnoc(pairs, i, m.missing);
      m.InsertDenseKey(pairs[i].0, pairs[i].1);
    }
    assert pairs[..|pairs|] == pairs;
  }

  method CollectPairs<V>(pairs: seq<(I64, V)>) returns (entries: map<int, V>)
    ensures entries == Collected(pairs)
  {
    entries := map[];
    for i := 0 to |pairs|
      invariant entries == Collected(pairs[..i])
    {
      assert pairs[..i + 1][..i] == pairs[..i];
      entries := entries[pairs[i].0 as int := pairs[i].1];
    }
    assert pairs[..|pairs|] == pairs;
  }

  lemma {:induction false} KeyInRange<V>(pairs: seq<(I64, V)>, i: nat)
    requires i < |pairs|
    ensures MinKey(pairs) <= pairs[i].0 <= MaxKey(pairs)
  {
    Extremes(pairs);
    assert pairs[i].0 as int in Keys(pairs);
  }

  lemma {:induction false} CollectedSnoc<V>(pairs: seq<(I64, V)>, i: nat, missing: V)
    requires i < |pairs|
    ensures WithoutValue(Collected(pairs[..i + 1]), missing) ==
              Assigned(WithoutValue(Collected(pairs[..i]), missing), pairs[i].0, pairs[i].1, missing)
  {
    assert pairs[..i + 1][..i] == pairs[..i];
  }

  /** Both layouts give the same lookups exactly when no key ends up with the sentinel. */
  lemma {:induction false} LayoutsAgree<V>(pairs: seq<(I64, V)>, missing: V)
    ensures WithoutValue(Collected(pairs), missing) == Collected(pairs) <==>
            forall k :: k in Collected(pairs) ==> LastValue(pairs, k) != Some(missing)
  {
    var m := Collected(pairs);
    forall k | k in m ensures LastValue(pairs, k) == Some(m[k]) {
      CollectedIsLast(pairs, k);
    }
    if WithoutValue(m, missing) == m {
      forall k | k in m ensures LastValue(pairs, k) != Some(missing) {
        assert k in WithoutValue(m, missing);
      }
    }
    if forall k :: k in m ==> LastValue(pairs, k) != Some(missing) {
      forall k | k in m ensures m[k] != missing {
        assert LastValue(pairs, k) == Some(m[k]);
      }
      assert WithoutValue(m, missing) == m;
    }
  }

  // ----- whole histories

  datatype Operation<V> =
    | Reserve(minKey: I64, maxKey: I64, maxEntries: nat)
    | InsertDense(key: I64, value: V)
    | Convert
    | InsertHash(key: I64, value: V)
    | Probe(key: I64)

  /** The entries, and the window of writable keys while the map is dense. */
  datatype Abstract<V> = Abstract(contents: map<int, V>, window: Option<(int, int)>)

  datatype Answer<V> = Done | Granted(ok: bool) | Found(value: Option<V>)

  /** Dense operations apply to a dense map only, and fallback insertions to a converted one. */
  function Step<V(==)>(a: Abstract<V>, op: Operation<V>, missing: V): (Abstract<V>, Answer<V>) {
    match op
    case Reserve(minKey, maxKey, maxEntries) =>
      if a.window.Some? && 0 <= a.window.value.0 <= I64_MAX && 0 <= a.window.value.1
         && Grantable(a.window.value.0, a.window.value.1, minKey, maxKey, maxEntries)
      then (a.(window := Some(Widened(a.window.value.0, a.window.value.1, minKey, maxKey))), Granted(true))
      else (a, Granted(false))
    case InsertDense(key, value) =>
      if a.window.Some? && a.window.value.0 <= key < a.window.value.0 + a.window.value.1
      then (a.(contents := Assigned(a.contents, key, value, missing)), Done)
      else (a, Done)
    case Convert => (a.(window := None), Done)
    case InsertHash(key, value) =>
      if a.window.None? then (a.(contents := a.contents[key as int := value]), Done) else (a, Done)
    case Probe(key) => (a, Found(AdaptiveMap.Lookup(a.contents, key)))
  }

  function Run<V(==)>(ops: seq<Operation<V>>, missing: V): (Abstract<V>, seq<Answer<V>>) {
    if ops == [] then (Abstract(map[], Some((0, 0))), [])
    else
      var (a, answers) := Run(ops[..|ops| - 1], missing);
      var (b, answer) := Step(a, ops[|ops| - 1], missing);
      (b, answers + [answer])
  }

  ghost predicate Refines<V>(m: DenseI64Map<V>, a: Abstract<V>)
    reads m, m.fallback
  {
    && m.Valid() && m.Contents() == a.contents
    && a.window == if m.fallback == null then Some((m.base as int, |m.dense| as int)) else None
  }

  /** One operation on the map, when its form admits the operation. */
  method Apply<V(==)>(m: DenseI64Map<V>, op: Operation<V>, ghost a: Abstract<V>) returns (answer: Answer<V>)
    requires Refines(m, a)
    modifies m, m.fallback
    ensures Refines(m, Step(a, op, m.missing).0) && answer == Step(a, op, m.missing).1
    ensures m.fallback == old(m.fallback) || fresh(m.fallback)
  {
    answer := Done;
    match op {
      case Reserve(minKey, maxKey, maxEntries) =>
        var ok := false;
        if m.fallback == null { ok := m.ReserveDenseRange(minKey, maxKey, maxEntries); }
        answer := Granted(ok);
      case InsertDense(key, value) =>
        if m.fallback == null { m.InsertDenseKey(key, value); }
      case Convert =>
        m.ConvertToFallback();
      case InsertHash(key, value) =>
        if m.fallback != null { m.InsertFallback(key, value); }
      case Probe(key) =>
        GetIsLookup(m, key);
        answer := Found(m.Get(key));
    }
  }

  /** Any sequence of operations refines the plain map: entries, window and every answer. */
  method Replay<V(==)>(ops: seq<Operation<V>>, missing: V, default: V)
    returns (m: DenseI64Map<V>, answers: seq<Answer<V>>)
    ensures fresh(m) && Refines(m, Run(ops, missing).0) && answers == Run(ops, missing).1
  {
    m := new DenseI64Map(missing, default);
    answers := [];
    for i := 0 to |ops|
      invariant fresh(m) && m.missing == missing && (m.fallback != null ==> fresh(m.fallback))
      invariant Refines(m, Run(ops[..i], missing).0) && answers == Run(ops[..i], missing).1
    {
      assert ops[..i + 1][..i] == ops[..i];
      var answer := Apply(m, ops[i], Run(ops[..i], missing).0);
      answers := answers + [answer];
    }
    assert ops[..|ops|] == ops;
  }
}
