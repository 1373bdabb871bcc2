/** Distinct counting of (first, second) pairs packed into one machine word. */
module PairDistinct {
  import opened Machine

  const BASE: nat := 0x1_0000_0000

  /** `first << 32 | second`, when both halves fit 32 bits */
  function Pack(first: nat, second: I64): Option<nat> {
    if first < BASE && 0 <= second < BASE then Some(first * BASE + second) else None
  }

  function UnpackFirst(key: nat): nat { key / BASE }

  function Unpack(key: nat): (nat, int) { (key / BASE, key % BASE) }

  lemma {:induction false} PackUnpack(first: nat, second: I64)
    requires Pack(first, second).Some?
    ensures Unpack(Pack(first, second).value) == (first, second as int)
  {
  }

  /** The pairs that a vector of packed keys stands for. */
  ghost function Pairs(keys: seq<nat>): set<(nat, int)> {
    set i | 0 <= i < |keys| :: Unpack(keys[i])
  }

  lemma {:induction false} PairsSnoc(keys: seq<nat>, key: nat)
    ensures Pairs(keys + [key]) == Pairs(keys) + {Unpack(key)}
  {
    var more := keys + [key];
    forall p | p in Pairs(keys) ensures p in Pairs(more) {
      var i :| 0 <= i < |keys| && Unpack(keys[i]) == p;
      assert more[i] == keys[i];
    }
    assert more[|keys|] == key;
  }

  lemma {:induction false} PairsConcat(a: seq<nat>, b: seq<nat>)
    ensures Pairs(a + b) == Pairs(a) + Pairs(b)
  {
    if b == [] {
      assert a + b == a;
    } else {
      var n := |b| - 1;
      assert a + b == (a + b[..n]) + [b[n]] && b == b[..n] + [b[n]];
      PairsConcat(a, b[..n]);
      PairsSnoc(a + b[..n], b[n]);
      PairsSnoc(b[..n], b[n]);
    }
  }

  predicate SortedKeys(keys: seq<nat>) {
    forall i, j :: 0 <= i < j < |keys| ==> keys[i] <= keys[j]
  }

  predicate StrictlySorted(keys: seq<nat>) {
    forall i, j :: 0 <= i < j < |keys| ==> keys[i] < keys[j]
  }

  /** What `sort_unstable` guarantees: sorted, with the same elements as often. */
  lemma {:induction false} InsertKeepsSorted(sorted: seq<nat>, at: nat, key: nat)
    requires SortedKeys(sorted) && at <= |sorted| && (at == |sorted| || sorted[at] > key)
    requires forall j :: 0 <= j < at ==> sorted[j] <= key
    ensures SortedKeys(sorted[..at] + [key] + sorted[at..])
    ensures multiset(sorted[..at] + [key] + sorted[at..]) == multiset(sorted) + multiset{key}
  {
    assert sorted == sorted[..at] + sorted[at..];
  }

  method Sort(keys: seq<nat>) returns (r: seq<nat>)
    ensures SortedKeys(r) && multiset(r) == multiset(keys)
  {
    r := [];
    for i := 0 to |keys|
      invariant SortedKeys(r) && multiset(r) == multiset(keys[..i])
    {
      var at := 0;
      while at < |r| && r[at] <= keys[i]
        invariant 0 <= at <= |r| && forall j :: 0 <= j < at ==> r[j] <= keys[i]
      {
        at := at + 1;
      }
      assert keys[..i + 1] == keys[..i] + [keys[i]];
      InsertKeepsSorted(r, at, keys[i]);
      r := r[..at] + [keys[i]] + r[at..];
    }
    assert keys[..|keys|] == keys;
  }

  /** `dedup`: drops an element equal to the one kept before it */
  method Dedup(keys: seq<nat>) returns (r: seq<nat>)
    requires SortedKeys(keys)
    ensures StrictlySorted(r) && (forall k :: k in r <==> k in keys)
  {
    r := [];
    for i := 0 to |keys|
      invariant StrictlySorted(r) && (forall k :: k in r <==> k in keys[..i])
      invariant r == [] <==> i == 0
      invariant i > 0 ==> r[|r| - 1] == keys[i - 1]
    {
      if r == [] || r[|r| - 1] != keys[i] { r := r + [keys[i]]; }
      assert keys[..i + 1] == keys[..i] + [keys[i]];
    }
    assert keys[..|keys|] == keys;
  }

  /** The distinct pairs with this first component. */
  ghost function WithFirst(pairs: set<(nat, int)>, first: nat): set<(nat, int)> {
    set p | p in pairs && p.0 == first
  }

  lemma {:induction false} WithFirstGrows(pairs: set<(nat, int)>, p: (nat, int), first: nat)
    requires p !in pairs
    ensures |WithFirst(pairs + {p}, first)| == |WithFirst(pairs, first)| + if p.0 == first then 1 else 0
  {
    if p.0 == first {
      assert WithFirst(pairs + {p}, first) == WithFirst(pairs, first) + {p};
    } else {
      assert WithFirst(pairs + {p}, first) == WithFirst(pairs, first);
    }
  }

  lemma {:induction false} NewPair(keys: seq<nat>, key: nat)
    requires key !in keys
    ensures Unpack(key) !in Pairs(keys)
  {
    forall i | 0 <= i < |keys| ensures Unpack(keys[i]) != Unpack(key) {
    }
  }

  lemma {:induction false} SameElementsSamePairs(a: seq<nat>, b: seq<nat>)
    requires forall k :: k in a <==> k in b
    ensures Pairs(a) == Pairs(b)
  {
    forall p ensures p in Pairs(a) <==> p in Pairs(b) {
      if i :| 0 <= i < |a| && Unpack(a[i]) == p {
        assert a[i] in b;
      }
      if i :| 0 <= i < |b| && Unpack(b[i]) == p {
        assert b[i] in a;
      }
    }
  }

  class PackedU32PairDistinct {
    var keys: seq<nat>

    constructor ()
      ensures keys == []
    {
      keys := [];
    }

    method Push(first: nat, second: I64) returns (ok: bool)
      modifies this
      ensures ok <==> first <= U32_MAX && 0 <= second <= U32_MAX
      ensures Pairs(keys) == old(Pairs(keys)) + if ok then {(first, second as int)} else {}
    {
      match Pack(first, second)
      case None => ok := false;
      case Some(key) =>
        PackUnpack(first, second);
        PairsSnoc(keys, key);
        keys, ok := keys + [key], true;
    }

    /** Moves the other counter's pairs into this one. */
    method Append(other: PackedU32PairDistinct)
      requires other != this
      modifies this, other
      ensures Pairs(keys) == old(Pairs(keys)) + old(Pairs(other.keys)) && other.keys == []
    {
      PairsConcat(keys, other.keys);
      keys, other.keys := keys + other.keys, [];
    }

    /** For each first component in range, the number of distinct pairs that have it. */
    method CountsByFirst(firstCount: nat) returns (counts: seq<nat>)
      ensures |counts| == firstCount
      ensures forall f :: 0 <= f < firstCount ==> counts[f] == |WithFirst(Pairs(keys), f)|
    {
      var sorted := Sort(keys);
      var distinct := Dedup(sorted);
      assert forall k :: k in sorted <==> k in multiset(sorted);
      assert forall k :: k in keys <==> k in multiset(keys);
      SameElementsSamePairs(distinct, keys);
      counts := seq(firstCount, _ => 0);
      for i := 0 to |distinct|
        invariant |counts| == firstCount
        invariant forall f :: 0 <= f < firstCount ==> counts[f] == |WithFirst(Pairs(distinct[..i]), f)|
      {
        var key := distinct[i];
        assert distinct[..i + 1] == distinct[..i] + [key];
        PairsSnoc(distinct[..i], key);
        NewPair(distinct[..i], key);
        forall f: nat ensures |WithFirst(Pairs(distinct[..i + 1]), f)| ==
            |WithFirst(Pairs(distinct[..i]), f)| + if UnpackFirst(key) == f then 1 else 0 {
          WithFirstGrows(Pairs(distinct[..i]), Unpack(key), f);
        }
        var first := UnpackFirst(key);
        if first < firstCount { counts := counts[first := counts[first] + 1]; }
      }
      assert distinct[..|distinct|] == distinct;
    }
  }

  // ----- whole histories

  datatype History = Fresh | Pushed(before: History, first: nat, second: I64) | Appended(into: History, other: History)

  /** The pairs successfully pushed anywhere in a history of pushes and appends. */
  ghost function PushedPairs(h: History): set<(nat, int)> {
    match h
    case Fresh => {}
    case Pushed(before, first, second) =>
      PushedPairs(before) + if first <= U32_MAX && 0 <= second <= U32_MAX then {(first, second as int)} else {}
    case Appended(into, other) => PushedPairs(into) + PushedPairs(other)
  }

  method Build(h: History) returns (c: PackedU32PairDistinct)
    ensures fresh(c) && Pairs(c.keys) == PushedPairs(h)
  {
    match h
    case Fresh =>
      c := new PackedU32PairDistinct();
    case Pushed(before, first, second) =>
      c := Build(before);
      var _ := c.Push(first, second);
    case Appended(into, other) =>
      c := Build(into);
      var d := Build(other);
      c.Append(d);
  }

  /**
   * Whatever was pushed and appended, in whatever order and however often, the counts are
   * those of the set of pushed pairs.
   */
  method CountDistinct(h: History, firstCount: nat) returns (counts: seq<nat>)
    ensures |counts| == firstCount
    ensures forall f :: 0 <= f < firstCount ==> counts[f] == |WithFirst(PushedPairs(h), f)|
  {
    var c := Build(h);
    counts := c.CountsByFirst(firstCount);
  }
}
