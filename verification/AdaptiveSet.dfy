/**
 * The adaptive key set: a boolean array and a bitmap while the keys are small, a hash
 * set after the first key that is not. The switch goes one way.
 */
module AdaptiveSet {
  import opened Machine
  import opened BitWords

  /** The array index of a key, when the key may be stored densely. */
  function DenseIndex(key: I64, maxDenseKey: nat): Option<nat> {
    if 0 <= key <= maxDenseKey then Some(key) else None
  }

  datatype Repr =
    | Dense(contains: seq<bool>, words: seq<Word>, len: nat)
    | Hash(keys: set<int>)
  {
    ghost function Members(): set<int> {
      match this
      case Dense(contains, _, _) => set i | 0 <= i < |contains| && contains[i]
      case Hash(keys) => keys
    }

    /** Boolean array, bitmap and length are three copies of one set. */
    ghost predicate Valid(maxDenseKey: nat) {
      match this
      case Dense(contains, words, len) =>
        && |contains| <= maxDenseKey + 1
        && |words| == (|contains| + 63) / 64
        && (forall i: nat :: Has(words, i) <==> i < |contains| && contains[i])
        && len == |Members()|
      case Hash(_) => true
    }

    predicate Contains(key: I64) {
      match this
      case Dense(_, words, _) => WordsContain(words, key)
      case Hash(keys) => key as int in keys
    }

    function DenseContainsSlice(): Option<seq<bool>> {
      if Dense? then Some(contains) else None
    }

    predicate ContainsCached(slice: Option<seq<bool>>, key: I64) {
      match slice
      case Some(cached) => 0 <= key < |cached| && cached[key]
      case None => Contains(key)
    }

    function Len(): nat {
      match this
      case Dense(_, _, len) => len
      case Hash(keys) => |keys|
    }
  }

  /** The word probe, the cached-slice probe and the length all answer for the member set. */
  lemma {:induction false} ProbesAgree(r: Repr, maxDenseKey: nat, key: I64)
    requires r.Valid(maxDenseKey)
    ensures r.Contains(key) <==> key as int in r.Members()
    ensures r.ContainsCached(r.DenseContainsSlice(), key) <==> key as int in r.Members()
    ensures r.Len() == |r.Members()|
  {
  }

  /** Growing the dense arrays to hold `index` keeps the members. */
  function Grow(r: Repr, index: nat): Repr
    requires r.Dense? && |r.words| == (|r.contains| + 63) / 64
  {
    if index < |r.contains| then r
    else Dense(Resize(r.contains, index + 1, false), Resize(r.words, index / 64 + 1, Zero()), r.len)
  }

  lemma {:induction false} GrowKeepsMembers(r: Repr, index: nat, maxDenseKey: nat)
    requires r.Dense? && r.Valid(maxDenseKey) && index <= maxDenseKey
    ensures Grow(r, index).Valid(maxDenseKey) && Grow(r, index).Members() == r.Members()
    ensures index < |Grow(r, index).contains|
  {
    if index >= |r.contains| { ResizeKeepsBits(r.words, index / 64 + 1); }
    assert Grow(r, index).Members() == r.Members();
  }

  /** Marks a key inside the arrays, once. */
  function Mark(r: Repr, index: nat): Repr
    requires r.Dense? && |r.words| == (|r.contains| + 63) / 64 && index < |r.contains|
  {
    if r.contains[index] then r
    else Dense(r.contains[index := true], SetBit(r.words, index), r.len + 1)
  }

  lemma {:induction false} MarkAddsMember(r: Repr, index: nat, maxDenseKey: nat)
    requires r.Dense? && r.Valid(maxDenseKey) && index < |r.contains|
    ensures Mark(r, index).Valid(maxDenseKey) && Mark(r, index).Members() == r.Members() + {index}
    ensures |Mark(r, index).contains| == |r.contains|
  {
    assert Mark(r, index).Members() == r.Members() + {index};
  }

  predicate AllDense(values: seq<I64>, maxDenseKey: int) {
    forall i :: 0 <= i < |values| ==> 0 <= values[i] <= maxDenseKey
  }

  function Elements(values: seq<I64>): set<int> {
    set v | v in values
  }

  /** Some iteration order of a hash set. */
  method Enumerate(values: set<I64>) returns (order: seq<I64>)
    ensures Elements(order) == values
  {
    order := [];
    var rest := values;
    while rest != {}
      invariant rest <= values && Elements(order) == values - rest
      decreases rest
    {
      var value :| value in rest;
      assert Elements(order + [value]) == Elements(order) + {value as int};
      order, rest := order + [value], rest - {value};
    }
  }

  /** The largest index among the values, or nothing when one is not densely storable. */
  method MaxDenseIndex(values: seq<I64>, maxDenseKey: nat) returns (r: Option<nat>)
    ensures r.Some? <==> AllDense(values, maxDenseKey)
    ensures r.Some? ==> r.value <= maxDenseKey && AllDense(values, r.value)
  {
    var maxIndex: nat := 0;
    for i := 0 to |values|
      invariant forall j :: 0 <= j < i ==> 0 <= values[j] <= maxIndex
      invariant maxIndex <= maxDenseKey
    {
      match DenseIndex(values[i], maxDenseKey) {
        case None => return None;
        case Some(index) => maxIndex := Max(maxIndex, index);
      }
    }
    r := Some(maxIndex);
  }

  lemma {:induction false} ElementsSnoc(members: set<int>, values: seq<I64>, i: nat)
    requires i < |values|
    ensures members + Elements(values[..i + 1]) == members + Elements(values[..i]) + {values[i] as int}
  {
    assert values[..i + 1] == values[..i] + [values[i]];
  }

  /** Marks values that all lie inside the arrays. */
  method MarkAll(r: Repr, values: seq<I64>, ghost maxDenseKey: nat) returns (marked: Repr)
    requires r.Dense? && r.Valid(maxDenseKey) && AllDense(values, |r.contains| - 1)
    ensures marked.Dense? && marked.Valid(maxDenseKey) && marked.Members() == r.Members() + Elements(values)
  {
    marked := r;
    for i := 0 to |values|
      invariant marked.Dense? && marked.Valid(maxDenseKey) && |marked.contains| == |r.contains|
      invariant marked.Members() == r.Members() + Elements(values[..i])
    {
      var index: nat := values[i];
      ElementsSnoc(r.Members(), values, i);
      MarkAddsMember(marked, index, maxDenseKey);
      marked := Mark(marked, index);
    }
    assert values[..|values|] == values;
  }

  class AdaptiveI64Set {
    var repr: Repr
    const maxDenseKey: nat

    ghost predicate Valid()
      reads this
    {
      repr.Valid(maxDenseKey)
    }

    ghost function Members(): set<int>
      reads this
    {
      repr.Members()
    }

    constructor NewDense(maxDenseKey: nat)
      ensures Valid() && Members() == {} && repr.Dense? && this.maxDenseKey == maxDenseKey
    {
      this.maxDenseKey := maxDenseKey;
      repr := Dense([], [], 0);
      new;
      assert repr.Members() == {};
      assert forall i: nat :: !Has([], i);
    }

    method Insert(key: I64)
      requires Valid()
      modifies this
      ensures Valid() && Members() == old(Members()) + {key as int}
      ensures repr.Dense? <==> old(repr.Dense?) && 0 <= key <= maxDenseKey
    {
      match repr {
        case Dense(contains, _, _) =>
          match DenseIndex(key, maxDenseKey) {
            case None =>
              repr := Hash((set i | 0 <= i < |contains| && contains[i]) + {key as int});
            case Some(index) =>
              GrowKeepsMembers(repr, index, maxDenseKey);
              MarkAddsMember(Grow(repr, index), index, maxDenseKey);
              repr := Mark(Grow(repr, index), index);
          }
        case Hash(keys) =>
          repr := Hash(keys + {key as int});
      }
    }

    /** Adds all values or none: nothing is added once one value is not densely storable. */
    method TryInsertDenseValues(values: seq<I64>) returns (ok: bool)
      requires Valid()
      modifies this
      ensures Valid() && (repr.Dense? <==> old(repr.Dense?))
      ensures ok <==> old(repr.Dense?) && AllDense(values, maxDenseKey)
      ensures ok ==> Members() == old(Members()) + Elements(values)
      ensures !ok ==> repr == old(repr)
    {
      if repr.Hash? { return false; }
      var scan := MaxDenseIndex(values, maxDenseKey);
      if scan.None? { return false; }
      GrowKeepsMembers(repr, scan.value, maxDenseKey);
      repr := MarkAll(Grow(repr, scan.value), values, maxDenseKey);
      ok := true;
    }

    /** Keeps the dense form when every value permits it. */
    constructor FromHash(values: set<I64>, maxDenseKey: nat)
      ensures Valid() && Members() == values && this.maxDenseKey == maxDenseKey
      ensures repr.Dense? <==> forall v :: v in values ==> 0 <= v <= maxDenseKey
    {
      this.maxDenseKey := maxDenseKey;
      repr := Dense([], [], 0);
      new;
      assert repr.Members() == {} && forall i: nat :: !Has([], i);
      if values == {} { return; }
      var order := Enumerate(values);
      var scan := MaxDenseIndex(order, maxDenseKey);
      if scan.None? {
        ghost var i :| 0 <= i < |order| && !(0 <= order[i] <= maxDenseKey);
        assert order[i] in values;
        repr := Hash(values);
        return;
      }
      GrowKeepsMembers(repr, scan.value, maxDenseKey);
      repr := MarkAll(Grow(repr, scan.value), order, maxDenseKey);
    }
  }

  // ----- whole histories

  datatype Operation = InsertKey(key: I64) | TryInsert(values: seq<I64>) | Probe(key: I64)

  /** What an observer of the set may know: its members and which form it has. */
  datatype Abstract = Abstract(members: set<int>, dense: bool)

  function Step(a: Abstract, op: Operation, maxDenseKey: nat): (Abstract, bool) {
    match op
    case InsertKey(key) => (Abstract(a.members + {key as int}, a.dense && 0 <= key <= maxDenseKey), true)
    case TryInsert(values) =>
      if a.dense && AllDense(values, maxDenseKey)
      then (a.(members := a.members + Elements(values)), true)
      else (a, false)
    case Probe(key) => (a, key as int in a.members)
  }

  function Run(ops: seq<Operation>, maxDenseKey: nat): (r: (Abstract, seq<bool>))
    ensures |r.1| == |ops|
  {
    if ops == [] then (Abstract({}, true), [])
    else
      var (a, answers) := Run(ops[..|ops| - 1], maxDenseKey);
      var (b, answer) := Step(a, ops[|ops| - 1], maxDenseKey);
      (b, answers + [answer])
  }

  /**
   * Over every operation sequence the set has the members of the plain set and gives its
   * answers, in either form, through the word probe and through the cached slice.
   */
  method Replay(ops: seq<Operation>, maxDenseKey: nat) returns (s: AdaptiveI64Set, answers: seq<bool>)
    ensures fresh(s) && s.Valid() && s.maxDenseKey == maxDenseKey
    ensures s.Members() == Run(ops, maxDenseKey).0.members && s.repr.Dense? == Run(ops, maxDenseKey).0.dense
    ensures answers == Run(ops, maxDenseKey).1
  {
    s := new AdaptiveI64Set.NewDense(maxDenseKey);
    answers := [];
    for i := 0 to |ops|
      invariant fresh(s) && s.Valid() && s.maxDenseKey == maxDenseKey
      invariant s.Members() == Run(ops[..i], maxDenseKey).0.members
      invariant s.repr.Dense? == Run(ops[..i], maxDenseKey).0.dense
      invariant answers == Run(ops[..i], maxDenseKey).1
    {
      assert ops[..i + 1][..i] == ops[..i];
      match ops[i] {
        case InsertKey(key) =>
          s.Insert(key);
          answers := answers + [true];
        case TryInsert(values) =>
          var ok := s.TryInsertDenseValues(values);
          answers := answers + [ok];
        case Probe(key) =>
          ProbesAgree(s.repr, maxDenseKey, key);
          var cached := s.repr.ContainsCached(s.repr.DenseContainsSlice(), key);
          assert cached == s.repr.Contains(key);
          answers := answers + [cached];
      }
    }
    assert ops[..|ops|] == ops;
  }
}
