/**
 * The adaptive map: a value array, a presence array and a bitmap while the keys are
 * small, a hash map after the first key that is not. The switch goes one way.
 */
module AdaptiveMap {
  import opened Machine
  import opened BitWords
  import AdaptiveSet

  /** DEFAULT_MAX_DENSE_I64_KEY */
  const MAX_DENSE_KEY: nat := 20_000_000

  function DenseIndex(key: I64): Option<nat> {
    if 0 <= key <= MAX_DENSE_KEY then Some(key) else None
  }

  datatype Repr<V> =
    | Dense(values: seq<V>, present: seq<bool>, words: seq<Word>, len: nat)
    | Hash(entries: map<int, V>)
  {
    ghost function Contents(): map<int, V> {
      match this
      case Dense(values, present, _, _) =>
        map i | 0 <= i < |values| && i < |present| && present[i] :: values[i]
      case Hash(entries) => entries
    }

    /** Presence array, bitmap and length describe one key set. */
    ghost predicate Valid() {
      match this
      case Dense(values, present, words, len) =>
        && |values| == |present| <= MAX_DENSE_KEY + 1
        && |words| == (|present| + 63) / 64
        && (forall i: nat :: Has(words, i) <==> i < |present| && present[i])
        && len == |Contents()|
      case Hash(_) => true
    }

    function Get(key: I64): Option<V> {
      match this
      case Dense(values, _, words, _) => GetFromWords(values, words, key)
      case Hash(entries) => if key as int in entries then Some(entries[key as int]) else None
    }

    /** The lookup through cached presence slices. */
    function GetCached(slices: Option<(seq<V>, seq<bool>)>, key: I64): Option<V>
      requires slices.Some? ==> |slices.value.0| == |slices.value.1|
    {
      match slices
      case Some((values, present)) => if 0 <= key < |present| && present[key] then Some(values[key]) else None
      case None => Get(key)
    }

    /** The lookup through cached word slices. */
    function GetCachedWords(slices: Option<(seq<V>, seq<Word>)>, key: I64): Option<V> {
      match slices
      case Some((values, words)) => GetFromWords(values, words, key)
      case None => Get(key)
    }

    function DenseSlices(): Option<(seq<V>, seq<bool>)> {
      if Dense? then Some((values, present)) else None
    }

    function DenseWordSlices(): Option<(seq<V>, seq<Word>)> {
      if Dense? then Some((values, words)) else None
    }

    predicate IsEmpty() {
      match this
      case Dense(_, _, _, len) => len == 0
      case Hash(entries) => entries == map[]
    }
  }

  function GetFromWords<V>(values: seq<V>, words: seq<Word>, key: I64): Option<V> {
    if WordsContain(words, key) && key < |values| then Some(values[key]) else None
  }

  function Lookup<V>(m: map<int, V>, key: int): Option<V> {
    if key in m then Some(m[key]) else None
  }

  /** `entry(key).or_insert_with(init)` */
  function EntryOr<V>(m: map<int, V>, key: int, init: () -> V): V {
    if key in m then m[key] else init()
  }

  /** All three lookups and the emptiness test answer for the plain map. */
  lemma {:induction false} LookupsAgree<V>(r: Repr<V>, key: I64)
    requires r.Valid()
    ensures r.Get(key) == Lookup(r.Contents(), key)
    ensures r.GetCached(r.DenseSlices(), key) == Lookup(r.Contents(), key)
    ensures r.GetCachedWords(r.DenseWordSlices(), key) == Lookup(r.Contents(), key)
    ensures r.IsEmpty() <==> r.Contents() == map[]
  {
    if r.Dense? && r.len == 0 { assert r.Contents() == map[]; }
  }

  /** Growing the dense arrays to hold `index` keeps the contents. */
  function Grow<V>(r: Repr<V>, index: nat, default: V): Repr<V>
    requires r.Dense? && |r.values| == |r.present| && |r.words| == (|r.present| + 63) / 64
  {
    if index < |r.values| then r
    else Dense(Resize(r.values, index + 1, default), Resize(r.present, index + 1, false),
               Resize(r.words, index / 64 + 1, Zero()), r.len)
  }

  lemma {:induction false} GrowKeepsContents<V>(r: Repr<V>, index: nat, default: V)
    requires r.Dense? && r.Valid() && index <= MAX_DENSE_KEY
    ensures Grow(r, index, default).Valid() && Grow(r, index, default).Contents() == r.Contents()
    ensures index < |Grow(r, index, default).values|
  {
    if index >= |r.values| { ResizeKeepsBits(r.words, index / 64 + 1); }
    assert Grow(r, index, default).Contents() == r.Contents();
  }

  /** Marks a key inside the arrays as present, once, and stores its value. */
  function Store<V>(r: Repr<V>, index: nat, value: V): Repr<V>
    requires r.Dense? && |r.values| == |r.present| && |r.words| == (|r.present| + 63) / 64 && index < |r.present|
  {
    if r.present[index] then r.(values := r.values[index := value])
    else Dense(r.values[index := value], r.present[index := true], SetBit(r.words, index), r.len + 1)
  }

  lemma {:induction false} StoreContents<V>(r: Repr<V>, index: nat, value: V)
    requires r.Dense? && |r.values| == |r.present| && |r.words| == (|r.present| + 63) / 64 && index < |r.present|
    ensures Store(r, index, value).Contents() == r.Contents()[index := value]
  {
  }

  lemma {:induction false} StoreSetsValue<V>(r: Repr<V>, index: nat, value: V)
    requires r.Dense? && r.Valid() && index < |r.present|
    ensures Store(r, index, value).Valid() && Store(r, index, value).Contents() == r.Contents()[index := value]
  {
    StoreContents(r, index, value);
  }

  /** Initialises an absent entry, then changes the entry. */
  function UpdateStored<V>(r: Repr<V>, index: nat, init: () -> V, change: V -> V): Repr<V>
    requires r.Dense? && |r.values| == |r.present| && |r.words| == (|r.present| + 63) / 64 && index < |r.present|
  {
    var s := if r.present[index] then r else Store(r, index, init());
    Store(s, index, change(s.values[index]))
  }

  lemma {:induction false} UpdateStoredChanges<V>(r: Repr<V>, index: nat, init: () -> V, change: V -> V)
    requires r.Dense? && r.Valid() && index < |r.present|
    ensures UpdateStored(r, index, init, change).Valid()
    ensures UpdateStored(r, index, init, change).Contents() ==
              r.Contents()[index := change(EntryOr(r.Contents(), index, init))]
  {
    if r.present[index] {
      StoreSetsValue(r, index, change(r.values[index]));
    } else {
      StoreTwice(r, index, init(), change(init()));
    }
  }

  lemma {:induction false} StoreTwice<V>(r: Repr<V>, index: nat, first: V, second: V)
    requires r.Dense? && r.Valid() && index < |r.present|
    ensures var s := Store(r, index, first);
            && s.Dense? && s.Valid() && index < |s.present| && s.values[index] == first
            && Store(s, index, second).Valid() && Store(s, index, second).Contents() == r.Contents()[index := second]
  {
    StoreSetsValue(r, index, first);
    StoreOver(Store(r, index, first), index, second, r.Contents(), first);
  }

  lemma {:induction false} StoreOver<V>(s: Repr<V>, index: nat, value: V, before: map<int, V>, former: V)
    requires s.Dense? && s.Valid() && index < |s.present| && s.Contents() == before[index := former]
    ensures Store(s, index, value).Valid() && Store(s, index, value).Contents() == before[index := value]
  {
    StoreSetsValue(s, index, value);
  }

  function Widen<V>(entries: map<I64, V>): map<int, V> {
    map k | k in entries :: k as int := entries[k]
  }

  /** The entries of the listed keys. */
  ghost function Listed<V>(order: seq<I64>, entries: map<I64, V>): map<int, V>
    requires forall i :: 0 <= i < |order| ==> order[i] in entries
  {
    if order == [] then map[]
    else Listed(order[..|order| - 1], entries)[order[|order| - 1] as int := entries[order[|order| - 1]]]
  }

  lemma {:induction false} ListedIsRestriction<V>(order: seq<I64>, entries: map<I64, V>)
    requires forall i :: 0 <= i < |order| ==> order[i] in entries
    ensures Listed(order, entries) == map k | k in entries && k in order :: k as int := entries[k]
  {
    if order != [] {
      var init, last := order[..|order| - 1], order[|order| - 1];
      ListedIsRestriction(init, entries);
      assert order == init + [last];
    }
  }

  /** Stores the entries of the listed keys, which lie inside the arrays. */
  method StoreAll<V>(r: Repr<V>, order: seq<I64>, entries: map<I64, V>) returns (stored: Repr<V>)
    requires r.Dense? && r.Valid() && r.Contents() == map[]
    requires forall i :: 0 <= i < |order| ==> order[i] in entries && 0 <= order[i] < |r.present|
    requires forall k :: k in entries ==> k in order
    ensures stored.Dense? && stored.Valid() && stored.Contents() == Widen(entries)
  {
    stored := r;
    for i := 0 to |order|
      invariant stored.Dense? && stored.Valid() && |stored.present| == |r.present|
      invariant stored.Contents() == Listed(order[..i], entries)
    {
      assert order[..i + 1][..i] == order[..i];
      var index: nat := order[i];
      StoreSetsValue(stored, index, entries[order[i]]);
      stored := Store(stored, index, entries[order[i]]);
    }
    assert order[..|order|] == order;
    ListedIsRestriction(order, entries);
  }

  class AdaptiveI64Map<V> {
    var repr: Repr<V>
    const default: V

    ghost predicate Valid()
      reads this
    {
      repr.Valid()
    }

    ghost function Contents(): map<int, V>
      reads this
    {
      repr.Contents()
    }

    constructor NewDense(default: V)
      ensures Valid() && Contents() == map[] && repr.Dense? && this.default == default
    {
      this.default := default;
      repr := Dense([], [], [], 0);
      new;
      assert repr.Contents() == map[];
      assert forall i: nat :: !Has([], i);
    }

    constructor FromHashMap(entries: map<int, V>, default: V)
      ensures Valid() && Contents() == entries && repr.Hash? && this.default == default
    {
      this.default := default;
      repr := Hash(entries);
    }

    /** Keeps the dense form when every key permits it. */
    constructor FromHash(entries: map<I64, V>, default: V)
      ensures Valid() && this.default == default
      ensures Contents() == map k | k in entries :: k as int := entries[k]
      ensures repr.Dense? <==> forall k :: k in entries ==> 0 <= k <= 20_000_000
    {
      this.default := default;
      repr := Dense([], [], [], 0);
      new;
      assert repr.Contents() == map[] && forall i: nat :: !Has([], i);
      if entries.Keys == {} { return; }
      var order := AdaptiveSet.Enumerate(entries.Keys);
      var scan := AdaptiveSet.MaxDenseIndex(order, MAX_DENSE_KEY);
      if scan.None? {
        ghost var i :| 0 <= i < |order| && !(0 <= order[i] <= MAX_DENSE_KEY);
        assert order[i] in entries;
        repr := Hash(Widen(entries));
        return;
      }
      GrowKeepsContents(repr, scan.value, default);
      repr := StoreAll(Grow(repr, scan.value, default), order, entries);
    }

    method Insert(key: I64, value: V)
      requires Valid()
      modifies this
      ensures Valid() && Contents() == old(Contents())[key as int := value]
      ensures repr.Dense? <==> old(repr.Dense?) && 0 <= key <= 20_000_000
    {
      match repr {
        case Dense(values, present, _, _) =>
          match DenseIndex(key) {
            case None =>
              repr := Hash((map i | 0 <= i < |present| && present[i] :: values[i])[key as int := value]);
            case Some(index) =>
              GrowKeepsContents(repr, index, default);
              StoreSetsValue(Grow(repr, index, default), index, value);
              repr := Store(Grow(repr, index, default), index, value);
          }
        case Hash(entries) =>
          repr := Hash(entries[key as int := value]);
      }
    }

    /** Changes the value of the key in place, after inserting `init()` for an absent key. */
    method Update(key: I64, init: () -> V, change: V -> V)
      requires Valid()
      modifies this
      ensures Valid()
      ensures Contents() == old(Contents())[key as int :=
                change(if key as int in old(Contents()) then old(Contents())[key as int] else init())]
      ensures repr.Dense? <==> old(repr.Dense?) && 0 <= key <= 20_000_000
    {
      match repr {
        case Dense(values, present, _, _) =>
          match DenseIndex(key) {
            case None =>
              var entries := map i | 0 <= i < |present| && present[i] :: values[i];
              assert repr.Contents() == entries;
              var entry := EntryOr(entries, key, init);
              repr := Hash(entries[key as int := change(entry)]);
            case Some(index) =>
              GrowKeepsContents(repr, index, default);
              UpdateStoredChanges(Grow(repr, index, default), index, init, change);
              repr := UpdateStored(Grow(repr, index, default), index, init, change);
          }
        case Hash(entries) =>
          var entry := EntryOr(entries, key, init);
          repr := Hash(entries[key as int := change(entry)]);
      }
    }

    /** The entries whose value satisfies the predicate. */
    method IntoFilteredHash(keep: V -> bool) returns (r: map<int, V>)
      requires Valid()
      ensures r == map k | k in Contents() && keep(Contents()[k]) :: Contents()[k]
    {
      match repr
      case Dense(values, present, _, _) =>
        r := map i | 0 <= i < |values| && present[i] && keep(values[i]) :: values[i];
      case Hash(entries) =>
        r := map k | k in entries && keep(entries[k]) :: entries[k];
    }
  }

  // ----- whole histories

  datatype Operation<!V> =
    | InsertKey(key: I64, value: V)
    | UpdateKey(key: I64, init: () -> V, change: V -> V)
    | Probe(key: I64)

  datatype Abstract<V> = Abstract(contents: map<int, V>, dense: bool)

  function Step<V>(a: Abstract<V>, op: Operation<V>): (Abstract<V>, Option<V>) {
    match op
    case InsertKey(key, value) =>
      (Abstract(a.contents[key as int := value], a.dense && 0 <= key <= 20_000_000), None)
    case UpdateKey(key, init, change) =>
      var entry := if key as int in a.contents then a.contents[key as int] else init();
      (Abstract(a.contents[key as int := change(entry)], a.dense && 0 <= key <= 20_000_000), None)
    case Probe(key) => (a, Lookup(a.contents, key))
  }

  function Run<V>(ops: seq<Operation<V>>): (r: (Abstract<V>, seq<Option<V>>))
    ensures |r.1| == |ops|
  {
    if ops == [] then (Abstract(map[], true), [])
    else
      var (a, answers) := Run(ops[..|ops| - 1]);
      var (b, answer) := Step(a, ops[|ops| - 1]);
      (b, answers + [answer])
  }

  /**
   * Over every operation sequence the map holds the plain map's entries and gives its
   * answers, whichever form it has and whichever slices the lookup goes through.
   */
  method Replay<V>(ops: seq<Operation<V>>, default: V) returns (m: AdaptiveI64Map<V>, answers: seq<Option<V>>)
    ensures fresh(m) && m.Valid()
    ensures m.Contents() == Run(ops).0.contents && m.repr.Dense? == Run(ops).0.dense
    ensures answers == Run(ops).1
  {
    m := new AdaptiveI64Map.NewDense(default);
    answers := [];
    for i := 0 to |ops|
      invariant fresh(m) && m.Valid()
      invariant m.Contents() == Run(ops[..i]).0.contents && m.repr.Dense? == Run(ops[..i]).0.dense
      invariant answers == Run(ops[..i]).1
    {
      assert ops[..i + 1][..i] == ops[..i];
      match ops[i] {
        case InsertKey(key, value) =>
          m.Insert(key, value);
          answers := answers + [None];
        case UpdateKey(key, init, change) =>
          m.Update(key, init, change);
          answers := answers + [None];
        case Probe(key) =>
          LookupsAgree(m.repr, key);
          assert m.repr.GetCached(m.repr.DenseSlices(), key) == m.repr.Get(key);
          answers := answers + [m.repr.GetCachedWords(m.repr.DenseWordSlices(), key)];
      }
    }
    assert ops[..|ops|] == ops;
  }
}
