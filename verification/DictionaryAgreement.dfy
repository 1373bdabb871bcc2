/**
 * The dictionary consumer against the plain consumer: the same groups and counts always,
 * and the same sum for every key on which nothing saturates.
 */
module DictionaryAgreement {
  import opened Machine
  import opened DictionaryColumns
  import opened DictionaryAgg

  // ----- exact counts and sums

  function Count<T(==)>(rows: seq<(T, I64)>, key: T): nat {
    if rows == [] then 0 else Count(rows[..|rows| - 1], key) + if rows[|rows| - 1].0 == key then 1 else 0
  }

  function Sum<T(==)>(rows: seq<(T, I64)>, key: T): int {
    if rows == [] then 0
    else Sum(rows[..|rows| - 1], key) + if rows[|rows| - 1].0 == key then rows[|rows| - 1].1 else 0
  }

  function Abs(x: int): nat { if x < 0 then -x else x }

  /** The absolute addends of one key. */
  function Weight<T(==)>(rows: seq<(T, I64)>, key: T): nat {
    if rows == [] then 0
    else Weight(rows[..|rows| - 1], key) + if rows[|rows| - 1].0 == key then Abs(rows[|rows| - 1].1) else 0
  }

  function KeySet<T>(rows: seq<(T, I64)>): set<T> {
    set i | 0 <= i < |rows| :: rows[i].0
  }

  lemma {:induction false} KeySetSnoc<T>(rows: seq<(T, I64)>)
    requires rows != []
    ensures KeySet(rows) == KeySet(rows[..|rows| - 1]) + {rows[|rows| - 1].0}
  {
    var init := rows[..|rows| - 1];
    forall k | k in KeySet(rows) ensures k in KeySet(init) + {rows[|rows| - 1].0} {
      var i :| 0 <= i < |rows| && rows[i].0 == k;
      if i < |init| { assert init[i].0 == k; }
    }
    forall k | k in KeySet(init) ensures k in KeySet(rows) {
      var i :| 0 <= i < |init| && init[i].0 == k;
      assert rows[i].0 == k;
    }
    assert rows[|rows| - 1].0 in KeySet(rows);
  }

  lemma {:induction false} SumWithinWeight<T>(rows: seq<(T, I64)>, key: T)
    ensures Abs(Sum(rows, key)) <= Weight(rows, key)
  {
    if rows != [] { SumWithinWeight(rows[..|rows| - 1], key); }
  }

  // ----- ids expanded through the dictionary

  function Expanded<K>(rows: seq<(nat, I64)>, dictionary: seq<K>): seq<(K, I64)>
    requires IdsBelow(rows, |dictionary|)
  {
    if rows == [] then []
    else Expanded(rows[..|rows| - 1], dictionary) + [(dictionary[rows[|rows| - 1].0], rows[|rows| - 1].1)]
  }

  /** Rows whose id is among `ids` and stands for the key. */
  function CountVia<K(==)>(ids: seq<nat>, rows: seq<(nat, I64)>, dictionary: seq<K>, key: K): nat
    requires IdsBelow(rows, |dictionary|)
  {
    if rows == [] then 0
    else
      var row := rows[|rows| - 1];
      CountVia(ids, rows[..|rows| - 1], dictionary, key) + if row.0 in ids && dictionary[row.0] == key then 1 else 0
  }

  function SumVia<K(==)>(ids: seq<nat>, rows: seq<(nat, I64)>, dictionary: seq<K>, key: K): int
    requires IdsBelow(rows, |dictionary|)
  {
    if rows == [] then 0
    else
      var row := rows[|rows| - 1];
      SumVia(ids, rows[..|rows| - 1], dictionary, key) + if row.0 in ids && dictionary[row.0] == key then row.1 else 0
  }

  /** One more id contributes its own rows, once. */
  lemma {:induction false} ViaSnoc<K>(ids: seq<nat>, id: nat, rows: seq<(nat, I64)>, dictionary: seq<K>, key: K)
    requires id !in ids && id < |dictionary|
    requires IdsBelow(rows, |dictionary|)
    ensures CountVia(ids + [id], rows, dictionary, key) ==
              CountVia(ids, rows, dictionary, key) + if dictionary[id] == key then Count(rows, id) else 0
    ensures SumVia(ids + [id], rows, dictionary, key) ==
              SumVia(ids, rows, dictionary, key) + if dictionary[id] == key then Sum(rows, id) else 0
  {
    if rows != [] { ViaSnoc(ids, id, rows[..|rows| - 1], dictionary, key); }
  }

  lemma {:induction false} ViaNothing<K>(rows: seq<(nat, I64)>, dictionary: seq<K>, key: K)
    requires IdsBelow(rows, |dictionary|)
    ensures CountVia([], rows, dictionary, key) == 0 && SumVia([], rows, dictionary, key) == 0
  {
    if rows != [] { ViaNothing(rows[..|rows| - 1], dictionary, key); }
  }

  /** Ids that cover all rows contribute every row of the expanded stream. */
  lemma {:induction false} ViaAll<K>(ids: seq<nat>, rows: seq<(nat, I64)>, dictionary: seq<K>, key: K)
    requires IdsBelow(rows, |dictionary|) && CoveredBy(rows, ids)
    ensures CountVia(ids, rows, dictionary, key) == Count(Expanded(rows, dictionary), key)
    ensures SumVia(ids, rows, dictionary, key) == Sum(Expanded(rows, dictionary), key)
  {
    if rows != [] { ViaAll(ids, rows[..|rows| - 1], dictionary, key); }
  }

  predicate CoveredBy(rows: seq<(nat, I64)>, ids: seq<nat>) {
    forall i :: 0 <= i < |rows| ==> rows[i].0 in ids
  }

  lemma {:induction false} TouchedCovers(rows: seq<(nat, I64)>, n: nat)
    requires IdsBelow(rows, n)
    ensures CoveredBy(rows, Touched(rows)) && AllBelow(Touched(rows), n)
  {
    if rows != [] { TouchedCovers(rows[..|rows| - 1], n); }
  }

  // ----- the same groups

  function KeysVia<K>(ids: seq<nat>, dictionary: seq<K>): set<K>
    requires AllBelow(ids, |dictionary|)
  {
    if ids == [] then {} else KeysVia(ids[..|ids| - 1], dictionary) + {dictionary[ids[|ids| - 1]]}
  }

  lemma {:induction false} AddRowsKeys<K>(m: map<K, Entry>, rows: seq<(K, I64)>)
    ensures AddRows(m, rows).Keys == m.Keys + KeySet(rows)
  {
    if rows != [] {
      AddRowsKeys(m, rows[..|rows| - 1]);
      KeySetSnoc(rows);
    }
  }

  lemma {:induction false} AddTouchedKeys<K>(m: map<K, Entry>, ids: seq<nat>, rows: seq<(nat, I64)>, dictionary: seq<K>)
    requires AllBelow(ids, |dictionary|)
    ensures AddTouched(m, ids, rows, dictionary).Keys == m.Keys + KeysVia(ids, dictionary)
  {
    if ids != [] { AddTouchedKeys(m, ids[..|ids| - 1], rows, dictionary); }
  }

  lemma {:induction false} KeysViaTouched<K>(rows: seq<(nat, I64)>, dictionary: seq<K>)
    requires IdsBelow(rows, |dictionary|) && AllBelow(Touched(rows), |dictionary|)
    ensures KeysVia(Touched(rows), dictionary) == KeySet(Expanded(rows, dictionary))
  {
    if rows != [] {
      var init, row := rows[..|rows| - 1], rows[|rows| - 1];
      TouchedCovers(init, |dictionary|);
      KeysViaTouched(init, dictionary);
      KeySetSnoc(Expanded(rows, dictionary));
      assert Expanded(rows, dictionary)[..|Expanded(rows, dictionary)| - 1] == Expanded(init, dictionary);
      if row.0 in Touched(init) {
        KeysViaHas(Touched(init), dictionary, row.0);
      } else {
        assert (Touched(init) + [row.0])[..|Touched(init)|] == Touched(init);
      }
    }
  }

  lemma {:induction false} KeysViaHas<K>(ids: seq<nat>, dictionary: seq<K>, id: nat)
    requires id in ids && AllBelow(ids, |dictionary|)
    ensures dictionary[id] in KeysVia(ids, dictionary)
  {
    if id != ids[|ids| - 1] { KeysViaHas(ids[..|ids| - 1], dictionary, id); }
  }

  /** Both consumers know the same keys, whatever the addends. */
  lemma {:induction false} ConsumersShareKeys<K>(a: map<K, Entry>, b: map<K, Entry>, rows: seq<(nat, I64)>,
                                                 dictionary: seq<K>)
    requires a.Keys == b.Keys && IdsBelow(rows, |dictionary|)
    ensures AllBelow(Touched(rows), |dictionary|)
    ensures AddTouched(b, Touched(rows), rows, dictionary).Keys == AddRows(a, Expanded(rows, dictionary)).Keys
  {
    TouchedCovers(rows, |dictionary|);
    KeysViaTouched(rows, dictionary);
    AddTouchedKeys(b, Touched(rows), rows, dictionary);
    AddRowsKeys(a, Expanded(rows, dictionary));
  }

  // ----- the same counts

  lemma {:induction false} AddRowsCounts<K>(m: map<K, Entry>, rows: seq<(K, I64)>, key: K)
    requires EntryOf(m, key).0 <= USIZE_MAX
    ensures EntryOf(AddRows(m, rows), key).0 == Min(EntryOf(m, key).0 + Count(rows, key), USIZE_MAX)
  {
    if rows != [] { AddRowsCounts(m, rows[..|rows| - 1], key); }
  }

  lemma {:induction false} LocalCounts(rows: seq<(nat, I64)>, id: nat)
    ensures LocalEntry(rows, id).0 == Min(Count(rows, id), USIZE_MAX)
  {
    if rows != [] { LocalCounts(rows[..|rows| - 1], id); }
  }

  lemma {:induction false} AddTouchedCounts<K>(m: map<K, Entry>, ids: seq<nat>, rows: seq<(nat, I64)>,
                                               dictionary: seq<K>, key: K)
    requires EntryOf(m, key).0 <= USIZE_MAX && Distinct(ids)
    requires AllBelow(ids, |dictionary|) && IdsBelow(rows, |dictionary|)
    ensures EntryOf(AddTouched(m, ids, rows, dictionary), key).0 ==
              Min(EntryOf(m, key).0 + CountVia(ids, rows, dictionary, key), USIZE_MAX)
  {
    if ids == [] {
      ViaNothing(rows, dictionary, key);
    } else {
      var init, id := ids[..|ids| - 1], ids[|ids| - 1];
      assert ids == init + [id];
      AddTouchedCounts(m, init, rows, dictionary, key);
      LocalCounts(rows, id);
      ViaSnoc(init, id, rows, dictionary, key);
    }
  }

  /** Saturating counts agree whatever the rows, as capped addition of naturals is associative. */
  lemma {:induction false} ConsumersShareCounts<K>(a: map<K, Entry>, b: map<K, Entry>, rows: seq<(nat, I64)>,
                                                   dictionary: seq<K>, key: K)
    requires AllBelow(Touched(rows), |dictionary|) && IdsBelow(rows, |dictionary|)
    requires EntryOf(a, key).0 == EntryOf(b, key).0 <= USIZE_MAX
    ensures EntryOf(AddTouched(b, Touched(rows), rows, dictionary), key).0 ==
            EntryOf(AddRows(a, Expanded(rows, dictionary)), key).0 <= USIZE_MAX
  {
    var plain := Expanded(rows, dictionary);
    TouchedCounts(b, rows, dictionary, plain, key);
    AddRowsCounts(a, plain, key);
  }

  lemma {:induction false} TouchedCounts<K>(m: map<K, Entry>, rows: seq<(nat, I64)>, dictionary: seq<K>,
                                            plain: seq<(K, I64)>, key: K)
    requires AllBelow(Touched(rows), |dictionary|) && IdsBelow(rows, |dictionary|)
    requires plain == Expanded(rows, dictionary) && EntryOf(m, key).0 <= USIZE_MAX
    ensures EntryOf(AddTouched(m, Touched(rows), rows, dictionary), key).0 ==
              Min(EntryOf(m, key).0 + Count(plain, key), USIZE_MAX)
  {
    var ids := Touched(rows);
    TouchedOnce(rows);
    assert CountVia(ids, rows, dictionary, key) == Count(plain, key) by {
      TouchedCovers(rows, |dictionary|);
      ViaAll(ids, rows, dictionary, key);
    }
    AddTouchedCounts(m, ids, rows, dictionary, key);
  }

  // ----- the same sums, where nothing saturates

  predicate InI64(x: int) { I64_MIN <= x <= I64_MAX }

  /** Adding the rows of one key to a sum, row by row, never leaves `i64`. */
  ghost predicate RowsFit<T>(sum: int, rows: seq<(T, I64)>, key: T) {
    InI64(sum + Sum(rows, key)) && (rows != [] ==> RowsFit(sum, rows[..|rows| - 1], key))
  }

  /** Summing every id of the key on its own, and adding these sums one by one, never leaves `i64`. */
  ghost predicate IdsFit<K>(sum: int, ids: seq<nat>, rows: seq<(nat, I64)>, dictionary: seq<K>, key: K)
    requires AllBelow(ids, |dictionary|) && IdsBelow(rows, |dictionary|)
  {
    && InI64(sum + SumVia(ids, rows, dictionary, key))
    && (ids != [] ==>
          && IdsFit(sum, ids[..|ids| - 1], rows, dictionary, key)
          && (dictionary[ids[|ids| - 1]] == key ==> RowsFit(0, rows, ids[|ids| - 1])))
  }

  /** On this key no addition of either consumer saturates. */
  ghost predicate NothingSaturates<K>(sum: int, rows: seq<(nat, I64)>, dictionary: seq<K>, key: K)
    requires AllBelow(Touched(rows), |dictionary|) && IdsBelow(rows, |dictionary|)
  {
    RowsFit(sum, Expanded(rows, dictionary), key) && IdsFit(sum, Touched(rows), rows, dictionary, key)
  }

  /** The plain consumer adds exactly. */
  lemma {:induction false} AddRowsIsExact<K>(m: map<K, Entry>, rows: seq<(K, I64)>, key: K)
    requires RowsFit(EntryOf(m, key).1, rows, key)
    ensures EntryOf(AddRows(m, rows), key).1 == EntryOf(m, key).1 + Sum(rows, key)
  {
    if rows != [] { AddRowsIsExact(m, rows[..|rows| - 1], key); }
  }

  lemma {:induction false} LocalIsExact(rows: seq<(nat, I64)>, id: nat)
    requires RowsFit(0, rows, id)
    ensures LocalEntry(rows, id).1 == Sum(rows, id)
  {
    if rows != [] { LocalIsExact(rows[..|rows| - 1], id); }
  }

  /** The dictionary consumer adds, for the ids drained so far, exactly. */
  lemma {:induction false} AddTouchedIsExact<K>(m: map<K, Entry>, ids: seq<nat>, rows: seq<(nat, I64)>,
                                                dictionary: seq<K>, key: K)
    requires Distinct(ids) && AllBelow(ids, |dictionary|) && IdsBelow(rows, |dictionary|)
    requires IdsFit(EntryOf(m, key).1, ids, rows, dictionary, key)
    ensures EntryOf(AddTouched(m, ids, rows, dictionary), key).1 ==
              EntryOf(m, key).1 + SumVia(ids, rows, dictionary, key)
  {
    if ids == [] {
      ViaNothing(rows, dictionary, key);
    } else {
      var init, id := ids[..|ids| - 1], ids[|ids| - 1];
      assert ids == init + [id];
      AddTouchedIsExact(m, init, rows, dictionary, key);
      ViaSnoc(init, id, rows, dictionary, key);
      if dictionary[id] == key { LocalIsExact(rows, id); }
    }
  }

  /** The sum of a key agrees as long as nothing saturates on that key; other keys do not matter. */
  lemma {:induction false} ConsumersShareSums<K>(a: map<K, Entry>, b: map<K, Entry>, rows: seq<(nat, I64)>,
                                                 dictionary: seq<K>, key: K)
    requires AllBelow(Touched(rows), |dictionary|) && IdsBelow(rows, |dictionary|)
    requires EntryOf(a, key).1 == EntryOf(b, key).1 && NothingSaturates(EntryOf(a, key).1, rows, dictionary, key)
    ensures EntryOf(AddTouched(b, Touched(rows), rows, dictionary), key).1 ==
            EntryOf(AddRows(a, Expanded(rows, dictionary)), key).1 ==
            EntryOf(a, key).1 + Sum(Expanded(rows, dictionary), key)
  {
    var plain := Expanded(rows, dictionary);
    TouchedSums(b, rows, dictionary, plain, key);
    AddRowsIsExact(a, plain, key);
  }

  lemma {:induction false} TouchedSums<K>(m: map<K, Entry>, rows: seq<(nat, I64)>, dictionary: seq<K>,
                                          plain: seq<(K, I64)>, key: K)
    requires AllBelow(Touched(rows), |dictionary|) && IdsBelow(rows, |dictionary|)
    requires plain == Expanded(rows, dictionary)
    requires IdsFit(EntryOf(m, key).1, Touched(rows), rows, dictionary, key)
    ensures EntryOf(AddTouched(m, Touched(rows), rows, dictionary), key).1 == EntryOf(m, key).1 + Sum(plain, key)
  {
    var ids := Touched(rows);
    TouchedOnce(rows);
    assert SumVia(ids, rows, dictionary, key) == Sum(plain, key) by {
      TouchedCovers(rows, |dictionary|);
      ViaAll(ids, rows, dictionary, key);
    }
    AddTouchedIsExact(m, ids, rows, dictionary, key);
  }

  // ----- a bound that rules saturation out

  lemma {:induction false} LightRowsFit<T>(sum: int, rows: seq<(T, I64)>, key: T)
    requires Abs(sum) + Weight(rows, key) <= I64_MAX
    ensures RowsFit(sum, rows, key)
  {
    SumWithinWeight(rows, key);
    if rows != [] { LightRowsFit(sum, rows[..|rows| - 1], key); }
  }

  lemma {:induction false} ViaWithinWeight<K>(ids: seq<nat>, rows: seq<(nat, I64)>, dictionary: seq<K>, key: K)
    requires IdsBelow(rows, |dictionary|)
    ensures Abs(SumVia(ids, rows, dictionary, key)) <= Weight(Expanded(rows, dictionary), key)
  {
    if rows != [] { ViaWithinWeight(ids, rows[..|rows| - 1], dictionary, key); }
  }

  lemma {:induction false} IdWithinWeight<K>(id: nat, rows: seq<(nat, I64)>, dictionary: seq<K>)
    requires IdsBelow(rows, |dictionary|) && id < |dictionary|
    ensures Weight(rows, id) <= Weight(Expanded(rows, dictionary), dictionary[id])
  {
    if rows != [] { IdWithinWeight(id, rows[..|rows| - 1], dictionary); }
  }

  lemma {:induction false} LightIdsFit<K>(sum: int, ids: seq<nat>, rows: seq<(nat, I64)>, dictionary: seq<K>, key: K)
    requires AllBelow(ids, |dictionary|) && IdsBelow(rows, |dictionary|)
    requires Abs(sum) + Weight(Expanded(rows, dictionary), key) <= I64_MAX
    ensures IdsFit(sum, ids, rows, dictionary, key)
  {
    ViaWithinWeight(ids, rows, dictionary, key);
    if ids != [] {
      var id := ids[|ids| - 1];
      LightIdsFit(sum, ids[..|ids| - 1], rows, dictionary, key);
      if dictionary[id] == key {
        IdWithinWeight(id, rows, dictionary);
        LightRowsFit(0, rows, id);
      }
    }
  }

  /** Nothing saturates on a key whose own sum and absolute addends fit an `i64` together. */
  lemma {:induction false} LightKeysDoNotSaturate<K>(sum: int, rows: seq<(nat, I64)>, dictionary: seq<K>, key: K)
    requires AllBelow(Touched(rows), |dictionary|) && IdsBelow(rows, |dictionary|)
    requires Abs(sum) + Weight(Expanded(rows, dictionary), key) <= I64_MAX
    ensures NothingSaturates(sum, rows, dictionary, key)
  {
    LightRowsFit(sum, Expanded(rows, dictionary), key);
    LightIdsFit(sum, Touched(rows), rows, dictionary, key);
  }

  const SATURATING: seq<(nat, I64)> := [(0, I64_MAX), (0, -1)]

  const SATURATING_GROUPS: map<int, Entry> := map[7 := (1, 1)]

  /** When a sum saturates, summing per id first can give another result. */
  lemma {:induction false} SaturationBreaksAgreement()
    ensures Touched(SATURATING) == [0] && Expanded(SATURATING, [7]) == [(7, I64_MAX), (7, -1)]
    ensures !RowsFit(1, Expanded(SATURATING, [7]), 7)
    ensures AddTouched(SATURATING_GROUPS, [0], SATURATING, [7]) == map[7 := (3, I64_MAX)]
    ensures AddRows(SATURATING_GROUPS, Expanded(SATURATING, [7])) == map[7 := (3, I64_MAX - 1)]
  {
    ExpandedSaturating();
    IdsSaturate();
    RowsSaturate([(7, I64_MAX)]);
  }

  lemma {:induction false} IdsSaturate()
    ensures Touched(SATURATING) == [0]
    ensures AddTouched(SATURATING_GROUPS, [0], SATURATING, [7]) == map[7 := (3, I64_MAX)]
  {
    var first: seq<(nat, I64)> := [(0, I64_MAX)];
    assert SATURATING[..1] == first && first[..0] == [];
    assert Touched(first) == [0];
    assert LocalEntry([], 0) == (0, 0) && LocalEntry(first, 0) == Accumulate((0, 0), 1, I64_MAX);
    assert LocalEntry(SATURATING, 0) == Accumulate(LocalEntry(first, 0), 1, -1);
  }

  lemma {:induction false} RowsSaturate(plain: seq<(int, I64)>)
    requires plain == [(7, I64_MAX)]
    ensures !RowsFit(1, plain + [(7, -1)], 7)
    ensures AddRows(SATURATING_GROUPS, plain + [(7, -1)]) == map[7 := (3, I64_MAX - 1)]
  {
    assert Sum(plain, 7) == I64_MAX && !RowsFit(1, plain, 7);
    assert (plain + [(7, -1)])[..1] == plain;
    AddRowsSnoc(SATURATING_GROUPS, [], 7, I64_MAX);
    AddRowsSnoc(SATURATING_GROUPS, plain, 7, -1);
    assert [] + plain == plain;
  }

  lemma {:induction false} ExpandedSaturating()
    ensures Expanded(SATURATING, [7]) == [(7, I64_MAX)] + [(7, -1)]
  {
    assert SATURATING[..1] == [(0, I64_MAX)];
    assert Expanded([(0, I64_MAX)], [7]) == [(7, I64_MAX)];
  }

  // ----- every sequence of batches

  /** A batch as both consumers see it: ids with their dictionary, or the keys themselves. */
  datatype DictionaryBatch<K> = DictionaryBatch(columns: Columns, groupIds: seq<nat>, dictionary: seq<K>,
                                                groupKeys: seq<K>)
  {
    ghost function Rows(): nat { |columns.predicateValues| }

    /** Ids in the dictionary stand for the plain keys; ids of rows that the filter drops may be anything. */
    ghost predicate WellFormed(shape: Shape) {
      && columns.Aligned() && columns.GroupIndex(Rows()) <= |groupIds| == |groupKeys|
      && (forall i :: 0 <= i < |groupIds| && groupIds[i] < |dictionary| ==> groupKeys[i] == dictionary[groupIds[i]])
      && IdsBelow(IdRows(shape), |dictionary|)
    }

    /** The matching rows, by id. */
    ghost function IdRows(shape: Shape): seq<(nat, I64)>
      requires columns.Aligned() && columns.GroupIndex(Rows()) <= |groupIds|
    {
      Keyed(MatchedRows(columns, shape, groupIds, Rows()))
    }
  }

  /** The same columns with explicit definition levels. */
  function WithLevels(c: Columns): Columns {
    if c.defLevels.Some? then c else c.(defLevels := Some(seq(|c.predicateValues|, _ => 1)))
  }

  lemma {:induction false} LevelsKeepIndex(c: Columns, n: nat)
    requires c.Aligned() && n <= |c.predicateValues|
    ensures WithLevels(c).GroupIndex(n) == c.GroupIndex(n)
  {
    if n > 0 { LevelsKeepIndex(c, n - 1); }
  }

  /** The plain rows are the id rows with every id replaced by its dictionary entry. */
  ghost predicate Expands<K>(ids: seq<(Option<nat>, I64)>, plain: seq<(Option<K>, I64)>, dictionary: seq<K>,
                             e: Option<Entry>)
  {
    && IdsBelow(Keyed(ids), |dictionary|) && Keyed(plain) == Expanded(Keyed(ids), dictionary)
    && AddNulls(e, plain) == AddNulls(e, ids) && |plain| == |ids|
  }

  lemma {:induction false} ExpandedSnoc<K>(rows: seq<(nat, I64)>, dictionary: seq<K>, id: nat, value: I64)
    requires IdsBelow(rows, |dictionary|) && id < |dictionary|
    ensures IdsBelow(rows + [(id, value)], |dictionary|)
    ensures Expanded(rows + [(id, value)], dictionary) == Expanded(rows, dictionary) + [(dictionary[id], value)]
  {
    assert (rows + [(id, value)])[..|rows|] == rows;
  }

  /** The matching rows of the plain columns are those of the ids, expanded. */
  lemma {:induction false} MatchedExpands<K>(b: DictionaryBatch<K>, shape: Shape, n: nat, e: Option<Entry>)
    requires b.WellFormed(shape) && n <= b.Rows() && b.columns.GroupIndex(n) <= |b.groupIds|
    requires WithLevels(b.columns).GroupIndex(n) == b.columns.GroupIndex(n)
    ensures var ids := MatchedRows(b.columns, shape, b.groupIds, n);
            var plain := MatchedRows(WithLevels(b.columns), shape, b.groupKeys, n);
            Expands(ids, plain, b.dictionary, e)
  {
    if n > 0 {
      LevelsKeepIndex(b.columns, n - 1);
      MatchedExpands(b, shape, n - 1, e);
      MatchedSnoc(b.columns, shape, b.groupIds, n - 1);
      MatchedSnoc(WithLevels(b.columns), shape, b.groupKeys, n - 1);
      if Matches(b.columns.predicateValues[n - 1], shape) {
        MatchedRowExpands(b, shape, n - 1, e, MatchedRows(b.columns, shape, b.groupIds, n - 1),
                          MatchedRows(WithLevels(b.columns), shape, b.groupKeys, n - 1));
      }
    }
  }

  lemma {:induction false} MatchedRowExpands<K>(b: DictionaryBatch<K>, shape: Shape, row: nat, e: Option<Entry>,
                                                ids: seq<(Option<nat>, I64)>, plain: seq<(Option<K>, I64)>)
    requires b.WellFormed(shape) && row < b.Rows() && b.columns.GroupIndex(row + 1) <= |b.groupIds|
    requires Matches(b.columns.predicateValues[row], shape) && Expands(ids, plain, b.dictionary, e)
    ensures var value := b.columns.sumValues[row];
            if b.columns.IsNull(row)
            then Expands(ids + [(None, value)], plain + [(None, value)], b.dictionary, e)
            else Expands(ids + [(Some(b.groupIds[b.columns.GroupIndex(row)]), value)],
                         plain + [(Some(b.groupKeys[b.columns.GroupIndex(row)]), value)], b.dictionary, e)
  {
    var value := b.columns.sumValues[row];
    if b.columns.IsNull(row) {
      RowsSnoc(e, ids, None, value);
      RowsSnoc(e, plain, None, value);
    } else {
      MatchedIdBelow(b.columns, shape, b.groupIds, row, |b.dictionary|);
      var id := b.groupIds[b.columns.GroupIndex(row)];
      RowsSnoc(e, ids, Some(id), value);
      RowsSnoc(e, plain, Some(b.dictionary[id]), value);
      ExpandedSnoc(Keyed(ids), b.dictionary, id, value);
    }
  }

  ghost predicate AllWellFormed<K>(batches: seq<DictionaryBatch<K>>, shape: Shape) {
    forall i :: 0 <= i < |batches| ==> batches[i].WellFormed(shape)
  }

  /** The groups that the plain consumer ends with. */
  ghost function PlainAfter<K>(batches: seq<DictionaryBatch<K>>, shape: Shape): map<K, Entry>
    requires AllWellFormed(batches, shape)
  {
    if batches == [] then map[]
    else
      var b := batches[|batches| - 1];
      AddRows(PlainAfter(batches[..|batches| - 1], shape), Expanded(b.IdRows(shape), b.dictionary))
  }

  /** The groups that the dictionary consumer ends with. */
  ghost function CodedAfter<K>(batches: seq<DictionaryBatch<K>>, shape: Shape): map<K, Entry>
    requires AllWellFormed(batches, shape)
  {
    if batches == [] then map[]
    else
      var b := batches[|batches| - 1];
      TouchedCovers(b.IdRows(shape), |b.dictionary|);
      AddTouched(CodedAfter(batches[..|batches| - 1], shape), Touched(b.IdRows(shape)), b.IdRows(shape), b.dictionary)
  }

  /** In no batch does anything saturate on this key. */
  ghost predicate NeverSaturates<K>(batches: seq<DictionaryBatch<K>>, shape: Shape, key: K)
    requires AllWellFormed(batches, shape)
  {
    batches != [] ==>
      var init, b := batches[..|batches| - 1], batches[|batches| - 1];
      TouchedCovers(b.IdRows(shape), |b.dictionary|);
      && NeverSaturates(init, shape, key)
      && NothingSaturates(EntryOf(PlainAfter(init, shape), key).1, b.IdRows(shape), b.dictionary, key)
  }

  /** The matching absolute addends of one key over all batches. */
  ghost function TotalWeight<K>(batches: seq<DictionaryBatch<K>>, shape: Shape, key: K): nat
    requires AllWellFormed(batches, shape)
  {
    if batches == [] then 0
    else
      var b := batches[|batches| - 1];
      TotalWeight(batches[..|batches| - 1], shape, key) + Weight(Expanded(b.IdRows(shape), b.dictionary), key)
  }

  /** Both states know the same keys with the same counts. */
  lemma {:induction false} RunsShareGroups<K>(batches: seq<DictionaryBatch<K>>, shape: Shape, key: K)
    requires AllWellFormed(batches, shape)
    ensures PlainAfter(batches, shape).Keys == CodedAfter(batches, shape).Keys
    ensures EntryOf(PlainAfter(batches, shape), key).0 == EntryOf(CodedAfter(batches, shape), key).0 <= USIZE_MAX
  {
    if batches != [] {
      var init, b := batches[..|batches| - 1], batches[|batches| - 1];
      RunsShareGroups(init, shape, key);
      var plain, coded := PlainAfter(init, shape), CodedAfter(init, shape);
      ConsumersShareKeys(plain, coded, b.IdRows(shape), b.dictionary);
      ConsumersShareCounts(plain, coded, b.IdRows(shape), b.dictionary, key);
    }
  }

  /** Both states hold the same sum for every key on which nothing saturates. */
  lemma {:induction false} RunsShareSums<K>(batches: seq<DictionaryBatch<K>>, shape: Shape, key: K)
    requires AllWellFormed(batches, shape) && NeverSaturates(batches, shape, key)
    ensures EntryOf(PlainAfter(batches, shape), key).1 == EntryOf(CodedAfter(batches, shape), key).1
    ensures Abs(EntryOf(PlainAfter(batches, shape), key).1) <= TotalWeight(batches, shape, key)
  {
    if batches != [] {
      var init, b := batches[..|batches| - 1], batches[|batches| - 1];
      RunsShareSums(init, shape, key);
      TouchedCovers(b.IdRows(shape), |b.dictionary|);
      ConsumersShareSums(PlainAfter(init, shape), CodedAfter(init, shape), b.IdRows(shape), b.dictionary, key);
      SumWithinWeight(Expanded(b.IdRows(shape), b.dictionary), key);
    }
  }

  /** A key whose matching absolute addends fit an `i64` never saturates. */
  lemma {:induction false} LightKeysNeverSaturate<K>(batches: seq<DictionaryBatch<K>>, shape: Shape, key: K)
    requires AllWellFormed(batches, shape) && TotalWeight(batches, shape, key) <= I64_MAX
    ensures NeverSaturates(batches, shape, key)
  {
    if batches != [] {
      var init, b := batches[..|batches| - 1], batches[|batches| - 1];
      LightKeysNeverSaturate(init, shape, key);
      RunsShareSums(init, shape, key);
      TouchedCovers(b.IdRows(shape), |b.dictionary|);
      LightKeysDoNotSaturate(EntryOf(PlainAfter(init, shape), key).1, b.IdRows(shape), b.dictionary, key);
    }
  }

  // ----- all batches, read off their columns

  lemma {:induction false} LevelsKeepGroups(c: Columns, n: nat)
    requires c.Aligned() && n <= |c.predicateValues|
    ensures GroupsBefore(WithLevels(c), n) == GroupsBefore(c, n)
    ensures n < |c.predicateValues| ==> (HasGroup(WithLevels(c), n) <==> HasGroup(c, n))
  {
    if n > 0 { LevelsKeepGroups(c, n - 1); }
  }

  lemma {:induction false} LevelsKeepRows<K>(c: Columns, shape: Shape, groups: seq<K>, group: Option<K>, start: int,
                                             n: nat)
    requires c.Aligned() && n <= |c.predicateValues|
    ensures GroupRows(WithLevels(c), shape, groups, group, n) == GroupRows(c, shape, groups, group, n)
    ensures ClampedSum(WithLevels(c), shape, groups, group, start, n) == ClampedSum(c, shape, groups, group, start, n)
  {
    if n > 0 {
      LevelsKeepRows(c, shape, groups, group, start, n - 1);
      LevelsKeepGroups(c, n - 1);
    }
  }

  lemma {:induction false} LevelsKeepPassing(c: Columns, shape: Shape, n: nat)
    requires n <= |c.predicateValues|
    ensures PassingRows(WithLevels(c), shape, n) == PassingRows(c, shape, n)
  {
    if n > 0 { LevelsKeepPassing(c, shape, n - 1); }
  }

  /** The rows of all batches that pass the filter. */
  ghost function AllPassing<K>(batches: seq<DictionaryBatch<K>>, shape: Shape): nat {
    if batches == [] then 0
    else
      var b := batches[|batches| - 1];
      AllPassing(batches[..|batches| - 1], shape) + PassingRows(b.columns, shape, b.Rows())
  }

  /** The rows of all batches that count for the group. */
  ghost function AllRows<K>(batches: seq<DictionaryBatch<K>>, shape: Shape, group: Option<K>): nat {
    if batches == [] then 0
    else
      var b := batches[|batches| - 1];
      AllRows(batches[..|batches| - 1], shape, group) + GroupRows(b.columns, shape, b.groupKeys, group, b.Rows())
  }

  /** Their addends, added row by row and clamped each time. */
  ghost function AllSum<K>(batches: seq<DictionaryBatch<K>>, shape: Shape, group: Option<K>): int
    requires AllWellFormed(batches, shape)
  {
    if batches == [] then 0
    else
      var b := batches[|batches| - 1];
      ClampedSum(b.columns, shape, b.groupKeys, group, AllSum(batches[..|batches| - 1], shape, group), b.Rows())
  }

  /** The group is there when a row counts for it, and holds the count and the sum of these rows. */
  ghost predicate HoldsGroup<K>(entry: Option<Entry>, batches: seq<DictionaryBatch<K>>, shape: Shape, group: Option<K>)
    requires AllWellFormed(batches, shape)
  {
    && (entry.Some? <==> AllRows(batches, shape, group) > 0)
    && entry.GetOr((0, 0)) == (Min(AllRows(batches, shape, group), USIZE_MAX), AllSum(batches, shape, group))
  }

  function Lookup<K>(m: map<K, Entry>, key: K): Option<Entry> {
    if key in m then Some(m[key]) else None
  }

  ghost predicate HoldsBatches<K(!new)>(contents: map<K, Entry>, nulls: Option<Entry>, rows: nat,
                                        batches: seq<DictionaryBatch<K>>, shape: Shape)
    requires AllWellFormed(batches, shape)
  {
    && HoldsGroup(nulls, batches, shape, None) && rows == AllPassing(batches, shape)
    && forall k :: HoldsGroup(Lookup(contents, k), batches, shape, Some(k))
  }

  lemma {:induction false} HoldsGroupStep<K>(before: Option<Entry>, after: Option<Entry>,
                                             batches: seq<DictionaryBatch<K>>, shape: Shape, i: nat, group: Option<K>)
    requires i < |batches| && AllWellFormed(batches[..i], shape) && AllWellFormed(batches[..i + 1], shape)
    requires HoldsGroup(before, batches[..i], shape, group) && batches[i].columns.Aligned()
    requires var b := batches[i];
             && (after.Some? <==> before.Some? || GroupRows(b.columns, shape, b.groupKeys, group, b.Rows()) > 0)
             && (after.Some? ==>
                   Grew(before.GetOr((0, 0)), after.value, b.columns, shape, b.groupKeys, group, b.Rows()))
    ensures HoldsGroup(after, batches[..i + 1], shape, group)
  {
    var b := batches[i];
    assert batches[..i + 1][..i] == batches[..i];
    if after.None? { NothingGrew(b.columns, shape, b.groupKeys, group, b.Rows()); }
  }

  lemma {:induction false} GrewWithoutLevels<K>(before: Entry, after: Entry, c: Columns, shape: Shape, groups: seq<K>,
                                                group: Option<K>)
    requires c.Aligned()
    ensures GroupRows(WithLevels(c), shape, groups, group, |c.predicateValues|) ==
            GroupRows(c, shape, groups, group, |c.predicateValues|)
    ensures Grew(before, after, WithLevels(c), shape, groups, group, |c.predicateValues|) <==>
            Grew(before, after, c, shape, groups, group, |c.predicateValues|)
  {
    LevelsKeepRows(c, shape, groups, group, before.1, |c.predicateValues|);
  }

  /** One more batch is held when the plain consumer took it. */
  lemma {:induction false} HoldsBatchesStep<K(!new)>(contents: map<K, Entry>, nulls: Option<Entry>, rows: nat,
                                                     newContents: map<K, Entry>, newNulls: Option<Entry>,
                                                     batches: seq<DictionaryBatch<K>>, shape: Shape, i: nat)
    requires i < |batches| && AllWellFormed(batches, shape) && AllWellFormed(batches[..i], shape)
    requires HoldsBatches(contents, nulls, rows, batches[..i], shape) && batches[i].columns.Aligned()
    requires var b := batches[i];
             && GroupsGrew(contents, newContents, WithLevels(b.columns), shape, b.groupKeys, b.Rows())
             && NullsGrew(nulls, newNulls, WithLevels(b.columns), shape, b.groupKeys, b.Rows())
    ensures AllWellFormed(batches[..i + 1], shape)
    ensures HoldsBatches(newContents, newNulls,
                         rows + PassingRows(WithLevels(batches[i].columns), shape, batches[i].Rows()),
                         batches[..i + 1], shape)
  {
    var b := batches[i];
    assert batches[..i + 1][..i] == batches[..i];
    LevelsKeepPassing(b.columns, shape, b.Rows());
    GrewWithoutLevels(nulls.GetOr((0, 0)), newNulls.GetOr((0, 0)), b.columns, shape, b.groupKeys, None);
    HoldsGroupStep(nulls, newNulls, batches, shape, i, None);
    forall k ensures HoldsGroup(Lookup(newContents, k), batches[..i + 1], shape, Some(k)) {
      var before, after := Lookup(contents, k), Lookup(newContents, k);
      GrewWithoutLevels(before.GetOr((0, 0)), after.GetOr((0, 0)), b.columns, shape, b.groupKeys, Some(k));
      if GroupRows(b.columns, shape, b.groupKeys, Some(k), b.Rows()) > 0 {
        RowsAreOfGroups(b.columns, shape, b.groupKeys, k, b.Rows());
      }
      HoldsGroupStep(before, after, batches, shape, i, Some(k));
    }
  }

  /** One batch through both consumers. */
  method ConsumeBoth<K(==)>(b: DictionaryBatch<K>, shape: Shape, plain: DirectUtf8CountSumState<K>,
                            coded: DirectUtf8CountSumState<K>)
    requires plain != coded && plain.Valid() && coded.Valid() && b.WellFormed(shape)
    requires plain.nullGroup == coded.nullGroup && plain.rows == coded.rows
    modifies plain, coded
    ensures plain.Valid() && coded.Valid() && AllBelow(Touched(b.IdRows(shape)), |b.dictionary|)
    ensures plain.contents == AddRows(old(plain.contents), Expanded(b.IdRows(shape), b.dictionary))
    ensures coded.contents ==
              AddTouched(old(coded.contents), Touched(b.IdRows(shape)), b.IdRows(shape), b.dictionary)
    ensures plain.nullGroup == coded.nullGroup && plain.rows == coded.rows
    ensures GroupsGrew(old(plain.contents), plain.contents, WithLevels(b.columns), shape, b.groupKeys, b.Rows())
    ensures NullsGrew(old(plain.nullGroup), plain.nullGroup, WithLevels(b.columns), shape, b.groupKeys, b.Rows())
    ensures plain.rows == old(plain.rows) + PassingRows(WithLevels(b.columns), shape, b.Rows())
    ensures plain.batches == old(plain.batches) + 1 && coded.batches == old(coded.batches) + 1
  {
    LevelsKeepIndex(b.columns, b.Rows());
    MatchedExpands(b, shape, b.Rows(), plain.nullGroup);
    plain.Consume(WithLevels(b.columns), b.groupKeys, shape);
    coded.ConsumeDictionaryIds(b.columns, b.groupIds, b.dictionary, shape);
  }

  /** What both states hold after these batches. */
  ghost predicate AfterBatches<K(!new)>(plain: DirectUtf8CountSumState<K>, coded: DirectUtf8CountSumState<K>,
                                        batches: seq<DictionaryBatch<K>>, shape: Shape)
    requires AllWellFormed(batches, shape)
    reads plain, coded
  {
    && plain.Valid() && coded.Valid()
    && plain.contents == PlainAfter(batches, shape) && coded.contents == CodedAfter(batches, shape)
    && plain.nullGroup == coded.nullGroup && plain.rows == coded.rows
    && plain.batches == coded.batches == |batches|
    && HoldsBatches(plain.contents, plain.nullGroup, plain.rows, batches, shape)
  }

  /** The next batch through both consumers. */
  method ConsumeNext<K(!new, ==)>(batches: seq<DictionaryBatch<K>>, i: nat, shape: Shape,
                                  plain: DirectUtf8CountSumState<K>, coded: DirectUtf8CountSumState<K>)
    requires i < |batches| && AllWellFormed(batches, shape) && AllWellFormed(batches[..i], shape)
    requires plain != coded && AfterBatches(plain, coded, batches[..i], shape)
    modifies plain, coded
    ensures AllWellFormed(batches[..i + 1], shape) && AfterBatches(plain, coded, batches[..i + 1], shape)
  {
    assert batches[..i + 1][..i] == batches[..i];
    ghost var contents, nulls, rows := plain.contents, plain.nullGroup, plain.rows;
    ConsumeBoth(batches[i], shape, plain, coded);
    HoldsBatchesStep(contents, nulls, rows, plain.contents, plain.nullGroup, batches, shape, i);
  }

  /**
   * For every batch sequence, with dictionaries of any size and duplicate entries, both
   * consumers end with the same groups, counts, null group, row count and batch count and
   * a zeroed scratch table. Every key on which nothing saturated has the same sum. The plain
   * consumer's groups are those of the rows that pass the filter, null group included, each
   * with the count and the clamped sum of its rows.
   */
  method RunBoth<K(!new, ==)>(batches: seq<DictionaryBatch<K>>, shape: Shape)
    returns (plain: DirectUtf8CountSumState<K>, coded: DirectUtf8CountSumState<K>)
    requires AllWellFormed(batches, shape)
    ensures plain.Valid() && coded.Valid()
    ensures plain.nullGroup == coded.nullGroup
    ensures plain.rows == coded.rows && plain.batches == coded.batches == |batches|
    ensures HoldsBatches(plain.contents, plain.nullGroup, plain.rows, batches, shape)
    ensures plain.contents.Keys == coded.contents.Keys
    ensures forall k :: k in plain.contents ==> plain.contents[k].0 == coded.contents[k].0
    ensures forall k :: k in plain.contents && NeverSaturates(batches, shape, k) ==>
              plain.contents[k] == coded.contents[k]
  {
    plain := new DirectUtf8CountSumState();
    coded := new DirectUtf8CountSumState();
    for i := 0 to |batches|
      invariant fresh(plain) && fresh(coded) && plain != coded
      invariant AllWellFormed(batches[..i], shape) && AfterBatches(plain, coded, batches[..i], shape)
    {
      ConsumeNext(batches, i, shape, plain, coded);
    }
    assert batches[..|batches|] == batches;
    RunsAgree(batches, shape, plain.contents, coded.contents);
  }

  lemma {:induction false} RunsAgree<K>(batches: seq<DictionaryBatch<K>>, shape: Shape, plain: map<K, Entry>,
                                        coded: map<K, Entry>)
    requires AllWellFormed(batches, shape)
    requires plain == PlainAfter(batches, shape) && coded == CodedAfter(batches, shape)
    ensures plain.Keys == coded.Keys
    ensures forall k :: k in plain ==> plain[k].0 == coded[k].0
    ensures forall k :: k in plain && NeverSaturates(batches, shape, k) ==> plain[k] == coded[k]
  {
    forall k | k in plain
      ensures k in coded && plain[k].0 == coded[k].0 && (NeverSaturates(batches, shape, k) ==> plain[k] == coded[k])
    {
      RunsShareGroups(batches, shape, k);
      if NeverSaturates(batches, shape, k) { RunsShareSums(batches, shape, k); }
    }
    forall k | k in coded ensures k in plain {
      RunsShareGroups(batches, shape, k);
    }
  }
}
