/**
 * Count and sum per group key: the plain consumer of byte keys, and the consumer of
 * dictionary ids that sums locally per id and then once per touched id.
 */
module DictionaryAgg {
  import opened Machine
  import opened DictionaryColumns

  // ----- the rows that pass the filter

  /** The matching rows among the first `n`: group value, or None for a null group, and addend. */
  function MatchedRows<T>(c: Columns, shape: Shape, groups: seq<T>, n: nat): seq<(Option<T>, I64)>
    requires c.Aligned() && n <= |c.predicateValues| && c.GroupIndex(n) <= |groups|
  {
    if n == 0 then []
    else
      var before := MatchedRows(c, shape, groups, n - 1);
      if !Matches(c.predicateValues[n - 1], shape) then before
      else before + [(if c.IsNull(n - 1) then None else Some(groups[c.GroupIndex(n - 1)]), c.sumValues[n - 1])]
  }

  /** The matching rows whose group is not null. */
  function Keyed<T>(rows: seq<(Option<T>, I64)>): seq<(T, I64)> {
    if rows == [] then []
    else
      var before, row := Keyed(rows[..|rows| - 1]), rows[|rows| - 1];
      if row.0.None? then before else before + [(row.0.value, row.1)]
  }

  // ----- saturating accumulation

  /** `i64::saturating_add` */
  function SatSum(a: int, b: int): I64 { Max(I64_MIN, Min(a + b, I64_MAX)) }

  type Entry = (nat, int)

  function Accumulate(e: Entry, count: nat, sum: int): Entry {
    (SatAdd(e.0, count), SatSum(e.1, sum))
  }

  function EntryOf<K>(m: map<K, Entry>, key: K): Entry {
    if key in m then m[key] else (0, 0)
  }

  /** Row by row: what the plain consumer does to the groups. */
  function AddRows<K>(m: map<K, Entry>, rows: seq<(K, I64)>): map<K, Entry> {
    if rows == [] then m
    else
      var before, row := AddRows(m, rows[..|rows| - 1]), rows[|rows| - 1];
      before[row.0 := Accumulate(EntryOf(before, row.0), 1, row.1)]
  }

  /** What both consumers do to the null group. */
  function AddNulls<T>(e: Option<Entry>, rows: seq<(Option<T>, I64)>): Option<Entry> {
    if rows == [] then e
    else
      var before, row := AddNulls(e, rows[..|rows| - 1]), rows[|rows| - 1];
      if row.0.Some? then before else Some(Accumulate(before.GetOr((0, 0)), 1, row.1))
  }

  /** The local entry of one dictionary id. */
  function LocalEntry(rows: seq<(nat, I64)>, id: nat): Entry {
    if rows == [] then (0, 0)
    else
      var before, row := LocalEntry(rows[..|rows| - 1], id), rows[|rows| - 1];
      if row.0 == id then Accumulate(before, 1, row.1) else before
  }

  /** The ids in order of first use. */
  function Touched(rows: seq<(nat, I64)>): seq<nat> {
    if rows == [] then []
    else
      var before, row := Touched(rows[..|rows| - 1]), rows[|rows| - 1];
      if row.0 in before then before else before + [row.0]
  }

  predicate IdsBelow(rows: seq<(nat, I64)>, n: nat) {
    forall i :: 0 <= i < |rows| ==> rows[i].0 < n
  }

  predicate AllBelow(ids: seq<nat>, n: nat) {
    forall i :: 0 <= i < |ids| ==> ids[i] < n
  }

  /** Id by id: what the dictionary consumer does to the groups. */
  function AddTouched<K>(m: map<K, Entry>, ids: seq<nat>, rows: seq<(nat, I64)>, dictionary: seq<K>): map<K, Entry>
    requires AllBelow(ids, |dictionary|)
  {
    if ids == [] then m
    else
      var before, id := AddTouched(m, ids[..|ids| - 1], rows, dictionary), ids[|ids| - 1];
      var (count, sum) := LocalEntry(rows, id);
      before[dictionary[id] := Accumulate(EntryOf(before, dictionary[id]), count, sum)]
  }

  // ----- the state

  /** The index and the group list name the same keys, once each, and hold the contents. */
  ghost predicate Indexes<K>(groups: map<K, nat>, groupValues: seq<(K, nat, int)>, contents: map<K, Entry>) {
    && contents.Keys == groups.Keys
    && (forall k :: k in groups ==>
          groups[k] < |groupValues| && groupValues[groups[k]] == (k, contents[k].0, contents[k].1))
    && (forall i :: 0 <= i < |groupValues| ==> groupValues[i].0 in groups && groups[groupValues[i].0] == i)
  }

  lemma {:induction false} NewGroupIndexed<K>(groups: map<K, nat>, groupValues: seq<(K, nat, int)>,
                                              contents: map<K, Entry>, key: K)
    requires Indexes(groups, groupValues, contents) && key !in groups
    ensures Indexes(groups[key := |groupValues|], groupValues + [(key, 0, 0)], contents[key := (0, 0)])
  {
  }

  lemma {:induction false} ChangedGroupIndexed<K>(groups: map<K, nat>, groupValues: seq<(K, nat, int)>,
                                                  contents: map<K, Entry>, id: nat, e: Entry)
    requires Indexes(groups, groupValues, contents) && id < |groupValues|
    ensures var key := groupValues[id].0;
            Indexes(groups, groupValues[id := (key, e.0, e.1)], contents[key := e])
  {
  }

  /** One more matching row is keyed, or counts for the null group. */
  lemma {:induction false} RowsSnoc<T>(nulls: Option<Entry>, rows: seq<(Option<T>, I64)>, group: Option<T>, value: I64)
    ensures Keyed(rows + [(group, value)]) ==
              if group.None? then Keyed(rows) else Keyed(rows) + [(group.value, value)]
    ensures AddNulls(nulls, rows + [(group, value)]) ==
              if group.Some? then AddNulls(nulls, rows)
              else Some(Accumulate(AddNulls(nulls, rows).GetOr((0, 0)), 1, value))
  {
    assert (rows + [(group, value)])[..|rows|] == rows;
  }

  lemma {:induction false} AccumulateIsClamped(e: Entry, count: nat, sum: int)
    ensures Accumulate(e, count, sum) == (Min(e.0 + count, USIZE_MAX), Clamp(e.1 + sum))
  {
  }

  // ----- the matching rows, read off the columns

  lemma {:induction false} PassingRowsMatch<T>(c: Columns, shape: Shape, groups: seq<T>, n: nat)
    requires c.Aligned() && n <= |c.predicateValues| && c.GroupIndex(n) <= |groups|
    ensures PassingRows(c, shape, n) == |MatchedRows(c, shape, groups, n)|
  {
    if n > 0 {
      MatchesIsPasses(c.predicateValues[n - 1], shape);
      PassingRowsMatch(c, shape, groups, n - 1);
    }
  }

  lemma {:induction false} NullsGrow<T>(e: Option<Entry>, c: Columns, shape: Shape, groups: seq<T>, n: nat)
    requires c.Aligned() && n <= |c.predicateValues| && c.GroupIndex(n) <= |groups|
    ensures NullsGrew(e, AddNulls(e, MatchedRows(c, shape, groups, n)), c, shape, groups, n)
  {
    if n > 0 {
      var before, row := MatchedRows(c, shape, groups, n - 1), n - 1;
      NullsGrow(e, c, shape, groups, row);
      MatchingRowCounts(c, shape, groups, None, row);
      var nulls := AddNulls(e, before);
      AccumulateIsClamped(nulls.GetOr((0, 0)), 1, c.sumValues[row]);
      if Matches(c.predicateValues[row], shape) { RowsSnoc(e, before, GroupOf(c, groups, row), c.sumValues[row]); }
      if nulls.Some? || CountsFor(c, shape, groups, None, row) {
        if nulls.None? { NothingGrew(c, shape, groups, None, row); }
        GrewByRow(e.GetOr((0, 0)), nulls.GetOr((0, 0)), c, shape, groups, None, row);
      }
    }
  }

  lemma {:induction false} GroupGrows<K>(m: map<K, Entry>, c: Columns, shape: Shape, groups: seq<K>, key: K, n: nat)
    requires c.Aligned() && n <= |c.predicateValues| && c.GroupIndex(n) <= |groups|
    ensures var after := AddRows(m, Keyed(MatchedRows(c, shape, groups, n)));
            && Grew(EntryOf(m, key), EntryOf(after, key), c, shape, groups, Some(key), n)
            && (key in after <==> key in m || GroupRows(c, shape, groups, Some(key), n) > 0)
  {
    if n > 0 {
      var row := n - 1;
      var before := Keyed(MatchedRows(c, shape, groups, row));
      var entry := EntryOf(AddRows(m, before), key);
      GroupGrows(m, c, shape, groups, key, row);
      MatchingRowCounts(c, shape, groups, Some(key), row);
      GrewByRow(EntryOf(m, key), entry, c, shape, groups, Some(key), row);
      AccumulateIsClamped(entry, 1, c.sumValues[row]);
      MatchedSnoc(c, shape, groups, row);
      if Matches(c.predicateValues[row], shape) && !c.IsNull(row) {
        AddRowsSnoc(m, before, groups[c.GroupIndex(row)], c.sumValues[row]);
      }
    }
  }

  lemma {:induction false} GroupsGrow<K>(m: map<K, Entry>, c: Columns, shape: Shape, groups: seq<K>, n: nat)
    requires c.Aligned() && n <= |c.predicateValues| && c.GroupIndex(n) <= |groups|
    ensures GroupsGrew(m, AddRows(m, Keyed(MatchedRows(c, shape, groups, n))), c, shape, groups, n)
  {
    var after := AddRows(m, Keyed(MatchedRows(c, shape, groups, n)));
    forall k | k in m ensures k in after { GroupGrows(m, c, shape, groups, k, n); }
    forall k | k in groups && GroupRows(c, shape, groups, Some(k), n) > 0 ensures k in after {
      GroupGrows(m, c, shape, groups, k, n);
    }
    forall k | k in after
      ensures k in m || GroupRows(c, shape, groups, Some(k), n) > 0
      ensures Grew(if k in m then m[k] else (0, 0), after[k], c, shape, groups, Some(k), n)
    {
      GroupGrows(m, c, shape, groups, k, n);
    }
  }

  /** What the matching rows of a whole batch do, read off its columns. */
  lemma {:induction false} ConsumedRows<K>(m: map<K, Entry>, nulls: Option<Entry>, c: Columns, groups: seq<K>,
                                           shape: Shape)
    requires c.Aligned() && c.GroupIndex(|c.predicateValues|) <= |groups|
    ensures var matched := MatchedRows(c, shape, groups, |c.predicateValues|);
            && GroupsGrew(m, AddRows(m, Keyed(matched)), c, shape, groups, |c.predicateValues|)
            && NullsGrew(nulls, AddNulls(nulls, matched), c, shape, groups, |c.predicateValues|)
            && PassingRows(c, shape, |c.predicateValues|) == |matched|
  {
    GroupsGrow(m, c, shape, groups, |c.predicateValues|);
    NullsGrow(nulls, c, shape, groups, |c.predicateValues|);
    PassingRowsMatch(c, shape, groups, |c.predicateValues|);
  }

  class DirectUtf8CountSumState<K(==)> {
    var groups: map<K, nat>
    var groupValues: seq<(K, nat, int)>
    var nullGroup: Option<Entry>
    var localGroups: seq<Entry>
    var localTouched: seq<nat>
    var batches: nat
    var rows: nat
    /** The groups as a plain map */
    ghost var contents: map<K, Entry>

    ghost predicate Indexed()
      reads this
    {
      Indexes(groups, groupValues, contents)
    }

    /** Between calls the scratch table is all zero. */
    ghost predicate Valid()
      reads this
    {
      && Indexed()
      && (forall i :: 0 <= i < |localGroups| ==> localGroups[i] == (0, 0))
      && localTouched == []
    }

    constructor ()
      ensures Valid() && contents == map[] && nullGroup == None && batches == 0 && rows == 0
    {
      groups, groupValues, nullGroup, localGroups, localTouched := map[], [], None, [], [];
      batches, rows, contents := 0, 0, map[];
    }

    /** The index of a key's group, which is appended on first use. */
    method GroupId(key: K) returns (id: nat)
      requires Indexed()
      modifies `groups, `groupValues, `contents
      ensures Indexed() && id < |groupValues| && groupValues[id].0 == key
      ensures contents == if key in old(contents) then old(contents) else old(contents)[key := (0, 0)]
    {
      if key in groups { return groups[key]; }
      id := |groupValues|;
      NewGroupIndexed(groups, groupValues, contents, key);
      groups, groupValues := groups[key := id], groupValues + [(key, 0, 0)];
      contents := contents[key := (0, 0)];
    }

    method UpdateGroup(key: K, count: nat, sum: int)
      requires Indexed()
      modifies `groups, `groupValues, `contents
      ensures Indexed()
      ensures contents == old(contents)[key := Accumulate(EntryOf(old(contents), key), count, sum)]
      ensures var before := if key in old(contents) then old(contents)[key] else (0, 0);
              contents[key] == (Min(before.0 + count, USIZE_MAX), Clamp(before.1 + sum))
    {
      AccumulateIsClamped(EntryOf(contents, key), count, sum);
      var id := GroupId(key);
      var (_, groupCount, groupSum) := groupValues[id];
      ChangedGroupIndexed(groups, groupValues, contents, id, Accumulate(contents[key], count, sum));
      groupValues := groupValues[id := (key, SatAdd(groupCount, count), SatSum(groupSum, sum))];
      contents := contents[key := Accumulate(contents[key], count, sum)];
    }

    method AddNull(value: I64)
      modifies `nullGroup
      ensures nullGroup == Some(Accumulate(old(nullGroup).GetOr((0, 0)), 1, value))
    {
      nullGroup := Some(Accumulate(nullGroup.GetOr((0, 0)), 1, value));
    }

    /** One matching row of the plain consumer. */
    method ConsumeRow(group: Option<K>, value: I64, ghost groups0: map<K, Entry>, ghost nulls0: Option<Entry>,
                      ghost matched: seq<(Option<K>, I64)>)
      requires Indexed() && contents == AddRows(groups0, Keyed(matched)) && nullGroup == AddNulls(nulls0, matched)
      modifies `groups, `groupValues, `contents, `nullGroup, `rows
      ensures Indexed() && rows == old(rows) + 1
      ensures contents == AddRows(groups0, Keyed(matched + [(group, value)]))
      ensures nullGroup == AddNulls(nulls0, matched + [(group, value)])
    {
      RowsSnoc(nulls0, matched, group, value);
      if group.Some? { AddRowsSnoc(groups0, Keyed(matched), group.value, value); }
      rows := rows + 1;
      match group
      case None => AddNull(value);
      case Some(key) => UpdateGroup(key, 1, value);
    }

    /** The plain consumer: one group value per row that is not null. */
    method Consume(c: Columns, groupKeys: seq<K>, shape: Shape)
      requires Valid() && c.Aligned() && c.defLevels.Some? && c.GroupIndex(|c.predicateValues|) <= |groupKeys|
      modifies this
      ensures Valid() && batches == old(batches) + 1
      ensures var matched := MatchedRows(c, shape, groupKeys, |c.predicateValues|);
              && contents == AddRows(old(contents), Keyed(matched))
              && nullGroup == AddNulls(old(nullGroup), matched) && rows == old(rows) + |matched|
      ensures GroupsGrew(old(contents), contents, c, shape, groupKeys, |c.predicateValues|)
      ensures NullsGrew(old(nullGroup), nullGroup, c, shape, groupKeys, |c.predicateValues|)
      ensures rows == old(rows) + PassingRows(c, shape, |c.predicateValues|)
    {
      batches := batches + 1;
      var groupIndex := 0;
      ghost var matched: seq<(Option<K>, I64)> := [];
      for row := 0 to |c.predicateValues|
        invariant Valid() && batches == old(batches) + 1 && rows == old(rows) + |matched|
        invariant groupIndex == c.GroupIndex(row) <= |groupKeys|
        invariant matched == MatchedRows(c, shape, groupKeys, row)
        invariant contents == AddRows(old(contents), Keyed(matched)) && nullGroup == AddNulls(old(nullGroup), matched)
      {
        GroupIndexMonotone(c, row + 1, |c.predicateValues|);
        var group := if c.IsNull(row) then None else Some(groupKeys[groupIndex]);
        if Matches(c.predicateValues[row], shape) {
          ConsumeRow(group, c.sumValues[row], old(contents), old(nullGroup), matched);
          matched := matched + [(group, c.sumValues[row])];
        }
        if !c.IsNull(row) { groupIndex := groupIndex + 1; }
      }
      ConsumedRows(old(contents), old(nullGroup), c, groupKeys, shape);
    }

    /**
     * The dictionary consumer: one id per row that is not null, summed per id, then per key.
     * Only the ids of matching rows are looked up.
     */
    method ConsumeDictionaryIds(c: Columns, groupIds: seq<nat>, dictionary: seq<K>, shape: Shape)
      requires Valid() && c.Aligned() && c.GroupIndex(|c.predicateValues|) <= |groupIds|
      requires IdsBelow(Keyed(MatchedRows(c, shape, groupIds, |c.predicateValues|)), |dictionary|)
      modifies this
      ensures Valid() && batches == old(batches) + 1
      ensures var matched := MatchedRows(c, shape, groupIds, |c.predicateValues|);
              && AllBelow(Touched(Keyed(matched)), |dictionary|)
              && contents == AddTouched(old(contents), Touched(Keyed(matched)), Keyed(matched), dictionary)
              && nullGroup == AddNulls(old(nullGroup), matched) && rows == old(rows) + |matched|
      ensures NullsGrew(old(nullGroup), nullGroup, c, shape, groupIds, |c.predicateValues|)
      ensures rows == old(rows) + PassingRows(c, shape, |c.predicateValues|)
    {
      NullsGrow(nullGroup, c, shape, groupIds, |c.predicateValues|);
      PassingRowsMatch(c, shape, groupIds, |c.predicateValues|);
      batches := batches + 1;
      ghost var keyed := Keyed(MatchedRows(c, shape, groupIds, |c.predicateValues|));
      TouchedBelow(keyed, |dictionary|);
      PrepareScratch(|dictionary|);
      SumPerId(c, groupIds, shape);
      var touched := localTouched;
      assert touched == Touched(keyed);
      localTouched := [];
      DrainTouched(touched, keyed, dictionary);
    }

    /** Makes the scratch table, which is all zero, large enough. */
    method PrepareScratch(ids: nat)
      requires Valid()
      modifies `localGroups, `localTouched
      ensures Indexed() && LocalHolds([]) && |localGroups| >= ids
    {
      if |localGroups| < ids { localGroups := Resize(localGroups, ids, (0, 0)); }
      localTouched := [];
    }

    /** The scratch table holds the local entry of every id. */
    ghost predicate LocalHolds(keyed: seq<(nat, I64)>)
      reads this
    {
      && (forall id :: 0 <= id < |localGroups| ==> localGroups[id] == LocalEntry(keyed, id))
      && localTouched == Touched(keyed)
      && AllBelow(localTouched, |localGroups|)
    }

    /** One matching row of the dictionary consumer. */
    method SumRow(group: Option<nat>, value: I64, ghost nulls0: Option<Entry>, ghost matched: seq<(Option<nat>, I64)>)
      requires LocalHolds(Keyed(matched)) && nullGroup == AddNulls(nulls0, matched)
      requires group.Some? ==> group.value < |localGroups|
      modifies `localGroups, `localTouched, `nullGroup, `rows
      ensures rows == old(rows) + 1 && |localGroups| == |old(localGroups)|
      ensures LocalHolds(Keyed(matched + [(group, value)])) && nullGroup == AddNulls(nulls0, matched + [(group, value)])
    {
      assert (matched + [(group, value)])[..|matched|] == matched;
      rows := rows + 1;
      match group
      case None => AddNull(value);
      case Some(id) =>
        SumId(id, value, Keyed(matched));
    }

    /** Adds a value to the local entry of an id, which is touched on first use. */
    method SumId(id: nat, value: I64, ghost keyed: seq<(nat, I64)>)
      requires LocalHolds(keyed) && id < |localGroups|
      modifies `localGroups, `localTouched
      ensures LocalHolds(keyed + [(id, value)]) && |localGroups| == |old(localGroups)|
    {
      TouchedWhenCounted(keyed, id);
      LocalSnoc(keyed, id, value);
      if localGroups[id].0 == 0 { localTouched := localTouched + [id]; }
      localGroups := localGroups[id := Accumulate(localGroups[id], 1, value)];
    }

    method SumPerId(c: Columns, groupIds: seq<nat>, shape: Shape)
      requires c.Aligned() && c.GroupIndex(|c.predicateValues|) <= |groupIds|
      requires IdsBelow(Keyed(MatchedRows(c, shape, groupIds, |c.predicateValues|)), |localGroups|)
      requires LocalHolds([])
      modifies `localGroups, `localTouched, `nullGroup, `rows
      ensures LocalHolds(Keyed(MatchedRows(c, shape, groupIds, |c.predicateValues|)))
      ensures |localGroups| == |old(localGroups)|
      ensures nullGroup == AddNulls(old(nullGroup), MatchedRows(c, shape, groupIds, |c.predicateValues|))
      ensures rows == old(rows) + |MatchedRows(c, shape, groupIds, |c.predicateValues|)|
    {
      var groupIndex := 0;
      ghost var matched: seq<(Option<nat>, I64)> := [];
      for row := 0 to |c.predicateValues|
        invariant groupIndex == c.GroupIndex(row) <= |groupIds| && |localGroups| == |old(localGroups)|
        invariant matched == MatchedRows(c, shape, groupIds, row) && rows == old(rows) + |matched|
        invariant LocalHolds(Keyed(matched)) && nullGroup == AddNulls(old(nullGroup), matched)
      {
        GroupIndexMonotone(c, row + 1, |c.predicateValues|);
        var group := if c.IsNull(row) then None else Some(groupIds[groupIndex]);
        if Matches(c.predicateValues[row], shape) {
          if !c.IsNull(row) { MatchedIdBelow(c, shape, groupIds, row, |localGroups|); }
          SumRow(group, c.sumValues[row], old(nullGroup), matched);
          matched := matched + [(group, c.sumValues[row])];
        }
        if !c.IsNull(row) { groupIndex := groupIndex + 1; }
      }
    }

    /** Moves one local entry to the group of its key. */
    method DrainId(id: nat, key: K)
      requires Indexed() && id < |localGroups|
      modifies `groups, `groupValues, `contents, `localGroups
      ensures Indexed() && localGroups == old(localGroups)[id := (0, 0)]
      ensures var (count, sum) := old(localGroups)[id];
              contents == old(contents)[key := Accumulate(EntryOf(old(contents), key), count, sum)]
    {
      var (count, sum) := localGroups[id];
      localGroups := localGroups[id := (0, 0)];
      UpdateGroup(key, count, sum);
    }

    /** Moves every touched local entry to the group of its key, and zeroes it. */
    method DrainTouched(touched: seq<nat>, ghost keyed: seq<(nat, I64)>, dictionary: seq<K>)
      requires Indexed() && localTouched == [] && touched == Touched(keyed)
      requires forall id :: 0 <= id < |localGroups| ==> localGroups[id] == LocalEntry(keyed, id)
      requires |dictionary| <= |localGroups| && AllBelow(touched, |dictionary|)
      modifies `groups, `groupValues, `contents, `localGroups
      ensures Valid()
      ensures contents == AddTouched(old(contents), touched, keyed, dictionary)
    {
      TouchedOnce(keyed);
      for i := 0 to |touched|
        invariant Indexed() && |localGroups| == |old(localGroups)|
        invariant contents == AddTouched(old(contents), touched[..i], keyed, dictionary)
        invariant Drained(localGroups, touched[..i], keyed)
      {
        DrainedSnoc(localGroups, touched, i, keyed);
        AddTouchedSnoc(old(contents), touched, i, keyed, dictionary);
        DrainId(touched[i], dictionary[touched[i]]);
      }
      assert touched[..|touched|] == touched;
      forall id | 0 <= id < |localGroups| ensures localGroups[id] == (0, 0) {
        TouchedWhenCounted(keyed, id);
      }
    }
  }

  // ----- row-by-row facts

  /** The scratch table, with the entries of the drained ids zeroed. */
  ghost predicate Drained(localGroups: seq<Entry>, drained: seq<nat>, keyed: seq<(nat, I64)>) {
    forall id :: 0 <= id < |localGroups| ==>
      localGroups[id] == if id in drained then (0, 0) else LocalEntry(keyed, id)
  }

  lemma {:induction false} DrainedSnoc(localGroups: seq<Entry>, touched: seq<nat>, i: nat, keyed: seq<(nat, I64)>)
    requires i < |touched| && touched[i] < |localGroups| && Distinct(touched)
    requires Drained(localGroups, touched[..i], keyed)
    ensures localGroups[touched[i]] == LocalEntry(keyed, touched[i])
    ensures Drained(localGroups[touched[i] := (0, 0)], touched[..i + 1], keyed)
  {
    assert touched[..i + 1] == touched[..i] + [touched[i]];
  }

  lemma {:induction false} AddTouchedSnoc<K>(m: map<K, Entry>, ids: seq<nat>, i: nat, rows: seq<(nat, I64)>,
                                             dictionary: seq<K>)
    requires i < |ids| && AllBelow(ids, |dictionary|)
    ensures var before, entry := AddTouched(m, ids[..i], rows, dictionary), LocalEntry(rows, ids[i]);
            AddTouched(m, ids[..i + 1], rows, dictionary) ==
              before[dictionary[ids[i]] := Accumulate(EntryOf(before, dictionary[ids[i]]), entry.0, entry.1)]
  {
    assert ids[..i + 1][..i] == ids[..i];
  }

  lemma {:induction false} MatchedSnoc<T>(c: Columns, shape: Shape, groups: seq<T>, row: nat)
    requires c.Aligned() && row < |c.predicateValues| && c.GroupIndex(row + 1) <= |groups|
    ensures var before, after := MatchedRows(c, shape, groups, row), MatchedRows(c, shape, groups, row + 1);
            if !Matches(c.predicateValues[row], shape) then after == before
            else if c.IsNull(row) then after == before + [(None, c.sumValues[row])] && Keyed(after) == Keyed(before)
            else after == before + [(Some(groups[c.GroupIndex(row)]), c.sumValues[row])]
                 && Keyed(after) == Keyed(before) + [(groups[c.GroupIndex(row)], c.sumValues[row])]
  {
  }

  lemma {:induction false} AddRowsSnoc<K>(m: map<K, Entry>, rows: seq<(K, I64)>, key: K, value: I64)
    ensures AddRows(m, rows + [(key, value)]) ==
              AddRows(m, rows)[key := Accumulate(EntryOf(AddRows(m, rows), key), 1, value)]
  {
    assert (rows + [(key, value)])[..|rows|] == rows;
  }

  /** The matching rows so far are a prefix of those of the batch. */
  lemma {:induction false} KeyedPrefix(c: Columns, shape: Shape, groupIds: seq<nat>, m: nat, n: nat, ids: nat)
    requires c.Aligned() && m <= n <= |c.predicateValues| && c.GroupIndex(n) <= |groupIds|
    requires IdsBelow(Keyed(MatchedRows(c, shape, groupIds, n)), ids)
    ensures c.GroupIndex(m) <= |groupIds| && IdsBelow(Keyed(MatchedRows(c, shape, groupIds, m)), ids)
    decreases n
  {
    if m < n {
      var before := Keyed(MatchedRows(c, shape, groupIds, n - 1));
      var after := Keyed(MatchedRows(c, shape, groupIds, n));
      MatchedSnoc(c, shape, groupIds, n - 1);
      assert before <= after;
      assert IdsBelow(before, ids);
      KeyedPrefix(c, shape, groupIds, m, n - 1, ids);
    }
  }

  lemma {:induction false} MatchedIdBelow(c: Columns, shape: Shape, groupIds: seq<nat>, row: nat, ids: nat)
    requires c.Aligned() && row < |c.predicateValues| && c.GroupIndex(|c.predicateValues|) <= |groupIds|
    requires IdsBelow(Keyed(MatchedRows(c, shape, groupIds, |c.predicateValues|)), ids)
    requires Matches(c.predicateValues[row], shape) && !c.IsNull(row)
    ensures c.GroupIndex(row) < |groupIds| && groupIds[c.GroupIndex(row)] < ids
  {
    GroupIndexMonotone(c, row + 1, |c.predicateValues|);
    KeyedPrefix(c, shape, groupIds, row + 1, |c.predicateValues|, ids);
    MatchedSnoc(c, shape, groupIds, row);
    var before, after := Keyed(MatchedRows(c, shape, groupIds, row)), Keyed(MatchedRows(c, shape, groupIds, row + 1));
    assert after[|before|].0 == groupIds[c.GroupIndex(row)];
  }

  lemma {:induction false} TouchedBelow(rows: seq<(nat, I64)>, ids: nat)
    requires IdsBelow(rows, ids)
    ensures AllBelow(Touched(rows), ids)
  {
    if rows != [] { TouchedBelow(rows[..|rows| - 1], ids); }
  }

  lemma {:induction false} TouchedWhenCounted(rows: seq<(nat, I64)>, id: nat)
    ensures id in Touched(rows) <==> LocalEntry(rows, id).0 > 0
    ensures id !in Touched(rows) ==> LocalEntry(rows, id) == (0, 0)
  {
    if rows != [] { TouchedWhenCounted(rows[..|rows| - 1], id); }
  }

  lemma {:induction false} LocalSnoc(rows: seq<(nat, I64)>, id: nat, value: I64)
    ensures forall other :: LocalEntry(rows + [(id, value)], other) ==
              if other == id then Accumulate(LocalEntry(rows, id), 1, value) else LocalEntry(rows, other)
    ensures Touched(rows + [(id, value)]) == if id in Touched(rows) then Touched(rows) else Touched(rows) + [id]
  {
    assert (rows + [(id, value)])[..|rows|] == rows;
  }

  ghost predicate Distinct(ids: seq<nat>) {
    forall i, j :: 0 <= i < j < |ids| ==> ids[i] != ids[j]
  }

  lemma {:induction false} TouchedOnce(rows: seq<(nat, I64)>)
    ensures Distinct(Touched(rows))
  {
    if rows != [] { TouchedOnce(rows[..|rows| - 1]); }
  }
}
