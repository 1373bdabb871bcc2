/** The merged chunk partials are the totals of the stream that exceed the threshold. */
module OrderedGroupTotals {
  import opened Machine
  import opened OrderedMerge
  import opened OrderedGroupSum

  // ----- totals, stated on the rows alone

  function Total(rows: seq<(int, real)>, key: int): real {
    if rows == [] then 0.0
    else Total(rows[..|rows| - 1], key) + if rows[|rows| - 1].0 == key then rows[|rows| - 1].1 else 0.0
  }

  function KeysOf(rows: seq<(int, real)>): set<int> {
    set i | 0 <= i < |rows| :: rows[i].0
  }

  /** Every key whose total exceeds the threshold, with its total. */
  function TotalsAbove(rows: seq<(int, real)>, threshold: real): map<int, real> {
    map k | k in KeysOf(rows) && Total(rows, k) > threshold :: Total(rows, k)
  }

  lemma {:induction false} TotalOfAbsent(rows: seq<(int, real)>, key: int)
    requires forall i :: 0 <= i < |rows| ==> rows[i].0 != key
    ensures Total(rows, key) == 0.0
  {
    if rows != [] { TotalOfAbsent(rows[..|rows| - 1], key); }
  }

  ghost predicate StrictKeys(runs: seq<Run>) {
    forall i, j :: 0 <= i < j < |runs| ==> runs[i].key < runs[j].key
  }

  ghost predicate RunOf(runs: seq<Run>, key: int, j: int) {
    0 <= j < |runs| && runs[j].key == key
  }

  ghost predicate HasRun(runs: seq<Run>, key: int) {
    exists j :: RunOf(runs, key, j)
  }

  /** One run per key, in key order, each with the total of its key. */
  ghost predicate RunsAreTotals(runs: seq<Run>, rows: seq<(int, real)>) {
    && StrictKeys(runs)
    && (forall j :: 0 <= j < |runs| ==> runs[j].state == Total(rows, runs[j].key))
    && (forall k :: HasRun(runs, k) <==> k in KeysOf(rows))
  }

  lemma {:induction false} TotalSnoc(rows: seq<(int, real)>, row: (int, real), key: int)
    ensures Total(rows + [row], key) == Total(rows, key) + if row.0 == key then row.1 else 0.0
  {
    assert (rows + [row])[..|rows|] == rows;
  }

  /** A row whose key is the greatest so far keeps the runs equal to the totals. */
  lemma {:induction false} RunsStayTotals(runs: seq<Run>, rows: seq<(int, real)>, row: (int, real))
    requires RunsAreTotals(runs, rows) && forall i :: 0 <= i < |rows| ==> rows[i].0 <= row.0
    ensures RunsAreTotals(AddToRuns(runs, row, Add), rows + [row])
  {
    var more := AddToRuns(runs, row, Add);
    forall j | 0 <= j < |runs| ensures runs[j].key <= row.0 {
      assert RunOf(runs, runs[j].key, j);
      assert HasRun(runs, runs[j].key);
    }
    if runs == [] || runs[|runs| - 1].key != row.0 {
      forall i | 0 <= i < |rows| ensures rows[i].0 != row.0 {
        assert rows[i].0 in KeysOf(rows);
        assert HasRun(runs, rows[i].0);
        var j :| RunOf(runs, rows[i].0, j);
      }
      TotalOfAbsent(rows, row.0);
    }
    forall j | 0 <= j < |more| ensures more[j].state == Total(rows + [row], more[j].key) {
      TotalSnoc(rows, row, more[j].key);
    }
    KeysGrow(rows, row);
    forall k ensures HasRun(more, k) <==> k in KeysOf(rows + [row]) {
      RunGrows(runs, row, k);
    }
  }

  /** In a sorted stream every key has one run, and the run's sum is the key's total. */
  lemma {:induction false} SortedRunsAreTotals(rows: seq<(int, real)>)
    requires NonDecreasing(rows)
    ensures RunsAreTotals(Runs(rows, Add), rows)
  {
    if rows != [] {
      var init, row := rows[..|rows| - 1], rows[|rows| - 1];
      assert rows == init + [row];
      NonDecreasingSnoc(init, row);
      SortedRunsAreTotals(init);
      LastKeyIsGreatest(rows);
      forall i | 0 <= i < |init| ensures init[i].0 <= row.0 {
        assert rows[i] == init[i];
      }
      RunsStayTotals(Runs(init, Add), init, row);
    }
  }

  lemma {:induction false} KeysGrow(rows: seq<(int, real)>, row: (int, real))
    ensures KeysOf(rows + [row]) == KeysOf(rows) + {row.0}
  {
    var more := rows + [row];
    forall k | k in KeysOf(rows) + {row.0} ensures k in KeysOf(more) {
      if k in KeysOf(rows) {
        var i :| 0 <= i < |rows| && rows[i].0 == k;
        assert more[i].0 == k;
      } else {
        assert more[|rows|].0 == k;
      }
    }
  }

  lemma {:induction false} RunGrows(runs: seq<Run>, row: (int, real), key: int)
    ensures HasRun(AddToRuns(runs, row, Add), key) <==> key == row.0 || HasRun(runs, key)
  {
    var more := AddToRuns(runs, row, Add);
    assert RunOf(more, row.0, |more| - 1);
    if j :| RunOf(runs, key, j) {
      assert RunOf(more, key, j);
    }
    if j :| RunOf(more, key, j) {
      assert key == row.0 || RunOf(runs, key, j);
    }
  }

  /** With distinct keys, keeping is filtering. */
  lemma {:induction false} KeptOfDistinct(runs: seq<Run>, threshold: real)
    requires StrictKeys(runs)
    ensures forall k :: k in Kept(runs, threshold) <==> exists j :: RunOf(runs, k, j) && runs[j].state > threshold
    ensures forall j :: 0 <= j < |runs| && runs[j].state > threshold ==>
              runs[j].key in Kept(runs, threshold) && Kept(runs, threshold)[runs[j].key] == runs[j].state
  {
    if runs != [] {
      var n := |runs| - 1;
      var init := runs[..n];
      KeptOfDistinct(init, threshold);
      forall k ensures k in Kept(runs, threshold) <==> exists j :: RunOf(runs, k, j) && runs[j].state > threshold {
        if j :| RunOf(init, k, j) && init[j].state > threshold {
          assert RunOf(runs, k, j);
        }
        if j :| RunOf(runs, k, j) && runs[j].state > threshold {
          assert j < n ==> RunOf(init, k, j);
        }
        if runs[n].state > threshold { assert RunOf(runs, runs[n].key, n); }
      }
    }
  }

  /** For a sorted stream, the kept runs are exactly the totals above the threshold. */
  lemma {:induction false} KeptAreTotals(rows: seq<(int, real)>, threshold: real)
    requires NonDecreasing(rows)
    ensures Kept(Runs(rows, Add), threshold) == TotalsAbove(rows, threshold)
  {
    var runs := Runs(rows, Add);
    SortedRunsAreTotals(rows);
    KeptOfDistinct(runs, threshold);
    forall k ensures k in Kept(runs, threshold) <==> k in TotalsAbove(rows, threshold) {
      if k in KeysOf(rows) {
        assert HasRun(runs, k);
        var j :| RunOf(runs, k, j);
        assert runs[j].state == Total(rows, k);
      }
      if k in Kept(runs, threshold) {
        var j :| RunOf(runs, k, j) && runs[j].state > threshold;
        assert HasRun(runs, k);
      }
    }
    forall k | k in Kept(runs, threshold) ensures Kept(runs, threshold)[k] == Total(rows, k) {
      var j :| RunOf(runs, k, j) && runs[j].state > threshold;
    }
  }

  // ----- totals of the rows with their nulls

  /** The sum of the values that come with this key. */
  function RowTotal(rows: seq<Row>, key: int): real {
    if rows == [] then 0.0
    else
      var before := RowTotal(rows[..|rows| - 1], key);
      match rows[|rows| - 1]
      case Row(Some(k), Some(value)) => if k == key then before + value else before
      case _ => before
  }

  /** The key comes with a value somewhere. */
  ghost predicate HasKey(rows: seq<Row>, key: int) {
    exists i :: 0 <= i < |rows| && rows[i].key == Some(key) && rows[i].value.Some?
  }

  /** Every key that comes with a value and whose total exceeds the threshold, with its total. */
  ghost predicate HoldsTotalsAbove(sums: map<int, real>, rows: seq<Row>, threshold: real) {
    && (forall k :: k in sums <==> HasKey(rows, k) && RowTotal(rows, k) > threshold)
    && (forall k :: k in sums ==> sums[k] == RowTotal(rows, k))
  }

  lemma {:induction false} CleanTotals(rows: seq<Row>, key: int)
    ensures Total(Clean(rows), key) == RowTotal(rows, key)
  {
    if rows != [] {
      var init, last := rows[..|rows| - 1], rows[|rows| - 1];
      CleanTotals(init, key);
      if !HasNull(last) { TotalSnoc(Clean(init), (last.key.value, last.value.value), key); }
    }
  }

  lemma {:induction false} CleanKeysOccur(rows: seq<Row>, key: int)
    ensures key in KeysOf(Clean(rows)) <==> HasKey(rows, key)
  {
    if rows != [] {
      var init, last := rows[..|rows| - 1], rows[|rows| - 1];
      CleanKeysOccur(init, key);
      HasKeySnoc(init, last, key);
      assert rows == init + [last];
      if !HasNull(last) { KeysGrow(Clean(init), (last.key.value, last.value.value)); }
    }
  }

  lemma {:induction false} HasKeySnoc(rows: seq<Row>, row: Row, key: int)
    ensures HasKey(rows + [row], key) <==> HasKey(rows, key) || (row.key == Some(key) && row.value.Some?)
  {
    var more := rows + [row];
    if i :| 0 <= i < |rows| && rows[i].key == Some(key) && rows[i].value.Some? { assert more[i] == rows[i]; }
    if row.key == Some(key) && row.value.Some? { assert more[|rows|] == row; }
  }

  lemma {:induction false} TotalsOfRows(rows: seq<Row>, threshold: real)
    ensures HoldsTotalsAbove(TotalsAbove(Clean(rows), threshold), rows, threshold)
  {
    forall k ensures Total(Clean(rows), k) == RowTotal(rows, k) && (k in KeysOf(Clean(rows)) <==> HasKey(rows, k)) {
      CleanTotals(rows, k);
      CleanKeysOccur(rows, k);
    }
  }

  // ----- merging the partials

  ghost predicate Mergeable(partial: Option<Partial>) {
    partial.Some? && (partial.value.first.Some? && partial.value.last.Some? ==>
                        partial.value.first.value.key <= partial.value.last.value.key)
  }

  function Chunks(partials: seq<Option<Partial>>): seq<Partial>
    requires forall i :: 0 <= i < |partials| ==> partials[i].Some?
  {
    seq(|partials|, i requires 0 <= i < |partials| => partials[i].value)
  }

  /** The partials merged chunk by chunk, with runs above the threshold emitted. */
  function MergedKept(partials: seq<Option<Partial>>, threshold: real): map<int, real>
    requires forall i :: 0 <= i < |partials| ==> partials[i].Some?
  {
    var emit := (output: map<int, real>, run: Run) => EmitAbove(output, run, threshold);
    Flush(MergeChunks(map[], Chunks(partials), Extend, Add, emit), emit)
  }

  method MergeOrderedGroupSumPartials(partials: seq<Option<Partial>>, threshold: real)
    returns (r: Option<map<int, real>>)
    ensures r.Some? <==> forall i :: 0 <= i < |partials| ==> Mergeable(partials[i])
    ensures r.Some? ==> r.value == MergedKept(partials, threshold)
  {
    var chunks: seq<Partial> := [];
    for i := 0 to |partials|
      invariant |chunks| == i
      invariant forall j :: 0 <= j < i ==> Mergeable(partials[j]) && chunks[j] == partials[j].value
    {
      if partials[i].None? { return None; }
      var partial := partials[i].value;
      if partial.first.Some? && partial.last.Some? && partial.last.value.key < partial.first.value.key {
        return None;
      }
      chunks := chunks + [partial];
    }
    assert chunks == Chunks(partials);
    var emit := (output: map<int, real>, run: Run) => EmitAbove(output, run, threshold);
    var output := MergeOrderedRowGroupChunks(chunks, map[], Extend, Add, emit);
    r := Some(output);
  }

  // ----- workers that finish in any order

  /** The chunk of worker `i` and what the worker reports. */
  ghost predicate Reported(partial: Option<Partial>, batches: seq<Batch>, threshold: real) {
    partial == if SortedRows(Flatten(batches))
               then Some(PartialOf(Runs(ChunkRows(batches), Add), threshold)) else None
  }

  /** The rows of each chunk. */
  function Parts(chunks: seq<seq<Batch>>): seq<seq<(int, real)>> {
    seq(|chunks|, i requires 0 <= i < |chunks| => ChunkRows(chunks[i]))
  }

  /** The rows of all chunks, with their nulls. */
  function AllRows(chunks: seq<seq<Batch>>): seq<Row> { Flatten(Flatten(chunks)) }

  lemma {:induction false} PartsAreClean(chunks: seq<seq<Batch>>)
    ensures Flatten(Parts(chunks)) == Clean(AllRows(chunks))
  {
    if chunks != [] {
      var init, last := chunks[..|chunks| - 1], chunks[|chunks| - 1];
      PartsAreClean(init);
      assert Parts(chunks) == Parts(init) + [ChunkRows(last)];
      FlattenPush(Parts(init), ChunkRows(last));
      FlattenConcat(Flatten(init), last);
      CleanConcat(AllRows(init), Flatten(last));
    }
  }

  lemma {:induction false} RunsOfSortedEnds(rows: seq<(int, real)>)
    requires NonDecreasing(rows) && rows != []
    ensures Runs(rows, Add)[0].key <= Runs(rows, Add)[|Runs(rows, Add)| - 1].key
  {
    SortedRunsAreTotals(rows);
  }

  lemma {:induction false} ReportsAreMergeable(partials: seq<Option<Partial>>, chunks: seq<seq<Batch>>, threshold: real)
    requires |partials| == |chunks| && forall i :: 0 <= i < |chunks| ==> Reported(partials[i], chunks[i], threshold)
    ensures (forall i :: 0 <= i < |chunks| ==> Mergeable(partials[i])) <==>
            forall i :: 0 <= i < |chunks| ==> SortedRows(Flatten(chunks[i]))
  {
    forall i | 0 <= i < |chunks| ensures Mergeable(partials[i]) <==> SortedRows(Flatten(chunks[i])) {
      CleanIsSorted(Flatten(chunks[i]));
      assert Reported(partials[i], chunks[i], threshold);
      if NonDecreasing(ChunkRows(chunks[i])) && ChunkRows(chunks[i]) != [] {
        RunsNonEmpty(ChunkRows(chunks[i]));
        RunsOfSortedEnds(ChunkRows(chunks[i]));
      }
    }
  }

  /** Keeping the runs above a threshold is a lawful output of the merge. */
  lemma {:induction false} KeptEmbeds(threshold: real, embed: seq<Run> -> map<int, real>,
                                      emit: (map<int, real>, Run) -> map<int, real>)
    requires forall l :: embed(l) == Kept(l, threshold)
    requires forall output, run :: emit(output, run) == EmitAbove(output, run, threshold)
    ensures Embedding(embed, Extend, emit)
  {
    forall l, b ensures emit(embed(l), b) == embed(l + [b]) { KeptSnoc(l, b, threshold); }
    forall l, m ensures Extend(embed(l), embed(m)) == embed(l + m) { KeptConcat(l, m, threshold); }
  }

  lemma {:induction false} MergedReports(partials: seq<Option<Partial>>, chunks: seq<seq<Batch>>, threshold: real)
    requires |partials| == |chunks| && forall i :: 0 <= i < |chunks| ==> Reported(partials[i], chunks[i], threshold)
    requires forall i :: 0 <= i < |chunks| ==> SortedRows(Flatten(chunks[i]))
    ensures forall i :: 0 <= i < |partials| ==> partials[i].Some?
    ensures MergedKept(partials, threshold) == Kept(Runs(Flatten(Parts(chunks)), Add), threshold)
  {
    var emit := (output: map<int, real>, run: Run) => EmitAbove(output, run, threshold);
    var embed := (l: seq<Run>) => Kept(l, threshold);
    KeptEmbeds(threshold, embed, emit);
    forall i | 0 <= i < |chunks|
      ensures partials[i].Some? && partials[i].value == ChunkOf(Runs(Parts(chunks)[i], Add), embed)
    {
      assert Reported(partials[i], chunks[i], threshold);
    }
    MergeIsRuns(Parts(chunks), Chunks(partials), embed, Extend, Add, emit);
  }

  /**
   * The sums of a stream divided into chunks anyhow, computed by workers that report in
   * any order. A result exists exactly when no chunk has a decreasing key among its rows without
   * nulls. When these keys do not decrease across the whole stream, the result maps every key to
   * the sum of its values, restricted to sums above the threshold.
   */
  method GroupSums(chunks: seq<seq<Batch>>, order: seq<nat>, threshold: real) returns (r: Option<map<int, real>>)
    requires |order| == |chunks| && forall i :: 0 <= i < |order| ==> order[i] < |chunks|
    requires forall i :: 0 <= i < |chunks| ==> i in order
    ensures r.Some? <==> forall i :: 0 <= i < |chunks| ==> SortedRows(Flatten(chunks[i]))
    ensures r.Some? ==> r.value == Kept(Runs(Flatten(Parts(chunks)), Add), threshold)
    ensures WithoutNulls(AllRows(chunks), Flatten(Parts(chunks)))
    ensures r.Some? && SortedRows(AllRows(chunks)) ==> HoldsTotalsAbove(r.value, AllRows(chunks), threshold)
  {
    var partials: seq<Option<Partial>> := seq(|chunks|, _ => None);
    for received := 0 to |order|
      invariant |partials| == |chunks|
      invariant forall j :: 0 <= j < received ==> Reported(partials[order[j]], chunks[order[j]], threshold)
    {
      var index := order[received];
      var result := OrderedI64DecimalGroupSumChunk(chunks[index], threshold);
      partials := partials[index := result];
    }
    forall i | 0 <= i < |chunks| ensures Reported(partials[i], chunks[i], threshold) {
      assert i in order;
      var j :| 0 <= j < |order| && order[j] == i;
    }
    ReportsAreMergeable(partials, chunks, threshold);
    PartsAreClean(chunks);
    CleanIsSorted(AllRows(chunks));
    CleanIsWithoutNulls(AllRows(chunks));
    r := MergeOrderedGroupSumPartials(partials, threshold);
    if r.Some? {
      MergedReports(partials, chunks, threshold);
      if SortedRows(AllRows(chunks)) {
        KeptAreTotals(Flatten(Parts(chunks)), threshold);
        TotalsOfRows(AllRows(chunks), threshold);
      }
    }
  }
}
