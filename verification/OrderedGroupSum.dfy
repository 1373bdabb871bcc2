/** Sums per key over a sorted stream, chunk by chunk, keeping the sums above a threshold. */
module OrderedGroupSum {
  import opened Machine
  import opened OrderedMerge

  /** A row of the scanned batches; a null key or value is None. */
  datatype Row = Row(key: Option<int>, value: Option<real>)

  type Batch = seq<Row>

  type Run = Boundary<int, real>

  function Add(a: real, b: real): real { a + b }

  type Partial = Chunk<int, real, map<int, real>>

  predicate HasNull(row: Row) { row.key.None? || row.value.None? }

  /** The rows that count: those without nulls. */
  function Clean(rows: seq<Row>): seq<(int, real)> {
    if rows == [] then []
    else
      var before, row := Clean(rows[..|rows| - 1]), rows[|rows| - 1];
      if HasNull(row) then before else before + [(row.key.value, row.value.value)]
  }

  // ----- the same, read off the rows themselves

  /** The number of rows with both a key and a value. */
  function CountedRows(rows: seq<Row>): nat {
    if rows == [] then 0
    else
      CountedRows(rows[..|rows| - 1])
      + match rows[|rows| - 1] case Row(Some(_), Some(_)) => 1 case _ => 0
  }

  /** `pairs` are the rows with both a key and a value, in order. */
  ghost predicate WithoutNulls(rows: seq<Row>, pairs: seq<(int, real)>) {
    && |pairs| == CountedRows(rows)
    && forall i :: 0 <= i < |rows| ==>
         match rows[i]
         case Row(Some(key), Some(value)) =>
           CountedRows(rows[..i]) < |pairs| && pairs[CountedRows(rows[..i])] == (key, value)
         case _ => true
  }

  predicate InKeyOrder(a: Row, b: Row) {
    match (a, b)
    case (Row(Some(k), Some(_)), Row(Some(l), Some(_))) => k <= l
    case _ => true
  }

  /** Among the rows with both a key and a value, no key is smaller than an earlier one. */
  ghost predicate SortedRows(rows: seq<Row>) {
    forall i, j :: 0 <= i < j < |rows| ==> InKeyOrder(rows[i], rows[j])
  }

  lemma {:induction false} CleanIsWithoutNulls(rows: seq<Row>)
    ensures WithoutNulls(rows, Clean(rows))
  {
    if rows != [] {
      var init := rows[..|rows| - 1];
      CleanIsWithoutNulls(init);
      forall i | 0 <= i < |init| ensures rows[..i] == init[..i] && rows[i] == init[i] {
      }
      assert rows[..|init|] == init;
    }
  }

  /** The keys of the pairs are the keys of the rows that have a value. */
  lemma {:induction false} CleanKeys(rows: seq<Row>, limit: int)
    ensures (forall i :: 0 <= i < |Clean(rows)| ==> Clean(rows)[i].0 <= limit) <==>
            (forall i :: 0 <= i < |rows| ==> InKeyOrder(rows[i], Row(Some(limit), Some(0.0))))
  {
    if rows != [] {
      var init, last := rows[..|rows| - 1], rows[|rows| - 1];
      assert rows == init + [last];
      CleanKeys(init, limit);
      if !HasNull(last) { assert Clean(rows)[|Clean(init)|] == (last.key.value, last.value.value); }
      if forall i :: 0 <= i < |Clean(rows)| ==> Clean(rows)[i].0 <= limit {
        forall i | 0 <= i < |Clean(init)| ensures Clean(init)[i].0 <= limit { assert Clean(rows)[i] == Clean(init)[i]; }
      }
    }
  }

  lemma {:induction false} LastKeyIsGreatest(rows: seq<(int, real)>)
    requires NonDecreasing(rows) && rows != []
    ensures forall i :: 0 <= i < |rows| ==> rows[i].0 <= rows[|rows| - 1].0
  {
    var init, last := rows[..|rows| - 1], rows[|rows| - 1];
    assert rows == init + [last];
    NonDecreasingSnoc(init, last);
    if init != [] { LastKeyIsGreatest(init); }
  }

  lemma {:induction false} SortedRowsSnoc(rows: seq<Row>, row: Row)
    ensures SortedRows(rows + [row]) <==>
            SortedRows(rows) && forall i :: 0 <= i < |rows| ==> InKeyOrder(rows[i], row)
  {
    var more := rows + [row];
    if SortedRows(more) {
      forall i, j | 0 <= i < j < |rows| ensures InKeyOrder(rows[i], rows[j]) {
        assert InKeyOrder(more[i], more[j]);
      }
      forall i | 0 <= i < |rows| ensures InKeyOrder(rows[i], row) {
        assert InKeyOrder(more[i], more[|rows|]);
      }
    }
  }

  /** The pairs are sorted exactly when the rows are. */
  lemma {:induction false} CleanIsSorted(rows: seq<Row>)
    ensures NonDecreasing(Clean(rows)) <==> SortedRows(rows)
  {
    if rows != [] {
      var init, last := rows[..|rows| - 1], rows[|rows| - 1];
      assert rows == init + [last];
      CleanIsSorted(init);
      SortedRowsSnoc(init, last);
      if !HasNull(last) {
        NonDecreasingSnoc(Clean(init), (last.key.value, last.value.value));
        CleanKeys(init, last.key.value);
        if NonDecreasing(Clean(init)) && Clean(init) != [] { LastKeyIsGreatest(Clean(init)); }
      }
    }
  }

  predicate InOrder(rows: seq<(int, real)>, i: nat)
    requires 0 < i < |rows|
  {
    rows[i - 1].0 <= rows[i].0
  }

  predicate NonDecreasing(rows: seq<(int, real)>) {
    forall i :: 0 < i < |rows| ==> InOrder(rows, i)
  }

  lemma {:induction false} CleanConcat(a: seq<Row>, b: seq<Row>)
    ensures Clean(a + b) == Clean(a) + Clean(b)
  {
    if b == [] {
      assert a + b == a;
    } else {
      assert (a + b)[..|a + b| - 1] == a + b[..|b| - 1];
      CleanConcat(a, b[..|b| - 1]);
    }
  }

  // ----- the sums that are kept

  /** Runs written into a map when they exceed the threshold, the later one winning. */
  function Kept(runs: seq<Run>, threshold: real): map<int, real> {
    if runs == [] then map[]
    else EmitAbove(Kept(runs[..|runs| - 1], threshold), runs[|runs| - 1], threshold)
  }

  function EmitAbove(output: map<int, real>, run: Run, threshold: real): map<int, real> {
    if run.state > threshold then output[run.key := run.state] else output
  }

  /** `output.extend(partial)` */
  function Extend(output: map<int, real>, more: map<int, real>): map<int, real> { output + more }

  lemma {:induction false} KeptSnoc(runs: seq<Run>, run: Run, threshold: real)
    ensures Kept(runs + [run], threshold) == EmitAbove(Kept(runs, threshold), run, threshold)
  {
    assert (runs + [run])[..|runs|] == runs;
  }

  lemma {:induction false} KeptConcat(a: seq<Run>, b: seq<Run>, threshold: real)
    ensures Kept(a + b, threshold) == Extend(Kept(a, threshold), Kept(b, threshold))
  {
    if b == [] {
      assert a + b == a;
    } else {
      var init, last := b[..|b| - 1], b[|b| - 1];
      assert a + b == (a + init) + [last];
      KeptConcat(a, init, threshold);
      KeptSnoc(a + init, last, threshold);
    }
  }

  // ----- the partial of one chunk

  /** The partial that stands for a list of finished runs. */
  function PartialOf(runs: seq<Run>, threshold: real): Partial {
    ChunkOf(runs, (l: seq<Run>) => Kept(l, threshold))
  }

  class OrderedGroupSumPartial {
    var first: Option<Run>
    var last: Option<Run>
    var middle: map<int, real>

    function Snapshot(): Partial
      reads this
    {
      Chunk(middle, first, last)
    }

    constructor (ghost threshold: real)
      ensures Snapshot() == PartialOf([], threshold)
    {
      first, last, middle := None, None, map[];
    }

    /** Takes the next run; the run that was last becomes a middle run. */
    method PushRun(key: int, sum: real, threshold: real, ghost runs: seq<Run>)
      requires Snapshot() == PartialOf(runs, threshold)
      modifies this
      ensures Snapshot() == PartialOf(runs + [Boundary(key, sum)], threshold)
    {
      var boundary := Boundary(key, sum);
      if first.None? {
        first := Some(boundary);
        return;
      }
      if last.Some? {
        PushMiddle(runs, threshold);
        if last.value.state > threshold { middle := middle[last.value.key := last.value.state]; }
      }
      last := Some(boundary);
    }

    /** The run still open at the end of the chunk. */
    method FinishCurrent(key: Option<int>, sum: real, threshold: real, ghost runs: seq<Run>)
      requires Snapshot() == PartialOf(runs, threshold)
      modifies this
      ensures Snapshot() == PartialOf(if key.Some? then runs + [Boundary(key.value, sum)] else runs, threshold)
    {
      if key.Some? { PushRun(key.value, sum, threshold, runs); }
    }
  }

  lemma {:induction false} PushMiddle(runs: seq<Run>, threshold: real)
    requires |runs| > 1
    ensures forall x: Run :: PartialOf(runs + [x], threshold) ==
              Chunk(EmitAbove(PartialOf(runs, threshold).output, runs[|runs| - 1], threshold), Some(runs[0]), Some(x))
  {
    var n := |runs|;
    var middle := if n > 2 then runs[1..n - 1] else [];
    KeptSnoc(middle, runs[n - 1], threshold);
    forall x: Run ensures (runs + [x])[1..n] == middle + [runs[n - 1]] {
    }
  }

  /** The open run: its key, and its sum. */
  ghost predicate Open(rows: seq<(int, real)>, key: Option<int>, sum: real) {
    var runs := Runs(rows, Add);
    if rows == [] then key.None? else key == Some(runs[|runs| - 1].key) && sum == runs[|runs| - 1].state
  }

  ghost function ClosedRuns(rows: seq<(int, real)>): seq<Run> {
    var runs := Runs(rows, Add);
    if rows == [] then [] else runs[..|runs| - 1]
  }

  lemma {:induction false} RunsNonEmpty(rows: seq<(int, real)>)
    ensures Runs(rows, Add) == [] <==> rows == []
    ensures rows != [] ==> Runs(rows, Add)[|Runs(rows, Add)| - 1].key == rows[|rows| - 1].0
  {
  }

  lemma {:induction false} RunsSnoc(rows: seq<(int, real)>, row: (int, real))
    ensures Runs(rows + [row], Add) == AddToRuns(Runs(rows, Add), row, Add)
  {
    assert (rows + [row])[..|rows|] == rows;
  }

  /** One row without nulls: it extends the open run or starts another; a smaller key is refused. */
  method AddRow(partial: OrderedGroupSumPartial, currentKey: Option<int>, currentSum: real, key: int, quantity: real,
                threshold: real, ghost rows: seq<(int, real)>)
    returns (ok: bool, newKey: Option<int>, newSum: real)
    requires Open(rows, currentKey, currentSum) && partial.Snapshot() == PartialOf(ClosedRuns(rows), threshold)
    modifies partial
    ensures ok <==> rows == [] || rows[|rows| - 1].0 <= key
    ensures ok ==> Open(rows + [(key, quantity)], newKey, newSum)
                   && partial.Snapshot() == PartialOf(ClosedRuns(rows + [(key, quantity)]), threshold)
  {
    RunsNonEmpty(rows);
    RunsSnoc(rows, (key, quantity));
    ok, newKey, newSum := true, Some(key), quantity;
    if currentKey.Some? {
      var current := currentKey.value;
      if key < current { return false, currentKey, currentSum; }
      if key == current {
        newKey, newSum := currentKey, currentSum + quantity;
        return;
      }
      assert Runs(rows, Add) == ClosedRuns(rows) + [Boundary(current, currentSum)];
      partial.PushRun(current, currentSum, threshold, ClosedRuns(rows));
    }
  }

  lemma {:induction false} NonDecreasingSnoc(rows: seq<(int, real)>, row: (int, real))
    ensures NonDecreasing(rows + [row]) <==> NonDecreasing(rows) && (rows == [] || rows[|rows| - 1].0 <= row.0)
  {
    var more := rows + [row];
    if NonDecreasing(rows) && (rows == [] || rows[|rows| - 1].0 <= row.0) {
      forall i | 0 < i < |more| ensures InOrder(more, i) {
        if i < |rows| { assert InOrder(rows, i); }
      }
    }
    if NonDecreasing(more) {
      NonDecreasingPrefix(rows, [row]);
      if rows != [] { assert InOrder(more, |rows|); }
    }
  }

  lemma {:induction false} NonDecreasingPrefix(rows: seq<(int, real)>, more: seq<(int, real)>)
    requires NonDecreasing(rows + more)
    ensures NonDecreasing(rows)
  {
    forall i | 0 < i < |rows| ensures InOrder(rows, i) {
      assert InOrder(rows + more, i);
    }
  }

  lemma {:induction false} CleanSnoc(rows: seq<(int, real)>, batch: Batch, i: nat)
    requires i < |batch|
    ensures rows + Clean(batch[..i + 1]) ==
              if HasNull(batch[i]) then rows + Clean(batch[..i])
              else (rows + Clean(batch[..i])) + [(batch[i].key.value, batch[i].value.value)]
  {
    assert batch[..i + 1][..i] == batch[..i];
  }

  /** A key that decreases in the middle of a batch decreases in the whole batch. */
  lemma {:induction false} NonDecreasingSoFar(rows: seq<(int, real)>, batch: Batch, i: nat)
    requires i <= |batch| && NonDecreasing(rows + Clean(batch))
    ensures NonDecreasing(rows + Clean(batch[..i]))
  {
    var a, b := Clean(batch[..i]), Clean(batch[i..]);
    assert batch == batch[..i] + batch[i..];
    CleanConcat(batch[..i], batch[i..]);
    assert rows + (a + b) == (rows + a) + b;
    NonDecreasingPrefix(rows + a, b);
  }

  /** All rows of one batch; the null test is skipped when the batch has no nulls. */
  method AddBatch(partial: OrderedGroupSumPartial, currentKey: Option<int>, currentSum: real, batch: Batch,
                  threshold: real, ghost rows: seq<(int, real)>)
    returns (ok: bool, newKey: Option<int>, newSum: real)
    requires Open(rows, currentKey, currentSum) && partial.Snapshot() == PartialOf(ClosedRuns(rows), threshold)
    requires NonDecreasing(rows)
    modifies partial
    ensures ok <==> NonDecreasing(rows + Clean(batch))
    ensures ok ==> Open(rows + Clean(batch), newKey, newSum)
                   && partial.Snapshot() == PartialOf(ClosedRuns(rows + Clean(batch)), threshold)
  {
    newKey, newSum, ok := currentKey, currentSum, true;
    var noNulls := forall i :: 0 <= i < |batch| ==> !HasNull(batch[i]);
    ghost var seen := rows;
    assert rows + [] == rows;
    for i := 0 to |batch|
      invariant seen == rows + Clean(batch[..i]) && NonDecreasing(seen)
      invariant Open(seen, newKey, newSum) && partial.Snapshot() == PartialOf(ClosedRuns(seen), threshold)
    {
      CleanSnoc(rows, batch, i);
      if !noNulls && HasNull(batch[i]) { continue; }
      var key, quantity := batch[i].key.value, batch[i].value.value;
      NonDecreasingSnoc(seen, (key, quantity));
      ok, newKey, newSum := AddRow(partial, newKey, newSum, key, quantity, threshold, seen);
      if !ok {
        if NonDecreasing(rows + Clean(batch)) { NonDecreasingSoFar(rows, batch, i + 1); }
        return;
      }
      seen := seen + [(key, quantity)];
    }
    assert batch[..|batch|] == batch;
  }

  /** The rows of all batches of one chunk. */
  function ChunkRows(batches: seq<Batch>): seq<(int, real)> { Clean(Flatten(batches)) }

  lemma {:induction false} ChunkRowsSnoc(batches: seq<Batch>, i: nat)
    requires i < |batches|
    ensures ChunkRows(batches[..i + 1]) == ChunkRows(batches[..i]) + Clean(batches[i])
  {
    assert batches[..i + 1][..i] == batches[..i];
    CleanConcat(Flatten(batches[..i]), batches[i]);
  }

  lemma {:induction false} ChunkRowsPrefix(batches: seq<Batch>, i: nat)
    requires i <= |batches| && NonDecreasing(ChunkRows(batches))
    ensures NonDecreasing(ChunkRows(batches[..i]))
    decreases |batches|
  {
    assert batches[..|batches|] == batches;
    if i < |batches| {
      var n := |batches| - 1;
      ChunkRowsSnoc(batches, n);
      NonDecreasingPrefix(ChunkRows(batches[..n]), Clean(batches[n]));
      assert batches[..n][..i] == batches[..i];
      ChunkRowsPrefix(batches[..n], i);
    }
  }

  /** One worker's result: the partial of its chunk, or nothing when a key decreases. */
  method OrderedI64DecimalGroupSumChunk(batches: seq<Batch>, threshold: real) returns (r: Option<Partial>)
    ensures r.Some? <==> SortedRows(Flatten(batches))
    ensures r.Some? ==> r.value == PartialOf(Runs(ChunkRows(batches), Add), threshold)
    ensures WithoutNulls(Flatten(batches), ChunkRows(batches))
  {
    CleanIsSorted(Flatten(batches));
    CleanIsWithoutNulls(Flatten(batches));
    var partial := new OrderedGroupSumPartial(threshold);
    var currentKey: Option<int>, currentSum: real := None, 0.0;
    var ok := true;
    for i := 0 to |batches|
      invariant fresh(partial) && NonDecreasing(ChunkRows(batches[..i]))
      invariant Open(ChunkRows(batches[..i]), currentKey, currentSum)
      invariant partial.Snapshot() == PartialOf(ClosedRuns(ChunkRows(batches[..i])), threshold)
    {
      ChunkRowsSnoc(batches, i);
      ok, currentKey, currentSum :=
        AddBatch(partial, currentKey, currentSum, batches[i], threshold, ChunkRows(batches[..i]));
      if !ok {
        if NonDecreasing(ChunkRows(batches)) { ChunkRowsPrefix(batches, i + 1); }
        return None;
      }
    }
    assert batches[..|batches|] == batches;
    RunsNonEmpty(ChunkRows(batches));
    partial.FinishCurrent(currentKey, currentSum, threshold, ClosedRuns(ChunkRows(batches)));
    assert currentKey.Some? ==>
      Runs(ChunkRows(batches), Add) == ClosedRuns(ChunkRows(batches)) + [Boundary(currentKey.value, currentSum)];
    r := Some(partial.Snapshot());
  }
}
