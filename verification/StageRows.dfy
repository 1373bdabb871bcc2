/** What a sequence of task runs leaves behind: shuffle contents, returned streams and counters. */
module StageRows {
  import opened Machine
  import opened StageGraph
  import opened Shuffle

  /** A task of a stage. It reads the listed (stage, partition) pairs and runs its plan on them. */
  datatype Task<P> = Task(stageId: nat, partition: nat, inputs: seq<(nat, nat)>, plan: P)

  datatype TaskRun<P, R> = TaskRun(stage: Stage, task: Task<P>, batches: seq<Batch<R>>)

  /**
   * What the scheduler is given: how a plan runs (nothing when it fails), how a row hashes on
   * given keys, the memory size of a batch, and the stages that others read.
   */
  datatype Env<!P, !R> = Env(
    exec: (P, seq<Option<seq<Batch<R>>>>) -> Option<seq<Batch<R>>>,
    hash: seq<string> -> (R -> nat),
    size: Batch<R> -> nat,
    downstream: set<nat>)

  // ----- shuffle contents

  /** The contents after part `p` was appended to partition `p`, for every part. */
  function AppendedParts<R>(contents: Contents<R>, id: nat, parts: seq<seq<Batch<R>>>): Contents<R> {
    if parts == [] then contents
    else
      var n := |parts| - 1;
      Appended(AppendedParts(contents, id, parts[..n]), (id, n), parts[n])
  }

  function Delivered<P, R>(env: Env<P, R>, contents: Contents<R>, run: TaskRun<P, R>): Contents<R> {
    if run.stage.id !in env.downstream then contents
    else
      match run.stage.partitioning
      case Hash(keys, partitions) =>
        if partitions == 0 then contents
        else AppendedParts(contents, run.stage.id, Parts(run.batches, env.hash(keys), partitions))
      case _ => Appended(contents, (run.stage.id, run.task.partition), run.batches)
  }

  function ContentsAfter<P, R>(env: Env<P, R>, runs: seq<TaskRun<P, R>>): Contents<R> {
    if runs == [] then map[] else Delivered(env, ContentsAfter(env, runs[..|runs| - 1]), runs[|runs| - 1])
  }

  /** What a task finds at its inputs; nothing for a partition that was never written. */
  function ReadInputs<R>(contents: Contents<R>, inputs: seq<(nat, nat)>): seq<Option<seq<Batch<R>>>> {
    if inputs == [] then []
    else
      var last := inputs[|inputs| - 1];
      ReadInputs(contents, inputs[..|inputs| - 1]) + [if last in contents then Some(contents[last]) else None]
  }

  /** A hash-partitioned output that other stages read must be splittable. */
  ghost predicate Deliverable<P, R>(env: Env<P, R>, stage: Stage, batches: seq<Batch<R>>) {
    stage.id in env.downstream && stage.partitioning.Hash? ==> stage.partitioning.partitions > 0 && Splittable(batches)
  }

  /** Every task's output is what its plan computes from the contents left by the tasks before it. */
  ghost predicate Executed<P, R>(env: Env<P, R>, runs: seq<TaskRun<P, R>>) {
    runs != [] ==>
      (var before, run := runs[..|runs| - 1], runs[|runs| - 1];
       && Executed(env, before)
       && env.exec(run.task.plan, ReadInputs(ContentsAfter(env, before), run.task.inputs)) == Some(run.batches)
       && Deliverable(env, run.stage, run.batches))
  }

  // ----- whole partitions

  /** All output rows of a stage, in task, batch and row order. */
  function StageOutput<P, R>(runs: seq<TaskRun<P, R>>, id: nat): seq<R> {
    if runs == [] then []
    else
      var before, run := StageOutput(runs[..|runs| - 1], id), runs[|runs| - 1];
      if run.stage.id == id then before + Flatten(run.batches) else before
  }

  lemma {:induction false} AppendedPartsAt<R>(contents: Contents<R>, id: nat, parts: seq<seq<Batch<R>>>, p: nat)
    ensures BatchesAt(AppendedParts(contents, id, parts), (id, p)) ==
              if p < |parts| then BatchesAt(contents, (id, p)) + NonEmpty(parts[p]) else BatchesAt(contents, (id, p))
  {
    if parts != [] { AppendedPartsAt(contents, id, parts[..|parts| - 1], p); }
  }

  /** A stage of which every run is hash-partitioned the same way. */
  ghost predicate HashedBy<P, R>(runs: seq<TaskRun<P, R>>, id: nat, keys: seq<string>, partitions: nat) {
    forall i :: 0 <= i < |runs| && runs[i].stage.id == id ==> runs[i].stage.partitioning == Hash(keys, partitions)
  }

  /**
   * The files of partition `p` of a hash-partitioned stage hold exactly the rows of its output that
   * hash to `p`, in task, batch and row order.
   */
  lemma {:induction false} HashPartitionHoldsItsRows<P, R>(env: Env<P, R>, runs: seq<TaskRun<P, R>>, id: nat,
                                                           keys: seq<string>, partitions: nat, p: nat)
    requires id in env.downstream && partitions > 0 && p < partitions && HashedBy(runs, id, keys, partitions)
    ensures Flatten(BatchesAt(ContentsAfter(env, runs), (id, p))) ==
              RowsOf(StageOutput(runs, id), env.hash(keys), partitions, p)
  {
    if runs != [] {
      var before, run, hash := runs[..|runs| - 1], runs[|runs| - 1], env.hash(keys);
      assert HashedBy(before, id, keys, partitions);
      HashPartitionHoldsItsRows(env, before, id, keys, partitions, p);
      if run.stage.id == id {
        AppendedPartsAt(ContentsAfter(env, before), id, Parts(run.batches, hash, partitions), p);
        PartBatchesHoldPartition(run.batches, hash, partitions, p);
        FlattenConcat(BatchesAt(ContentsAfter(env, before), (id, p)), PartBatches(run.batches, hash, partitions, p));
        RowsOfConcat(StageOutput(before, id), Flatten(run.batches), hash, partitions, p);
      } else {
        OtherStagesUntouched(env, ContentsAfter(env, before), run, (id, p));
      }
    }
  }

  /** The output rows of the tasks of one partition number, in task, batch and row order. */
  function PartitionOutput<P, R>(runs: seq<TaskRun<P, R>>, id: nat, p: nat): seq<R> {
    if runs == [] then []
    else
      var before, run := PartitionOutput(runs[..|runs| - 1], id, p), runs[|runs| - 1];
      if run.stage.id == id && run.task.partition == p then before + Flatten(run.batches) else before
  }

  /** Without hash partitioning, partition `p` holds the output of the tasks numbered `p`. */
  lemma {:induction false} TaskPartitionHoldsItsRows<P, R>(env: Env<P, R>, runs: seq<TaskRun<P, R>>, id: nat, p: nat)
    requires id in env.downstream
    requires forall i :: 0 <= i < |runs| && runs[i].stage.id == id ==> !runs[i].stage.partitioning.Hash?
    ensures Flatten(BatchesAt(ContentsAfter(env, runs), (id, p))) == PartitionOutput(runs, id, p)
  {
    if runs != [] {
      var before, run := runs[..|runs| - 1], runs[|runs| - 1];
      TaskPartitionHoldsItsRows(env, before, id, p);
      if run.stage.id != id {
        OtherStagesUntouched(env, ContentsAfter(env, before), run, (id, p));
      } else if run.task.partition == p {
        FlattenConcat(BatchesAt(ContentsAfter(env, before), (id, p)), NonEmpty(run.batches));
        NonEmptyKeepsRows(run.batches);
      }
    }
  }

  /** Every row of the stage's output is in the partition it hashes to, and in no other. */
  lemma {:induction false} EqualKeysMeet<P, R>(env: Env<P, R>, runs: seq<TaskRun<P, R>>, id: nat, keys: seq<string>,
                                               partitions: nat, p: nat, row: R)
    requires id in env.downstream && partitions > 0 && p < partitions && HashedBy(runs, id, keys, partitions)
    ensures row in Flatten(BatchesAt(ContentsAfter(env, runs), (id, p))) <==>
            row in StageOutput(runs, id) && env.hash(keys)(row) % partitions == p
  {
    HashPartitionHoldsItsRows(env, runs, id, keys, partitions, p);
    RowsOfHashTo(StageOutput(runs, id), env.hash(keys), partitions, p, row);
  }

  /** A run of one stage leaves the partitions of the others alone. */
  lemma {:induction false} OtherStagesUntouched<P, R>(env: Env<P, R>, contents: Contents<R>, run: TaskRun<P, R>,
                                                      key: (nat, nat))
    requires run.stage.id != key.0
    ensures BatchesAt(Delivered(env, contents, run), key) == BatchesAt(contents, key)
    ensures key in Delivered(env, contents, run) <==> key in contents
  {
    match run.stage.partitioning
    case Hash(keys, partitions) =>
      if partitions > 0 {
        OtherPartsUntouched(contents, run.stage.id, Parts(run.batches, env.hash(keys), partitions), key);
      }
    case _ =>
  }

  lemma {:induction false} OtherPartsUntouched<R>(contents: Contents<R>, id: nat, parts: seq<seq<Batch<R>>>,
                                                  key: (nat, nat))
    requires id != key.0
    ensures var after := AppendedParts(contents, id, parts);
            BatchesAt(after, key) == BatchesAt(contents, key) && (key in after <==> key in contents)
  {
    if parts != [] { OtherPartsUntouched(contents, id, parts[..|parts| - 1], key); }
  }

  /** Runs of other stages change nothing a reader of this stage sees. */
  lemma {:induction false} LaterRunsUntouched<P, R>(env: Env<P, R>, runs: seq<TaskRun<P, R>>, later: seq<TaskRun<P, R>>,
                                                    key: (nat, nat))
    requires forall i :: 0 <= i < |later| ==> later[i].stage.id != key.0
    ensures BatchesAt(ContentsAfter(env, runs + later), key) == BatchesAt(ContentsAfter(env, runs), key)
    ensures key in ContentsAfter(env, runs + later) <==> key in ContentsAfter(env, runs)
  {
    if later == [] {
      assert runs + later == runs;
    } else {
      var fewer := later[..|later| - 1];
      assert (runs + later)[..|runs + later| - 1] == runs + fewer;
      LaterRunsUntouched(env, runs, fewer, key);
      OtherStagesUntouched(env, ContentsAfter(env, runs + fewer), later[|later| - 1], key);
    }
  }

  // ----- partitions that exist

  lemma {:induction false} ReadInputsAt<R>(contents: Contents<R>, inputs: seq<(nat, nat)>)
    ensures |ReadInputs(contents, inputs)| == |inputs|
    ensures forall i :: 0 <= i < |inputs| ==>
              ReadInputs(contents, inputs)[i] == if inputs[i] in contents then Some(contents[inputs[i]]) else None
  {
    if inputs != [] { ReadInputsAt(contents, inputs[..|inputs| - 1]); }
  }

  /** The partitions that a run writes, empty or not. */
  predicate Writes<P, R>(run: TaskRun<P, R>, key: (nat, nat)) {
    key.0 == run.stage.id
    && if run.stage.partitioning.Hash? then key.1 < run.stage.partitioning.partitions else key.1 == run.task.partition
  }

  lemma {:induction false} AppendedPartsKeys<R>(contents: Contents<R>, id: nat, parts: seq<seq<Batch<R>>>,
                                                key: (nat, nat))
    ensures key in AppendedParts(contents, id, parts) <==> key in contents || (key.0 == id && key.1 < |parts|)
  {
    if parts != [] { AppendedPartsKeys(contents, id, parts[..|parts| - 1], key); }
  }

  lemma {:induction false} DeliveredKeys<P, R>(env: Env<P, R>, contents: Contents<R>, run: TaskRun<P, R>,
                                               key: (nat, nat))
    ensures key in Delivered(env, contents, run) <==>
            key in contents || (run.stage.id in env.downstream && Writes(run, key))
  {
    match run.stage.partitioning
    case Hash(keys, partitions) =>
      if partitions > 0 {
        AppendedPartsKeys(contents, run.stage.id, Parts(run.batches, env.hash(keys), partitions), key);
      }
    case _ =>
  }

  /** A partition that some run wrote is there for all later tasks. */
  lemma {:induction false} WritesStay<P, R>(env: Env<P, R>, runs: seq<TaskRun<P, R>>, n: nat, key: (nat, nat))
    requires n < |runs| && runs[n].stage.id in env.downstream && Writes(runs[n], key)
    ensures key in ContentsAfter(env, runs)
  {
    var init := runs[..|runs| - 1];
    if n < |init| { WritesStay(env, init, n, key); }
    DeliveredKeys(env, ContentsAfter(env, init), runs[|runs| - 1], key);
  }

  // ----- streams and counters

  /** The outputs of the stages that nothing reads, one stream a task. */
  function StreamsOf<P, R>(env: Env<P, R>, runs: seq<TaskRun<P, R>>): seq<seq<Batch<R>>> {
    if runs == [] then []
    else
      var before, run := StreamsOf(env, runs[..|runs| - 1]), runs[|runs| - 1];
      if run.stage.id in env.downstream then before else before + [run.batches]
  }

  function StreamRows<R>(streams: seq<seq<Batch<R>>>): nat {
    if streams == [] then 0 else StreamRows(streams[..|streams| - 1]) + |Flatten(streams[|streams| - 1])|
  }

  datatype Totals = Totals(tasks: nat, outputBatches: nat, outputRows: nat, shuffleBatches: nat, shuffleRows: nat) {
    function Plus(that: Totals): Totals {
      Totals(tasks + that.tasks, outputBatches + that.outputBatches, outputRows + that.outputRows,
             shuffleBatches + that.shuffleBatches, shuffleRows + that.shuffleRows)
    }

    /** Counters stop at the largest word. */
    function Capped(): Totals {
      Totals(Min(tasks, USIZE_MAX), Min(outputBatches, USIZE_MAX), Min(outputRows, USIZE_MAX),
             Min(shuffleBatches, USIZE_MAX), Min(shuffleRows, USIZE_MAX))
    }

    function AddTaskOutput<R>(batches: seq<Batch<R>>): Totals {
      this.(tasks := SatAdd(tasks, 1), outputBatches := SatAdd(outputBatches, |batches|),
            outputRows := SatAdd(outputRows, |Flatten(batches)|))
    }

    function AddShuffleWrite(write: WriteMetrics): Totals {
      this.(shuffleBatches := SatAdd(shuffleBatches, write.batches), shuffleRows := SatAdd(shuffleRows, write.rows))
    }
  }

  const NoTotals := Totals(0, 0, 0, 0, 0)

  /** What writing the parts adds. */
  function PartTotals<R>(parts: seq<seq<Batch<R>>>): Totals {
    if parts == [] then NoTotals
    else
      var part := parts[|parts| - 1];
      PartTotals(parts[..|parts| - 1]).Plus(Totals(0, 0, 0, |NonEmpty(part)|, |Flatten(part)|))
  }

  function WriteTotals<P, R>(env: Env<P, R>, run: TaskRun<P, R>): Totals {
    if run.stage.id !in env.downstream then NoTotals
    else
      match run.stage.partitioning
      case Hash(keys, partitions) =>
        if partitions == 0 then NoTotals else PartTotals(Parts(run.batches, env.hash(keys), partitions))
      case _ => Totals(0, 0, 0, |NonEmpty(run.batches)|, |Flatten(run.batches)|)
  }

  function TotalsOf<P, R>(env: Env<P, R>, runs: seq<TaskRun<P, R>>): Totals {
    if runs == [] then NoTotals
    else
      var run := runs[|runs| - 1];
      TotalsOf(env, runs[..|runs| - 1])
        .Plus(Totals(1, |run.batches|, |Flatten(run.batches)|, 0, 0)).Plus(WriteTotals(env, run))
  }

  lemma {:induction false} PartTotalsCountRows<R>(batches: seq<Batch<R>>, hash: R -> nat, partitions: nat, n: nat)
    requires 0 < partitions && n <= partitions
    ensures var totals := PartTotals(Parts(batches, hash, partitions)[..n]);
            totals.shuffleRows == PartitionedCount(Flatten(batches), hash, partitions, n) && totals.outputRows == 0
  {
    if n > 0 {
      var parts := Parts(batches, hash, partitions);
      assert parts[..n][..n - 1] == parts[..n - 1];
      PartTotalsCountRows(batches, hash, partitions, n - 1);
      PartBatchesHoldPartition(batches, hash, partitions, n - 1);
    }
  }

  /** The numbers of batches and of rows in all partitions. */
  ghost function Stored<R>(contents: Contents<R>): (nat, nat) {
    if contents == map[] then (0, 0)
    else
      var key :| key in contents;
      var (batches, rows) := Stored(contents - {key});
      (batches + |contents[key]|, rows + |Flatten(contents[key])|)
  }

  lemma {:induction false} StoredPicks<R>(contents: Contents<R>) returns (key: (nat, nat))
    requires contents != map[]
    ensures key in contents
    ensures Stored(contents).0 == Stored(contents - {key}).0 + |contents[key]|
    ensures Stored(contents).1 == Stored(contents - {key}).1 + |Flatten(contents[key])|
  {
    key :| key in contents
           && Stored(contents) == (Stored(contents - {key}).0 + |contents[key]|,
                                   Stored(contents - {key}).1 + |Flatten(contents[key])|);
  }

  lemma {:induction false} StoredWithout<R>(contents: Contents<R>, key: (nat, nat))
    requires key in contents
    ensures Stored(contents).0 == Stored(contents - {key}).0 + |contents[key]|
    ensures Stored(contents).1 == Stored(contents - {key}).1 + |Flatten(contents[key])|
    decreases |contents|
  {
    var first := StoredPicks(contents);
    if first != key {
      StoredWithout(contents - {first}, key);
      StoredWithout(contents - {key}, first);
      assert contents - {first} - {key} == contents - {key} - {first};
    }
  }

  lemma {:induction false} AppendedStored<R>(contents: Contents<R>, key: (nat, nat), batches: seq<Batch<R>>)
    ensures var (before, rows) := Stored(contents);
            Stored(Appended(contents, key, batches)) == (before + |NonEmpty(batches)|, rows + |Flatten(batches)|)
  {
    var after := Appended(contents, key, batches);
    StoredWithout(after, key);
    assert after - {key} == contents - {key};
    NonEmptyKeepsRows(batches);
    FlattenConcat(BatchesAt(contents, key), NonEmpty(batches));
    if key in contents {
      StoredWithout(contents, key);
    } else {
      assert contents - {key} == contents;
    }
  }

  lemma {:induction false} AppendedPartsStored<R>(contents: Contents<R>, id: nat, parts: seq<seq<Batch<R>>>)
    ensures Stored(AppendedParts(contents, id, parts)).0 == Stored(contents).0 + PartTotals(parts).shuffleBatches
    ensures Stored(AppendedParts(contents, id, parts)).1 == Stored(contents).1 + PartTotals(parts).shuffleRows
  {
    if parts != [] {
      var n := |parts| - 1;
      var before := AppendedParts(contents, id, parts[..n]);
      AppendedPartsStored(contents, id, parts[..n]);
      AppendedStored(before, (id, n), parts[n]);
      assert AppendedParts(contents, id, parts) == Appended(before, (id, n), parts[n]);
    }
  }

  /** Writing parts counts no tasks and no output. */
  lemma {:induction false} PartTotalsAreWrites<R>(parts: seq<seq<Batch<R>>>)
    ensures PartTotals(parts).(shuffleBatches := 0, shuffleRows := 0) == NoTotals
  {
    if parts != [] { PartTotalsAreWrites(parts[..|parts| - 1]); }
  }

  /** The batches that the runs made, in run order. */
  function Outputs<P, R>(runs: seq<TaskRun<P, R>>): seq<Batch<R>> {
    if runs == [] then [] else Outputs(runs[..|runs| - 1]) + runs[|runs| - 1].batches
  }

  /** The totals are the numbers of runs, of their batches and rows, and of the batches and rows in the shuffle. */
  lemma {:induction false} TotalsCount<P, R>(env: Env<P, R>, runs: seq<TaskRun<P, R>>)
    ensures var outputs, (batches, rows) := Outputs(runs), Stored(ContentsAfter(env, runs));
            TotalsOf(env, runs) == Totals(|runs|, |outputs|, |Flatten(outputs)|, batches, rows)
  {
    if runs != [] {
      var before, run := runs[..|runs| - 1], runs[|runs| - 1];
      TotalsCount(env, before);
      FlattenConcat(Outputs(before), run.batches);
      WriteTotalsCount(env, ContentsAfter(env, before), run);
    }
  }

  lemma {:induction false} WriteTotalsCount<P, R>(env: Env<P, R>, contents: Contents<R>, run: TaskRun<P, R>)
    ensures Stored(Delivered(env, contents, run)).0 == Stored(contents).0 + WriteTotals(env, run).shuffleBatches
    ensures Stored(Delivered(env, contents, run)).1 == Stored(contents).1 + WriteTotals(env, run).shuffleRows
    ensures WriteTotals(env, run).(shuffleBatches := 0, shuffleRows := 0) == NoTotals
  {
    if run.stage.id in env.downstream {
      match run.stage.partitioning
      case Hash(keys, partitions) =>
        if partitions > 0 {
          var parts := Parts(run.batches, env.hash(keys), partitions);
          AppendedPartsStored(contents, run.stage.id, parts);
          PartTotalsAreWrites(parts);
        }
      case _ =>
        AppendedStored(contents, (run.stage.id, run.task.partition), run.batches);
    }
  }

  /** Every output row is written to the shuffle or returned in a stream, once. */
  lemma {:induction false} RowsAreConserved<P, R>(env: Env<P, R>, runs: seq<TaskRun<P, R>>)
    requires Executed(env, runs)
    ensures TotalsOf(env, runs).outputRows == TotalsOf(env, runs).shuffleRows + StreamRows(StreamsOf(env, runs))
  {
    if runs != [] {
      var before, run := runs[..|runs| - 1], runs[|runs| - 1];
      RowsAreConserved(env, before);
      if run.stage.id in env.downstream {
        match run.stage.partitioning
        case Hash(keys, partitions) =>
          PartTotalsCountRows(run.batches, env.hash(keys), partitions, partitions);
          var parts := Parts(run.batches, env.hash(keys), partitions);
          assert parts[..partitions] == parts;
          PartitionsConserveRows(Flatten(run.batches), env.hash(keys), partitions);
        case _ =>
      } else {
        assert (StreamsOf(env, before) + [run.batches])[..|StreamsOf(env, before)|] == StreamsOf(env, before);
      }
    }
  }
}
