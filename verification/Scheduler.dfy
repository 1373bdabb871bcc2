/** The loop that runs the stages of an execution graph, each after its inputs, with shuffle files between them. */
module Scheduler {
  import opened Machine
  import opened StageGraph
  import opened Shuffle
  import opened StageRows

  datatype Graph<P> = Graph(stages: seq<Stage>, tasks: seq<Task<P>>)

  datatype StageRun<P, R> = StageRun(stage: Stage, runs: seq<TaskRun<P, R>>)

  datatype StageMetrics = StageMetrics(stageId: nat, totals: Totals)

  datatype Outcome<R> =
    | Finished(streams: seq<seq<Batch<R>>>, stagesExecuted: nat, totals: Totals, stages: seq<StageMetrics>)
    | TaskError
    | RepartitionError
    | DependencyError

  function Downstream(stages: seq<Stage>): set<nat> {
    if stages == [] then {}
    else
      var inputs := stages[|stages| - 1].inputStages;
      Downstream(stages[..|stages| - 1]) + set i | 0 <= i < |inputs| :: inputs[i]
  }

  /** Some stage lists this one among its inputs. */
  ghost predicate IsRead(stages: seq<Stage>, id: nat) {
    exists stage :: stage in stages && id in stage.inputStages
  }

  lemma {:induction false} DownstreamIsRead(stages: seq<Stage>, id: nat)
    ensures id in Downstream(stages) <==> IsRead(stages, id)
  {
    if stages != [] {
      var init, last := stages[..|stages| - 1], stages[|stages| - 1];
      assert stages == init + [last];
      DownstreamIsRead(init, id);
      if IsRead(stages, id) {
        var stage :| stage in stages && id in stage.inputStages;
        assert stage == last || stage in init;
      }
      if id in last.inputStages {
        var i :| 0 <= i < |last.inputStages| && last.inputStages[i] == id;
      }
    }
  }

  function TasksOf<P>(tasks: seq<Task<P>>, id: nat): seq<Task<P>> {
    if tasks == [] then []
    else
      var before, task := TasksOf(tasks[..|tasks| - 1], id), tasks[|tasks| - 1];
      if task.stageId == id then before + [task] else before
  }

  lemma {:induction false} TasksOfAreTasks<P>(tasks: seq<Task<P>>, id: nat)
    ensures forall i :: 0 <= i < |TasksOf(tasks, id)| ==>
              (TasksOf(tasks, id)[i] in tasks && TasksOf(tasks, id)[i].stageId == id)
  {
    if tasks != [] { TasksOfAreTasks(tasks[..|tasks| - 1], id); }
  }

  /** The number of tasks of the stage. */
  function TaskCount<P>(tasks: seq<Task<P>>, id: nat): nat {
    if tasks == [] then 0
    else TaskCount(tasks[..|tasks| - 1], id) + if tasks[|tasks| - 1].stageId == id then 1 else 0
  }

  /** A task of a stage comes after as many others of the stage as it does in the graph. */
  lemma {:induction false} TasksOfInOrder<P>(tasks: seq<Task<P>>, id: nat, i: nat)
    requires i < |tasks|
    ensures |TasksOf(tasks, id)| == TaskCount(tasks, id)
    ensures tasks[i].stageId == id ==>
              TaskCount(tasks[..i], id) < |TasksOf(tasks, id)|
              && TasksOf(tasks, id)[TaskCount(tasks[..i], id)] == tasks[i]
  {
    var init := tasks[..|tasks| - 1];
    if i < |init| {
      TasksOfInOrder(init, id, i);
      assert init[..i] == tasks[..i];
    } else {
      assert tasks[..i] == init;
      if init != [] { TasksOfInOrder(init, id, 0); }
    }
  }

  // ----- runs of a graph

  function Order<P, R>(history: seq<StageRun<P, R>>): seq<Stage> {
    if history == [] then [] else Order(history[..|history| - 1]) + [history[|history| - 1].stage]
  }

  function AllRuns<P, R>(history: seq<StageRun<P, R>>): seq<TaskRun<P, R>> {
    if history == [] then [] else AllRuns(history[..|history| - 1]) + history[|history| - 1].runs
  }

  function StageReports<P, R>(env: Env<P, R>, history: seq<StageRun<P, R>>): seq<StageMetrics> {
    if history == [] then []
    else
      var last := history[|history| - 1];
      StageReports(env, history[..|history| - 1]) + [StageMetrics(last.stage.id, TotalsOf(env, last.runs).Capped())]
  }

  /** The runs are those of the first tasks of the stage, in the graph's order. */
  ghost predicate RunsTasks<P, R>(tasks: seq<Task<P>>, stage: Stage, runs: seq<TaskRun<P, R>>) {
    && |runs| <= |TasksOf(tasks, stage.id)|
    && forall i :: 0 <= i < |runs| ==> runs[i].stage == stage && runs[i].task == TasksOf(tasks, stage.id)[i]
  }

  ghost predicate RunsAllTasks<P, R>(tasks: seq<Task<P>>, history: seq<StageRun<P, R>>) {
    forall i :: 0 <= i < |history| ==>
      && RunsTasks(tasks, history[i].stage, history[i].runs)
      && |history[i].runs| == |TasksOf(tasks, history[i].stage.id)|
  }

  /** Stages of the graph ran, none twice, each after all its inputs and with all its tasks. */
  ghost predicate Runs<P, R>(env: Env<P, R>, graph: Graph<P>, history: seq<StageRun<P, R>>) {
    && ValidOrder(Order(history), graph.stages)
    && RunsAllTasks(graph.tasks, history)
    && Executed(env, AllRuns(history))
  }

  lemma {:induction false} OrderAt<P, R>(history: seq<StageRun<P, R>>)
    ensures |Order(history)| == |history|
    ensures forall i :: 0 <= i < |history| ==> Order(history)[i] == history[i].stage
  {
    if history != [] { OrderAt(history[..|history| - 1]); }
  }

  lemma {:induction false} AllRunsConcat<P, R>(a: seq<StageRun<P, R>>, b: seq<StageRun<P, R>>)
    ensures AllRuns(a + b) == AllRuns(a) + AllRuns(b)
  {
    if b == [] {
      assert a + b == a;
    } else {
      assert (a + b)[..|a + b| - 1] == a + b[..|b| - 1];
      AllRunsConcat(a, b[..|b| - 1]);
    }
  }

  ghost predicate HasStage<P, R>(history: seq<StageRun<P, R>>, stage: Stage) {
    exists i :: 0 <= i < |history| && history[i].stage == stage
  }

  lemma {:induction false} AllRunsComeFromHistory<P, R>(tasks: seq<Task<P>>, history: seq<StageRun<P, R>>)
    requires RunsAllTasks(tasks, history)
    ensures forall j :: 0 <= j < |AllRuns(history)| ==> HasStage(history, AllRuns(history)[j].stage)
  {
    if history != [] {
      var before, last := history[..|history| - 1], history[|history| - 1];
      assert RunsAllTasks(tasks, before);
      AllRunsComeFromHistory(tasks, before);
      assert RunsTasks(tasks, last.stage, last.runs);
      forall j | 0 <= j < |AllRuns(history)| ensures HasStage(history, AllRuns(history)[j].stage) {
        if j < |AllRuns(before)| {
          assert HasStage(before, AllRuns(before)[j].stage);
          var m :| 0 <= m < |before| && before[m].stage == AllRuns(before)[j].stage;
          assert history[m].stage == AllRuns(history)[j].stage;
        } else {
          assert AllRuns(history)[j] == last.runs[j - |AllRuns(before)|];
          assert history[|history| - 1].stage == AllRuns(history)[j].stage;
        }
      }
    }
  }

  /** All runs, cut before the `k`th task of the `i`th stage. */
  lemma {:induction false} CutAllRuns<P, R>(history: seq<StageRun<P, R>>, i: nat, k: nat)
    requires i < |history| && k <= |history[i].runs|
    ensures AllRuns(history) ==
              (AllRuns(history[..i]) + history[i].runs[..k]) + (history[i].runs[k..] + AllRuns(history[i + 1..]))
  {
    assert history == history[..i + 1] + history[i + 1..];
    AllRunsConcat(history[..i + 1], history[i + 1..]);
    assert history[..i + 1][..i] == history[..i];
    assert history[i].runs == history[i].runs[..k] + history[i].runs[k..];
  }

  /** After its own tasks, a stage's number does not appear again. */
  lemma {:induction false} LaterRunsDiffer<P, R>(tasks: seq<Task<P>>, history: seq<StageRun<P, R>>, i: nat, k: nat,
                                                 id: nat)
    requires RunsAllTasks(tasks, history) && i < |history| && k <= |history[i].runs|
    requires forall m :: i <= m < |history| ==> history[m].stage.id != id
    ensures var later := history[i].runs[k..] + AllRuns(history[i + 1..]);
            forall j :: 0 <= j < |later| ==> later[j].stage.id != id
  {
    var rest, own := history[i + 1..], history[i].runs[k..];
    assert RunsAllTasks(tasks, rest);
    AllRunsComeFromHistory(tasks, rest);
    assert RunsTasks(tasks, history[i].stage, history[i].runs);
    var later := own + AllRuns(rest);
    forall j | 0 <= j < |later| ensures later[j].stage.id != id {
      if j < |own| {
        assert later[j] == history[i].runs[k + j];
      } else {
        assert HasStage(rest, AllRuns(rest)[j - |own|].stage);
        var m :| 0 <= m < |rest| && rest[m].stage == later[j].stage;
        assert history[i + 1 + m].stage.id != id;
      }
    }
  }

  /**
   * Whenever a task of a stage starts, the partitions of the stage's inputs already hold everything
   * they will ever hold: nothing is read half written.
   */
  lemma {:induction false} InputsAreComplete<P, R>(env: Env<P, R>, graph: Graph<P>, history: seq<StageRun<P, R>>,
                                                   i: nat, k: nat,
                                                   key: (nat, nat))
    requires Runs(env, graph, history)
    requires i < |history| && k <= |history[i].runs| && key.0 in history[i].stage.inputStages
    ensures var before := ContentsAfter(env, AllRuns(history[..i]) + history[i].runs[..k]);
            var after := ContentsAfter(env, AllRuns(history));
            BatchesAt(before, key) == BatchesAt(after, key) && (key in before <==> key in after)
  {
    var order := Order(history);
    OrderAt(history);
    assert InputsRanBefore(order, i) && RanBefore(order, i, key.0);
    var j :| 0 <= j < i && order[j].id == key.0;
    forall m | i <= m < |history| ensures history[m].stage.id != key.0 {
      DistinctIdsDiffer(order, j, m);
    }
    CutAllRuns(history, i, k);
    LaterRunsDiffer(graph.tasks, history, i, k, key.0);
    LaterRunsUntouched(env, AllRuns(history[..i]) + history[i].runs[..k],
                       history[i].runs[k..] + AllRuns(history[i + 1..]), key);
  }

  /** In a run of the graph, the hash partitions of a stage that others read hold their rows. */
  lemma {:induction false} HashStagePartitions<P, R>(env: Env<P, R>, graph: Graph<P>, history: seq<StageRun<P, R>>,
                                                     i: nat, p: nat,
                                                     row: R)
    requires Runs(env, graph, history) && i < |history|
    requires var stage := history[i].stage;
             stage.id in env.downstream && stage.partitioning.Hash? && p < stage.partitioning.partitions
    ensures var stage, runs := history[i].stage, AllRuns(history);
            var partition := Flatten(BatchesAt(ContentsAfter(env, runs), (stage.id, p)));
            var hash, partitions := env.hash(stage.partitioning.keys), stage.partitioning.partitions;
            && partition == RowsOf(StageOutput(runs, stage.id), hash, partitions, p)
            && (row in partition <==> row in StageOutput(runs, stage.id) && hash(row) % partitions == p)
  {
    var stage, runs := history[i].stage, AllRuns(history);
    StagesOfRuns(graph.tasks, history, i);
    HashPartitionHoldsItsRows(env, runs, stage.id, stage.partitioning.keys, stage.partitioning.partitions, p);
    EqualKeysMeet(env, runs, stage.id, stage.partitioning.keys, stage.partitioning.partitions, p, row);
  }

  lemma {:induction false} StagesOfRuns<P, R>(tasks: seq<Task<P>>, history: seq<StageRun<P, R>>, i: nat)
    requires DistinctIds(Order(history)) && RunsAllTasks(tasks, history) && i < |history|
    ensures forall j :: 0 <= j < |AllRuns(history)| && AllRuns(history)[j].stage.id == history[i].stage.id ==>
              AllRuns(history)[j].stage == history[i].stage
  {
    OrderAt(history);
    AllRunsComeFromHistory(tasks, history);
    forall j | 0 <= j < |AllRuns(history)| && AllRuns(history)[j].stage.id == history[i].stage.id
      ensures AllRuns(history)[j].stage == history[i].stage
    {
      assert HasStage(history, AllRuns(history)[j].stage);
      var m :| 0 <= m < |history| && history[m].stage == AllRuns(history)[j].stage;
      DistinctIdsDiffer(Order(history), m, i);
    }
  }

  function TasksRun<P, R>(runs: seq<TaskRun<P, R>>): seq<Task<P>> {
    if runs == [] then [] else TasksRun(runs[..|runs| - 1]) + [runs[|runs| - 1].task]
  }

  /** The tasks whose stage is among the given ones. */
  function TasksIn<P>(tasks: seq<Task<P>>, ids: set<nat>): seq<Task<P>> {
    if tasks == [] then []
    else
      var before, task := TasksIn(tasks[..|tasks| - 1], ids), tasks[|tasks| - 1];
      if task.stageId in ids then before + [task] else before
  }

  lemma {:induction false} TasksInGrows<P>(tasks: seq<Task<P>>, ids: set<nat>, id: nat)
    requires id !in ids
    ensures multiset(TasksIn(tasks, ids + {id})) == multiset(TasksIn(tasks, ids)) + multiset(TasksOf(tasks, id))
  {
    if tasks != [] { TasksInGrows(tasks[..|tasks| - 1], ids, id); }
  }

  lemma {:induction false} TasksRunConcat<P, R>(a: seq<TaskRun<P, R>>, b: seq<TaskRun<P, R>>)
    ensures TasksRun(a + b) == TasksRun(a) + TasksRun(b)
  {
    if b == [] {
      assert a + b == a;
    } else {
      assert (a + b)[..|a + b| - 1] == a + b[..|b| - 1];
      TasksRunConcat(a, b[..|b| - 1]);
    }
  }

  lemma {:induction false} TasksRunAre<P, R>(tasks: seq<Task<P>>, stage: Stage, runs: seq<TaskRun<P, R>>)
    requires RunsTasks(tasks, stage, runs)
    ensures TasksRun(runs) == TasksOf(tasks, stage.id)[..|runs|]
  {
    if runs != [] { TasksRunAre(tasks, stage, runs[..|runs| - 1]); }
  }

  lemma {:induction false} NoTasksIn<P>(tasks: seq<Task<P>>)
    ensures TasksIn(tasks, {}) == []
  {
    if tasks != [] { NoTasksIn(tasks[..|tasks| - 1]); }
  }

  /** The runs are the tasks of the stages that ran, each task once. */
  lemma {:induction false} EveryTaskRunsOnce<P, R>(tasks: seq<Task<P>>, history: seq<StageRun<P, R>>)
    requires RunsAllTasks(tasks, history) && DistinctIds(Order(history))
    ensures multiset(TasksRun(AllRuns(history))) == multiset(TasksIn(tasks, Ids(Order(history))))
  {
    if history == [] {
      NoTasksIn(tasks);
    } else {
      var before, last := history[..|history| - 1], history[|history| - 1];
      assert Order(history)[..|history| - 1] == Order(before) by { OrderAt(history); OrderAt(before); }
      assert RunsAllTasks(tasks, before);
      EveryTaskRunsOnce(tasks, before);
      OrderAt(history);
      assert RunsTasks(tasks, last.stage, last.runs);
      TasksRunAre(tasks, last.stage, last.runs);
      TasksRunConcat(AllRuns(before), last.runs);
      TasksInGrows(tasks, Ids(Order(before)), last.stage.id);
      assert TasksOf(tasks, last.stage.id)[..|last.runs|] == TasksOf(tasks, last.stage.id);
    }
  }

  // ----- running

  datatype Status = Ran | TaskFailed | RepartitionFailed

  /** How a task started after these runs ends. */
  ghost function StatusOf<P, R>(env: Env<P, R>, runs: seq<TaskRun<P, R>>, stage: Stage, task: Task<P>): Status {
    match env.exec(task.plan, ReadInputs(ContentsAfter(env, runs), task.inputs))
    case None => TaskFailed
    case Some(batches) => if Deliverable(env, stage, batches) then Ran else RepartitionFailed
  }

  /** The state after some runs: what the store holds and the streams so far. */
  ghost predicate InState<P, R>(env: Env<P, R>, runs: seq<TaskRun<P, R>>, files: Files<R>,
                                streams: seq<seq<Batch<R>>>)
  {
    Executed(env, runs) && View(files) == ContentsAfter(env, runs) && streams == StreamsOf(env, runs)
  }

  /** Adds a write to the counters of the graph and of the stage. */
  datatype Counters = Counters(graph: Totals, stage: Totals) {
    function AddTaskOutput<R>(batches: seq<Batch<R>>): Counters {
      Counters(graph.AddTaskOutput(batches), stage.AddTaskOutput(batches))
    }

    function AddShuffleWrite(write: WriteMetrics): Counters {
      Counters(graph.AddShuffleWrite(write), stage.AddShuffleWrite(write))
    }

    /** The counters show these amounts, as far as a word can. */
    ghost predicate Show(graphTotals: Totals, stageTotals: Totals) {
      graph == graphTotals.Capped() && stage == stageTotals.Capped()
    }
  }

  lemma {:induction false} CappedOutput<R>(totals: Totals, batches: seq<Batch<R>>)
    ensures totals.Capped().AddTaskOutput(batches) ==
              totals.Plus(Totals(1, |batches|, |Flatten(batches)|, 0, 0)).Capped()
  {
  }

  lemma {:induction false} ShowsOutput<R>(counters: Counters, graphTotals: Totals, stageTotals: Totals,
                                          batches: seq<Batch<R>>)
    requires counters.Show(graphTotals, stageTotals)
    ensures var made := Totals(1, |batches|, |Flatten(batches)|, 0, 0);
            counters.AddTaskOutput(batches).Show(graphTotals.Plus(made), stageTotals.Plus(made))
  {
    CappedOutput(graphTotals, batches);
    CappedOutput(stageTotals, batches);
  }

  lemma {:induction false} CappedWrite(totals: Totals, write: WriteMetrics)
    ensures totals.Capped().AddShuffleWrite(write) == totals.Plus(Totals(0, 0, 0, write.batches, write.rows)).Capped()
  {
  }

  lemma {:induction false} CappedPart<R>(totals: Totals, parts: seq<seq<Batch<R>>>, p: nat, write: WriteMetrics)
    requires p < |parts| && write.batches == |NonEmpty(parts[p])| && write.rows == |Flatten(parts[p])|
    ensures totals.Plus(PartTotals(parts[..p])).Capped().AddShuffleWrite(write) ==
              totals.Plus(PartTotals(parts[..p + 1])).Capped()
  {
    assert parts[..p + 1][..p] == parts[..p];
  }

  lemma {:induction false} AppendedPartsSnoc<R>(contents: Contents<R>, id: nat, parts: seq<seq<Batch<R>>>, p: nat)
    requires p < |parts|
    ensures AppendedParts(contents, id, parts[..p + 1]) ==
              Appended(AppendedParts(contents, id, parts[..p]), (id, p), parts[p])
  {
    assert parts[..p + 1][..p] == parts[..p];
  }

  /** Writes each part to its partition. */
  method WriteParts<R>(store: LocalShuffleStore<R>, stageId: nat, parts: seq<seq<Batch<R>>>, size: Batch<R> -> nat,
                       counters: Counters, ghost graphTotals: Totals, ghost stageTotals: Totals)
    returns (r: Counters)
    requires store.Valid() && counters.Show(graphTotals, stageTotals)
    modifies store
    ensures store.Valid() && View(store.files) == AppendedParts(old(View(store.files)), stageId, parts)
    ensures r.Show(graphTotals.Plus(PartTotals(parts)), stageTotals.Plus(PartTotals(parts)))
  {
    r := counters;
    for p := 0 to |parts|
      invariant store.Valid() && View(store.files) == AppendedParts(old(View(store.files)), stageId, parts[..p])
      invariant r.Show(graphTotals.Plus(PartTotals(parts[..p])), stageTotals.Plus(PartTotals(parts[..p])))
    {
      var write, _ := store.WritePartition(stageId, p, parts[p], size);
      AppendedPartsSnoc(old(View(store.files)), stageId, parts, p);
      CappedPart(graphTotals, parts, p, write);
      CappedPart(stageTotals, parts, p, write);
      r := r.AddShuffleWrite(write);
    }
    assert parts[..|parts|] == parts;
  }

  /** Writes one task's output the way its stage is partitioned. */
  method WriteOutput<P, R>(env: Env<P, R>, store: LocalShuffleStore<R>, run: TaskRun<P, R>, counters: Counters,
                           ghost graphTotals: Totals, ghost stageTotals: Totals)
    returns (status: Status, r: Counters)
    requires store.Valid() && counters.Show(graphTotals, stageTotals) && run.stage.id in env.downstream
    modifies store
    ensures status == if Deliverable(env, run.stage, run.batches) then Ran else RepartitionFailed
    ensures store.Valid()
    ensures status.Ran? ==> View(store.files) == Delivered(env, old(View(store.files)), run)
    ensures status.Ran? ==> r.Show(graphTotals.Plus(WriteTotals(env, run)), stageTotals.Plus(WriteTotals(env, run)))
  {
    r := counters;
    match run.stage.partitioning {
      case Hash(keys, partitions) =>
        var parts := RepartitionBatchesByHash(run.batches, env.hash(keys), partitions);
        if parts.None? { return RepartitionFailed, r; }
        r := WriteParts(store, run.stage.id, parts.value, env.size, counters, graphTotals, stageTotals);
      case _ =>
        var write, _ := store.WritePartition(run.stage.id, run.task.partition, run.batches, env.size);
        CappedWrite(graphTotals, write);
        CappedWrite(stageTotals, write);
        r := r.AddShuffleWrite(write);
    }
    status := Ran;
  }

  /** What one more run adds to the store, to the streams and to the counters. */
  lemma {:induction false} RunsGrow<P, R>(env: Env<P, R>, runs: seq<TaskRun<P, R>>, run: TaskRun<P, R>)
    ensures ContentsAfter(env, runs + [run]) == Delivered(env, ContentsAfter(env, runs), run)
    ensures StreamsOf(env, runs + [run]) ==
              if run.stage.id in env.downstream then StreamsOf(env, runs) else StreamsOf(env, runs) + [run.batches]
    ensures TotalsOf(env, runs + [run]) ==
              TotalsOf(env, runs)
                .Plus(Totals(1, |run.batches|, |Flatten(run.batches)|, 0, 0)).Plus(WriteTotals(env, run))
    ensures Executed(env, runs + [run]) <==>
            && Executed(env, runs) && Deliverable(env, run.stage, run.batches)
            && env.exec(run.task.plan, ReadInputs(ContentsAfter(env, runs), run.task.inputs)) == Some(run.batches)
  {
    assert (runs + [run])[..|runs|] == runs;
  }

  /** Writes the output of a task that other stages read, or returns it as a stream. */
  method PlaceOutput<P, R>(env: Env<P, R>, store: LocalShuffleStore<R>, run: TaskRun<P, R>, streams: seq<seq<Batch<R>>>,
                           counters: Counters, ghost before: seq<TaskRun<P, R>>, ghost own: seq<TaskRun<P, R>>)
    returns (status: Status, newStreams: seq<seq<Batch<R>>>, r: Counters)
    requires store.Valid() && InState(env, before, store.files, streams)
    requires env.exec(run.task.plan, ReadInputs(ContentsAfter(env, before), run.task.inputs)) == Some(run.batches)
    requires var made := Totals(1, |run.batches|, |Flatten(run.batches)|, 0, 0);
             counters.Show(TotalsOf(env, before).Plus(made), TotalsOf(env, own).Plus(made))
    modifies store
    ensures store.Valid() && status == if Deliverable(env, run.stage, run.batches) then Ran else RepartitionFailed
    ensures status.Ran? ==> InState(env, before + [run], store.files, newStreams)
    ensures status.Ran? ==> r.Show(TotalsOf(env, before + [run]), TotalsOf(env, own + [run]))
  {
    RunsGrow(env, before, run);
    RunsGrow(env, own, run);
    if run.stage.id in env.downstream {
      ghost var made := Totals(1, |run.batches|, |Flatten(run.batches)|, 0, 0);
      newStreams := streams;
      status, r := WriteOutput(env, store, run, counters, TotalsOf(env, before).Plus(made),
                               TotalsOf(env, own).Plus(made));
    } else {
      newStreams, r, status := streams + [run.batches], counters, Ran;
    }
  }

  /** Runs one task, and writes its output or returns it as a stream. */
  method RunTask<P, R>(env: Env<P, R>, store: LocalShuffleStore<R>, stage: Stage, task: Task<P>,
                       streams: seq<seq<Batch<R>>>,
                       counters: Counters, ghost before: seq<TaskRun<P, R>>, ghost own: seq<TaskRun<P, R>>)
    returns (status: Status, newStreams: seq<seq<Batch<R>>>, r: Counters, ghost run: TaskRun<P, R>)
    requires store.Valid() && InState(env, before, store.files, streams)
    requires counters.Show(TotalsOf(env, before), TotalsOf(env, own))
    modifies store
    ensures store.Valid() && run.stage == stage && run.task == task
    ensures status == StatusOf(env, before, stage, task)
    ensures status.Ran? ==> InState(env, before + [run], store.files, newStreams)
    ensures status.Ran? ==> r.Show(TotalsOf(env, before + [run]), TotalsOf(env, own + [run]))
  {
    newStreams, r, run := streams, counters, TaskRun(stage, task, []);
    var output := env.exec(task.plan, ReadInputs(View(store.files), task.inputs));
    if output.None? { return TaskFailed, newStreams, r, run; }
    var batches := output.value;
    run := TaskRun(stage, task, batches);
    ShowsOutput(r, TotalsOf(env, before), TotalsOf(env, own), batches);
    r := r.AddTaskOutput(batches);
    status, newStreams, r := PlaceOutput(env, store, TaskRun(stage, task, batches), streams, r, before, own);
  }

  lemma {:induction false} RunsTasksSnoc<P, R>(tasks: seq<Task<P>>, stage: Stage, runs: seq<TaskRun<P, R>>,
                                               run: TaskRun<P, R>)
    requires RunsTasks(tasks, stage, runs) && |runs| < |TasksOf(tasks, stage.id)|
    requires run.stage == stage && run.task == TasksOf(tasks, stage.id)[|runs|]
    ensures RunsTasks(tasks, stage, runs + [run])
  {
  }

  /** Runs the tasks of a stage in the graph's order, up to the first that fails. */
  method RunStage<P, R>(env: Env<P, R>, store: LocalShuffleStore<R>, tasks: seq<Task<P>>, stage: Stage,
                        streams: seq<seq<Batch<R>>>, totals: Totals, ghost before: seq<TaskRun<P, R>>)
    returns (status: Status, newStreams: seq<seq<Batch<R>>>, r: Counters, ghost own: seq<TaskRun<P, R>>)
    requires store.Valid() && InState(env, before, store.files, streams) && totals == TotalsOf(env, before).Capped()
    modifies store
    ensures store.Valid() && RunsTasks(tasks, stage, own)
    ensures status.Ran? ==> |own| == |TasksOf(tasks, stage.id)| && InState(env, before + own, store.files, newStreams)
    ensures status.Ran? ==> r.Show(TotalsOf(env, before + own), TotalsOf(env, own))
    ensures !status.Ran? ==> |own| < |TasksOf(tasks, stage.id)| && Executed(env, before + own)
    ensures !status.Ran? ==> status == StatusOf(env, before + own, stage, TasksOf(tasks, stage.id)[|own|])
  {
    newStreams, r, own := streams, Counters(totals, NoTotals), [];
    assert before + own == before && TotalsOf(env, own) == NoTotals;
    var stageTasks := TasksOf(tasks, stage.id);
    for i := 0 to |stageTasks|
      invariant store.Valid() && |own| == i && RunsTasks(tasks, stage, own)
      invariant InState(env, before + own, store.files, newStreams)
      invariant r.Show(TotalsOf(env, before + own), TotalsOf(env, own))
    {
      ghost var run;
      status, newStreams, r, run := RunTask(env, store, stage, stageTasks[i], newStreams, r, before + own, own);
      if !status.Ran? { return; }
      assert before + own + [run] == before + (own + [run]);
      RunsTasksSnoc(tasks, stage, own, run);
      own := own + [run];
    }
    status := Ran;
  }

  /** The graph's history grows by a finished stage. */
  lemma {:induction false} RunsSnoc<P, R>(env: Env<P, R>, graph: Graph<P>, history: seq<StageRun<P, R>>, stage: Stage,
                                          own: seq<TaskRun<P, R>>)
    requires Runs(env, graph, history) && stage in graph.stages && stage.id !in Ids(Order(history))
    requires forall input :: input in stage.inputStages ==> input in Ids(Order(history))
    requires RunsTasks(graph.tasks, stage, own) && |own| == |TasksOf(graph.tasks, stage.id)|
    requires Executed(env, AllRuns(history) + own)
    ensures Runs(env, graph, history + [StageRun(stage, own)])
  {
    var longer := history + [StageRun(stage, own)];
    HistorySnoc(env, history, stage, own);
    ValidOrderSnoc(Order(history), graph.stages, stage);
    assert RunsAllTasks(graph.tasks, longer);
  }

  /** What one more stage run adds to the order, to the task runs and to the reports. */
  lemma {:induction false} HistorySnoc<P, R>(env: Env<P, R>, history: seq<StageRun<P, R>>, stage: Stage,
                                             own: seq<TaskRun<P, R>>)
    ensures var longer := history + [StageRun(stage, own)];
            && Order(longer) == Order(history) + [stage] && AllRuns(longer) == AllRuns(history) + own
            && StageReports(env, longer) ==
                 StageReports(env, history) + [StageMetrics(stage.id, TotalsOf(env, own).Capped())]
  {
    assert (history + [StageRun(stage, own)])[..|history|] == history;
  }

  /** What the scheduler reports about a history. */
  function Report<P, R>(env: Env<P, R>, history: seq<StageRun<P, R>>): Outcome<R> {
    var runs := AllRuns(history);
    Finished(StreamsOf(env, runs), Min(|history|, USIZE_MAX), TotalsOf(env, runs).Capped(), StageReports(env, history))
  }

  /**
   * A state that the loop can reach, in which the last stage is ready and partly run, and
   * how its next task ends there.
   */
  ghost predicate NextTask<P, R>(env: Env<P, R>, graph: Graph<P>, history: seq<StageRun<P, R>>, last: StageRun<P, R>,
                                 status: Status)
  {
    var runs, tasks := AllRuns(history) + last.runs, TasksOf(graph.tasks, last.stage.id);
    && Runs(env, graph, history) && last.stage in graph.stages && Ready(last.stage, Ids(Order(history)))
    && RunsTasks(graph.tasks, last.stage, last.runs) && |last.runs| < |tasks| && Executed(env, runs)
    && status == StatusOf(env, runs, last.stage, tasks[|last.runs|])
  }

  /** In no state that the loop can reach does a task fail. */
  ghost predicate NoTaskFails<P(!new), R(!new)>(env: Env<P, R>, graph: Graph<P>) {
    forall history, last, status :: NextTask(env, graph, history, last, status) ==> status.Ran?
  }

  /** Every input has completed. */
  predicate Ready(stage: Stage, completed: set<nat>) {
    forall i :: 0 <= i < |stage.inputStages| ==> stage.inputStages[i] in completed
  }

  /** The loop's state. */
  datatype Progress<R> = Progress(executed: set<nat>, completed: set<nat>, streams: seq<seq<Batch<R>>>,
                                  stagesExecuted: nat,
                                  totals: Totals, reports: seq<StageMetrics>)

  ghost predicate Tracks<P, R>(env: Env<P, R>, graph: Graph<P>, history: seq<StageRun<P, R>>, progress: Progress<R>,
                               files: Files<R>)
  {
    && Runs(env, graph, history) && progress.executed == progress.completed == Ids(Order(history))
    && InState(env, AllRuns(history), files, progress.streams)
    && Report(env, history) == Finished(progress.streams, progress.stagesExecuted, progress.totals, progress.reports)
  }

  /** Runs a stage that is ready, and records it. */
  method RunReadyStage<P, R>(env: Env<P, R>, store: LocalShuffleStore<R>, graph: Graph<P>, stage: Stage,
                             progress: Progress<R>,
                             ghost history: seq<StageRun<P, R>>)
    returns (status: Status, r: Progress<R>, ghost last: StageRun<P, R>)
    requires store.Valid() && Tracks(env, graph, history, progress, store.files)
    requires stage in graph.stages && stage.id !in progress.executed && Ready(stage, progress.completed)
    modifies store
    ensures store.Valid()
    ensures status.Ran? ==> Tracks(env, graph, history + [last], r, store.files)
    ensures status.Ran? ==> |r.executed| == |progress.executed| + 1
    ensures !status.Ran? ==> NextTask(env, graph, history, last, status)
  {
    var newStreams, counters;
    ghost var own;
    status, newStreams, counters, own := RunStage(env, store, graph.tasks, stage, progress.streams, progress.totals,
                                                  AllRuns(history));
    last, r := StageRun(stage, own), progress;
    if status.Ran? {
      RunsSnoc(env, graph, history, stage, own);
      HistorySnoc(env, history, stage, own);
      ValidOrderSnoc(Order(history), graph.stages, stage);
      r := Progress(progress.executed + {stage.id}, progress.completed + {stage.id}, newStreams,
                    SatAdd(progress.stagesExecuted, 1), counters.graph,
                    progress.reports + [StageMetrics(stage.id, counters.stage)]);
    }
  }

  /** One pass over the stages, running those that are ready when the pass comes to them. */
  method RunReadyStages<P, R>(env: Env<P, R>, store: LocalShuffleStore<R>, graph: Graph<P>, progress: Progress<R>,
                              ghost history: seq<StageRun<P, R>>)
    returns (status: Status, progressed: bool, r: Progress<R>, ghost longer: seq<StageRun<P, R>>,
             ghost last: StageRun<P, R>)
    requires store.Valid() && Tracks(env, graph, history, progress, store.files)
    modifies store
    ensures store.Valid()
    ensures !status.Ran? ==> NextTask(env, graph, longer, last, status)
    ensures status.Ran? ==> Tracks(env, graph, longer, r, store.files)
    ensures status.Ran? && progressed ==> |r.executed| > |progress.executed|
    ensures status.Ran? && !progressed ==> r == progress && AllBlocked(graph.stages, r.executed)
  {
    status, progressed, r, longer, last := Ran, false, progress, history, StageRun(Stage(0, [], Unknown), []);
    for k := 0 to |graph.stages|
      invariant store.Valid() && Tracks(env, graph, longer, r, store.files)
      invariant progressed ==> |r.executed| > |progress.executed|
      invariant !progressed ==> r == progress && AllBlocked(graph.stages[..k], r.executed)
    {
      var stage := graph.stages[k];
      if stage.id in r.executed || !Ready(stage, r.completed) {
        assert Blocked(stage, r.executed);
        AllBlockedSnoc(graph.stages, k, r.executed);
        continue;
      }
      status, r, last := RunReadyStage(env, store, graph, stage, r, longer);
      if !status.Ran? { return; }
      longer, progressed := longer + [last], true;
    }
    status := Ran;
    assert graph.stages[..|graph.stages|] == graph.stages;
  }

  /** When as many stages ran as the graph has, every stage ran and every output row is accounted for. */
  lemma {:induction false} AllStagesRan<P, R>(env: Env<P, R>, graph: Graph<P>, history: seq<StageRun<P, R>>)
    requires Runs(env, graph, history) && |Ids(Order(history))| >= |graph.stages|
    ensures |history| == |graph.stages| && DistinctIds(graph.stages) && !HasDeadEnd(graph.stages)
    ensures var report := Report(env, history);
            report.totals.outputRows == SatAdd(report.totals.shuffleRows, StreamRows(report.streams))
  {
    OrderAt(history);
    OrderedIdsAreGraphIds(Order(history), graph.stages);
    OrderExcludesDeadEnds(Order(history), graph.stages);
    RowsAreConserved(env, AllRuns(history));
  }

  // ----- tasks that read what was written

  /** Every run of the stage writes this partition, or one of its tasks does. */
  ghost predicate WritesPartition<P>(tasks: seq<Task<P>>, stage: Stage, p: nat) {
    if stage.partitioning.Hash? then p < stage.partitioning.partitions && TasksOf(tasks, stage.id) != []
    else exists i :: 0 <= i < |TasksOf(tasks, stage.id)| && TasksOf(tasks, stage.id)[i].partition == p
  }

  /** A task lists only partitions that the stages its own stage waits for write. */
  ghost predicate ListsWritten<P>(graph: Graph<P>, stage: Stage, task: Task<P>) {
    forall i :: 0 <= i < |task.inputs| ==>
      && task.inputs[i].0 in stage.inputStages
      && forall s :: s in graph.stages && s.id == task.inputs[i].0 ==> WritesPartition(graph.tasks, s, task.inputs[i].1)
  }

  ghost predicate AllPresent<R>(inputs: seq<Option<seq<Batch<R>>>>) {
    forall i :: 0 <= i < |inputs| ==> inputs[i].Some?
  }

  /** Tasks list written partitions, and succeed on any contents of partitions that are present. */
  ghost predicate WellPlanned<P, R(!new)>(env: Env<P, R>, graph: Graph<P>) {
    && env.downstream == Downstream(graph.stages)
    && (forall stage, task :: stage in graph.stages && task in graph.tasks && task.stageId == stage.id ==>
          ListsWritten(graph, stage, task))
    && (forall stage, task, inputs ::
          stage in graph.stages && task in graph.tasks && task.stageId == stage.id && AllPresent(inputs) ==>
            (var output := env.exec(task.plan, inputs);
             output.Some? && Deliverable(env, stage, output.value)))
  }

  /** What a finished stage was to write is there, whatever ran after it. */
  lemma {:induction false} WrittenIsPresent<P, R>(env: Env<P, R>, graph: Graph<P>, history: seq<StageRun<P, R>>, i: nat,
                                                  more: seq<TaskRun<P, R>>, p: nat)
    requires Runs(env, graph, history) && i < |history| && history[i].stage.id in env.downstream
    requires WritesPartition(graph.tasks, history[i].stage, p)
    ensures (history[i].stage.id, p) in ContentsAfter(env, AllRuns(history) + more)
  {
    var stage, own := history[i].stage, history[i].runs;
    assert RunsTasks(graph.tasks, stage, own) && |own| == |TasksOf(graph.tasks, stage.id)|;
    var k: nat := 0;
    if !stage.partitioning.Hash? {
      k :| 0 <= k < |TasksOf(graph.tasks, stage.id)| && TasksOf(graph.tasks, stage.id)[k].partition == p;
    }
    assert own[k].stage == stage && own[k].task == TasksOf(graph.tasks, stage.id)[k];
    var n := RunAt(history, i, k);
    assert (AllRuns(history) + more)[n] == own[k];
    WritesStay(env, AllRuns(history) + more, n, (stage.id, p));
  }

  lemma {:induction false} RunAt<P, R>(history: seq<StageRun<P, R>>, i: nat, k: nat) returns (n: nat)
    requires i < |history| && k < |history[i].runs|
    ensures n < |AllRuns(history)| && AllRuns(history)[n] == history[i].runs[k]
  {
    var init := history[..|history| - 1];
    if i < |init| {
      n := RunAt(init, i, k);
    } else {
      n := |AllRuns(init)| + k;
    }
  }

  /** Whenever a task starts, every partition it lists is there. */
  lemma {:induction false} ListedArePresent<P, R(!new)>(env: Env<P, R>, graph: Graph<P>, history: seq<StageRun<P, R>>,
                                                        last: StageRun<P, R>, task: Task<P>)
    requires WellPlanned(env, graph) && Runs(env, graph, history) && last.stage in graph.stages
    requires Ready(last.stage, Ids(Order(history))) && task in graph.tasks && task.stageId == last.stage.id
    ensures AllPresent(ReadInputs(ContentsAfter(env, AllRuns(history) + last.runs), task.inputs))
  {
    var contents := ContentsAfter(env, AllRuns(history) + last.runs);
    forall n | 0 <= n < |task.inputs| ensures task.inputs[n] in contents {
      var (id, p) := task.inputs[n];
      assert ListsWritten(graph, last.stage, task);
      DownstreamIsRead(graph.stages, id);
      var m :| 0 <= m < |last.stage.inputStages| && last.stage.inputStages[m] == id;
      IdsAreIds(Order(history));
      OrderAt(history);
      var i :| 0 <= i < |history| && Order(history)[i].id == id;
      assert Order(history)[i] in graph.stages;
      WrittenIsPresent(env, graph, history, i, last.runs, p);
    }
    ReadInputsAt(contents, task.inputs);
  }

  /** Well-planned tasks do not fail: none finds a partition missing. */
  lemma {:induction false} WellPlannedTasksSucceed<P(!new), R(!new)>(env: Env<P, R>, graph: Graph<P>)
    requires WellPlanned(env, graph)
    ensures NoTaskFails(env, graph)
  {
    forall history, last, status | NextTask(env, graph, history, last, status) ensures status.Ran? {
      var task := TasksOf(graph.tasks, last.stage.id)[|last.runs|];
      TasksOfAreTasks(graph.tasks, last.stage.id);
      ListedArePresent(env, graph, history, last, task);
    }
  }

  // ----- what a run returns, in terms of the graph

  /** The number of runs of stages that no stage reads. */
  ghost function UnreadRuns<P, R>(stages: seq<Stage>, runs: seq<TaskRun<P, R>>): nat {
    if runs == [] then 0
    else UnreadRuns(stages, runs[..|runs| - 1]) + if IsRead(stages, runs[|runs| - 1].stage.id) then 0 else 1
  }

  /** The streams are the batches of the runs of stages that no stage reads, in run order. */
  ghost predicate ReturnsUnread<P, R>(stages: seq<Stage>, runs: seq<TaskRun<P, R>>, streams: seq<seq<Batch<R>>>) {
    && |streams| == UnreadRuns(stages, runs)
    && forall i :: 0 <= i < |runs| && !IsRead(stages, runs[i].stage.id) ==>
         UnreadRuns(stages, runs[..i]) < |streams| && streams[UnreadRuns(stages, runs[..i])] == runs[i].batches
  }

  lemma {:induction false} StreamsAreUnread<P, R>(env: Env<P, R>, stages: seq<Stage>, runs: seq<TaskRun<P, R>>)
    requires env.downstream == Downstream(stages)
    ensures ReturnsUnread(stages, runs, StreamsOf(env, runs))
  {
    if runs != [] {
      var init, last := runs[..|runs| - 1], runs[|runs| - 1];
      StreamsAreUnread(env, stages, init);
      DownstreamIsRead(stages, last.stage.id);
      forall i | 0 <= i < |runs| && !IsRead(stages, runs[i].stage.id)
        ensures UnreadRuns(stages, runs[..i]) < |StreamsOf(env, runs)|
                && StreamsOf(env, runs)[UnreadRuns(stages, runs[..i])] == runs[i].batches
      {
        if i < |init| {
          assert init[..i] == runs[..i] && init[i] == runs[i];
        } else {
          assert runs[..i] == init;
        }
      }
    }
  }

  /** The stage ran all its tasks, in the order in which the graph lists them. */
  ghost predicate RanInOrder<P, R>(tasks: seq<Task<P>>, run: StageRun<P, R>) {
    && |run.runs| == TaskCount(tasks, run.stage.id)
    && forall i :: 0 <= i < |tasks| && tasks[i].stageId == run.stage.id ==>
         (var n := TaskCount(tasks[..i], run.stage.id);
          n < |run.runs| && run.runs[n].stage == run.stage && run.runs[n].task == tasks[i])
  }

  lemma {:induction false} RunsAreInOrder<P, R>(tasks: seq<Task<P>>, history: seq<StageRun<P, R>>, h: nat)
    requires RunsAllTasks(tasks, history) && h < |history|
    ensures RanInOrder(tasks, history[h])
  {
    var stage, runs := history[h].stage, history[h].runs;
    assert RunsTasks(tasks, stage, runs);
    if tasks != [] { TasksOfInOrder(tasks, stage.id, 0); }
    forall i | 0 <= i < |tasks| && tasks[i].stageId == stage.id
      ensures var n := TaskCount(tasks[..i], stage.id);
              n < |runs| && runs[n].stage == stage && runs[n].task == tasks[i]
    {
      TasksOfInOrder(tasks, stage.id, i);
    }
  }

  /** The counters show the tasks run, their batches and rows, and the batches and rows written to the shuffle. */
  ghost predicate CountsRuns<P, R>(env: Env<P, R>, totals: Totals, runs: seq<TaskRun<P, R>>) {
    var outputs, (batches, rows) := Outputs(runs), Stored(ContentsAfter(env, runs));
    && totals.tasks == Min(|runs|, USIZE_MAX) && totals.outputBatches == Min(|outputs|, USIZE_MAX)
    && totals.outputRows == Min(|Flatten(outputs)|, USIZE_MAX)
    && totals.shuffleBatches == Min(batches, USIZE_MAX) && totals.shuffleRows == Min(rows, USIZE_MAX)
  }

  /** A finished stage ran its tasks in order, and its report counts them. */
  ghost predicate StageDone<P, R>(env: Env<P, R>, tasks: seq<Task<P>>, run: StageRun<P, R>, report: StageMetrics) {
    RanInOrder(tasks, run) && report.stageId == run.stage.id && CountsRuns(env, report.totals, run.runs)
  }

  ghost predicate AllStagesDone<P, R>(env: Env<P, R>, tasks: seq<Task<P>>, history: seq<StageRun<P, R>>,
                                      reports: seq<StageMetrics>)
  {
    |reports| == |history| && forall h :: 0 <= h < |history| ==> StageDone(env, tasks, history[h], reports[h])
  }

  lemma {:induction false} StageReportsAt<P, R>(env: Env<P, R>, history: seq<StageRun<P, R>>)
    ensures |StageReports(env, history)| == |history|
    ensures forall h :: 0 <= h < |history| ==>
              StageReports(env, history)[h] ==
                StageMetrics(history[h].stage.id, TotalsOf(env, history[h].runs).Capped())
  {
    if history != [] { StageReportsAt(env, history[..|history| - 1]); }
  }

  /** A report in terms of the graph alone. */
  lemma {:induction false} ReportIsOfGraph<P, R>(env: Env<P, R>, graph: Graph<P>, history: seq<StageRun<P, R>>)
    requires Runs(env, graph, history) && env.downstream == Downstream(graph.stages)
    ensures var report := Report(env, history);
            && ReturnsUnread(graph.stages, AllRuns(history), report.streams)
            && CountsRuns(env, report.totals, AllRuns(history))
            && AllStagesDone(env, graph.tasks, history, report.stages)
  {
    StreamsAreUnread(env, graph.stages, AllRuns(history));
    TotalsCount(env, AllRuns(history));
    StageReportsAt(env, history);
    forall h | 0 <= h < |history|
      ensures StageDone(env, graph.tasks, history[h], StageReports(env, history)[h])
    {
      RunsAreInOrder(graph.tasks, history, h);
      TotalsCount(env, history[h].runs);
    }
  }

  // ----- the loop

  /** Runs a graph to the end, to the first task that fails, or until no stage can run. */
  method ExecuteGraph<P(!new), R(!new)>(graph: Graph<P>, exec: (P, seq<Option<seq<Batch<R>>>>) -> Option<seq<Batch<R>>>,
                                  hash: seq<string> -> (R -> nat), size: Batch<R> -> nat, fileTargetBytes: nat)
    returns (outcome: Outcome<R>, ghost history: seq<StageRun<P, R>>, ghost last: StageRun<P, R>)
    ensures Runs(Env(exec, hash, size, Downstream(graph.stages)), graph, history)
    ensures outcome.Finished? ==> |history| == |graph.stages|
                                  && outcome == Report(Env(exec, hash, size, Downstream(graph.stages)), history)
    ensures outcome.Finished? ==> ReturnsUnread(graph.stages, AllRuns(history), outcome.streams)
    ensures outcome.Finished? ==>
              var env := Env(exec, hash, size, Downstream(graph.stages));
              && CountsRuns(env, outcome.totals, AllRuns(history))
              && AllStagesDone(env, graph.tasks, history, outcome.stages)
    ensures outcome.Finished? ==>
              outcome.totals.outputRows == SatAdd(outcome.totals.shuffleRows, StreamRows(outcome.streams))
    ensures outcome.Finished? ==> DistinctIds(graph.stages) && !HasDeadEnd(graph.stages)
    ensures outcome.DependencyError? ==> !DistinctIds(graph.stages) || HasDeadEnd(graph.stages)
    ensures outcome.TaskError? ==>
              NextTask(Env(exec, hash, size, Downstream(graph.stages)), graph, history, last, TaskFailed)
    ensures outcome.RepartitionError? ==>
              NextTask(Env(exec, hash, size, Downstream(graph.stages)), graph, history, last, RepartitionFailed)
    ensures NoTaskFails(Env(exec, hash, size, Downstream(graph.stages)), graph)
            || WellPlanned(Env(exec, hash, size, Downstream(graph.stages)), graph) ==>
              (outcome.Finished? <==> DistinctIds(graph.stages) && !HasDeadEnd(graph.stages))
              && (outcome.DependencyError? <==> !DistinctIds(graph.stages) || HasDeadEnd(graph.stages))
  {
    var stages, env := graph.stages, Env(exec, hash, size, Downstream(graph.stages));
    if WellPlanned(env, graph) { WellPlannedTasksSucceed(env, graph); }
    var store := new LocalShuffleStore<R>(fileTargetBytes);
    var progress: Progress<R> := Progress({}, {}, [], 0, NoTotals, []);
    history, last := [], StageRun(Stage(0, [], Unknown), []);
    while |progress.executed| < |stages|
      invariant store.Valid() && fresh(store) && Tracks(env, graph, history, progress, store.files)
      decreases |stages| - |progress.executed|
    {
      var status, progressed;
      status, progressed, progress, history, last := RunReadyStages(env, store, graph, progress, history);
      if !status.Ran? {
        return (if status.TaskFailed? then TaskError else RepartitionError), history, last;
      }
      if !progressed {
        StuckMeansDeadEnd(Order(history), stages);
        return DependencyError, history, last;
      }
    }
    AllStagesRan(env, graph, history);
    ReportIsOfGraph(env, graph, history);
    outcome := Finished(progress.streams, progress.stagesExecuted, progress.totals, progress.reports);
  }
}
