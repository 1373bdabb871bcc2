/** Stage dependencies: when every stage can run after its inputs, and what stands in the way otherwise. */
module StageGraph {
  datatype Partitioning =
    | Unknown
    | Single
    | RoundRobin(count: nat)
    | FileRange(count: nat)
    | Hash(keys: seq<string>, partitions: nat)

  datatype Stage = Stage(id: nat, inputStages: seq<nat>, partitioning: Partitioning)

  function Ids(stages: seq<Stage>): set<nat> {
    if stages == [] then {} else Ids(stages[..|stages| - 1]) + {stages[|stages| - 1].id}
  }

  lemma {:induction false} IdsAreIds(stages: seq<Stage>)
    ensures forall i :: 0 <= i < |stages| ==> stages[i].id in Ids(stages)
    ensures forall id :: id in Ids(stages) ==> exists i :: 0 <= i < |stages| && stages[i].id == id
  {
    if stages != [] {
      var init := stages[..|stages| - 1];
      IdsAreIds(init);
      forall id | id in Ids(stages) ensures exists i :: 0 <= i < |stages| && stages[i].id == id {
        if id in Ids(init) {
          var i :| 0 <= i < |init| && init[i].id == id;
          assert stages[i].id == id;
        }
      }
    }
  }

  ghost predicate DistinctIds(stages: seq<Stage>) {
    stages != [] ==> var init := stages[..|stages| - 1]; DistinctIds(init) && stages[|stages| - 1].id !in Ids(init)
  }

  lemma {:induction false} DistinctIdsDiffer(stages: seq<Stage>, i: nat, j: nat)
    requires DistinctIds(stages) && i < |stages| && j < |stages|
    ensures stages[i].id == stages[j].id ==> i == j
  {
    var init := stages[..|stages| - 1];
    IdsAreIds(init);
    if i < |init| && j < |init| {
      DistinctIdsDiffer(init, i, j);
    } else if i < |init| {
      assert init[i].id in Ids(init);
    } else if j < |init| {
      assert init[j].id in Ids(init);
    }
  }

  lemma {:induction false} DistinctIdsCount(stages: seq<Stage>)
    ensures |Ids(stages)| <= |stages|
    ensures |Ids(stages)| == |stages| <==> DistinctIds(stages)
  {
    if stages != [] {
      var init, id := stages[..|stages| - 1], stages[|stages| - 1].id;
      DistinctIdsCount(init);
      assert Ids(stages) == Ids(init) + {id};
      if id in Ids(init) { assert Ids(stages) == Ids(init); }
    }
  }

  // ----- what can never run

  /** Some stage numbered `a` reads the output of `b`. */
  ghost predicate DependsOn(stages: seq<Stage>, a: nat, b: nat) {
    exists i :: 0 <= i < |stages| && stages[i].id == a && b in stages[i].inputStages
  }

  /** A chain of dependencies starting at a stage. */
  ghost predicate Chain(stages: seq<Stage>, path: seq<nat>) {
    && path != [] && path[0] in Ids(stages)
    && forall i :: 0 < i < |path| ==> DependsOn(stages, path[i - 1], path[i])
  }

  /** The chain ends at a missing stage, or comes back to a stage it already passed. */
  ghost predicate DeadEnd(stages: seq<Stage>, path: seq<nat>)
    requires path != []
  {
    var last := path[|path| - 1];
    last !in Ids(stages) || last in path[..|path| - 1]
  }

  /** Some stage lacks an input, is on a cycle, or depends on such a stage. */
  ghost predicate HasDeadEnd(stages: seq<Stage>) {
    exists path :: Chain(stages, path) && DeadEnd(stages, path)
  }

  // ----- orders

  ghost predicate RanBefore(order: seq<Stage>, i: nat, id: nat)
    requires i <= |order|
  {
    exists j :: 0 <= j < i && order[j].id == id
  }

  ghost predicate InputsRanBefore(order: seq<Stage>, i: nat)
    requires i < |order|
  {
    forall input :: input in order[i].inputStages ==> RanBefore(order, i, input)
  }

  /** Stages of the graph, none twice, each after all its inputs. */
  ghost predicate ValidOrder(order: seq<Stage>, stages: seq<Stage>) {
    && DistinctIds(order)
    && (forall i :: 0 <= i < |order| ==> order[i] in stages)
    && (forall i :: 0 <= i < |order| ==> InputsRanBefore(order, i))
  }

  lemma {:induction false} ValidOrderSnoc(order: seq<Stage>, stages: seq<Stage>, stage: Stage)
    requires ValidOrder(order, stages) && stage in stages && stage.id !in Ids(order)
    requires forall input :: input in stage.inputStages ==> input in Ids(order)
    ensures ValidOrder(order + [stage], stages)
    ensures Ids(order + [stage]) == Ids(order) + {stage.id} && |Ids(order + [stage])| == |Ids(order)| + 1
  {
    var longer := order + [stage];
    assert longer[..|order|] == order;
    IdsAreIds(order);
    forall i | 0 <= i < |longer| ensures InputsRanBefore(longer, i) {
      forall input | input in longer[i].inputStages ensures RanBefore(longer, i, input) {
        if i < |order| {
          assert InputsRanBefore(order, i) && RanBefore(order, i, input);
          var j :| 0 <= j < i && order[j].id == input;
          assert longer[j].id == input;
        } else {
          var j :| 0 <= j < |order| && order[j].id == input;
          assert longer[j].id == input;
        }
      }
    }
  }

  lemma {:induction false} OrderedIdsAreGraphIds(order: seq<Stage>, stages: seq<Stage>)
    requires ValidOrder(order, stages)
    ensures Ids(order) <= Ids(stages) && |Ids(order)| == |order| <= |stages|
  {
    IdsAreIds(order);
    IdsAreIds(stages);
    DistinctIdsCount(order);
    DistinctIdsCount(stages);
    forall id | id in Ids(order) ensures id in Ids(stages) {
      var i :| 0 <= i < |order| && order[i].id == id;
      assert order[i] in stages;
    }
    Cardinality(Ids(order), Ids(stages));
  }

  lemma {:induction false} Cardinality(a: set<nat>, b: set<nat>)
    requires a <= b
    ensures |a| <= |b| && (|a| == |b| ==> a == b)
  {
    assert b == a + (b - a);
    assert |b| == |a| + |b - a|;
  }

  /** An order of all stages is a permutation of a graph of distinct stages. */
  lemma {:induction false} OrderOfAllStages(order: seq<Stage>, stages: seq<Stage>)
    requires ValidOrder(order, stages) && |order| == |stages|
    ensures DistinctIds(stages) && Ids(order) == Ids(stages)
    ensures forall i :: 0 <= i < |stages| ==> stages[i] in order
  {
    OrderedIdsAreGraphIds(order, stages);
    Cardinality(Ids(order), Ids(stages));
    DistinctIdsCount(stages);
    IdsAreIds(order);
    IdsAreIds(stages);
    forall i | 0 <= i < |stages| ensures stages[i] in order {
      var j :| 0 <= j < |order| && order[j].id == stages[i].id;
      assert order[j] in stages;
      var k :| 0 <= k < |stages| && stages[k] == order[j];
      DistinctIdsDiffer(stages, k, i);
    }
  }

  lemma {:induction false} DependenciesRanBefore(order: seq<Stage>, stages: seq<Stage>, i: nat, id: nat)
    requires ValidOrder(order, stages) && |order| == |stages| && i < |order| && DependsOn(stages, order[i].id, id)
    ensures RanBefore(order, i, id)
  {
    OrderOfAllStages(order, stages);
    var k :| 0 <= k < |stages| && stages[k].id == order[i].id && id in stages[k].inputStages;
    assert stages[k] in order;
    var m :| 0 <= m < |order| && order[m] == stages[k];
    DistinctIdsDiffer(order, m, i);
    assert InputsRanBefore(order, i);
  }

  /** Along a chain, positions in the order decrease: the last one is below all others. */
  lemma {:induction false} ChainDescends(order: seq<Stage>, stages: seq<Stage>, path: seq<nat>, n: nat)
    returns (at: seq<nat>)
    requires ValidOrder(order, stages) && |order| == |stages| && Chain(stages, path) && 0 < n <= |path|
    ensures |at| == n
    ensures forall i :: 0 <= i < n ==> at[i] < |order| && order[at[i]].id == path[i]
    ensures forall i :: 0 <= i < n - 1 ==> at[i] > at[n - 1]
  {
    if n == 1 {
      OrderOfAllStages(order, stages);
      IdsAreIds(order);
      var i :| 0 <= i < |order| && order[i].id == path[0];
      at := [i];
    } else {
      var before := ChainDescends(order, stages, path, n - 1);
      assert DependsOn(stages, path[n - 2], path[n - 1]);
      DependenciesRanBefore(order, stages, before[n - 2], path[n - 1]);
      var j :| 0 <= j < before[n - 2] && order[j].id == path[n - 1];
      at := before + [j];
    }
  }

  /** When all stages ran, each after its inputs, no stage is missing an input or on or behind a cycle. */
  lemma {:induction false} OrderExcludesDeadEnds(order: seq<Stage>, stages: seq<Stage>)
    requires ValidOrder(order, stages) && |order| == |stages|
    ensures DistinctIds(stages) && !HasDeadEnd(stages)
  {
    OrderOfAllStages(order, stages);
    IdsAreIds(order);
    forall path | Chain(stages, path) ensures !DeadEnd(stages, path) {
      var n := |path|;
      var at := ChainDescends(order, stages, path, n);
      assert order[at[n - 1]].id == path[n - 1];
      forall i | 0 <= i < n - 1 ensures path[i] != path[n - 1] {
        if path[i] == path[n - 1] { DistinctIdsDiffer(order, at[i], at[n - 1]); }
      }
    }
  }

  /** The stage has not run, and one of its inputs has not either. */
  ghost predicate Blocked(stage: Stage, executed: set<nat>) {
    stage.id in executed || exists input :: input in stage.inputStages && input !in executed
  }

  ghost predicate AllBlocked(stages: seq<Stage>, executed: set<nat>) {
    forall i :: 0 <= i < |stages| ==> Blocked(stages[i], executed)
  }

  lemma {:induction false} AllBlockedSnoc(stages: seq<Stage>, k: nat, executed: set<nat>)
    requires k < |stages| && Blocked(stages[k], executed)
    ensures AllBlocked(stages[..k], executed) ==> AllBlocked(stages[..k + 1], executed)
  {
  }

  lemma {:induction false} ChainSnoc(stages: seq<Stage>, path: seq<nat>, id: nat)
    requires Chain(stages, path) && DependsOn(stages, path[|path| - 1], id)
    ensures Chain(stages, path + [id]) && (path + [id])[..|path|] == path
    ensures forall x :: x in path[..|path| - 1] || x == path[|path| - 1] ==> x in path
  {
    var longer := path + [id];
    forall i | 0 < i < |longer| ensures DependsOn(stages, longer[i - 1], longer[i]) {
      if i < |path| { assert DependsOn(stages, path[i - 1], path[i]); }
    }
  }

  /** Following stages that have not run leads to a dead end. */
  lemma {:induction false} FollowBlocked(stages: seq<Stage>, executed: set<nat>, path: seq<nat>, seen: set<nat>)
    requires AllBlocked(stages, executed)
    requires Chain(stages, path) && path[|path| - 1] !in executed
    requires forall id :: id in seen ==> id in path[..|path| - 1]
    ensures HasDeadEnd(stages)
    decreases |Ids(stages) - seen|
  {
    var last := path[|path| - 1];
    if !DeadEnd(stages, path) {
      IdsAreIds(stages);
      var k :| 0 <= k < |stages| && stages[k].id == last;
      assert Blocked(stages[k], executed);
      var input :| input in stages[k].inputStages && input !in executed;
      ChainSnoc(stages, path, input);
      assert Ids(stages) - seen == (Ids(stages) - (seen + {last})) + {last};
      FollowBlocked(stages, executed, path + [input], seen + {last});
    }
  }

  /** Without dead ends and repeated numbers, any order so far can be completed. */
  lemma {:induction false} CompleteOrder(order: seq<Stage>, stages: seq<Stage>) returns (full: seq<Stage>)
    requires ValidOrder(order, stages) && DistinctIds(stages) && !HasDeadEnd(stages)
    ensures ValidOrder(full, stages) && |full| == |stages| && order <= full
    decreases |stages| - |order|
  {
    OrderedIdsAreGraphIds(order, stages);
    if |order| == |stages| { return order; }
    if AllBlocked(stages, Ids(order)) { StuckMeansDeadEnd(order, stages); }
    var k :| 0 <= k < |stages| && !Blocked(stages[k], Ids(order));
    ValidOrderSnoc(order, stages, stages[k]);
    full := CompleteOrder(order + [stages[k]], stages);
  }

  /** The graph has an order of all its stages exactly when its numbers differ and nothing is dead. */
  lemma {:induction false} OrderExists(stages: seq<Stage>)
    ensures (exists order :: ValidOrder(order, stages) && |order| == |stages|) <==>
            DistinctIds(stages) && !HasDeadEnd(stages)
  {
    if order :| ValidOrder(order, stages) && |order| == |stages| {
      OrderExcludesDeadEnds(order, stages);
    }
    if DistinctIds(stages) && !HasDeadEnd(stages) {
      var full := CompleteOrder([], stages);
    }
  }

  /** A pass that runs nothing, with stages left over, means a dead end or two stages with one number. */
  lemma {:induction false} StuckMeansDeadEnd(order: seq<Stage>, stages: seq<Stage>)
    requires ValidOrder(order, stages) && |Ids(order)| < |stages|
    requires AllBlocked(stages, Ids(order))
    ensures !DistinctIds(stages) || HasDeadEnd(stages)
  {
    OrderedIdsAreGraphIds(order, stages);
    DistinctIdsCount(stages);
    if DistinctIds(stages) {
      if Ids(stages) <= Ids(order) {
        Cardinality(Ids(stages), Ids(order));
      }
      var id :| id in Ids(stages) && id !in Ids(order);
      FollowBlocked(stages, Ids(order), [id], {});
    }
  }
}
