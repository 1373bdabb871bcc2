/** Whole histories of the selection builder, and how the cost model predicts its output. */
module LateSelectionRuns {
  import opened Machine
  import opened CostModel
  import opened LateSelection

  // ----- whole histories

  datatype Operation =
    | PushOne(selected: bool)
    | PushMany(rowCount: nat, selected: bool)
    | PushOffsets(rows: nat, offsets: seq<nat>)
    | PushCoalesced(rows: nat, late: seq<Offset>, gapLimit: nat, runCost: nat, expansion: nat)

  /** What an operation pushes: its rows, and the accepted offsets of a coalesced push, which marks them. */
  datatype Push = Push(rows: seq<bool>, marked: Option<seq<nat>>) {
    ghost function PushMarkers(): seq<Option<nat>> {
      if marked.Some? then Markers(rows, marked.value) else []
    }
  }

  /** The push of an operation; `gap` is the one a coalesced push chose. */
  ghost function PushOf(op: Operation, gap: nat): Push {
    match op
    case PushOne(selected) => Push([selected], None)
    case PushMany(rowCount, selected) => Push(Repeat(selected, rowCount), None)
    case PushOffsets(rows, offsets) => Push(SelectionMask(rows, Accepted(offsets, rows), 0), None)
    case PushCoalesced(rows, late, _, _, _) =>
      Push(SelectionMask(rows, Accepted(late, rows), gap), Some(Accepted(late, rows)))
  }

  ghost function AllRows(pushes: seq<Push>): seq<bool> {
    if pushes == [] then [] else AllRows(pushes[..|pushes| - 1]) + pushes[|pushes| - 1].rows
  }

  /** The markers of all coalesced pushes, in one list. */
  ghost function AllMarkers(pushes: seq<Push>): seq<Option<nat>> {
    if pushes == [] then [] else AllMarkers(pushes[..|pushes| - 1]) + pushes[|pushes| - 1].PushMarkers()
  }

  lemma {:induction false} AllSnoc(pushes: seq<Push>, push: Push)
    ensures AllRows(pushes + [push]) == AllRows(pushes) + push.rows
    ensures AllMarkers(pushes + [push]) == AllMarkers(pushes) + push.PushMarkers()
  {
    assert (pushes + [push])[..|pushes|] == pushes;
  }

  /** A coalesced push on which the gap search ends. */
  ghost predicate Searchable(op: Operation) {
    op.PushCoalesced? ==> op.gapLimit < USIZE_MAX || |op.late| <= 1
  }

  /** The operation pushed this, with the gap that its search chose. */
  ghost predicate Pushes(op: Operation, gap: nat, push: Push) {
    && push == PushOf(op, gap)
    && (op.PushCoalesced? ==> ChosenGap(op.late, op.gapLimit, op.runCost, op.expansion, gap))
  }

  ghost predicate Logged(ops: seq<Operation>, gaps: seq<nat>, pushes: seq<Push>) {
    && |gaps| == |pushes| <= |ops|
    && forall i :: 0 <= i < |pushes| ==> Pushes(ops[i], gaps[i], pushes[i])
  }

  lemma {:induction false} LoggedSnoc(ops: seq<Operation>, gaps: seq<nat>, pushes: seq<Push>, gap: nat, push: Push)
    requires Logged(ops, gaps, pushes) && |pushes| < |ops| && Pushes(ops[|pushes|], gap, push)
    ensures Logged(ops, gaps + [gap], pushes + [push])
  {
    forall i | 0 <= i <= |pushes| ensures Pushes(ops[i], (gaps + [gap])[i], (pushes + [push])[i]) {
      if i < |pushes| { assert Pushes(ops[i], gaps[i], pushes[i]); }
    }
  }

  /** One operation on the builder; a coalesced push hands out its markers and its gap. */
  method Apply(b: LateSelectionBuilder, op: Operation)
    returns (markers: seq<Option<nat>>, gap: nat, ghost push: Push)
    requires b.Valid() && Searchable(op)
    modifies b
    ensures b.Valid() && b.Rows() == old(b.Rows()) + push.rows
    ensures markers == push.PushMarkers() && Pushes(op, gap, push)
  {
    if op.PushCoalesced? {
      markers, gap := b.PushSelectedOffsetsCoalesced(op.rows, op.late, op.gapLimit, op.runCost, op.expansion);
      push := Push(SelectionMask(op.rows, Accepted(op.late, op.rows), gap), Some(Accepted(op.late, op.rows)));
    } else {
      markers, gap, push := [], 0, PushOf(op, 0);
      ApplyPlain(b, op);
    }
  }

  method ApplyPlain(b: LateSelectionBuilder, op: Operation)
    requires b.Valid() && !op.PushCoalesced?
    modifies b
    ensures b.Valid() && b.Rows() == old(b.Rows()) + PushOf(op, 0).rows
  {
    match op {
      case PushOne(selected) => b.Push(selected);
      case PushMany(rowCount, selected) => b.PushRepeated(rowCount, selected);
      case PushOffsets(rows, offsets) => b.PushSelectedOffsets(rows, offsets);
    }
  }

  /**
   * For every interleaving of pushes: the finished selectors expand to the rows pushed,
   * exactly, and one marker list collects the markers of all coalesced pushes.
   */
  method BuildSelection(ops: seq<Operation>)
    returns (selection: Option<seq<Selector>>, finished: seq<Selector>, totalRows: nat, selectedRows: nat,
             markers: seq<Option<nat>>, gaps: seq<nat>, ghost pushes: seq<Push>)
    requires forall i :: 0 <= i < |ops| ==> Searchable(ops[i])
    ensures |pushes| == |ops| && Logged(ops, gaps, pushes)
    ensures Expand(finished) == AllRows(pushes) && Alternating(finished)
    ensures totalRows == |AllRows(pushes)| && selectedRows == CountSelected(AllRows(pushes))
    ensures selection == if selectedRows > 0 then Some(finished) else None
    ensures markers == AllMarkers(pushes)
  {
    var b := new LateSelectionBuilder();
    markers, gaps, pushes := [], [], [];
    for i := 0 to |ops|
      invariant fresh(b) && b.Valid() && |pushes| == i && Logged(ops, gaps, pushes)
      invariant b.Rows() == AllRows(pushes) && markers == AllMarkers(pushes)
    {
      var more, gap;
      ghost var push;
      more, gap, push := Apply(b, ops[i]);
      AllSnoc(pushes, push);
      LoggedSnoc(ops, gaps, pushes, gap, push);
      markers, gaps, pushes := markers + more, gaps + [gap], pushes + [push];
    }
    selection, finished := b.Finish();
    totalRows, selectedRows := b.totalRows, b.selectedRows;
  }

  /** Only coalesced pushes read rows. */
  ghost predicate ReadsMarked(pushes: seq<Push>) {
    forall i :: 0 <= i < |pushes| && pushes[i].marked.None? ==> CountSelected(pushes[i].rows) == 0
  }

  /** There is one marker for each row read exactly when no other push reads rows. */
  lemma {:induction false} MarkersCountRows(pushes: seq<Push>)
    ensures |AllMarkers(pushes)| <= CountSelected(AllRows(pushes))
    ensures |AllMarkers(pushes)| == CountSelected(AllRows(pushes)) <==> ReadsMarked(pushes)
  {
    if pushes != [] {
      var init, last := pushes[..|pushes| - 1], pushes[|pushes| - 1];
      assert pushes == init + [last];
      MarkersCountRows(init);
      CountConcat(AllRows(init), last.rows);
      if last.marked.Some? { MarkersDescribePositions(last.rows, last.marked.value); }
      assert ReadsMarked(pushes) <==> ReadsMarked(init) && (last.marked.None? ==> CountSelected(last.rows) == 0);
    }
  }

  /**
   * What the marker of a row must be: its offset within its push when it was accepted
   * there, and None when it was bridged.
   */
  ghost function Label(pushes: seq<Push>, row: nat): Option<nat> {
    if pushes == [] then None
    else
      var init, last := pushes[..|pushes| - 1], pushes[|pushes| - 1];
      var before := |AllRows(init)|;
      if row < before then Label(init, row)
      else if row - before in last.marked.GetOr([]) then Some(row - before) else None
  }

  /** The marker of a row read is the one numbered by the rows read before it. */
  lemma {:induction false} MarkerOfRow(mask: seq<bool>, accepted: seq<nat>, row: nat)
    requires row < |mask| && mask[row]
    ensures CountSelected(mask[..row]) < |Markers(mask, accepted)|
    ensures Markers(mask, accepted)[CountSelected(mask[..row])] == if row in accepted then Some(row) else None
  {
    var init := mask[..|mask| - 1];
    MarkersDescribePositions(init, accepted);
    if row < |init| {
      assert init[..row] == mask[..row];
      MarkerOfRow(init, accepted, row);
    } else {
      assert init == mask[..row];
    }
  }

  lemma {:induction false} SplitCount(a: seq<bool>, b: seq<bool>, row: nat)
    requires row < |a| + |b|
    ensures (a + b)[row] == if row < |a| then a[row] else b[row - |a|]
    ensures CountSelected((a + b)[..row]) ==
              if row < |a| then CountSelected(a[..row]) else CountSelected(a) + CountSelected(b[..row - |a|])
  {
    if row < |a| {
      assert (a + b)[..row] == a[..row];
    } else {
      assert (a + b)[..row] == a + b[..row - |a|];
      CountConcat(a, b[..row - |a|]);
    }
  }

  lemma {:induction false} PushMarkerOfRow(push: Push, row: nat)
    requires row < |push.rows| && push.rows[row] && (push.marked.None? ==> CountSelected(push.rows) == 0)
    ensures var k := CountSelected(push.rows[..row]);
            && k < |push.PushMarkers()|
            && push.PushMarkers()[k] == if row in push.marked.GetOr([]) then Some(row) else None
  {
    MarkerOfRow(push.rows, push.marked.GetOr([]), row);
    MarkersDescribePositions(push.rows, push.marked.GetOr([]));
  }

  /**
   * In one marker list for many pushes, the k-th marker describes the k-th row that the
   * finished selectors read, as long as coalesced pushes alone read rows.
   */
  lemma {:induction false} HistoryMarkersAlign(pushes: seq<Push>, row: nat)
    requires ReadsMarked(pushes) && row < |AllRows(pushes)| && AllRows(pushes)[row]
    ensures var k := CountSelected(AllRows(pushes)[..row]);
            k < |AllMarkers(pushes)| && AllMarkers(pushes)[k] == Label(pushes, row)
  {
    var init, last := pushes[..|pushes| - 1], pushes[|pushes| - 1];
    var before := AllRows(init);
    assert pushes == init + [last];
    SplitCount(before, last.rows, row);
    MarkersCountRows(init);
    if row < |before| {
      HistoryMarkersAlign(init, row);
    } else {
      PushMarkerOfRow(last, row - |before|);
    }
  }

  /** The rows that an offset list selects, stated without the builder. */
  lemma {:induction false} OffsetsSelectStrictMaxima(rowCount: nat, offsets: seq<nat>, i: nat)
    requires i < rowCount
    ensures SelectionMask(rowCount, Accepted(offsets, rowCount), 0)[i] <==>
            exists j :: 0 <= j < |offsets| && StrictMaximum(offsets, rowCount, j) && offsets[j] == i
  {
    NoGapNoBridge(Accepted(offsets, rowCount), i);
    AcceptedAreStrictMaxima(offsets, rowCount, i);
  }

  // ----- counting runs

  /** The number of maximal stretches of rows that are read. */
  function ReadRuns(rows: seq<bool>): nat {
    if rows == [] then 0
    else
      var n := |rows| - 1;
      ReadRuns(rows[..n]) + if rows[n] && (n == 0 || !rows[n - 1]) then 1 else 0
  }

  function SelectRuns(selectors: seq<Selector>): nat {
    if selectors == [] then 0
    else SelectRuns(selectors[..|selectors| - 1]) + if selectors[|selectors| - 1].skip then 0 else 1
  }

  predicate EndsRead(rows: seq<bool>) {
    rows != [] && rows[|rows| - 1]
  }

  lemma {:induction false} ReadRunsRepeat(rows: seq<bool>, value: bool, n: nat)
    ensures ReadRuns(rows + Repeat(value, n)) == ReadRuns(rows) + if value && n > 0 && !EndsRead(rows) then 1 else 0
  {
    var longer := rows + Repeat(value, n);
    if n == 0 {
      assert longer == rows;
    } else {
      assert longer[..|longer| - 1] == rows + Repeat(value, n - 1);
      ReadRunsRepeat(rows, value, n - 1);
    }
  }

  /** Alternating selectors have one select per maximal stretch. */
  lemma {:induction false} SelectRunsAreReadRuns(selectors: seq<Selector>)
    requires Alternating(selectors)
    ensures SelectRuns(selectors) == ReadRuns(Expand(selectors))
    ensures selectors != [] ==> (EndsRead(Expand(selectors)) <==> !selectors[|selectors| - 1].skip)
  {
    if selectors != [] {
      var init, last := selectors[..|selectors| - 1], selectors[|selectors| - 1];
      assert selectors == init + [last];
      AlternatingSnoc(init, last);
      SelectRunsAreReadRuns(init);
      ReadRunsRepeat(Expand(init), !last.skip, last.rowCount);
    }
  }

  // ----- prediction

  /** On in-range offsets, in any order, the metrics count the stretches and rows that are read. */
  lemma {:induction false} MetricsCountRows(offsets: seq<Offset>, rowCount: nat, gap: nat)
    requires offsets != [] && forall i :: 0 <= i < |offsets| ==> offsets[i] < rowCount
    ensures CountsRows(MetricsFold(offsets, gap), Accepted(offsets, rowCount), gap)
  {
    var n := |offsets| - 1;
    if n == 0 {
      assert Accepted(offsets, rowCount) == [] + [offsets[0]];
      TakenRuns([], gap, offsets[0]);
    } else {
      MetricsCountRows(offsets[..n], rowCount, gap);
      StepCountsRows(MetricsFold(offsets[..n], gap), Accepted(offsets[..n], rowCount), gap, offsets[n]);
    }
  }

  /** The metrics are the runs and rows read so far, and the last offset taken. */
  ghost predicate CountsRows(m: (nat, nat, nat), accepted: seq<nat>, gap: nat) {
    && accepted != [] && Consumed(accepted) == m.2 + 1 && EndsRead(TakenRows(accepted, gap))
    && ReadRuns(TakenRows(accepted, gap)) == m.0 && CountSelected(TakenRows(accepted, gap)) == m.1
  }

  lemma {:induction false} StepCountsRows(m: (nat, nat, nat), accepted: seq<nat>, gap: nat, x: Offset)
    requires CountsRows(m, accepted, gap)
    ensures CountsRows(MetricsStep(m, x, gap), if x < Consumed(accepted) then accepted else accepted + [x], gap)
  {
    if x >= Consumed(accepted) { TakenRuns(accepted, gap, x); }
  }

  /** Taking one more offset adds a run unless it directly follows a row that is read. */
  lemma {:induction false} TakenRuns(before: seq<nat>, gap: nat, x: nat)
    ensures var bridged, skipped := Bridges(before, gap, x), Skipped(before, x);
            var rows, more := TakenRows(before, gap), TakenRows(before + [x], gap);
            && EndsRead(more)
            && ReadRuns(more) == ReadRuns(rows) + (if EndsRead(rows) && (bridged || skipped == 0) then 0 else 1)
            && CountSelected(more) == CountSelected(rows) + (if bridged then skipped else 0) + 1
  {
    var rows, bridged, skipped := TakenRows(before, gap), Bridges(before, gap, x), Skipped(before, x);
    TakenSnoc(before, gap, x);
    TakenCount(before, gap, x);
    ReadRunsRepeat(rows, bridged, skipped);
    RepeatOne(true);
    ReadRunsRepeat(rows + Repeat(bridged, skipped), true, 1);
    if skipped == 0 { assert rows + Repeat(bridged, skipped) == rows; }
  }

  /** The offsets that fall inside the row count. */
  function InRange(offsets: seq<Offset>, rowCount: nat): seq<Offset> {
    if offsets == [] then []
    else
      var before, x := InRange(offsets[..|offsets| - 1], rowCount), offsets[|offsets| - 1];
      if x < rowCount then before + [x] else before
  }

  /** Offsets out of range change nothing that is accepted. */
  lemma {:induction false} AcceptedInRange(offsets: seq<Offset>, rowCount: nat)
    ensures Accepted(InRange(offsets, rowCount), rowCount) == Accepted(offsets, rowCount)
    ensures forall i :: 0 <= i < |InRange(offsets, rowCount)| ==> InRange(offsets, rowCount)[i] < rowCount
    ensures (forall i :: 0 <= i < |offsets| ==> offsets[i] < rowCount) ==> InRange(offsets, rowCount) == offsets
  {
    if offsets != [] {
      var init, x := offsets[..|offsets| - 1], offsets[|offsets| - 1];
      assert offsets == init + [x];
      AcceptedInRange(init, rowCount);
      if x < rowCount {
        var taken := InRange(init, rowCount) + [x];
        assert taken[..|taken| - 1] == InRange(init, rowCount);
      }
    }
  }

  /** The metrics of an increasing list end at its last offset, and each offset adds payload. */
  lemma {:induction false} IncreasingMetrics(offsets: seq<Offset>, gap: nat)
    requires offsets != [] && Increasing(offsets)
    ensures MetricsFold(offsets, gap).2 == offsets[|offsets| - 1]
    ensures Metrics(offsets[..|offsets| - 1], gap).1 < Metrics(offsets, gap).1
  {
    if |offsets| > 1 { IncreasingMetrics(offsets[..|offsets| - 1], gap); }
  }

  lemma {:induction false} InRangeHasLessPayload(offsets: seq<Offset>, rowCount: nat, gap: nat)
    requires Increasing(offsets)
    ensures Metrics(InRange(offsets, rowCount), gap).1 <= Metrics(offsets, gap).1
    ensures offsets != [] && offsets[|offsets| - 1] < rowCount ==> InRange(offsets, rowCount) == offsets
  {
    if offsets != [] {
      var init, last := offsets[..|offsets| - 1], offsets[|offsets| - 1];
      assert offsets == init + [last];
      InRangeHasLessPayload(init, rowCount, gap);
      if last < rowCount {
        if init != [] { assert init[|init| - 1] < last; }
        assert InRange(init, rowCount) == init;
      } else {
        assert InRange(offsets, rowCount) == InRange(init, rowCount);
        IncreasingMetrics(offsets, gap);
      }
    }
  }

  /**
   * The cost model counts an offset out of range, which the builder skips. On an increasing
   * list its metrics are those of the in-range offsets exactly when the last offset is in range.
   */
  lemma {:induction false} MetricsIgnoreNothing(offsets: seq<Offset>, rowCount: nat, gap: nat)
    requires Increasing(offsets)
    ensures Metrics(offsets, gap) == Metrics(InRange(offsets, rowCount), gap) <==>
            offsets == [] || offsets[|offsets| - 1] < rowCount
  {
    InRangeHasLessPayload(offsets, rowCount, gap);
    if offsets != [] && offsets[|offsets| - 1] >= rowCount {
      IncreasingMetrics(offsets, gap);
      InRangeHasLessPayload(offsets[..|offsets| - 1], rowCount, gap);
    }
  }

  /** On a list that does not increase, the two may agree by accident. */
  lemma {:induction false} AccidentalAgreement()
    ensures Metrics([5, 0], 0) == Metrics(InRange([5, 0], 3), 0) && InRange([5, 0], 3) == [0]
  {
    var offsets: seq<Offset> := [5, 0];
    assert offsets[..1] == [5];
    assert InRange([5], 3) == [];
  }

  /**
   * On a fresh builder the cost model predicts the selectors: the metrics of the in-range
   * offsets at the chosen gap are the select runs and the payload rows written. When all
   * offsets are in range, payload stays within n * (1 + expansion), and payload plus run
   * cost within the cost of a run per row. The metrics that the search itself computed are
   * those of the selectors exactly when the last of increasing offsets is in range.
   */
  method BuildCoalesced(rowCount: nat, offsets: seq<Offset>, gapLimit: nat, runCost: nat, expansion: nat)
    returns (finished: seq<Selector>, markers: seq<Option<nat>>, gap: nat)
    requires gapLimit < USIZE_MAX || |offsets| <= 1
    ensures (SelectRuns(finished), |markers|) == Metrics(InRange(offsets, rowCount), gap)
    ensures Increasing(offsets) ==>
              ((SelectRuns(finished), |markers|) == Metrics(offsets, gap) <==>
               offsets == [] || offsets[|offsets| - 1] < rowCount)
    ensures InRange(offsets, rowCount) == offsets ==>
              |markers| <= |offsets| * (1 + expansion)
              && |markers| + SelectRuns(finished) * RunCost(runCost) <= |offsets| + |offsets| * RunCost(runCost)
    ensures ChosenGap(offsets, gapLimit, runCost, expansion, gap)
    ensures Expand(finished) == SelectionMask(rowCount, Accepted(offsets, rowCount), gap)
  {
    var b := new LateSelectionBuilder();
    markers, gap := b.PushSelectedOffsetsCoalesced(rowCount, offsets, gapLimit, runCost, expansion);
    var selection;
    selection, finished := b.Finish();
    MarkersDescribePositions(Expand(finished), Accepted(offsets, rowCount));
    PredictionHolds(rowCount, offsets, gap, finished, markers);
    if Increasing(offsets) { MetricsIgnoreNothing(offsets, rowCount, gap); }
    if offsets != [] { ChosenGapIsAffordable(offsets, gap, runCost, expansion); }
  }

  lemma {:induction false} MaskCounts(accepted: seq<nat>, gap: nat, rowCount: nat)
    requires Increasing(accepted) && Consumed(accepted) <= rowCount
    ensures ReadRuns(SelectionMask(rowCount, accepted, gap)) == ReadRuns(TakenRows(accepted, gap))
    ensures CountSelected(SelectionMask(rowCount, accepted, gap)) == CountSelected(TakenRows(accepted, gap))
  {
    var rows, rest := TakenRows(accepted, gap), rowCount - Consumed(accepted);
    TakenIsMask(accepted, gap);
    MaskEnds(accepted, gap, rowCount);
    ReadRunsRepeat(rows, false, rest);
    CountConcat(rows, Repeat(false, rest));
    CountRepeat(false, rest);
  }

  lemma {:induction false} PredictionHolds(rowCount: nat, offsets: seq<Offset>, gap: nat, finished: seq<Selector>,
                                           markers: seq<Option<nat>>)
    requires Alternating(finished) && Expand(finished) == SelectionMask(rowCount, Accepted(offsets, rowCount), gap)
    requires |markers| == CountSelected(Expand(finished))
    ensures (SelectRuns(finished), |markers|) == Metrics(InRange(offsets, rowCount), gap)
  {
    AcceptedInRange(offsets, rowCount);
    AcceptedIncreases(offsets, rowCount);
    MaskCounts(Accepted(offsets, rowCount), gap, rowCount);
    SelectRunsAreReadRuns(finished);
    if InRange(offsets, rowCount) != [] { MetricsCountRows(InRange(offsets, rowCount), rowCount, gap); }
  }

  /** The k-th marker describes the k-th row that the finished selectors read. */
  lemma {:induction false} MarkersAlign(rowCount: nat, offsets: seq<nat>, gap: nat, finished: seq<Selector>, k: nat)
    requires Expand(finished) == SelectionMask(rowCount, Accepted(offsets, rowCount), gap)
    requires k < |Positions(Expand(finished))|
    ensures var accepted, row := Accepted(offsets, rowCount), Positions(Expand(finished))[k];
            var markers := Markers(Expand(finished), accepted);
            && |markers| == |Positions(Expand(finished))| == CountSelected(Expand(finished))
            && (markers[k] == Some(row) <==> row in accepted)
            && (markers[k] == None <==> row !in accepted && Bridged(accepted, gap, row))
  {
    MarkersDescribePositions(Expand(finished), Accepted(offsets, rowCount));
  }
}
