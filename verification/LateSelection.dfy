/** The run-length builder of late row selections. */
module LateSelection {
  import opened Machine
  import opened CostModel

  datatype Selector = Selector(rowCount: nat, skip: bool)

  function Repeat<T>(value: T, n: nat): (r: seq<T>)
    ensures |r| == n && forall i :: 0 <= i < n ==> r[i] == value
  {
    if n == 0 then [] else Repeat(value, n - 1) + [value]
  }

  /** The row-by-row meaning of a selector list: true for a row that is read. */
  function Expand(selectors: seq<Selector>): seq<bool> {
    if selectors == [] then []
    else
      var last := selectors[|selectors| - 1];
      Expand(selectors[..|selectors| - 1]) + Repeat(!last.skip, last.rowCount)
  }

  function CountSelected(rows: seq<bool>): nat {
    if rows == [] then 0 else CountSelected(rows[..|rows| - 1]) + if rows[|rows| - 1] then 1 else 0
  }

  lemma {:induction false} CountConcat(a: seq<bool>, b: seq<bool>)
    ensures CountSelected(a + b) == CountSelected(a) + CountSelected(b)
  {
    if b == [] {
      assert a + b == a;
    } else {
      assert (a + b)[..|a + b| - 1] == a + b[..|b| - 1];
      CountConcat(a, b[..|b| - 1]);
    }
  }

  lemma {:induction false} RepeatOne<T>(value: T)
    ensures Repeat(value, 1) == [value]
  {
  }

  lemma {:induction false} RepeatEmpty<T>(a: T, b: T, n: nat)
    requires n == 0 || a == b
    ensures Repeat(a, n) == Repeat(b, n)
  {
  }

  lemma {:induction false} CountOne(rows: seq<bool>, value: bool)
    ensures CountSelected(rows + [value]) == CountSelected(rows) + if value then 1 else 0
  {
    assert (rows + [value])[..|rows|] == rows;
  }

  lemma {:induction false} CountRepeat(value: bool, n: nat)
    ensures CountSelected(Repeat(value, n)) == if value then n else 0
  {
    if n > 0 {
      assert Repeat(value, n)[..n - 1] == Repeat(value, n - 1);
      CountRepeat(value, n - 1);
    }
  }

  /** Positive lengths, and select and skip in strict alternation. */
  ghost predicate Alternating(selectors: seq<Selector>) {
    && (forall i :: 0 <= i < |selectors| ==> selectors[i].rowCount > 0)
    && (forall i :: 0 < i < |selectors| ==> Turns(selectors, i))
  }

  ghost predicate Turns(selectors: seq<Selector>, i: nat)
    requires 0 < i < |selectors|
  {
    selectors[i].skip != selectors[i - 1].skip
  }

  lemma {:induction false} AlternatingSnoc(selectors: seq<Selector>, last: Selector)
    ensures Alternating(selectors + [last]) <==>
            && Alternating(selectors) && last.rowCount > 0
            && (selectors != [] ==> selectors[|selectors| - 1].skip != last.skip)
  {
    var more := selectors + [last];
    if Alternating(selectors) && (selectors != [] ==> selectors[|selectors| - 1].skip != last.skip) {
      forall i | 0 < i < |more| ensures Turns(more, i) {
        if i < |selectors| { assert Turns(selectors, i); }
      }
    }
    if Alternating(more) {
      forall i | 0 < i < |selectors| ensures Turns(selectors, i) {
        assert Turns(more, i);
      }
      assert forall i :: 0 <= i < |selectors| ==> selectors[i] == more[i];
      assert more[|selectors|] == last;
      if selectors != [] { assert Turns(more, |selectors|); }
    }
  }

  // ----- which offsets are taken

  function Consumed(accepted: seq<nat>): nat {
    if accepted == [] then 0 else accepted[|accepted| - 1] + 1
  }

  /** The offsets taken from a list: in range and past everything taken before. */
  function Accepted(offsets: seq<nat>, rowCount: nat): seq<nat> {
    if offsets == [] then []
    else
      var before, offset := Accepted(offsets[..|offsets| - 1], rowCount), offsets[|offsets| - 1];
      if offset >= rowCount || offset < Consumed(before) then before else before + [offset]
  }

  ghost predicate Increasing(s: seq<nat>) {
    forall i, j :: 0 <= i < j < |s| ==> s[i] < s[j]
  }

  lemma {:induction false} AcceptedIncreases(offsets: seq<nat>, rowCount: nat)
    ensures Increasing(Accepted(offsets, rowCount)) && Consumed(Accepted(offsets, rowCount)) <= rowCount
  {
    if offsets != [] { AcceptedIncreases(offsets[..|offsets| - 1], rowCount); }
  }

  /** In range, and greater than every earlier offset that is in range. */
  ghost predicate StrictMaximum(offsets: seq<nat>, rowCount: nat, j: nat)
    requires j < |offsets|
  {
    offsets[j] < rowCount && forall i :: 0 <= i < j && offsets[i] < rowCount ==> offsets[i] < offsets[j]
  }

  lemma {:induction false} ConsumedIsBound(offsets: seq<nat>, rowCount: nat)
    ensures forall i :: 0 <= i < |offsets| && offsets[i] < rowCount ==>
              offsets[i] < Consumed(Accepted(offsets, rowCount))
    ensures Accepted(offsets, rowCount) != [] ==>
              exists i :: (0 <= i < |offsets| && offsets[i] < rowCount
                           && offsets[i] + 1 == Consumed(Accepted(offsets, rowCount)))
  {
    if offsets != [] {
      var init := offsets[..|offsets| - 1];
      ConsumedIsBound(init, rowCount);
      if Accepted(offsets, rowCount) == Accepted(init, rowCount) && Accepted(init, rowCount) != [] {
        var i :| 0 <= i < |init| && init[i] < rowCount && init[i] + 1 == Consumed(Accepted(init, rowCount));
        assert offsets[i] == init[i];
      }
    }
  }

  /** From an unsorted list, exactly the in-range left-to-right strict maxima are taken. */
  lemma {:induction false} AcceptedAreStrictMaxima(offsets: seq<nat>, rowCount: nat, x: nat)
    ensures x in Accepted(offsets, rowCount) <==>
            exists j :: 0 <= j < |offsets| && StrictMaximum(offsets, rowCount, j) && offsets[j] == x
  {
    if offsets != [] {
      var n := |offsets| - 1;
      var init := offsets[..n];
      AcceptedAreStrictMaxima(init, rowCount, x);
      ConsumedIsBound(init, rowCount);
      forall j | 0 <= j < n ensures StrictMaximum(init, rowCount, j) <==> StrictMaximum(offsets, rowCount, j) {
        assert forall i :: 0 <= i < n ==> init[i] == offsets[i];
      }
      assert StrictMaximum(offsets, rowCount, n) <==>
             offsets[n] < rowCount && offsets[n] >= Consumed(Accepted(init, rowCount)) by {
        assert forall i :: 0 <= i < n ==> init[i] == offsets[i];
      }
      if j :| 0 <= j < n && StrictMaximum(init, rowCount, j) && init[j] == x {
        assert StrictMaximum(offsets, rowCount, j) && offsets[j] == x;
      }
    }
  }

  // ----- which rows are read

  /** Row `i` lies between accepted offsets `j - 1` and `j`, at most `gap` rows apart. */
  ghost predicate InGap(accepted: seq<nat>, gap: nat, j: int, i: nat) {
    0 < j < |accepted| && accepted[j - 1] < i < accepted[j] && accepted[j] - accepted[j - 1] - 1 <= gap
  }

  /** Row `i` lies in a gap of at most `gap` rows between two consecutive accepted offsets. */
  ghost predicate Bridged(accepted: seq<nat>, gap: nat, i: nat) {
    exists j :: InGap(accepted, gap, j, i)
  }

  ghost predicate Read(accepted: seq<nat>, gap: nat, i: nat) {
    i in accepted || Bridged(accepted, gap, i)
  }

  ghost function SelectionMask(rowCount: nat, accepted: seq<nat>, gap: nat): (mask: seq<bool>)
    ensures |mask| == rowCount && forall i :: 0 <= i < rowCount ==> mask[i] == Read(accepted, gap, i)
  {
    if rowCount == 0 then [] else SelectionMask(rowCount - 1, accepted, gap) + [Read(accepted, gap, rowCount - 1)]
  }

  /** Whether the rows skipped before the next accepted offset are read as well. */
  predicate Bridges(accepted: seq<nat>, gap: nat, x: nat) {
    accepted != [] && Consumed(accepted) <= x && x - Consumed(accepted) <= gap
  }

  lemma {:induction false} BridgedExtends(accepted: seq<nat>, gap: nat, x: nat, i: nat)
    requires Increasing(accepted) && Consumed(accepted) <= x
    ensures i < Consumed(accepted) ==> (Bridged(accepted + [x], gap, i) <==> Bridged(accepted, gap, i))
    ensures Consumed(accepted) <= i < x ==> (Bridged(accepted + [x], gap, i) <==> Bridges(accepted, gap, x))
  {
    var n, more := |accepted|, accepted + [x];
    if j :| InGap(accepted, gap, j, i) {
      assert InGap(more, gap, j, i);
    }
    if j :| InGap(more, gap, j, i) {
      if j < n {
        assert InGap(accepted, gap, j, i);
        assert accepted[j] <= accepted[n - 1];
      }
    }
    if Consumed(accepted) <= i < x && Bridges(accepted, gap, x) {
      assert InGap(more, gap, n, i);
    }
  }

  /** One more accepted offset extends the mask by its gap and by one selected row. */
  lemma {:induction false} MaskExtends(accepted: seq<nat>, gap: nat, x: nat, skipped: nat)
    requires Increasing(accepted) && skipped == x - Consumed(accepted)
    ensures SelectionMask(x + 1, accepted + [x], gap) ==
              SelectionMask(Consumed(accepted), accepted, gap) + Repeat(Bridges(accepted, gap, x), skipped) + [true]
  {
    var more := accepted + [x];
    var a := SelectionMask(x + 1, more, gap);
    var b := SelectionMask(Consumed(accepted), accepted, gap)
             + Repeat(Bridges(accepted, gap, x), skipped) + [true];
    forall i: nat | i <= x ensures a[i] == b[i] {
      BridgedExtends(accepted, gap, x, i);
      assert i in more <==> i == x || i in accepted;
      assert forall k :: k in accepted ==> k < Consumed(accepted);
      assert a[i] == Read(more, gap, i);
    }
  }

  /** Rows after the last accepted offset are not read. */
  lemma {:induction false} MaskEnds(accepted: seq<nat>, gap: nat, rowCount: nat)
    requires Increasing(accepted) && Consumed(accepted) <= rowCount
    ensures SelectionMask(rowCount, accepted, gap) ==
              SelectionMask(Consumed(accepted), accepted, gap) + Repeat(false, rowCount - Consumed(accepted))
  {
  }

  /** Without a gap, the rows read are the accepted offsets. */
  lemma {:induction false} NoGapNoBridge(accepted: seq<nat>, i: nat)
    ensures !Bridged(accepted, 0, i)
  {
  }

  // ----- payload markers

  /** One marker per row read, in reading order: its offset when accepted, None when bridged. */
  ghost function Markers(mask: seq<bool>, accepted: seq<nat>): seq<Option<nat>> {
    if mask == [] then []
    else
      var n := |mask| - 1;
      Markers(mask[..n], accepted) + if !mask[n] then [] else [if n in accepted then Some(n) else None]
  }

  /** The positions of the rows read, in order. */
  ghost function Positions(mask: seq<bool>): seq<nat> {
    if mask == [] then [] else Positions(mask[..|mask| - 1]) + if mask[|mask| - 1] then [|mask| - 1] else []
  }

  /** The k-th marker describes the k-th row that the selectors read. */
  lemma {:induction false} MarkersDescribePositions(mask: seq<bool>, accepted: seq<nat>)
    ensures |Markers(mask, accepted)| == |Positions(mask)| == CountSelected(mask)
    ensures forall k :: 0 <= k < |Positions(mask)| ==>
              (Positions(mask)[k] < |mask| && mask[Positions(mask)[k]] &&
               Markers(mask, accepted)[k] == if Positions(mask)[k] in accepted then Some(Positions(mask)[k]) else None)
  {
    if mask != [] { MarkersDescribePositions(mask[..|mask| - 1], accepted); }
  }

  lemma {:induction false} MarkersExtend(mask: seq<bool>, accepted: seq<nat>, x: nat, bridged: bool, n: nat)
    requires |mask| == Consumed(accepted) && Increasing(accepted) && n <= x - |mask|
    ensures Markers(mask + Repeat(bridged, n), accepted + [x]) ==
              Markers(mask, accepted) + Repeat(None, if bridged then n else 0)
  {
    var m := mask + Repeat(bridged, n);
    if n == 0 {
      assert m == mask;
      MarkersIgnoreLater(mask, accepted, x);
    } else {
      assert m[..|m| - 1] == mask + Repeat(bridged, n - 1);
      MarkersExtend(mask, accepted, x, bridged, n - 1);
      assert |m| - 1 !in accepted + [x];
      if bridged { assert Repeat<Option<nat>>(None, n) == Repeat<Option<nat>>(None, n - 1) + [None]; }
    }
  }

  lemma {:induction false} MarkersIgnoreLater(mask: seq<bool>, accepted: seq<nat>, x: nat)
    requires |mask| <= x
    ensures Markers(mask, accepted + [x]) == Markers(mask, accepted)
  {
    if mask != [] { MarkersIgnoreLater(mask[..|mask| - 1], accepted, x); }
  }

  lemma {:induction false} MarkersEnd(mask: seq<bool>, accepted: seq<nat>, n: nat)
    ensures Markers(mask + Repeat(false, n), accepted) == Markers(mask, accepted)
  {
    var m := mask + Repeat(false, n);
    if n == 0 {
      assert m == mask;
    } else {
      assert m[..|m| - 1] == mask + Repeat(false, n - 1);
      MarkersEnd(mask, accepted, n - 1);
    }
  }

  lemma {:induction false} MarkersAfterStep(mask: seq<bool>, accepted: seq<nat>, x: nat, bridged: bool, n: nat)
    requires |mask| == Consumed(accepted) && Increasing(accepted) && n == x - |mask|
    ensures Markers(mask + Repeat(bridged, n) + [true], accepted + [x]) ==
              Markers(mask, accepted) + Repeat(None, if bridged then n else 0) + [Some(x)]
  {
    MarkersExtend(mask, accepted, x, bridged, n);
    var m := mask + Repeat(bridged, n);
    assert (m + [true])[..|m|] == m && |m| == x;
  }

  /** Taking or ignoring the next offset. */
  lemma {:induction false} AcceptedSnoc(offsets: seq<nat>, i: nat, rowCount: nat)
    requires i < |offsets|
    ensures Accepted(offsets[..i + 1], rowCount) ==
              if Consumed(Accepted(offsets[..i], rowCount)) <= offsets[i] < rowCount
              then Accepted(offsets[..i], rowCount) + [offsets[i]] else Accepted(offsets[..i], rowCount)
  {
    assert offsets[..i + 1][..i] == offsets[..i];
  }

  /** The rows up to the last accepted offset, built offset by offset. */
  function TakenRows(accepted: seq<nat>, gap: nat): seq<bool> {
    if accepted == [] then []
    else
      var before, x := accepted[..|accepted| - 1], accepted[|accepted| - 1];
      TakenRows(before, gap) + Repeat(Bridges(before, gap, x), Skipped(before, x)) + [true]
  }

  /** The markers up to the last accepted offset, built offset by offset. */
  function TakenMarkers(accepted: seq<nat>, gap: nat): seq<Option<nat>> {
    if accepted == [] then []
    else
      var before, x := accepted[..|accepted| - 1], accepted[|accepted| - 1];
      TakenMarkers(before, gap) + Repeat(None, if Bridges(before, gap, x) then Skipped(before, x) else 0) + [Some(x)]
  }

  function Skipped(accepted: seq<nat>, x: nat): nat {
    if Consumed(accepted) <= x then x - Consumed(accepted) else 0
  }

  lemma {:induction false} TakenSnoc(accepted: seq<nat>, gap: nat, x: nat)
    ensures TakenRows(accepted + [x], gap) ==
              TakenRows(accepted, gap) + Repeat(Bridges(accepted, gap, x), Skipped(accepted, x)) + [true]
  {
    assert (accepted + [x])[..|accepted|] == accepted;
  }

  lemma {:induction false} TakenMarkersSnoc(accepted: seq<nat>, gap: nat, x: nat)
    ensures TakenMarkers(accepted + [x], gap) ==
              TakenMarkers(accepted, gap)
              + Repeat(None, if Bridges(accepted, gap, x) then Skipped(accepted, x) else 0) + [Some(x)]
  {
    assert (accepted + [x])[..|accepted|] == accepted;
  }

  lemma {:induction false} TakenCount(accepted: seq<nat>, gap: nat, x: nat)
    ensures CountSelected(TakenRows(accepted + [x], gap)) ==
              CountSelected(TakenRows(accepted, gap))
              + (if Bridges(accepted, gap, x) then Skipped(accepted, x) else 0) + 1
  {
    TakenSnoc(accepted, gap, x);
    CountStep(TakenRows(accepted, gap), Bridges(accepted, gap, x), Skipped(accepted, x));
  }

  /** Some rows, and then the rows taken offset by offset. */
  function ExtendedBy(rows: seq<bool>, accepted: seq<nat>, gap: nat): seq<bool> {
    if accepted == [] then rows
    else
      var before, x := accepted[..|accepted| - 1], accepted[|accepted| - 1];
      ExtendedBy(rows, before, gap) + Repeat(Bridges(before, gap, x), Skipped(before, x)) + [true]
  }

  lemma {:induction false} ExtendedSnoc(rows: seq<bool>, accepted: seq<nat>, gap: nat, x: nat)
    ensures ExtendedBy(rows, accepted + [x], gap) ==
              ExtendedBy(rows, accepted, gap) + Repeat(Bridges(accepted, gap, x), Skipped(accepted, x)) + [true]
  {
    assert (accepted + [x])[..|accepted|] == accepted;
  }

  lemma {:induction false} ExtendedIsConcat(rows: seq<bool>, accepted: seq<nat>, gap: nat)
    ensures ExtendedBy(rows, accepted, gap) == rows + TakenRows(accepted, gap)
  {
    if accepted == [] {
      assert rows + [] == rows;
    } else {
      ExtendedIsConcat(rows, accepted[..|accepted| - 1], gap);
    }
  }

  /** Offset by offset or row by row: the same rows, and markers that describe them. */
  lemma {:induction false} TakenIsMask(accepted: seq<nat>, gap: nat)
    requires Increasing(accepted)
    ensures TakenRows(accepted, gap) == SelectionMask(Consumed(accepted), accepted, gap)
    ensures TakenMarkers(accepted, gap) == Markers(TakenRows(accepted, gap), accepted)
  {
    if accepted != [] {
      var before, x := accepted[..|accepted| - 1], accepted[|accepted| - 1];
      assert accepted == before + [x];
      TakenIsMask(before, gap);
      TakenStep(before, gap, x);
    }
  }

  lemma {:induction false} TakenStep(before: seq<nat>, gap: nat, x: nat)
    requires Increasing(before + [x]) && Increasing(before)
    requires TakenRows(before, gap) == SelectionMask(Consumed(before), before, gap)
    requires TakenMarkers(before, gap) == Markers(TakenRows(before, gap), before)
    ensures TakenRows(before + [x], gap) == SelectionMask(Consumed(before + [x]), before + [x], gap)
    ensures TakenMarkers(before + [x], gap) == Markers(TakenRows(before + [x], gap), before + [x])
  {
    ConsumedBelow(before, x);
    var rows, bridged, skipped := TakenRows(before, gap), Bridges(before, gap, x), Skipped(before, x);
    assert skipped == x - Consumed(before);
    assert TakenRows(before + [x], gap) == SelectionMask(x + 1, before + [x], gap) by {
      TakenSnoc(before, gap, x);
      MaskExtends(before, gap, x, skipped);
    }
    TakenSnoc(before, gap, x);
    TakenMarkersSnoc(before, gap, x);
    MarkersAfterStep(rows, before, x, bridged, skipped);
  }

  lemma {:induction false} ConsumedBelow(before: seq<nat>, x: nat)
    requires Increasing(before + [x])
    ensures Consumed(before) <= x && Consumed(before + [x]) == x + 1
  {
    if before != [] { assert (before + [x])[|before| - 1] < (before + [x])[|before|]; }
  }

  // ----- runs

  /** The closed runs, and the open run when there is one. */
  datatype Runs = Runs(selectors: seq<Selector>, current: Option<bool>, runLen: nat) {
    /** Every row so far: the closed runs, then the open one. */
    function Rows(): seq<bool> {
      Expand(selectors) + Repeat(current.GetOr(false), runLen)
    }

    /** The closed runs alternate with each other and with the open run. */
    ghost predicate Valid() {
      && Alternating(selectors)
      && (current.None? ==> selectors == [] && runLen == 0)
      && (current.Some? ==> runLen > 0)
      && (selectors != [] ==> current == Some(selectors[|selectors| - 1].skip))
    }
  }

  lemma {:induction false} RepeatConcat<T>(value: T, m: nat, n: nat)
    ensures Repeat(value, m + n) == Repeat(value, m) + Repeat(value, n)
  {
  }

  lemma {:induction false} CloseRun(runs: Runs, selected: bool, len: nat)
    requires runs.Valid() && runs.current == Some(!selected) && len > 0
    ensures var r := Runs(runs.selectors + [Selector(runs.runLen, selected)], Some(selected), len);
            r.Valid() && r.Rows() == runs.Rows() + Repeat(selected, len)
  {
    var last := Selector(runs.runLen, selected);
    assert (runs.selectors + [last])[..|runs.selectors|] == runs.selectors;
    AlternatingSnoc(runs.selectors, last);
  }

  /** Extends the open run, or closes it and opens another. */
  method AppendRun(runs: Runs, selected: bool, len: nat) returns (r: Runs)
    requires runs.Valid()
    ensures r.Valid() && r.Rows() == runs.Rows() + Repeat(selected, len)
  {
    if len == 0 { return runs; }
    match runs.current
    case Some(open) =>
      if open == selected {
        RepeatConcat(open, runs.runLen, len);
        assert Expand(runs.selectors) + (Repeat(open, runs.runLen) + Repeat(open, len)) ==
               runs.Rows() + Repeat(open, len);
        r := runs.(runLen := runs.runLen + len);
      } else {
        CloseRun(runs, selected, len);
        r := Runs(runs.selectors + [Selector(runs.runLen, !open)], Some(selected), len);
      }
    case None =>
      r := Runs([], Some(selected), len);
  }

  /** The rows skipped before an accepted offset, read or not, and the offset itself. */
  method AppendOffset(runs: Runs, bridged: bool, skipped: nat) returns (r: Runs)
    requires runs.Valid()
    ensures r.Valid() && r.Rows() == runs.Rows() + Repeat(bridged, skipped) + [true]
  {
    r := runs;
    if skipped > 0 { r := AppendRun(r, bridged, skipped); }
    assert r.Rows() == runs.Rows() + Repeat(bridged, skipped);
    r := AppendRun(r, true, 1);
    RepeatOne(true);
  }

  /** What one more accepted offset adds to the rows, the markers and the counts. */
  lemma {:induction false} OffsetStep(rows: seq<bool>, accepted: seq<nat>, gap: nat, x: nat, bridged: bool,
                                      skipped: nat)
    requires skipped == x - Consumed(accepted) && (bridged == Bridges(accepted, gap, x) || skipped == 0)
    ensures ExtendedBy(rows, accepted + [x], gap) == ExtendedBy(rows, accepted, gap) + Repeat(bridged, skipped) + [true]
    ensures TakenMarkers(accepted + [x], gap) ==
              TakenMarkers(accepted, gap) + Repeat(None, if bridged then skipped else 0) + [Some(x)]
    ensures CountSelected(TakenRows(accepted + [x], gap)) ==
              CountSelected(TakenRows(accepted, gap)) + (if bridged then skipped else 0) + 1
    ensures accepted + [x] != [] && Consumed(accepted + [x]) == x + 1
  {
    ExtendedSnoc(rows, accepted, gap, x);
    TakenMarkersSnoc(accepted, gap, x);
    TakenCount(accepted, gap, x);
    RepeatEmpty(Bridges(accepted, gap, x), bridged, skipped);
  }

  /** The runs up to the last accepted offset. */
  method AppendOffsets(runs: Runs, rowCount: nat, offsets: seq<nat>) returns (r: Runs, consumed: nat, appended: nat)
    requires runs.Valid()
    ensures r.Valid() && consumed == Consumed(Accepted(offsets, rowCount))
    ensures r.Rows() == runs.Rows() + TakenRows(Accepted(offsets, rowCount), 0)
    ensures appended == CountSelected(TakenRows(Accepted(offsets, rowCount), 0))
  {
    r, consumed, appended := runs, 0, 0;
    ghost var accepted: seq<nat> := [];
    for i := 0 to |offsets|
      invariant accepted == Accepted(offsets[..i], rowCount) && consumed == Consumed(accepted)
      invariant r.Valid() && r.Rows() == ExtendedBy(runs.Rows(), accepted, 0)
      invariant appended == CountSelected(TakenRows(accepted, 0))
    {
      AcceptedSnoc(offsets, i, rowCount);
      var offset := offsets[i];
      if offset >= rowCount || offset < consumed { continue; }
      var skipped := offset - consumed;
      OffsetStep(runs.Rows(), accepted, 0, offset, false, skipped);
      r := AppendOffset(r, false, skipped);
      accepted := accepted + [offset];
      consumed, appended := offset + 1, appended + 1;
    }
    assert offsets[..|offsets|] == offsets;
    ExtendedIsConcat(runs.Rows(), accepted, 0);
  }

  /** One marker for every bridged row, then one for the accepted offset. */
  method PushMarkers(markers: seq<Option<nat>>, bridgedRows: nat, offset: nat) returns (r: seq<Option<nat>>)
    ensures r == markers + Repeat(None, bridgedRows) + [Some(offset)]
  {
    r := markers;
    for i := 0 to bridgedRows
      invariant r == markers + Repeat(None, i)
    {
      r := r + [None];
    }
    r := r + [Some(offset)];
  }

  /** The runs and markers up to the last accepted offset, short gaps read as well. */
  method AppendCoalesced(runs: Runs, rowCount: nat, offsets: seq<Offset>, gap: nat)
    returns (r: Runs, consumed: nat, payloadRows: nat, markers: seq<Option<nat>>)
    requires runs.Valid()
    ensures r.Valid() && consumed == Consumed(Accepted(offsets, rowCount)) && payloadRows == |markers|
    ensures r.Rows() == runs.Rows() + TakenRows(Accepted(offsets, rowCount), gap)
    ensures markers == TakenMarkers(Accepted(offsets, rowCount), gap)
  {
    r, consumed, payloadRows, markers := runs, 0, 0, [];
    ghost var accepted: seq<nat> := [];
    for i := 0 to |offsets|
      invariant accepted == Accepted(offsets[..i], rowCount) && consumed == Consumed(accepted)
      invariant payloadRows == |markers| && (payloadRows == 0 <==> accepted == [])
      invariant r.Valid() && r.Rows() == ExtendedBy(runs.Rows(), accepted, gap)
      invariant markers == TakenMarkers(accepted, gap)
    {
      AcceptedSnoc(offsets, i, rowCount);
      var offset := offsets[i];
      if offset >= rowCount || offset < consumed { continue; }
      var skipped := offset - consumed;
      var bridged := gap > 0 && skipped <= gap && payloadRows > 0;
      OffsetStep(runs.Rows(), accepted, gap, offset, bridged, skipped);
      r := AppendOffset(r, bridged, skipped);
      var read := if bridged then skipped else 0;
      markers := PushMarkers(markers, read, offset);
      payloadRows, consumed := payloadRows + read + 1, offset + 1;
      accepted := accepted + [offset];
    }
    assert offsets[..|offsets|] == offsets;
    ExtendedIsConcat(runs.Rows(), accepted, gap);
  }

  /** All rows of an offset list: the accepted offsets are selected. */
  method AppendMask(runs: Runs, rowCount: nat, offsets: seq<nat>) returns (r: Runs, appended: nat)
    requires runs.Valid()
    ensures var mask := SelectionMask(rowCount, Accepted(offsets, rowCount), 0);
            r.Valid() && r.Rows() == runs.Rows() + mask && appended == CountSelected(mask)
  {
    var consumed;
    ghost var accepted := Accepted(offsets, rowCount);
    AcceptedIncreases(offsets, rowCount);
    TakenMeansMask(accepted, rowCount, 0);
    r, consumed, appended := AppendOffsets(runs, rowCount, offsets);
    r := AppendRest(r, rowCount, consumed, runs.Rows(), TakenRows(accepted, 0), SelectionMask(rowCount, accepted, 0));
  }

  /** All rows of an offset list: the accepted offsets and the short gaps between them are read. */
  method AppendCoalescedMask(runs: Runs, rowCount: nat, offsets: seq<Offset>, gap: nat)
    returns (r: Runs, payloadRows: nat, markers: seq<Option<nat>>)
    requires runs.Valid()
    ensures var accepted := Accepted(offsets, rowCount);
            var mask := SelectionMask(rowCount, accepted, gap);
            && r.Valid() && r.Rows() == runs.Rows() + mask && markers == Markers(mask, accepted)
            && payloadRows == |markers| == CountSelected(mask)
  {
    var consumed;
    ghost var accepted := Accepted(offsets, rowCount);
    AcceptedIncreases(offsets, rowCount);
    TakenMeansMask(accepted, rowCount, gap);
    r, consumed, payloadRows, markers := AppendCoalesced(runs, rowCount, offsets, gap);
    r := AppendRest(r, rowCount, consumed, runs.Rows(), TakenRows(accepted, gap),
                    SelectionMask(rowCount, accepted, gap));
  }

  /** The unselected rows after the last accepted offset, which complete the mask. */
  method AppendRest(runs: Runs, rowCount: nat, consumed: nat, ghost before: seq<bool>, ghost taken: seq<bool>,
                    ghost mask: seq<bool>)
    returns (r: Runs)
    requires runs.Valid() && runs.Rows() == before + taken && |taken| == consumed <= rowCount
    requires mask == taken + Repeat(false, rowCount - consumed)
    ensures r.Valid() && r.Rows() == before + mask
  {
    r := runs;
    if consumed < rowCount { r := AppendRun(r, false, rowCount - consumed); }
    assert r.Rows() == before + (taken + Repeat(false, rowCount - consumed));
  }

  // ----- the builder

  class LateSelectionBuilder {
    var runs: Runs
    var totalRows: nat
    var selectedRows: nat

    /** Every row pushed so far. */
    ghost function Rows(): seq<bool>
      reads this
    {
      runs.Rows()
    }

    ghost predicate Valid()
      reads this
    {
      runs.Valid() && totalRows == |Rows()| && selectedRows == CountSelected(Rows())
    }

    constructor ()
      ensures Valid() && Rows() == []
    {
      runs, totalRows, selectedRows := Runs([], None, 0), 0, 0;
    }

    method Push(selected: bool)
      requires Valid()
      modifies this
      ensures Valid() && Rows() == old(Rows()) + [selected]
    {
      RepeatOne(selected);
      CountOne(Rows(), selected);
      totalRows := totalRows + 1;
      if selected { selectedRows := selectedRows + 1; }
      runs := AppendRun(runs, selected, 1);
    }

    method PushRepeated(rowCount: nat, selected: bool)
      requires Valid()
      modifies this
      ensures Valid() && Rows() == old(Rows()) + Repeat(selected, rowCount)
    {
      if rowCount == 0 { return; }
      CountConcat(Rows(), Repeat(selected, rowCount));
      CountRepeat(selected, rowCount);
      runs := AppendRun(runs, selected, rowCount);
      totalRows := totalRows + rowCount;
      if selected { selectedRows := selectedRows + rowCount; }
    }

    /** Pushes `rowCount` rows of which the accepted offsets are selected. */
    method PushSelectedOffsets(rowCount: nat, offsets: seq<nat>)
      requires Valid()
      modifies this
      ensures Valid() && Rows() == old(Rows()) + SelectionMask(rowCount, Accepted(offsets, rowCount), 0)
    {
      var appended;
      CountConcat(Rows(), SelectionMask(rowCount, Accepted(offsets, rowCount), 0));
      runs, appended := AppendMask(runs, rowCount, offsets);
      totalRows, selectedRows := totalRows + rowCount, selectedRows + appended;
    }

    /**
     * Pushes `rowCount` rows of which the accepted offsets and the short gaps between
     * them are read; the markers describe the rows read, one by one.
     */
    method PushSelectedOffsetsCoalesced(rowCount: nat, offsets: seq<Offset>, gapLimit: nat, runCost: nat,
                                        expansion: nat)
      returns (markers: seq<Option<nat>>, gap: nat)
      requires Valid() && (gapLimit < USIZE_MAX || |offsets| <= 1)
      modifies this
      ensures ChosenGap(offsets, gapLimit, runCost, expansion, gap)
      ensures Valid() && Rows() == old(Rows()) + SelectionMask(rowCount, Accepted(offsets, rowCount), gap)
      ensures markers == Markers(SelectionMask(rowCount, Accepted(offsets, rowCount), gap), Accepted(offsets, rowCount))
      ensures selectedRows == old(selectedRows) + |markers|
    {
      gap := ChooseLateCoalesceMaxGap(offsets, gapLimit, runCost, expansion);
      var payloadRows;
      CountConcat(Rows(), SelectionMask(rowCount, Accepted(offsets, rowCount), gap));
      runs, payloadRows, markers := AppendCoalescedMask(runs, rowCount, offsets, gap);
      totalRows, selectedRows := totalRows + rowCount, selectedRows + payloadRows;
    }

    /** Closes the open run; there is a selection only when some row is selected. */
    method Finish() returns (selection: Option<seq<Selector>>, finished: seq<Selector>)
      requires Valid()
      ensures Alternating(finished) && Expand(finished) == Rows()
      ensures selection == if CountSelected(Rows()) > 0 then Some(finished) else None
    {
      finished := runs.selectors;
      if runs.runLen != 0 {
        AlternatingSnoc(finished, Selector(runs.runLen, !runs.current.GetOr(false)));
        finished := finished + [Selector(runs.runLen, !runs.current.GetOr(false))];
        assert finished[..|runs.selectors|] == runs.selectors;
      }
      selection := if selectedRows > 0 then Some(finished) else None;
    }
  }

  /** What the offset loop built so far, and the unread rest, are the mask and its markers. */
  lemma {:induction false} TakenMeansMask(accepted: seq<nat>, rowCount: nat, gap: nat)
    requires Increasing(accepted) && Consumed(accepted) <= rowCount
    ensures var taken, mask := TakenRows(accepted, gap), SelectionMask(rowCount, accepted, gap);
            && |taken| == Consumed(accepted) && mask == taken + Repeat(false, rowCount - Consumed(accepted))
            && TakenMarkers(accepted, gap) == Markers(mask, accepted)
            && |TakenMarkers(accepted, gap)| == CountSelected(taken) == CountSelected(mask)
  {
    var taken, rest := TakenRows(accepted, gap), rowCount - Consumed(accepted);
    assert SelectionMask(rowCount, accepted, gap) == taken + Repeat(false, rest) && |taken| == Consumed(accepted) by {
      TakenIsMask(accepted, gap);
      MaskEnds(accepted, gap, rowCount);
    }
    assert TakenMarkers(accepted, gap) == Markers(taken, accepted) by { TakenIsMask(accepted, gap); }
    MarkersEnd(taken, accepted, rest);
    MarkersDescribePositions(taken, accepted);
    CountConcat(taken, Repeat(false, rest));
    CountRepeat(false, rest);
  }

  lemma {:induction false} CountStep(mask: seq<bool>, bridged: bool, n: nat)
    ensures CountSelected(mask + Repeat(bridged, n) + [true]) == CountSelected(mask) + (if bridged then n else 0) + 1
  {
    CountConcat(mask, Repeat(bridged, n));
    CountRepeat(bridged, n);
    CountConcat(mask + Repeat(bridged, n), [true]);
    assert CountSelected([true]) == 1;
  }
}
