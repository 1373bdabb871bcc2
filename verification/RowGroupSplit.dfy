/** Cutting one selector stream along row-group boundaries. */
module RowGroupSplit {
  import opened Machine
  import opened LateSelection

  /** A run inside one row group: first row relative to the group, and length. */
  type Run = (nat, nat)

  function Sum(rows: seq<nat>): nat {
    if rows == [] then 0 else Sum(rows[..|rows| - 1]) + rows[|rows| - 1]
  }

  /** The global row at which group `i` starts. */
  function GroupStart(rows: seq<nat>, i: nat): nat
    requires i <= |rows|
  {
    Sum(rows[..i])
  }

  lemma {:induction false} GroupStartSnoc(rows: seq<nat>, i: nat)
    requires i < |rows|
    ensures GroupStart(rows, i + 1) == GroupStart(rows, i) + rows[i]
  {
    assert rows[..i + 1][..i] == rows[..i];
  }

  lemma {:induction false} GroupStartMonotone(rows: seq<nat>, i: nat, j: nat)
    requires i <= j <= |rows|
    ensures GroupStart(rows, i) <= GroupStart(rows, j)
    decreases j
  {
    if i < j {
      GroupStartSnoc(rows, j - 1);
      GroupStartMonotone(rows, i, j - 1);
    }
  }

  /** Global row `r` is selected, and a machine word can number it. */
  ghost predicate Selected(selectors: seq<Selector>, r: nat) {
    r < USIZE_MAX && r < |Expand(selectors)| && Expand(selectors)[r]
  }

  ghost predicate InRun(runs: seq<Run>, k: nat, x: nat) {
    k < |runs| && runs[k].0 <= x < runs[k].0 + runs[k].1
  }

  ghost predicate Covered(runs: seq<Run>, x: nat) {
    exists k: nat :: InRun(runs, k, x)
  }

  /** Non-empty, ordered and disjoint runs that end by `size`. */
  ghost predicate OrderedRuns(runs: seq<Run>, size: int) {
    && (forall k :: 0 <= k < |runs| ==> runs[k].1 > 0 && runs[k].0 + runs[k].1 <= size)
    && (forall j, k :: 0 <= j < k < |runs| ==> runs[j].0 + runs[j].1 <= runs[k].0)
  }

  /** A row selected by the selectors, or in the part [from, to) of the next one. */
  ghost predicate Wanted(selectors: seq<Selector>, from: nat, to: nat, r: nat) {
    Selected(selectors, r) || from <= r < to
  }

  /** Group `i`'s runs cover exactly its wanted rows, shifted to the group's start. */
  ghost predicate Exact(runs: seq<Run>, rows: seq<nat>, i: nat, selectors: seq<Selector>, from: nat, to: nat)
    requires i < |rows|
  {
    forall x: nat :: Covered(runs, x) <==> x < rows[i] && Wanted(selectors, from, to, GroupStart(rows, i) + x)
  }

  // ----- the group cursor

  /** The current row group, and where it starts and ends, saturated. */
  datatype Cursor = Cursor(index: nat, start: nat, end: nat)

  ghost predicate At(c: Cursor, rows: seq<Usize>) {
    && c.index <= |rows|
    && c.start == Min(GroupStart(rows, c.index), USIZE_MAX)
    && c.end == if c.index < |rows| then Min(GroupStart(rows, c.index + 1), USIZE_MAX) else c.start
  }

  method FirstGroup(rows: seq<Usize>) returns (c: Cursor)
    ensures At(c, rows) && c.index == 0 && c.start == 0
  {
    c := Cursor(0, 0, if rows == [] then 0 else rows[0]);
    if rows != [] { GroupStartSnoc(rows, 0); }
  }

  method NextGroup(c: Cursor, rows: seq<Usize>) returns (d: Cursor)
    requires At(c, rows) && c.index < |rows|
    ensures At(d, rows) && d.index == c.index + 1 && d.start == c.end <= d.end
  {
    d := Cursor(c.index + 1, c.end, SatAdd(c.end, if c.index + 1 < |rows| then rows[c.index + 1] else 0));
    if c.index + 1 < |rows| { GroupStartSnoc(rows, c.index + 1); }
  }

  /** Skips the groups that end before the row. */
  method SeekGroup(c: Cursor, rows: seq<Usize>, row: nat) returns (d: Cursor)
    requires At(c, rows) && c.start <= row
    ensures At(d, rows) && d.start <= row && (d.index < |rows| ==> row < d.end)
  {
    d := c;
    while d.index < |rows| && d.end <= row
      invariant At(d, rows) && d.start <= row
      decreases |rows| - d.index
    {
      d := NextGroup(d, rows);
    }
  }

  // ----- one selector

  /** Every group covers its wanted rows, in order, and no run reaches past row `to`. */
  ghost predicate Progress(runs: seq<seq<Run>>, rows: seq<nat>, selectors: seq<Selector>, from: nat, to: nat) {
    && |runs| == |rows|
    && forall i :: 0 <= i < |rows| ==> GroupProgress(runs[i], rows, i, selectors, from, to)
  }

  ghost predicate GroupProgress(runs: seq<Run>, rows: seq<nat>, i: nat, selectors: seq<Selector>, from: nat, to: nat)
    requires i < |rows|
  {
    && OrderedRuns(runs, rows[i]) && Exact(runs, rows, i, selectors, from, to)
    && (runs != [] ==> GroupStart(rows, i) + runs[|runs| - 1].0 + runs[|runs| - 1].1 <= to)
  }

  lemma {:induction false} CoveredSnoc(runs: seq<Run>, run: Run, x: nat)
    ensures Covered(runs + [run], x) <==> Covered(runs, x) || run.0 <= x < run.0 + run.1
  {
    var more := runs + [run];
    if k: nat :| InRun(runs, k, x) { assert InRun(more, k, x); }
    if k: nat :| InRun(more, k, x) {
      if k < |runs| { assert InRun(runs, k, x); }
    }
    if run.0 <= x < run.0 + run.1 { assert InRun(more, |runs|, x); }
  }

  /** The current group takes the piece [start, end), which lies inside it. */
  lemma {:induction false} CurrentGroupTakes(runs: seq<Run>, rows: seq<nat>, g: nat, selectors: seq<Selector>,
                                             from: nat, start: nat, end: nat)
    requires g < |rows| && GroupProgress(runs, rows, g, selectors, from, start)
    requires GroupStart(rows, g) <= start < end <= GroupStart(rows, g + 1) && from <= start
    ensures GroupProgress(runs + [(start - GroupStart(rows, g), end - start)], rows, g, selectors, from, end)
  {
    var base := GroupStart(rows, g);
    var run := (start - base, end - start);
    GroupStartSnoc(rows, g);
    forall x: nat ensures Covered(runs + [run], x) <==> x < rows[g] && Wanted(selectors, from, end, base + x) {
      CoveredSnoc(runs, run, x);
      assert Covered(runs, x) <==> x < rows[g] && Wanted(selectors, from, start, base + x);
    }
  }

  /** A group that does not meet [start, end) keeps its runs. */
  lemma {:induction false} OtherGroupKeeps(runs: seq<Run>, rows: seq<nat>, i: nat, selectors: seq<Selector>, from: nat,
                                           start: nat, end: nat)
    requires i < |rows| && GroupProgress(runs, rows, i, selectors, from, start) && start <= end
    requires start == end || GroupStart(rows, i) + rows[i] <= start || end <= GroupStart(rows, i)
    ensures GroupProgress(runs, rows, i, selectors, from, end)
  {
    forall x: nat ensures Covered(runs, x) <==> x < rows[i] && Wanted(selectors, from, end, GroupStart(rows, i) + x) {
      assert Covered(runs, x) <==> x < rows[i] && Wanted(selectors, from, start, GroupStart(rows, i) + x);
    }
  }

  lemma {:induction false} ProgressPush(runs: seq<seq<Run>>, rows: seq<Usize>, selectors: seq<Selector>, from: nat,
                                        start: nat, end: nat, c: Cursor)
    requires Progress(runs, rows, selectors, from, start) && from <= start < end <= USIZE_MAX
    requires At(c, rows) && c.index < |rows| && c.start <= start && end <= c.end
    ensures Progress(runs[c.index := runs[c.index] + [(start - c.start, end - start)]], rows, selectors, from, end)
  {
    var g := c.index;
    var more := runs[g := runs[g] + [(start - c.start, end - start)]];
    forall i | 0 <= i < |rows| ensures GroupProgress(more[i], rows, i, selectors, from, end) {
      assert GroupProgress(runs[i], rows, i, selectors, from, start);
      GroupStartSnoc(rows, i);
      if i == g {
        CurrentGroupTakes(runs[g], rows, g, selectors, from, start, end);
      } else {
        if i < g { GroupStartMonotone(rows, i + 1, g); } else { GroupStartMonotone(rows, g + 1, i); }
        OtherGroupKeeps(runs[i], rows, i, selectors, from, start, end);
      }
    }
  }

  /** Nothing is left to cover once the groups are exhausted. */
  lemma {:induction false} ProgressPastGroups(runs: seq<seq<Run>>, rows: seq<Usize>, selectors: seq<Selector>,
                                              from: nat, start: nat, end: nat, c: Cursor)
    requires Progress(runs, rows, selectors, from, start) && start <= end <= USIZE_MAX
    requires At(c, rows) && c.index == |rows| && c.start <= start
    ensures Progress(runs, rows, selectors, from, end)
  {
    forall i | 0 <= i < |rows| ensures GroupProgress(runs[i], rows, i, selectors, from, end) {
      GroupStartSnoc(rows, i);
      GroupStartMonotone(rows, i + 1, |rows|);
      OtherGroupKeeps(runs[i], rows, i, selectors, from, start, end);
    }
  }

  /** Distributes the rows [from, to) of one select over the groups. */
  method SplitSelect(runs: seq<seq<Run>>, rows: seq<Usize>, ghost selectors: seq<Selector>, from: nat, to: nat,
                     c: Cursor)
    returns (r: seq<seq<Run>>, d: Cursor)
    requires Progress(runs, rows, selectors, from, from) && from <= to <= USIZE_MAX
    requires At(c, rows) && c.start <= from && (c.index < |rows| ==> from < c.end)
    ensures Progress(r, rows, selectors, from, to) && At(d, rows) && d.start <= to
  {
    r, d := runs, c;
    var start := from;
    while d.index < |rows| && start < to
      invariant from <= start <= to && Progress(r, rows, selectors, from, start)
      invariant At(d, rows) && d.start <= start && (d.index < |rows| ==> start <= d.end)
      decreases |rows| - d.index, to - start
    {
      var end := Min(to, d.end);
      if end > start {
        ProgressPush(r, rows, selectors, from, start, end, d);
        r := r[d.index := r[d.index] + [(start - d.start, end - start)]];
      }
      start := end;
      if start >= d.end { d := NextGroup(d, rows); }
    }
    if d.index == |rows| { ProgressPastGroups(r, rows, selectors, from, start, to, d); }
  }

  // ----- the whole stream

  lemma {:induction false} ExpandSnoc(selectors: seq<Selector>, k: nat)
    requires k < |selectors|
    ensures Expand(selectors[..k + 1]) == Expand(selectors[..k]) + Repeat(!selectors[k].skip, selectors[k].rowCount)
  {
    assert selectors[..k + 1][..k] == selectors[..k];
  }

  /** After a whole selector, its rows are wanted on its own account. */
  lemma {:induction false} NextSelector(runs: seq<seq<Run>>, rows: seq<nat>, selectors: seq<Selector>, k: nat,
                                        from: nat, to: nat)
    requires k < |selectors|
    requires from == Min(|Expand(selectors[..k])|, USIZE_MAX) && to == SatAdd(from, selectors[k].rowCount)
    requires Progress(runs, rows, selectors[..k], from, if selectors[k].skip then from else to)
    ensures to == Min(|Expand(selectors[..k + 1])|, USIZE_MAX)
    ensures Progress(runs, rows, selectors[..k + 1], to, to)
  {
    ExpandSnoc(selectors, k);
    var stop := if selectors[k].skip then from else to;
    forall r: nat ensures Wanted(selectors[..k + 1], to, to, r) <==> Wanted(selectors[..k], from, stop, r) {
    }
    forall i | 0 <= i < |rows| ensures GroupProgress(runs[i], rows, i, selectors[..k + 1], to, to) {
      assert GroupProgress(runs[i], rows, i, selectors[..k], from, stop);
      forall x: nat
        ensures Covered(runs[i], x) <==> x < rows[i] && Wanted(selectors[..k + 1], to, to, GroupStart(rows, i) + x)
      {
        assert Wanted(selectors[..k + 1], to, to, GroupStart(rows, i) + x) <==>
               Wanted(selectors[..k], from, stop, GroupStart(rows, i) + x);
      }
    }
  }

  /**
   * For every selector list and every list of group sizes: group `i`'s runs cover exactly
   * the selected rows of that group, shifted to its start, in non-empty, ordered,
   * disjoint runs inside the group.
   */
  method SplitLateSelectorsByRowGroup(selectors: seq<Selector>, rows: seq<Usize>) returns (runs: seq<seq<Run>>)
    ensures |runs| == |rows|
    ensures forall i :: 0 <= i < |rows| ==> OrderedRuns(runs[i], rows[i])
    ensures forall i, x: nat :: 0 <= i < |rows| ==>
              (Covered(runs[i], x) <==> x < rows[i] && Selected(selectors, GroupStart(rows, i) + x))
  {
    runs := seq(|rows|, _ => []);
    var c := FirstGroup(rows);
    var selectorStart: nat := 0;
    for k := 0 to |selectors|
      invariant selectorStart == Min(|Expand(selectors[..k])|, USIZE_MAX)
      invariant Progress(runs, rows, selectors[..k], selectorStart, selectorStart)
      invariant At(c, rows) && c.start <= selectorStart
    {
      var selectorEnd := SatAdd(selectorStart, selectors[k].rowCount);
      if !selectors[k].skip {
        c := SeekGroup(c, rows, selectorStart);
        runs, c := SplitSelect(runs, rows, selectors[..k], selectorStart, selectorEnd, c);
      }
      NextSelector(runs, rows, selectors, k, selectorStart, selectorEnd);
      selectorStart := selectorEnd;
    }
    assert selectors[..|selectors|] == selectors;
    forall i, x: nat | 0 <= i < |rows|
      ensures Covered(runs[i], x) <==> x < rows[i] && Selected(selectors, GroupStart(rows, i) + x)
    {
      assert GroupProgress(runs[i], rows, i, selectors, selectorStart, selectorStart);
    }
  }

  // ----- conservation

  function TotalLength(runs: seq<Run>): nat {
    if runs == [] then 0 else TotalLength(runs[..|runs| - 1]) + runs[|runs| - 1].1
  }

  /** The number of selected rows among the `n` rows from `from`. */
  ghost function SelectedIn(selectors: seq<Selector>, from: nat, n: nat): nat {
    if n == 0 then 0 else SelectedIn(selectors, from, n - 1) + if Selected(selectors, from + n - 1) then 1 else 0
  }

  /** The number of rows below `n` that the runs cover. */
  ghost function CoveredBelow(runs: seq<Run>, n: nat): nat {
    if n == 0 then 0 else CoveredBelow(runs, n - 1) + if Covered(runs, n - 1) then 1 else 0
  }

  lemma {:induction false} CoveredStretch(runs: seq<Run>, n: nat, m: nat, covered: bool)
    requires forall x: nat :: n <= x < n + m ==> (Covered(runs, x) <==> covered)
    ensures CoveredBelow(runs, n + m) == CoveredBelow(runs, n) + if covered then m else 0
  {
    if m > 0 { CoveredStretch(runs, n, m - 1, covered); }
  }

  /** What the last of several ordered runs covers beyond the others. */
  lemma {:induction false} LastRunCover(init: seq<Run>, last: Run, size: nat)
    requires OrderedRuns(init + [last], size)
    ensures OrderedRuns(init, last.0) && last.0 + last.1 <= size
    ensures forall x: nat :: x < last.0 ==> (Covered(init + [last], x) <==> Covered(init, x))
    ensures forall x: nat :: last.0 <= x < last.0 + last.1 ==> Covered(init + [last], x)
    ensures forall x: nat :: last.0 + last.1 <= x ==> !Covered(init + [last], x)
  {
    var runs := init + [last];
    forall k | 0 <= k < |init| ensures init[k].1 > 0 && init[k].0 + init[k].1 <= last.0 {
      assert runs[k] == init[k] && runs[|init|] == last;
    }
    forall j, k | 0 <= j < k < |init| ensures init[j].0 + init[j].1 <= init[k].0 {
      assert runs[j] == init[j] && runs[k] == init[k];
    }
    forall x: nat ensures Covered(runs, x) <==> Covered(init, x) || last.0 <= x < last.0 + last.1 {
      CoveredSnoc(init, last, x);
    }
    assert runs[|init|] == last;
  }

  /** Ordered, disjoint runs cover as many rows as their lengths add up to. */
  lemma {:induction false} RunsCoverTheirLength(runs: seq<Run>, size: nat)
    requires OrderedRuns(runs, size)
    ensures CoveredBelow(runs, size) == TotalLength(runs)
  {
    if runs == [] {
      CoveredStretch(runs, 0, size, false);
    } else {
      var init, last := runs[..|runs| - 1], runs[|runs| - 1];
      assert runs == init + [last];
      LastRunCover(init, last, size);
      RunsCoverTheirLength(init, last.0);
      LastRunCounts(init, last, size);
    }
  }

  lemma {:induction false} LastRunCounts(init: seq<Run>, last: Run, size: nat)
    requires last.0 + last.1 <= size
    requires forall x: nat :: x < last.0 ==> (Covered(init + [last], x) <==> Covered(init, x))
    requires forall x: nat :: last.0 <= x < last.0 + last.1 ==> Covered(init + [last], x)
    requires forall x: nat :: last.0 + last.1 <= x ==> !Covered(init + [last], x)
    ensures CoveredBelow(init + [last], size) == CoveredBelow(init, last.0) + last.1
  {
    var runs := init + [last];
    SameCover(runs, init, last.0);
    CoveredStretch(runs, last.0, last.1, true);
    CoveredStretch(runs, last.0 + last.1, size - last.0 - last.1, false);
  }

  lemma {:induction false} SameCover(a: seq<Run>, b: seq<Run>, n: nat)
    requires forall x: nat | x < n :: Covered(a, x) <==> Covered(b, x)
    ensures CoveredBelow(a, n) == CoveredBelow(b, n)
  {
    if n > 0 { SameCover(a, b, n - 1); }
  }

  lemma {:induction false} CoveredIsSelected(runs: seq<Run>, selectors: seq<Selector>, from: nat, size: nat, n: nat)
    requires n <= size && forall x: nat :: Covered(runs, x) <==> x < size && Selected(selectors, from + x)
    ensures CoveredBelow(runs, n) == SelectedIn(selectors, from, n)
  {
    if n > 0 { CoveredIsSelected(runs, selectors, from, size, n - 1); }
  }

  lemma {:induction false} SelectedSplits(selectors: seq<Selector>, m: nat, n: nat)
    ensures SelectedIn(selectors, 0, m + n) == SelectedIn(selectors, 0, m) + SelectedIn(selectors, m, n)
  {
    if n > 0 { SelectedSplits(selectors, m, n - 1); }
  }

  function GrandTotal(runs: seq<seq<Run>>): nat {
    if runs == [] then 0 else GrandTotal(runs[..|runs| - 1]) + TotalLength(runs[|runs| - 1])
  }

  /** Together the groups keep every selected row within their total, and no other. */
  lemma {:induction false} SplitConservesRows(runs: seq<seq<Run>>, rows: seq<nat>, selectors: seq<Selector>, g: nat)
    requires |runs| == |rows| && g <= |rows|
    requires forall i :: 0 <= i < |rows| ==> OrderedRuns(runs[i], rows[i])
    requires forall i, x: nat :: 0 <= i < |rows| ==>
               (Covered(runs[i], x) <==> x < rows[i] && Selected(selectors, GroupStart(rows, i) + x))
    ensures GrandTotal(runs[..g]) == SelectedIn(selectors, 0, GroupStart(rows, g))
  {
    if g > 0 {
      SplitConservesRows(runs, rows, selectors, g - 1);
      assert runs[..g][..g - 1] == runs[..g - 1];
      GroupStartSnoc(rows, g - 1);
      RunsCoverTheirLength(runs[g - 1], rows[g - 1]);
      CoveredIsSelected(runs[g - 1], selectors, GroupStart(rows, g - 1), rows[g - 1], rows[g - 1]);
      SelectedSplits(selectors, GroupStart(rows, g - 1), rows[g - 1]);
    }
  }
}
