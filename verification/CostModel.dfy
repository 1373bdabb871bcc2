/** The cost model that picks the gap up to which late selections are coalesced. */
module CostModel {
  import opened Machine

  /** Row offsets as the selection passes them: 32-bit values. */
  type Offset = n: nat | n <= U32_MAX

  // ----- runs and payload rows of one gap

  /** One more offset: into the current run when the gap is small, else into a new run. */
  function MetricsStep(m: (nat, nat, nat), offset: Offset, maxGap: nat): (nat, nat, nat) {
    var (runs, payload, previous) := m;
    if offset <= previous then m
    else if offset - previous - 1 <= maxGap then (runs, payload + (offset - previous), offset)
    else (runs + 1, payload + 1, offset)
  }

  /** Runs, payload rows and last offset taken, over the offsets after the first. */
  function MetricsFold(offsets: seq<Offset>, maxGap: nat): (nat, nat, nat)
    requires offsets != []
  {
    if |offsets| == 1 then (1, 1, offsets[0])
    else MetricsStep(MetricsFold(offsets[..|offsets| - 1], maxGap), offsets[|offsets| - 1], maxGap)
  }

  function Metrics(offsets: seq<Offset>, maxGap: nat): (nat, nat) {
    if offsets == [] then (0, 0)
    else var (runs, payload, _) := MetricsFold(offsets, maxGap); (runs, payload)
  }

  /** Payload rows never outnumber the rows up to the last offset; runs never outnumber payload rows. */
  lemma {:induction false} MetricsBounded(offsets: seq<Offset>, maxGap: nat)
    requires offsets != []
    ensures var (runs, payload, previous) := MetricsFold(offsets, maxGap);
            1 <= runs <= payload <= previous + 1 - offsets[0] && runs <= |offsets| && previous <= U32_MAX
  {
    if |offsets| > 1 { MetricsBounded(offsets[..|offsets| - 1], maxGap); }
  }

  method LateCoalesceCandidateMetrics(offsets: seq<Offset>, maxGap: nat) returns (runs: nat, payloadRows: nat)
    ensures (runs, payloadRows) == Metrics(offsets, maxGap)
  {
    if offsets == [] { return 0, 0; }
    runs, payloadRows := 1, 1;
    var previous: nat := offsets[0];
    for i := 1 to |offsets|
      invariant (runs, payloadRows, previous) == MetricsFold(offsets[..i], maxGap)
    {
      assert offsets[..i + 1][..i] == offsets[..i];
      MetricsBounded(offsets[..i], maxGap);
      var offset := offsets[i];
      if offset <= previous { continue; }
      var gap := offset - previous - 1;
      if gap <= maxGap {
        payloadRows := SatAdd(SatAdd(payloadRows, gap), 1);
      } else {
        runs, payloadRows := SatAdd(runs, 1), SatAdd(payloadRows, 1);
      }
      previous := offset;
    }
    assert offsets[..|offsets|] == offsets;
  }

  /** Enlarging the gap never adds runs and never removes payload rows. */
  lemma {:induction false} LargerGapFewerRuns(offsets: seq<Offset>, gap: nat, larger: nat)
    requires gap <= larger && offsets != []
    ensures MetricsFold(offsets, larger).0 <= MetricsFold(offsets, gap).0
    ensures MetricsFold(offsets, larger).1 >= MetricsFold(offsets, gap).1
    ensures MetricsFold(offsets, larger).2 == MetricsFold(offsets, gap).2
  {
    if |offsets| > 1 { LargerGapFewerRuns(offsets[..|offsets| - 1], gap, larger); }
  }

  // ----- the gate

  function Cost(runs: nat, payloadRows: nat, runCost: nat): nat {
    SatAdd(payloadRows, SatMul(runs, Max(runCost, 1)))
  }

  predicate ChooseLateCoalesceCandidate(selectedRows: nat, naturalRuns: nat, candidateRuns: nat,
                                        candidatePayload: nat, runCost: nat, expansion: nat)
  {
    if selectedRows == 0 then false
    else if candidatePayload < selectedRows then false
    else if candidatePayload > SatAdd(selectedRows, SatMul(selectedRows, expansion)) then false
    else Cost(candidateRuns, candidatePayload, runCost) < Cost(naturalRuns, selectedRows, runCost)
  }

  /** The gate as the search applies it to one gap. */
  predicate GapAccepted(offsets: seq<Offset>, gap: nat, runCost: nat, expansion: nat) {
    var (runs, payload) := Metrics(offsets, gap);
    ChooseLateCoalesceCandidate(|offsets|, |offsets|, runs, payload, runCost, expansion)
  }

  // ----- the gate, in plain arithmetic

  /** What a run costs, in rows; never nothing. */
  ghost function RunCost(runCost: nat): nat { if runCost == 0 then 1 else runCost }

  /** What is read at this gap: the payload rows, and the cost of every run. */
  ghost function GapCost(offsets: seq<Offset>, gap: nat, runCost: nat): nat {
    var (runs, payload) := Metrics(offsets, gap);
    payload + runs * RunCost(runCost)
  }

  /** The cost of a run for every offset, as far as a word can tell. */
  ghost function NaturalCost(n: nat, runCost: nat): nat { Min(n + n * RunCost(runCost), USIZE_MAX) }

  /** No row is lost, payload stays within the allowance, and the cost is less than that of a run per offset. */
  ghost predicate Worthwhile(offsets: seq<Offset>, gap: nat, runCost: nat, expansion: nat) {
    var n := |offsets|;
    && 0 < n <= Metrics(offsets, gap).1 <= n * (1 + expansion)
    && GapCost(offsets, gap, runCost) < NaturalCost(n, runCost)
  }

  /** Although its arithmetic saturates, the gate accepts exactly the gaps that are worthwhile. */
  lemma {:induction false} GateIsExact(offsets: seq<Offset>, gap: nat, runCost: nat, expansion: nat)
    ensures GapAccepted(offsets, gap, runCost, expansion) <==> Worthwhile(offsets, gap, runCost, expansion)
    ensures Worthwhile(offsets, gap, runCost, expansion) ==>
              var (runs, payload) := Metrics(offsets, gap);
              Cost(runs, payload, runCost) == GapCost(offsets, gap, runCost)
  {
    if offsets != [] {
      MetricsBounded(offsets, gap);
      assert Metrics(offsets, gap).1 <= U32_MAX + 1 <= USIZE_MAX;
      Distributes(|offsets|, expansion);
      assert Max(runCost, 1) == RunCost(runCost);
    }
  }

  // ----- the search

  ghost predicate PowerOfTwo(n: nat) {
    exists e: nat :: n == Power(e)
  }

  lemma {:induction false} PowerMonotone(d: nat, e: nat)
    requires d < e
    ensures Power(d) < Power(e)
  {
    if d < e - 1 { PowerMonotone(d, e - 1); }
  }

  /** The gaps that the search tries: powers of two up to the limit, and the limit itself. */
  ghost predicate Tried(gap: nat, maxGap: nat) {
    gap == maxGap || (PowerOfTwo(gap) && gap <= maxGap)
  }

  /** The gap costs less than the other, or the same and is not larger. */
  ghost predicate Preferred(offsets: seq<Offset>, runCost: nat, gap: nat, other: nat) {
    var cost, otherCost := GapCost(offsets, gap, runCost), GapCost(offsets, other, runCost);
    cost < otherCost || (cost == otherCost && gap <= other)
  }

  /** The outcome of the search: the smallest of the worthwhile tried gaps of least cost, or 0 when there is none. */
  ghost predicate ChosenGap(offsets: seq<Offset>, maxGap: nat, runCost: nat, expansion: nat, best: nat) {
    && (maxGap == 0 || |offsets| <= 1 ==> best == 0)
    && (best > 0 ==> Tried(best, maxGap) && Worthwhile(offsets, best, runCost, expansion))
    && (maxGap > 0 && |offsets| > 1 ==>
          forall g :: g > 0 && Tried(g, maxGap) && Worthwhile(offsets, g, runCost, expansion) ==>
            best > 0 && Preferred(offsets, runCost, best, g))
  }

  /** No gap among those tried so far beats the best one. */
  ghost predicate BestSoFar(offsets: seq<Offset>, runCost: nat, expansion: nat, best: nat, bestCost: nat,
                            tried: iset<nat>)
  {
    && (best == 0 || (best in tried && Worthwhile(offsets, best, runCost, expansion)))
    && bestCost == (if best == 0 then NaturalCost(|offsets|, runCost) else GapCost(offsets, best, runCost))
    && forall g :: g in tried && g > 0 && Worthwhile(offsets, g, runCost, expansion) ==>
         best > 0 && Preferred(offsets, runCost, best, g)
  }

  /** Tries one more gap, no smaller than those tried before. */
  method TryGap(offsets: seq<Offset>, gap: nat, runCost: nat, expansion: nat, best: nat, bestCost: nat,
                ghost tried: iset<nat>)
    returns (newBest: nat, newCost: nat)
    requires offsets != [] && gap > 0 && BestSoFar(offsets, runCost, expansion, best, bestCost, tried)
    requires forall g :: g in tried ==> g <= gap
    ensures BestSoFar(offsets, runCost, expansion, newBest, newCost, tried + iset{gap})
    ensures newBest == best || newBest == gap
  {
    newBest, newCost := best, bestCost;
    var runs, payload := LateCoalesceCandidateMetrics(offsets, gap);
    GateIsExact(offsets, gap, runCost, expansion);
    if ChooseLateCoalesceCandidate(|offsets|, |offsets|, runs, payload, runCost, expansion) {
      var cost := Cost(runs, payload, runCost);
      if cost < bestCost { newCost, newBest := cost, gap; }
    }
  }

  /** The powers of two below 2^e. */
  ghost function PowersBelow(e: nat): iset<nat> {
    iset d: nat | d < e :: Power(d)
  }

  lemma {:induction false} PowersAscend(e: nat)
    ensures forall g :: g in PowersBelow(e) ==> g < Power(e)
  {
    forall g | g in PowersBelow(e) ensures g < Power(e) {
      var d: nat :| d < e && g == Power(d);
      PowerMonotone(d, e);
    }
  }

  lemma {:induction false} TriedArePowers(maxGap: nat, e: nat)
    requires Power(e) > maxGap
    ensures forall g :: g > 0 && Tried(g, maxGap) ==> g == maxGap || g in PowersBelow(e)
  {
    forall g | g > 0 && Tried(g, maxGap) && g != maxGap ensures g in PowersBelow(e) {
      var d: nat :| g == Power(d);
      if d > e { PowerMonotone(e, d); }
    }
  }

  /**
   * The result is the smallest of the worthwhile tried gaps of least cost; it is 0 only when
   * none is worthwhile. The doubling, which starts for two offsets or more, stops because the
   * limit is below the point where it saturates.
   */
  method ChooseLateCoalesceMaxGap(offsets: seq<Offset>, maxGap: nat, runCost: nat, expansion: nat)
    returns (best: nat)
    requires maxGap < USIZE_MAX || |offsets| <= 1
    ensures ChosenGap(offsets, maxGap, runCost, expansion, best)
  {
    if maxGap == 0 || |offsets| <= 1 { return 0; }
    best := 0;
    var bestCost := SatAdd(|offsets|, SatMul(|offsets|, Max(runCost, 1)));
    var candidate := 1;
    ghost var e := 0;
    while candidate <= maxGap
      invariant candidate == Min(Power(e), USIZE_MAX) && best <= maxGap
      invariant BestSoFar(offsets, runCost, expansion, best, bestCost, PowersBelow(e))
      invariant forall d: nat :: d < e ==> Power(d) <= maxGap
      decreases USIZE_MAX - candidate
    {
      PowersAscend(e);
      best, bestCost := TryGap(offsets, candidate, runCost, expansion, best, bestCost, PowersBelow(e));
      assert PowersBelow(e + 1) == PowersBelow(e) + iset{candidate};
      candidate := SatMul(candidate, 2);
      e := e + 1;
      if candidate == 0 { break; }
    }
    TriedArePowers(maxGap, e);
    if best < maxGap {
      best, bestCost := TryGap(offsets, maxGap, runCost, expansion, best, bestCost, PowersBelow(e));
    }
  }

  /** The candidate after `n` rounds of doubling. */
  function CandidateAfter(n: nat): nat {
    if n == 0 then 1 else SatMul(CandidateAfter(n - 1), 2)
  }

  lemma {:induction false} CandidateIsPower(n: nat)
    ensures CandidateAfter(n) == Min(Power(n), USIZE_MAX)
  {
    if n > 0 { CandidateIsPower(n - 1); }
  }

  lemma {:induction false} PowerExceeds(n: nat)
    ensures Power(n) > n
  {
    if n > 0 { PowerExceeds(n - 1); }
  }

  /** Were the limit `usize::MAX`, the guard of the search would hold forever: that bound is exact. */
  lemma {:induction false} SearchDivergesOnlyAtMax(maxGap: Usize)
    ensures (forall n: nat :: CandidateAfter(n) <= maxGap) <==> maxGap == USIZE_MAX
    ensures forall n: nat :: CandidateAfter(n) != 0
  {
    forall n: nat ensures CandidateAfter(n) == Min(Power(n), USIZE_MAX) { CandidateIsPower(n); }
    if maxGap < USIZE_MAX {
      PowerExceeds(maxGap);
      assert CandidateAfter(maxGap) > maxGap;
    }
  }

  /** The chosen gap keeps payload within n * (1 + expansion), and never costs more than a run per row. */
  lemma {:induction false} ChosenGapIsAffordable(offsets: seq<Offset>, gap: nat, runCost: nat, expansion: nat)
    requires |offsets| > 0
    requires gap > 0 ==> Worthwhile(offsets, gap, runCost, expansion)
    ensures Metrics(offsets, gap).1 <= |offsets| * (1 + expansion)
    ensures GapCost(offsets, gap, runCost) <= |offsets| + |offsets| * RunCost(runCost)
  {
    if gap == 0 {
      MetricsBounded(offsets, 0);
      ZeroGapPayload(offsets);
      MulMonotone(Metrics(offsets, 0).0, |offsets|, RunCost(runCost));
    }
    Distributes(|offsets|, expansion);
  }

  lemma {:induction false} MulMonotone(a: nat, b: nat, c: nat)
    requires a <= b
    ensures a * c <= b * c
  {
  }

  lemma {:induction false} Distributes(n: nat, expansion: nat)
    ensures n + n * expansion == n * (1 + expansion) >= n
  {
  }

  lemma {:induction false} ZeroGapPayload(offsets: seq<Offset>)
    requires offsets != []
    ensures MetricsFold(offsets, 0).1 <= |offsets|
  {
    if |offsets| > 1 { ZeroGapPayload(offsets[..|offsets| - 1]); }
  }
}
