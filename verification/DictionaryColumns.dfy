/** The columns of a batch, the filter on them, and which rows count for which group. */
module DictionaryColumns {
  import opened Machine

  // ----- the rows that pass the filter

  datatype ComparisonOp = Eq | NotEq | Lt | LtEq | Gt | GtEq

  datatype Shape = Shape(op: ComparisonOp, bound: int)

  predicate Matches(value: int, shape: Shape) {
    match shape.op
    case Eq => value == shape.bound
    case NotEq => value != shape.bound
    case Lt => value < shape.bound
    case LtEq => value <= shape.bound
    case Gt => value > shape.bound
    case GtEq => value >= shape.bound
  }

  /** The fixed-width columns of a batch; a definition level of 0 marks a null group. */
  datatype Columns = Columns(predicateValues: seq<int>, sumValues: seq<I64>, defLevels: Option<seq<int>>) {
    predicate Aligned() {
      |sumValues| == |predicateValues| && (defLevels.Some? ==> |defLevels.value| == |predicateValues|)
    }

    predicate IsNull(row: nat)
      requires Aligned() && row < |predicateValues|
    {
      defLevels.Some? && defLevels.value[row] == 0
    }

    /** The number of group values stored for the first `n` rows: one per row that is not null. */
    function GroupIndex(n: nat): (g: nat)
      requires Aligned() && n <= |predicateValues|
      ensures g <= n
    {
      if n == 0 then 0 else GroupIndex(n - 1) + if IsNull(n - 1) then 0 else 1
    }
  }

  lemma {:induction false} GroupIndexMonotone(c: Columns, m: nat, n: nat)
    requires c.Aligned() && m <= n <= |c.predicateValues|
    ensures c.GroupIndex(m) <= c.GroupIndex(n)
    decreases n
  {
    if m < n { GroupIndexMonotone(c, m, n - 1); }
  }

  // ----- the filter, by the order of value and bound

  ghost predicate Passes(shape: Shape, value: int) {
    if value < shape.bound then shape.op.Lt? || shape.op.LtEq? || shape.op.NotEq?
    else if value > shape.bound then shape.op.Gt? || shape.op.GtEq? || shape.op.NotEq?
    else shape.op.Eq? || shape.op.LtEq? || shape.op.GtEq?
  }

  lemma {:induction false} MatchesIsPasses(value: int, shape: Shape)
    ensures Matches(value, shape) <==> Passes(shape, value)
  {
  }

  /** The laws of the six comparisons, which determine them. */
  lemma {:induction false} ComparisonLaws(value: int, bound: int, smaller: int)
    ensures Matches(value, Shape(Eq, bound)) <==> value == bound
    ensures var less, equal, greater :=
              Matches(value, Shape(Lt, bound)), Matches(value, Shape(Eq, bound)), Matches(value, Shape(Gt, bound));
            && (less || equal || greater)
            && !(less && equal) && !(equal && greater) && !(less && greater)
            && (Matches(value, Shape(GtEq, bound)) <==> !less)
            && (Matches(value, Shape(NotEq, bound)) <==> !equal)
            && (Matches(value, Shape(LtEq, bound)) <==> !greater)
            && (less && smaller <= value ==> Matches(smaller, Shape(Lt, bound)))
    ensures Matches(bound - 1, Shape(Lt, bound))
  {
  }

  // ----- rows and groups, read off the columns

  /** Without levels every row has a group; otherwise the rows whose level is not 0 have one. */
  ghost predicate HasGroup(c: Columns, row: nat) {
    match c.defLevels
    case None => true
    case Some(levels) => row < |levels| && levels[row] != 0
  }

  /** The rows with a group among the first `row`. */
  ghost function GroupsBefore(c: Columns, row: nat): nat {
    if row == 0 then 0 else GroupsBefore(c, row - 1) + if HasGroup(c, row - 1) then 1 else 0
  }

  /** The row passes the filter and belongs to the group; None is the null group. Groups are stored densely. */
  ghost predicate CountsFor<T>(c: Columns, shape: Shape, groups: seq<T>, group: Option<T>, row: nat) {
    && row < |c.predicateValues| && Passes(shape, c.predicateValues[row])
    && match group
       case None => !HasGroup(c, row)
       case Some(key) =>
         HasGroup(c, row) && GroupsBefore(c, row) < |groups| && groups[GroupsBefore(c, row)] == key
  }

  /** The rows among the first `n` that pass the filter. */
  ghost function PassingRows(c: Columns, shape: Shape, n: nat): nat
    requires n <= |c.predicateValues|
  {
    if n == 0 then 0 else PassingRows(c, shape, n - 1) + if Passes(shape, c.predicateValues[n - 1]) then 1 else 0
  }

  /** The rows among the first `n` that count for the group. */
  ghost function GroupRows<T>(c: Columns, shape: Shape, groups: seq<T>, group: Option<T>, n: nat): nat {
    if n == 0 then 0
    else GroupRows(c, shape, groups, group, n - 1) + if CountsFor(c, shape, groups, group, n - 1) then 1 else 0
  }

  /** The addends of these rows. */
  ghost function GroupSum<T>(c: Columns, shape: Shape, groups: seq<T>, group: Option<T>, n: nat): int
    requires c.Aligned() && n <= |c.predicateValues|
  {
    if n == 0 then 0
    else
      GroupSum(c, shape, groups, group, n - 1)
      + if CountsFor(c, shape, groups, group, n - 1) then c.sumValues[n - 1] else 0
  }

  ghost function Clamp(x: int): int {
    if x > I64_MAX then I64_MAX else if x < I64_MIN then I64_MIN else x
  }

  /** The addends of these rows, added to `start` one by one and clamped to an `i64` each time. */
  ghost function ClampedSum<T>(c: Columns, shape: Shape, groups: seq<T>, group: Option<T>, start: int, n: nat): int
    requires c.Aligned() && n <= |c.predicateValues|
  {
    if n == 0 then start
    else
      var before := ClampedSum(c, shape, groups, group, start, n - 1);
      if CountsFor(c, shape, groups, group, n - 1) then Clamp(before + c.sumValues[n - 1]) else before
  }

  /** As long as no prefix leaves `i64`, nothing is clamped. */
  lemma {:induction false} ClampedSumIsExact<T>(c: Columns, shape: Shape, groups: seq<T>, group: Option<T>, start: int,
                                                n: nat)
    requires c.Aligned() && n <= |c.predicateValues|
    requires forall m: nat :: m <= n ==> I64_MIN <= start + GroupSum(c, shape, groups, group, m) <= I64_MAX
    ensures ClampedSum(c, shape, groups, group, start, n) == start + GroupSum(c, shape, groups, group, n)
  {
    if n > 0 { ClampedSumIsExact(c, shape, groups, group, start, n - 1); }
  }

  lemma {:induction false} GroupIndexIsGroupsBefore(c: Columns, n: nat)
    requires c.Aligned() && n <= |c.predicateValues|
    ensures c.GroupIndex(n) == GroupsBefore(c, n)
    ensures n < |c.predicateValues| ==> (c.IsNull(n) <==> !HasGroup(c, n))
  {
    if n > 0 { GroupIndexIsGroupsBefore(c, n - 1); }
  }

  /** Count and sum of a group after the rows, from those before. */
  ghost predicate Grew<T>(before: (nat, int), after: (nat, int), c: Columns, shape: Shape, groups: seq<T>,
                          group: Option<T>, n: nat)
    requires c.Aligned() && n <= |c.predicateValues|
  {
    && (before.0 <= USIZE_MAX ==> after.0 == Min(before.0 + GroupRows(c, shape, groups, group, n), USIZE_MAX))
    && after.1 == ClampedSum(c, shape, groups, group, before.1, n)
  }

  /** One more row is added when it counts for the group. */
  lemma {:induction false} GrewByRow<T>(before: (nat, int), entry: (nat, int), c: Columns, shape: Shape, groups: seq<T>,
                                        group: Option<T>, row: nat)
    requires c.Aligned() && row < |c.predicateValues| && Grew(before, entry, c, shape, groups, group, row)
    ensures Grew(before, if CountsFor(c, shape, groups, group, row)
                         then (Min(entry.0 + 1, USIZE_MAX), Clamp(entry.1 + c.sumValues[row])) else entry,
                 c, shape, groups, group, row + 1)
  {
  }

  /** A group for which no row counts is not there. */
  lemma {:induction false} NothingGrew<T>(c: Columns, shape: Shape, groups: seq<T>, group: Option<T>, n: nat)
    requires c.Aligned() && n <= |c.predicateValues| && GroupRows(c, shape, groups, group, n) == 0
    ensures Grew((0, 0), (0, 0), c, shape, groups, group, n)
  {
    if n > 0 { NothingGrew(c, shape, groups, group, n - 1); }
  }

  lemma {:induction false} RowsAreOfGroups<T>(c: Columns, shape: Shape, groups: seq<T>, key: T, n: nat)
    requires GroupRows(c, shape, groups, Some(key), n) > 0
    ensures key in groups
  {
    if !CountsFor(c, shape, groups, Some(key), n - 1) { RowsAreOfGroups(c, shape, groups, key, n - 1); }
  }

  /** The group of a row, as the consumers find it. */
  function GroupOf<T>(c: Columns, groups: seq<T>, row: nat): Option<T>
    requires c.Aligned() && row < |c.predicateValues| && c.GroupIndex(row + 1) <= |groups|
  {
    if c.IsNull(row) then None else Some(groups[c.GroupIndex(row)])
  }

  lemma {:induction false} MatchingRowCounts<T>(c: Columns, shape: Shape, groups: seq<T>, group: Option<T>, row: nat)
    requires c.Aligned() && row < |c.predicateValues| && c.GroupIndex(row + 1) <= |groups|
    ensures CountsFor(c, shape, groups, group, row) <==>
            Matches(c.predicateValues[row], shape) && group == GroupOf(c, groups, row)
  {
    MatchesIsPasses(c.predicateValues[row], shape);
    GroupIndexIsGroupsBefore(c, row);
  }

  /** The null group after the rows: it exists once a row counts for it. */
  ghost predicate NullsGrew<T>(before: Option<(nat, int)>, after: Option<(nat, int)>, c: Columns, shape: Shape,
                               groups: seq<T>, n: nat)
    requires c.Aligned() && n <= |c.predicateValues|
  {
    && (after.Some? <==> before.Some? || GroupRows(c, shape, groups, None, n) > 0)
    && (after.Some? ==> Grew(before.GetOr((0, 0)), after.value, c, shape, groups, None, n))
  }

  /** The groups after the rows: those before, and those for which a row counts, each with its rows. */
  ghost predicate GroupsGrew<K>(before: map<K, (nat, int)>, after: map<K, (nat, int)>, c: Columns, shape: Shape,
                                groups: seq<K>, n: nat)
    requires c.Aligned() && n <= |c.predicateValues|
  {
    && (forall k :: k in before ==> k in after)
    && (forall k :: k in groups && GroupRows(c, shape, groups, Some(k), n) > 0 ==> k in after)
    && (forall k :: k in after ==>
          && (k in before || GroupRows(c, shape, groups, Some(k), n) > 0)
          && Grew(if k in before then before[k] else (0, 0), after[k], c, shape, groups, Some(k), n))
  }
}
