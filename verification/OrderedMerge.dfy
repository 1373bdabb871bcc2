/**
 * Ordered chunked aggregation: every chunk keeps its first run, its last run and its
 * finished middle runs; a merge stitches runs that cross chunks.
 */
module OrderedMerge {
  import opened Machine

  /** A key with the state accumulated for it. */
  datatype Boundary<K, S> = Boundary(key: K, state: S)

  datatype Chunk<K, S, O> = Chunk(output: O, first: Option<Boundary<K, S>>, last: Option<Boundary<K, S>>)

  // ----- the generic merge

  /** The output so far and the run that may still continue. */
  datatype Merging<K, S, O> = Merging(output: O, pending: Option<Boundary<K, S>>)

  function MergeBoundary<K(==), S, O>(m: Merging<K, S, O>, boundary: Boundary<K, S>, completeInChunk: bool,
                                      mergeState: (S, S) -> S, emit: (O, Boundary<K, S>) -> O): Merging<K, S, O>
  {
    match m.pending
    case Some(existing) =>
      if existing.key == boundary.key then
        var joined := Boundary(existing.key, mergeState(existing.state, boundary.state));
        if completeInChunk then Merging(emit(m.output, joined), None) else Merging(m.output, Some(joined))
      else
        var output := emit(m.output, existing);
        if completeInChunk then Merging(emit(output, boundary), None) else Merging(output, Some(boundary))
    case None =>
      if completeInChunk then Merging(emit(m.output, boundary), None) else Merging(m.output, Some(boundary))
  }

  function MergeChunk<K(==), S, O>(m: Merging<K, S, O>, chunk: Chunk<K, S, O>, mergeOutput: (O, O) -> O,
                                   mergeState: (S, S) -> S, emit: (O, Boundary<K, S>) -> O): Merging<K, S, O>
  {
    var started := if chunk.first.Some?
                   then MergeBoundary(m, chunk.first.value, chunk.last.Some?, mergeState, emit) else m;
    Merging(mergeOutput(started.output, chunk.output), if chunk.last.Some? then chunk.last else started.pending)
  }

  function MergeChunks<K(==), S, O>(output: O, chunks: seq<Chunk<K, S, O>>, mergeOutput: (O, O) -> O,
                                    mergeState: (S, S) -> S, emit: (O, Boundary<K, S>) -> O): Merging<K, S, O>
  {
    if chunks == [] then Merging(output, None)
    else MergeChunk(MergeChunks(output, chunks[..|chunks| - 1], mergeOutput, mergeState, emit),
                    chunks[|chunks| - 1], mergeOutput, mergeState, emit)
  }

  function Flush<K, S, O>(m: Merging<K, S, O>, emit: (O, Boundary<K, S>) -> O): O {
    if m.pending.Some? then emit(m.output, m.pending.value) else m.output
  }

  method MergeOrderedRowGroupChunks<K(==), S, O>(chunks: seq<Chunk<K, S, O>>, output: O, mergeOutput: (O, O) -> O,
                                                 mergeState: (S, S) -> S, emit: (O, Boundary<K, S>) -> O)
    returns (r: O)
    ensures r == Flush(MergeChunks(output, chunks, mergeOutput, mergeState, emit), emit)
  {
    r := output;
    var pending: Option<Boundary<K, S>> := None;
    for i := 0 to |chunks|
      invariant Merging(r, pending) == MergeChunks(output, chunks[..i], mergeOutput, mergeState, emit)
    {
      assert chunks[..i + 1][..i] == chunks[..i];
      if chunks[i].first.Some? {
        var started :=
          MergeBoundary(Merging(r, pending), chunks[i].first.value, chunks[i].last.Some?, mergeState, emit);
        r, pending := started.output, started.pending;
      }
      r := mergeOutput(r, chunks[i].output);
      if chunks[i].last.Some? { pending := chunks[i].last; }
    }
    assert chunks[..|chunks|] == chunks;
    if pending.Some? { r := emit(r, pending.value); }
  }

  // ----- runs of a stream of keys and states

  /** Joining states from left to right or from right to left comes to the same. */
  ghost predicate Associative<S(!new)>(join: (S, S) -> S) {
    forall a, b, c :: join(join(a, b), c) == join(a, join(b, c))
  }

  /** The maximal stretches of equal keys, with the joined state of each. */
  function Runs<K(==), S>(rows: seq<(K, S)>, join: (S, S) -> S): seq<Boundary<K, S>> {
    if rows == [] then [] else AddToRuns(Runs(rows[..|rows| - 1], join), rows[|rows| - 1], join)
  }

  function AddToRuns<K(==), S>(runs: seq<Boundary<K, S>>, row: (K, S), join: (S, S) -> S): seq<Boundary<K, S>> {
    var n := |runs|;
    if n > 0 && runs[n - 1].key == row.0
    then runs[..n - 1] + [Boundary(row.0, join(runs[n - 1].state, row.1))]
    else runs + [Boundary(row.0, row.1)]
  }

  /** Two run lists side by side; a run that continues across the seam is joined. */
  function Glue<K(==), S>(a: seq<Boundary<K, S>>, b: seq<Boundary<K, S>>, join: (S, S) -> S): seq<Boundary<K, S>> {
    if a == [] then b
    else if b == [] then a
    else if a[|a| - 1].key == b[0].key
    then a[..|a| - 1] + [Boundary(b[0].key, join(a[|a| - 1].state, b[0].state))] + b[1..]
    else a + b
  }

  lemma {:induction false} GlueSnoc<K, S>(a: seq<Boundary<K, S>>, b: seq<Boundary<K, S>>, x: Boundary<K, S>,
                                          join: (S, S) -> S)
    requires b != []
    ensures Glue(a, b + [x], join) == Glue(a, b, join) + [x]
  {
    assert (b + [x])[1..] == b[1..] + [x];
  }

  lemma {:induction false} GlueOne<K, S>(a: seq<Boundary<K, S>>, x: Boundary<K, S>, join: (S, S) -> S)
    ensures Glue(a, [x], join) ==
              if a != [] && a[|a| - 1].key == x.key
              then a[..|a| - 1] + [Boundary(x.key, join(a[|a| - 1].state, x.state))] else a + [x]
  {
    assert [x][1..] == [];
  }

  lemma {:induction false} AddToSnoc<K, S>(runs: seq<Boundary<K, S>>, x: Boundary<K, S>, row: (K, S), join: (S, S) -> S)
    ensures AddToRuns(runs + [x], row, join) ==
              if x.key == row.0 then runs + [Boundary(row.0, join(x.state, row.1))]
              else runs + [x] + [Boundary(row.0, row.1)]
  {
    assert (runs + [x])[..|runs|] == runs;
  }

  lemma {:induction false} GlueAdd<K, S(!new)>(a: seq<Boundary<K, S>>, b: seq<Boundary<K, S>>, row: (K, S),
                                               join: (S, S) -> S)
    requires Associative(join)
    ensures AddToRuns(Glue(a, b, join), row, join) == Glue(a, AddToRuns(b, row, join), join)
  {
    var single := Boundary(row.0, row.1);
    if b == [] {
      GlueOne(a, single, join);
    } else {
      var init, last := b[..|b| - 1], b[|b| - 1];
      assert b == init + [last];
      AddToSnoc(init, last, row, join);
      if last.key != row.0 { GlueSnoc(a, b, single, join); }
      if init != [] {
        GlueSnoc(a, init, last, join);
        GlueSnoc(a, init, Boundary(row.0, join(last.state, row.1)), join);
        AddToSnoc(Glue(a, init, join), last, row, join);
      } else {
        GlueAddOne(a, last, row, join);
      }
    }
  }

  lemma {:induction false} GlueAddOne<K, S(!new)>(a: seq<Boundary<K, S>>, last: Boundary<K, S>, row: (K, S),
                                                  join: (S, S) -> S)
    requires Associative(join)
    ensures AddToRuns(Glue(a, [last], join), row, join) == Glue(a, AddToRuns([last], row, join), join)
  {
    var single, grown := Boundary(row.0, row.1), Boundary(row.0, join(last.state, row.1));
    AddToSnoc([], last, row, join);
    assert AddToRuns([last], row, join) == if last.key == row.0 then [grown] else [last] + [single];
    GlueOne(a, last, join);
    GlueOne(a, grown, join);
    GlueSnoc(a, [last], single, join);
    if a != [] && a[|a| - 1].key == last.key {
      var before := a[|a| - 1].state;
      AddToSnoc(a[..|a| - 1], Boundary(last.key, join(before, last.state)), row, join);
      assert join(join(before, last.state), row.1) == join(before, join(last.state, row.1));
    } else {
      AddToSnoc(a, last, row, join);
    }
  }

  /** The runs of two consecutive streams are the glued runs of each. */
  lemma {:induction false} RunsConcat<K, S(!new)>(a: seq<(K, S)>, b: seq<(K, S)>, join: (S, S) -> S)
    requires Associative(join)
    ensures Runs(a + b, join) == Glue(Runs(a, join), Runs(b, join), join)
  {
    if b == [] {
      assert a + b == a;
    } else {
      var init, last := b[..|b| - 1], b[|b| - 1];
      assert (a + b)[..|a + b| - 1] == a + init;
      RunsConcat(a, init, join);
      GlueAdd(Runs(a, join), Runs(init, join), last, join);
    }
  }

  /** What a chunk of rows reports when its finished runs are written by `embed`. */
  function ChunkOf<K, S, O>(runs: seq<Boundary<K, S>>, embed: seq<Boundary<K, S>> -> O): Chunk<K, S, O> {
    var n := |runs|;
    Chunk(embed(if n > 2 then runs[1..n - 1] else []),
          if n > 0 then Some(runs[0]) else None,
          if n > 1 then Some(runs[n - 1]) else None)
  }

  /** The finished runs are written, and the last run is pending. */
  ghost predicate Holds<K, S, O>(m: Merging<K, S, O>, runs: seq<Boundary<K, S>>, embed: seq<Boundary<K, S>> -> O) {
    if runs == [] then m == Merging(embed([]), None)
    else m == Merging(embed(runs[..|runs| - 1]), Some(runs[|runs| - 1]))
  }

  /** Writing finished runs one by one or list by list comes to the same output. */
  ghost predicate Embedding<K(!new), S(!new), O>(embed: seq<Boundary<K, S>> -> O, mergeOutput: (O, O) -> O,
                                                 emit: (O, Boundary<K, S>) -> O)
  {
    && (forall l, b :: emit(embed(l), b) == embed(l + [b]))
    && (forall l, m :: mergeOutput(embed(l), embed(m)) == embed(l + m))
  }

  /** Where the first run of a chunk goes: joined to the pending run, or after it. */
  ghost function Seam<K, S>(a: seq<Boundary<K, S>>, x: Boundary<K, S>, join: (S, S) -> S)
    : (seq<Boundary<K, S>>, Boundary<K, S>)
  {
    if a != [] && a[|a| - 1].key == x.key
    then (a[..|a| - 1], Boundary(x.key, join(a[|a| - 1].state, x.state))) else (a, x)
  }

  lemma {:induction false} GlueAtSeam<K, S>(a: seq<Boundary<K, S>>, x: Boundary<K, S>, rest: seq<Boundary<K, S>>,
                                            join: (S, S) -> S)
    ensures Glue(a, [x] + rest, join) == Seam(a, x, join).0 + [Seam(a, x, join).1] + rest
  {
    assert ([x] + rest)[1..] == rest;
  }

  lemma {:induction false} BoundaryHolds<K(!new), S(!new), O>(
      m: Merging<K, S, O>, a: seq<Boundary<K, S>>, x: Boundary<K, S>, complete: bool,
      embed: seq<Boundary<K, S>> -> O, mergeOutput: (O, O) -> O, join: (S, S) -> S, emit: (O, Boundary<K, S>) -> O)
    requires Embedding(embed, mergeOutput, emit) && Holds(m, a, embed)
    ensures var (before, head) := Seam(a, x, join);
            MergeBoundary(m, x, complete, join, emit) ==
              if complete then Merging(embed(before + [head]), None) else Merging(embed(before), Some(head))
  {
    if a != [] {
      assert a == a[..|a| - 1] + [a[|a| - 1]];
      assert emit(embed(a[..|a| - 1]), a[|a| - 1]) == embed(a);
    }
    var (before, head) := Seam(a, x, join);
    assert emit(embed(before), head) == embed(before + [head]);
  }

  /** A chunk with one run leaves it pending. */
  lemma {:induction false} OneRunChunkHolds<K(!new), S(!new), O>(
      m: Merging<K, S, O>, a: seq<Boundary<K, S>>, b: seq<Boundary<K, S>>,
      embed: seq<Boundary<K, S>> -> O, mergeOutput: (O, O) -> O, join: (S, S) -> S, emit: (O, Boundary<K, S>) -> O)
    requires Embedding(embed, mergeOutput, emit) && Holds(m, a, embed) && |b| == 1
    ensures Holds(MergeChunk(m, ChunkOf(b, embed), mergeOutput, join, emit), Glue(a, b, join), embed)
  {
    BoundaryHolds(m, a, b[0], false, embed, mergeOutput, join, emit);
    var (before, head) := Seam(a, b[0], join);
    assert b == [b[0]] + [];
    GlueAtSeam(a, b[0], [], join);
    assert before + [] == before && before + [head] + [] == before + [head];
    assert (before + [head])[..|before|] == before;
    assert mergeOutput(embed(before), embed([])) == embed(before + []);
  }

  /** A longer chunk finishes its first run and leaves its last one pending. */
  lemma {:induction false} LongChunkHolds<K(!new), S(!new), O>(
      m: Merging<K, S, O>, a: seq<Boundary<K, S>>, x: Boundary<K, S>, middle: seq<Boundary<K, S>>, y: Boundary<K, S>,
      embed: seq<Boundary<K, S>> -> O, mergeOutput: (O, O) -> O, join: (S, S) -> S, emit: (O, Boundary<K, S>) -> O)
    requires Embedding(embed, mergeOutput, emit) && Holds(m, a, embed)
    ensures Holds(MergeChunk(m, Chunk(embed(middle), Some(x), Some(y)), mergeOutput, join, emit),
                  Seam(a, x, join).0 + [Seam(a, x, join).1] + middle + [y], embed)
  {
    BoundaryHolds(m, a, x, true, embed, mergeOutput, join, emit);
    var (before, head) := Seam(a, x, join);
    var finished := before + [head] + middle;
    assert (finished + [y])[..|finished|] == finished;
    assert mergeOutput(embed(before + [head]), embed(middle)) == embed(finished);
  }

  lemma {:induction false} LongChunk<K, S, O>(a: seq<Boundary<K, S>>, b: seq<Boundary<K, S>>,
                                              embed: seq<Boundary<K, S>> -> O, join: (S, S) -> S)
    requires |b| > 1
    ensures ChunkOf(b, embed) == Chunk(embed(b[1..|b| - 1]), Some(b[0]), Some(b[|b| - 1]))
    ensures Glue(a, b, join) ==
              Seam(a, b[0], join).0 + [Seam(a, b[0], join).1] + b[1..|b| - 1] + [b[|b| - 1]]
  {
    var middle, y := b[1..|b| - 1], b[|b| - 1];
    assert |b| == 2 ==> middle == [];
    assert b == [b[0]] + (middle + [y]);
    GlueAtSeam(a, b[0], middle + [y], join);
  }

  lemma {:induction false} MergeChunkHolds<K(!new), S(!new), O>(
      m: Merging<K, S, O>, a: seq<Boundary<K, S>>, b: seq<Boundary<K, S>>,
      embed: seq<Boundary<K, S>> -> O, mergeOutput: (O, O) -> O, join: (S, S) -> S, emit: (O, Boundary<K, S>) -> O)
    requires Embedding(embed, mergeOutput, emit) && Holds(m, a, embed)
    ensures Holds(MergeChunk(m, ChunkOf(b, embed), mergeOutput, join, emit), Glue(a, b, join), embed)
  {
    if |b| == 0 {
      var init := if a == [] then [] else a[..|a| - 1];
      assert init + [] == init;
      assert mergeOutput(embed(init), embed([])) == embed(init + []);
    } else if |b| == 1 {
      OneRunChunkHolds(m, a, b, embed, mergeOutput, join, emit);
    } else {
      LongChunk(a, b, embed, join);
      LongChunkHolds(m, a, b[0], b[1..|b| - 1], b[|b| - 1], embed, mergeOutput, join, emit);
    }
  }

  /** Merging the chunks of any division of a stream gives the runs of the whole stream. */
  lemma {:induction false} MergeChunksHolds<K(!new), S(!new), O>(
      parts: seq<seq<(K, S)>>, chunks: seq<Chunk<K, S, O>>,
      embed: seq<Boundary<K, S>> -> O, mergeOutput: (O, O) -> O, join: (S, S) -> S, emit: (O, Boundary<K, S>) -> O)
    requires Embedding(embed, mergeOutput, emit) && Associative(join) && |chunks| == |parts|
    requires forall i :: 0 <= i < |parts| ==> chunks[i] == ChunkOf(Runs(parts[i], join), embed)
    ensures Holds(MergeChunks(embed([]), chunks, mergeOutput, join, emit), Runs(Flatten(parts), join), embed)
  {
    if parts != [] {
      var n := |parts| - 1;
      MergeChunksHolds(parts[..n], chunks[..n], embed, mergeOutput, join, emit);
      RunsConcat(Flatten(parts[..n]), parts[n], join);
      MergeChunkHolds(MergeChunks(embed([]), chunks[..n], mergeOutput, join, emit), Runs(Flatten(parts[..n]), join),
                      Runs(parts[n], join), embed, mergeOutput, join, emit);
    }
  }

  /**
   * The merge is a homomorphism: chunks in, runs of the whole stream out, whatever the
   * division, the states and their associative join.
   */
  lemma {:induction false} MergeIsRuns<K(!new), S(!new), O>(
      parts: seq<seq<(K, S)>>, chunks: seq<Chunk<K, S, O>>,
      embed: seq<Boundary<K, S>> -> O, mergeOutput: (O, O) -> O, join: (S, S) -> S, emit: (O, Boundary<K, S>) -> O)
    requires Embedding(embed, mergeOutput, emit) && Associative(join) && |chunks| == |parts|
    requires forall i :: 0 <= i < |parts| ==> chunks[i] == ChunkOf(Runs(parts[i], join), embed)
    ensures Flush(MergeChunks(embed([]), chunks, mergeOutput, join, emit), emit) == embed(Runs(Flatten(parts), join))
  {
    MergeChunksHolds(parts, chunks, embed, mergeOutput, join, emit);
    var runs := Runs(Flatten(parts), join);
    if runs != [] {
      assert runs == runs[..|runs| - 1] + [runs[|runs| - 1]];
    }
  }

  function Append<T>(a: seq<T>, b: seq<T>): seq<T> { a + b }

  function Push<T>(a: seq<T>, x: T): seq<T> { a + [x] }

  /**
   * With a log as the output, each run of the whole stream is emitted exactly once, in
   * order, after all its pieces were joined.
   */
  lemma {:induction false} MergeLogIsRuns<K(!new), S(!new)>(
      parts: seq<seq<(K, S)>>, chunks: seq<Chunk<K, S, seq<Boundary<K, S>>>>, join: (S, S) -> S)
    requires Associative(join) && |chunks| == |parts|
    requires forall i :: 0 <= i < |parts| ==> chunks[i] == ChunkOf(Runs(parts[i], join), (l: seq<Boundary<K, S>>) => l)
    ensures Flush(MergeChunks([], chunks, Append, join, Push), Push) == Runs(Flatten(parts), join)
  {
    MergeIsRuns(parts, chunks, (l: seq<Boundary<K, S>>) => l, Append, join, Push);
  }
}
