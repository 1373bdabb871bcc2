/** Hash repartition of batches and the store of shuffle files between stages. */
module Shuffle {
  import opened Machine

  type Batch<R> = seq<R>

  // ----- hash repartition

  /** The rows of partition `p`, in their order. */
  function RowsOf<R>(rows: seq<R>, hash: R -> nat, partitions: nat, p: nat): seq<R>
    requires partitions > 0
  {
    if rows == [] then []
    else
      var before, row := RowsOf(rows[..|rows| - 1], hash, partitions, p), rows[|rows| - 1];
      if hash(row) % partitions == p then before + [row] else before
  }

  lemma {:induction false} RowsOfConcat<R>(a: seq<R>, b: seq<R>, hash: R -> nat, partitions: nat, p: nat)
    requires partitions > 0
    ensures RowsOf(a + b, hash, partitions, p) == RowsOf(a, hash, partitions, p) + RowsOf(b, hash, partitions, p)
  {
    if b == [] {
      assert a + b == a;
    } else {
      assert (a + b)[..|a + b| - 1] == a + b[..|b| - 1];
      RowsOfConcat(a, b[..|b| - 1], hash, partitions, p);
    }
  }

  /** Partition `p` holds rows that hash to `p` only: equal keys meet in one partition. */
  lemma {:induction false} RowsOfHashTo<R>(rows: seq<R>, hash: R -> nat, partitions: nat, p: nat, row: R)
    requires partitions > 0
    ensures row in RowsOf(rows, hash, partitions, p) <==> row in rows && hash(row) % partitions == p
  {
    if rows != [] {
      assert rows == rows[..|rows| - 1] + [rows[|rows| - 1]];
      RowsOfHashTo(rows[..|rows| - 1], hash, partitions, p, row);
    }
  }

  /** The number of rows in the first `n` partitions. */
  function PartitionedCount<R>(rows: seq<R>, hash: R -> nat, partitions: nat, n: nat): nat
    requires partitions > 0
  {
    if n == 0 then 0 else PartitionedCount(rows, hash, partitions, n - 1) + |RowsOf(rows, hash, partitions, n - 1)|
  }

  lemma {:induction false} PartitionedCountSnoc<R>(rows: seq<R>, row: R, hash: R -> nat, partitions: nat, n: nat)
    requires partitions > 0
    ensures PartitionedCount(rows + [row], hash, partitions, n) ==
              PartitionedCount(rows, hash, partitions, n) + if hash(row) % partitions < n then 1 else 0
  {
    if n > 0 {
      assert (rows + [row])[..|rows|] == rows;
      PartitionedCountSnoc(rows, row, hash, partitions, n - 1);
    }
  }

  /** No row is lost or duplicated by partitioning. */
  lemma {:induction false} PartitionsConserveRows<R>(rows: seq<R>, hash: R -> nat, partitions: nat)
    requires partitions > 0
    ensures PartitionedCount(rows, hash, partitions, partitions) == |rows|
  {
    if rows == [] {
      PartitionedCountEmpty(hash, partitions, partitions);
    } else {
      var init := rows[..|rows| - 1];
      assert rows == init + [rows[|rows| - 1]];
      PartitionsConserveRows(init, hash, partitions);
      PartitionedCountSnoc(init, rows[|rows| - 1], hash, partitions, partitions);
    }
  }

  lemma {:induction false} PartitionedCountEmpty<R>(hash: R -> nat, partitions: nat, n: nat)
    requires partitions > 0
    ensures PartitionedCount([], hash, partitions, n) == 0
  {
    if n > 0 { PartitionedCountEmpty(hash, partitions, n - 1); }
  }

  /** The rows of one batch, by partition; nothing when the batch has too many rows to index. */
  method SplitBatch<R>(batch: Batch<R>, hash: R -> nat, partitions: nat) returns (r: Option<seq<seq<R>>>)
    requires partitions > 0
    ensures r.Some? <==> |batch| <= U32_MAX + 1
    ensures r.Some? ==> |r.value| == partitions
                        && forall p :: 0 <= p < partitions ==> r.value[p] == RowsOf(batch, hash, partitions, p)
  {
    var parts: seq<seq<R>> := seq(partitions, _ => []);
    for i := 0 to |batch|
      invariant |parts| == partitions && i <= U32_MAX + 1
      invariant forall p :: 0 <= p < partitions ==> parts[p] == RowsOf(batch[..i], hash, partitions, p)
    {
      assert batch[..i + 1][..i] == batch[..i];
      var p := hash(batch[i]) % partitions;
      if i > U32_MAX { return None; }
      parts := parts[p := parts[p] + [batch[i]]];
    }
    assert batch[..|batch|] == batch;
    r := Some(parts);
  }

  /** The non-empty parts that the batches contribute to partition `p`, in batch order. */
  function PartBatches<R>(batches: seq<Batch<R>>, hash: R -> nat, partitions: nat, p: nat): seq<Batch<R>>
    requires partitions > 0
  {
    if batches == [] then []
    else
      var before := PartBatches(batches[..|batches| - 1], hash, partitions, p);
      var part := RowsOf(batches[|batches| - 1], hash, partitions, p);
      if part == [] then before else before + [part]
  }

  /** A partition's batches hold exactly its rows, in batch and row order, and none of them is empty. */
  lemma {:induction false} PartBatchesHoldPartition<R>(batches: seq<Batch<R>>, hash: R -> nat, partitions: nat, p: nat)
    requires partitions > 0
    ensures Flatten(PartBatches(batches, hash, partitions, p)) == RowsOf(Flatten(batches), hash, partitions, p)
    ensures NonEmpty(PartBatches(batches, hash, partitions, p)) == PartBatches(batches, hash, partitions, p)
  {
    if batches != [] {
      var init, last := batches[..|batches| - 1], batches[|batches| - 1];
      var before, part := PartBatches(init, hash, partitions, p), RowsOf(last, hash, partitions, p);
      PartBatchesHoldPartition(init, hash, partitions, p);
      RowsOfConcat(Flatten(init), last, hash, partitions, p);
      if part != [] {
        FlattenPush(before, part);
        assert (before + [part])[..|before|] == before;
      }
    }
  }

  ghost predicate Splittable<R>(batches: seq<Batch<R>>) {
    forall i :: 0 <= i < |batches| ==> |batches[i]| <= U32_MAX + 1
  }

  /** The batches of each partition. */
  function Parts<R>(batches: seq<Batch<R>>, hash: R -> nat, partitions: nat): (parts: seq<seq<Batch<R>>>)
    requires partitions > 0
    ensures |parts| == partitions
    ensures forall p :: 0 <= p < partitions ==> parts[p] == PartBatches(batches, hash, partitions, p)
  {
    seq(partitions, p requires 0 <= p => PartBatches(batches, hash, partitions, p))
  }

  /** Appends each non-empty part to its partition. */
  method AppendParts<R>(output: seq<seq<Batch<R>>>, parts: seq<seq<R>>, ghost batches: seq<Batch<R>>,
                        ghost batch: Batch<R>,
                        ghost hash: R -> nat, partitions: nat)
    returns (r: seq<seq<Batch<R>>>)
    requires partitions > 0 && output == Parts(batches, hash, partitions) && |parts| == partitions
    requires forall p :: 0 <= p < partitions ==> parts[p] == RowsOf(batch, hash, partitions, p)
    ensures r == Parts(batches + [batch], hash, partitions)
  {
    r := output;
    assert (batches + [batch])[..|batches|] == batches;
    for p := 0 to partitions
      invariant |r| == partitions
      invariant forall q :: 0 <= q < p ==> r[q] == PartBatches(batches + [batch], hash, partitions, q)
      invariant forall q :: p <= q < partitions ==> r[q] == output[q]
    {
      if |parts[p]| > 0 {
        r := r[p := r[p] + [parts[p]]];
      }
    }
  }

  /** The batches of every partition: its rows in batch and row order, and no empty batch. */
  method RepartitionBatchesByHash<R>(batches: seq<Batch<R>>, hash: R -> nat, partitions: nat)
    returns (r: Option<seq<seq<Batch<R>>>>)
    ensures r.Some? <==> partitions > 0 && Splittable(batches)
    ensures r.Some? ==> r.value == Parts(batches, hash, partitions)
  {
    if partitions == 0 { return None; }
    var output: seq<seq<Batch<R>>> := seq(partitions, _ => []);
    for i := 0 to |batches|
      invariant output == Parts(batches[..i], hash, partitions) && Splittable(batches[..i])
    {
      assert batches[..i + 1] == batches[..i] + [batches[i]];
      if |batches[i]| == 0 {
        assert batches[..i + 1][..i] == batches[..i];
        continue;
      }
      var parts := SplitBatch(batches[i], hash, partitions);
      if parts.None? { return None; }
      output := AppendParts(output, parts.value, batches[..i], batches[i], hash, partitions);
    }
    assert batches[..|batches|] == batches;
    r := Some(output);
  }

  // ----- the store

  /** A shuffle file: its number, which names it, and its batches. */
  datatype ShuffleFile<R> = ShuffleFile(sequence: nat, batches: seq<Batch<R>>)

  /** The files of each (stage, partition). */
  type Files<R> = map<(nat, nat), seq<ShuffleFile<R>>>

  /** The batches of each (stage, partition). */
  type Contents<R> = map<(nat, nat), seq<Batch<R>>>

  function FileBatches<R>(files: seq<ShuffleFile<R>>): seq<Batch<R>> {
    if files == [] then [] else FileBatches(files[..|files| - 1]) + files[|files| - 1].batches
  }

  lemma {:induction false} FileBatchesConcat<R>(a: seq<ShuffleFile<R>>, b: seq<ShuffleFile<R>>)
    ensures FileBatches(a + b) == FileBatches(a) + FileBatches(b)
  {
    if b == [] {
      assert a + b == a;
    } else {
      assert (a + b)[..|a + b| - 1] == a + b[..|b| - 1];
      FileBatchesConcat(a, b[..|b| - 1]);
    }
  }

  function NonEmpty<R>(batches: seq<Batch<R>>): seq<Batch<R>> {
    if batches == [] then []
    else
      var before := NonEmpty(batches[..|batches| - 1]);
      if batches[|batches| - 1] == [] then before else before + [batches[|batches| - 1]]
  }

  lemma {:induction false} NonEmptyKeepsRows<R>(batches: seq<Batch<R>>)
    ensures Flatten(NonEmpty(batches)) == Flatten(batches)
    ensures forall i :: 0 <= i < |NonEmpty(batches)| ==> NonEmpty(batches)[i] != []
  {
    if batches != [] {
      NonEmptyKeepsRows(batches[..|batches| - 1]);
      if batches[|batches| - 1] != [] { FlattenPush(NonEmpty(batches[..|batches| - 1]), batches[|batches| - 1]); }
    }
  }

  /** `record_batch_memory_size(batch).max(1)`, summed without overflow */
  function Bytes<R>(batches: seq<Batch<R>>, size: Batch<R> -> nat): nat {
    if batches == [] then 0
    else SatAdd(Bytes(batches[..|batches| - 1], size), Max(size(batches[|batches| - 1]), 1))
  }

  /** The sizes of the batches, an empty size counting for one byte. */
  ghost function TotalBytes<R>(batches: seq<Batch<R>>, size: Batch<R> -> nat): nat {
    if batches == [] then 0
    else
      var last := size(batches[|batches| - 1]);
      TotalBytes(batches[..|batches| - 1], size) + if last == 0 then 1 else last
  }

  lemma {:induction false} BytesAreSummed<R>(batches: seq<Batch<R>>, size: Batch<R> -> nat)
    ensures var total := TotalBytes(batches, size);
            Bytes(batches, size) == if total < USIZE_MAX then total else USIZE_MAX
    ensures TotalBytes(batches, size) >= |batches|
  {
    if batches != [] { BytesAreSummed(batches[..|batches| - 1], size); }
  }

  /** A file has batches, and exceeds the target only when it has just one. */
  ghost predicate WellFilled<R>(file: ShuffleFile<R>, size: Batch<R> -> nat, target: nat) {
    file.batches != [] && (|file.batches| == 1 || Bytes(file.batches, size) <= target)
  }

  /** File `i` starts only because its first batch did not fit into the file before. */
  ghost predicate Overflows<R>(files: seq<ShuffleFile<R>>, i: nat, size: Batch<R> -> nat, target: nat)
    requires 0 < i < |files|
  {
    && files[i].batches != []
    && SatAdd(Bytes(files[i - 1].batches, size), Max(size(files[i].batches[0]), 1)) > target
  }

  ghost predicate Rolled<R>(files: seq<ShuffleFile<R>>, size: Batch<R> -> nat, target: nat) {
    && (forall i :: 0 <= i < |files| ==> WellFilled(files[i], size, target))
    && (forall i :: 0 < i < |files| ==> Overflows(files, i, size, target))
  }

  /**
   * Files are numbered in the order they were written, all from `first` on and before
   * `next`, until the number saturates and repeats.
   */
  ghost predicate Numbered<R>(files: seq<ShuffleFile<R>>, first: nat, next: nat) {
    && next <= USIZE_MAX
    && (forall i :: 0 <= i < |files| ==> first <= files[i].sequence < next || files[i].sequence == next == USIZE_MAX)
    && (forall i :: 0 < i < |files| ==> NumberedAfter(files, i))
  }

  ghost predicate NumberedAfter<R>(files: seq<ShuffleFile<R>>, i: nat)
    requires 0 < i < |files|
  {
    files[i - 1].sequence < files[i].sequence || files[i - 1].sequence == files[i].sequence == USIZE_MAX
  }

  /** Two files of a partition share a number, and so a name, only once the number has saturated. */
  lemma {:induction false} NumbersDiffer<R>(files: seq<ShuffleFile<R>>, first: nat, next: nat, i: nat, j: nat)
    requires Numbered(files, first, next) && i < j < |files|
    ensures files[i].sequence < files[j].sequence || files[j].sequence == next == USIZE_MAX
  {
    if i < j - 1 { NumbersDiffer(files, first, next, i, j - 1); }
    assert NumberedAfter(files, j);
  }

  ghost predicate AllNumbered<R>(files: Files<R>, next: nat) {
    forall key :: key in files ==> Numbered(files[key], 0, next)
  }

  /** The batches a reader of each partition sees, in file and batch order. */
  function View<R>(files: Files<R>): Contents<R> {
    map key | key in files :: FileBatches(files[key])
  }

  function BatchesAt<R>(view: Contents<R>, key: (nat, nat)): seq<Batch<R>> {
    if key in view then view[key] else []
  }

  /** The view after `batches` were appended to a partition, which exists from then on. */
  function Appended<R>(view: Contents<R>, key: (nat, nat), batches: seq<Batch<R>>)
    : Contents<R>
  {
    view[key := BatchesAt(view, key) + NonEmpty(batches)]
  }

  datatype WriteMetrics = WriteMetrics(files: nat, batches: nat, rows: nat)

  class LocalShuffleStore<R> {
    var files: Files<R>
    var sequence: nat
    const fileTargetBytes: nat

    /** Within a partition, files carry increasing numbers, which name them, until the number saturates. */
    ghost predicate Valid()
      reads this
    {
      sequence <= USIZE_MAX && AllNumbered(files, sequence)
    }

    constructor (fileTargetBytes: nat)
      ensures Valid() && files == map[] && this.fileTargetBytes == fileTargetBytes
    {
      this.fileTargetBytes := fileTargetBytes;
      files, sequence := map[], 0;
    }

    /**
     * Appends the non-empty batches to a partition, rolling to a new file when the target
     * would be exceeded. The partition exists afterwards even when nothing was written.
     */
    method WritePartition(stageId: nat, partition: nat, batches: seq<Batch<R>>, size: Batch<R> -> nat)
      returns (metrics: WriteMetrics, ghost written: seq<ShuffleFile<R>>)
      requires Valid()
      modifies this
      ensures Valid()
      ensures files == old(files)[(stageId, partition) := FilesAt(old(files), (stageId, partition)) + written]
      ensures View(files) == Appended(View(old(files)), (stageId, partition), batches)
      ensures FileBatches(written) == NonEmpty(batches) && Rolled(written, size, fileTargetBytes)
      ensures metrics == WriteMetrics(|written|, |NonEmpty(batches)|, |Flatten(batches)|)
    {
      var pending := NonEmptyBatches(batches);
      var rolled, next := RollFiles(pending, size, fileTargetBytes, sequence);
      written, sequence := rolled, next;
      NonEmptyKeepsRows(batches);
      ViewOfAppended(files, (stageId, partition), rolled, batches);
      NumberedAppend(files, (stageId, partition), rolled, old(sequence), sequence);
      files := files[(stageId, partition) := FilesAt(files, (stageId, partition)) + rolled];
      metrics := WriteMetrics(|rolled|, |pending|, |Flatten(pending)|);
    }
  }

  /** The files finished so far, the batches of the one being filled, and their bytes. */
  datatype Roller<R> = Roller(files: seq<ShuffleFile<R>>, file: ShuffleFile<R>, bytes: nat)

  /** Takes one more batch, first closing the file when the batch does not fit. */
  method RollBatch<R>(roller: Roller<R>, batch: Batch<R>, size: Batch<R> -> nat, target: nat,
                      ghost taken: seq<Batch<R>>,
                      ghost more: seq<Batch<R>>, ghost first: nat)
    returns (r: Roller<R>)
    requires Rolling(roller, taken, size, target, first) && more == taken + [batch]
    ensures Rolling(r, more, size, target, first)
  {
    var batchBytes := Max(size(batch), 1);
    ghost var file := roller.file;
    assert (file.batches + [batch])[..|file.batches|] == file.batches;
    assert [batch][..0] == [];
    if |roller.file.batches| > 0 && SatAdd(roller.bytes, batchBytes) > target {
      NumberNext(roller.files, file, first);
      StartFile(roller.files, file, ShuffleFile(SatAdd(file.sequence, 1), [batch]), size, target);
      assert FileBatches(roller.files + [file]) == taken;
      r := Roller(roller.files + [roller.file], ShuffleFile(SatAdd(roller.file.sequence, 1), [batch]),
                  SatAdd(0, batchBytes));
    } else {
      GrowFile(roller.files, file, batch, size, target);
      r := Roller(roller.files, ShuffleFile(roller.file.sequence, roller.file.batches + [batch]),
                  SatAdd(roller.bytes, batchBytes));
    }
  }

  /** Groups batches into files numbered from `first` on. */
  method RollFiles<R>(batches: seq<Batch<R>>, size: Batch<R> -> nat, target: nat, first: nat)
    returns (files: seq<ShuffleFile<R>>, next: nat)
    requires first <= USIZE_MAX
    ensures FileBatches(files) == batches && Rolled(files, size, target)
    ensures next >= first && Numbered(files, first, next)
  {
    var roller := Roller([], ShuffleFile(first, []), 0);
    NothingRolled(roller, size, target, first);
    for i := 0 to |batches|
      invariant Rolling(roller, batches[..i], size, target, first)
    {
      roller := RollBatch(roller, batches[i], size, target, batches[..i], batches[..i + 1], first);
    }
    assert batches[..|batches|] == batches;
    files, next := CloseLast(roller, batches, size, target, first);
  }

  lemma {:induction false} NothingRolled<R>(roller: Roller<R>, size: Batch<R> -> nat, target: nat, first: nat)
    requires roller == Roller([], ShuffleFile(first, []), 0) && first <= USIZE_MAX
    ensures Rolling(roller, [], size, target, first)
  {
  }

  /** Closes the file being filled, unless it is empty. */
  method CloseLast<R>(roller: Roller<R>, ghost taken: seq<Batch<R>>, ghost size: Batch<R> -> nat, ghost target: nat,
                      ghost first: nat)
    returns (files: seq<ShuffleFile<R>>, next: nat)
    requires Rolling(roller, taken, size, target, first)
    ensures FileBatches(files) == taken && Rolled(files, size, target)
    ensures next >= first && Numbered(files, first, next)
  {
    files, next := roller.files, roller.file.sequence;
    if |roller.file.batches| > 0 {
      assert (files + [roller.file])[..|files|] == files;
      NumberNext(files, roller.file, first);
      files, next := files + [roller.file], SatAdd(next, 1);
    }
  }

  /** The finished files and the file being filled hold what was taken so far, and are well filled. */
  ghost predicate Rolling<R>(roller: Roller<R>, taken: seq<Batch<R>>, size: Batch<R> -> nat, target: nat, first: nat) {
    && FileBatches(roller.files) + roller.file.batches == taken
    && roller.bytes == Bytes(roller.file.batches, size)
    && first <= roller.file.sequence && Numbered(roller.files, first, roller.file.sequence)
    && (roller.file.batches == [] ==> roller.files == [])
    && (roller.file.batches != [] ==> Rolled(roller.files + [roller.file], size, target))
  }

  lemma {:induction false} StartFile<R>(rolled: seq<ShuffleFile<R>>, file: ShuffleFile<R>, next: ShuffleFile<R>,
                                        size: Batch<R> -> nat, target: nat)
    requires Rolled(rolled + [file], size, target)
    requires |next.batches| == 1 && SatAdd(Bytes(file.batches, size), Max(size(next.batches[0]), 1)) > target
    ensures Rolled(rolled + [file] + [next], size, target)
    ensures FileBatches(rolled + [file]) == FileBatches(rolled) + file.batches
  {
    assert (rolled + [file])[..|rolled|] == rolled;
    var before, after := rolled + [file], rolled + [file] + [next];
    forall i | 0 <= i < |after| ensures WellFilled(after[i], size, target) {
      if i < |before| { assert WellFilled(before[i], size, target); }
    }
    forall i | 0 < i < |after| ensures Overflows(after, i, size, target) {
      if i < |before| { assert Overflows(before, i, size, target); }
    }
  }

  lemma {:induction false} GrowFile<R>(rolled: seq<ShuffleFile<R>>, file: ShuffleFile<R>, batch: Batch<R>,
                                       size: Batch<R> -> nat, target: nat)
    requires file.batches != [] ==> Rolled(rolled + [file], size, target)
    requires file.batches == [] ==> rolled == []
    requires file.batches != [] ==> SatAdd(Bytes(file.batches, size), Max(size(batch), 1)) <= target
    ensures Rolled(rolled + [ShuffleFile(file.sequence, file.batches + [batch])], size, target)
  {
    assert (file.batches + [batch])[..|file.batches|] == file.batches;
    if file.batches != [] {
      var before, after := rolled + [file], rolled + [ShuffleFile(file.sequence, file.batches + [batch])];
      forall i | 0 <= i < |after| ensures WellFilled(after[i], size, target) {
        assert WellFilled(before[i], size, target);
      }
      forall i | 0 < i < |after| ensures Overflows(after, i, size, target) {
        assert Overflows(before, i, size, target);
      }
    }
  }

  lemma {:induction false} NumberNext<R>(files: seq<ShuffleFile<R>>, file: ShuffleFile<R>, first: nat)
    requires first <= file.sequence && Numbered(files, first, file.sequence)
    ensures Numbered(files + [file], first, SatAdd(file.sequence, 1))
  {
    var after := files + [file];
    forall i | 0 < i < |after| ensures NumberedAfter(after, i) {
      if i < |files| { assert NumberedAfter(files, i); }
    }
  }

  lemma {:induction false} NumberedConcat<R>(before: seq<ShuffleFile<R>>, more: seq<ShuffleFile<R>>, middle: nat,
                                             next: nat)
    requires middle <= next && Numbered(before, 0, middle) && Numbered(more, middle, next)
    ensures Numbered(before + more, 0, next)
  {
    var after := before + more;
    forall i | 0 < i < |after| ensures NumberedAfter(after, i) {
      if i < |before| {
        assert NumberedAfter(before, i);
      } else if i > |before| {
        assert NumberedAfter(more, i - |before|);
      }
    }
  }

  lemma {:induction false} NumberedAppend<R>(files: Files<R>, key: (nat, nat),
                                             more: seq<ShuffleFile<R>>, middle: nat, next: nat)
    requires middle <= next && AllNumbered(files, middle) && Numbered(more, middle, next)
    ensures AllNumbered(files[key := FilesAt(files, key) + more], next)
  {
    var before, after := FilesAt(files, key), files[key := FilesAt(files, key) + more];
    assert Numbered(before, 0, middle);
    NumberedConcat(before, more, middle, next);
    forall k | k in after ensures Numbered(after[k], 0, next) {
      if k != key { assert Numbered(files[k], 0, middle); }
    }
  }

  lemma {:induction false} ViewOfAppended<R>(files: Files<R>, key: (nat, nat),
                                             more: seq<ShuffleFile<R>>, batches: seq<Batch<R>>)
    requires FileBatches(more) == NonEmpty(batches)
    ensures View(files[key := FilesAt(files, key) + more]) == Appended(View(files), key, batches)
  {
    FileBatchesConcat(FilesAt(files, key), more);
    assert FileBatches<R>([]) == [];
  }

  method NonEmptyBatches<R>(batches: seq<Batch<R>>) returns (r: seq<Batch<R>>)
    ensures r == NonEmpty(batches)
  {
    r := [];
    for i := 0 to |batches|
      invariant r == NonEmpty(batches[..i])
    {
      assert batches[..i + 1][..i] == batches[..i];
      if |batches[i]| > 0 { r := r + [batches[i]]; }
    }
    assert batches[..|batches|] == batches;
  }

  function FilesAt<R>(files: Files<R>, key: (nat, nat)): seq<ShuffleFile<R>> {
    if key in files then files[key] else []
  }
}
