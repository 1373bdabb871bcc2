/** The chunk-parallel builder of the rank map, and its agreement with the sequential one. */
module RankMapChunks {
  import opened Machine
  import opened BitWords
  import opened RankMap

  datatype ChunkBitmap = ChunkBitmap(words: seq<Word>, baseWord: nat, minKey: I64, maxKey: I64, pairCount: nat)

  // ----- local bitmaps

  /** The words of the bitmap that spans the keys of one chunk. */
  function ChunkWords<T>(chunk: seq<(I64, T)>): int {
    if chunk == [] then 0 else MaxKey(chunk) / 64 - MinKey(chunk) / 64 + 1
  }

  function LocalWords<T>(chunks: seq<seq<(I64, T)>>): int {
    if chunks == [] then 0 else LocalWords(chunks[..|chunks| - 1]) + ChunkWords(chunks[|chunks| - 1])
  }

  ghost predicate Spans<T>(b: ChunkBitmap, chunk: seq<(I64, T)>) {
    && b.pairCount == |chunk| && |b.words| == ChunkWords(chunk)
    && (chunk != [] ==> b.minKey == MinKey(chunk) && b.maxKey == MaxKey(chunk) && 0 <= b.minKey
                        && b.baseWord == b.minKey / 64)
    && (forall k: nat :: k in Keys(chunk) ==> 64 * b.baseWord <= k)
    && (forall j: nat :: Has(b.words, j) <==> j + 64 * b.baseWord in Keys(chunk))
  }

  /** One bit for every key, relative to the base word. */
  method MarkLocalKeys<T>(pairs: seq<(I64, T)>, baseWord: nat, wordCount: nat) returns (words: seq<Word>)
    requires forall k :: k in Keys(pairs) ==> 64 * baseWord <= k < 64 * (baseWord + wordCount)
    ensures |words| == wordCount
    ensures forall j: nat :: Has(words, j) <==> j + 64 * baseWord in Keys(pairs)
  {
    words := ZeroWords(wordCount);
    for i := 0 to |pairs|
      invariant |words| == wordCount
      invariant forall j: nat :: Has(words, j) <==> j + 64 * baseWord in Keys(pairs[..i])
    {
      KeysSnoc(pairs, i);
      assert pairs[i].0 as int in Keys(pairs);
      words := SetBit(words, pairs[i].0 - 64 * baseWord);
    }
    assert pairs[..|pairs|] == pairs;
  }

  /** Key bounds of a chunk; nothing for a negative key. */
  method ChunkBounds<T>(pairs: seq<(I64, T)>) returns (r: Option<(I64, I64)>)
    ensures r.Some? <==> MinKey(pairs) >= 0
    ensures r.Some? ==> r.value == (MinKey(pairs), MaxKey(pairs))
  {
    var minKey: I64, maxKey: I64 := I64_MAX, I64_MIN;
    for i := 0 to |pairs|
      invariant minKey == MinKey(pairs[..i]) && maxKey == MaxKey(pairs[..i]) && minKey >= 0
    {
      assert pairs[..i + 1][..i] == pairs[..i];
      MinKeyOfPrefix(pairs, i + 1);
      if pairs[i].0 < 0 { return None; }
      minKey, maxKey := Min(minKey, pairs[i].0), Max(maxKey, pairs[i].0);
    }
    assert pairs[..|pairs|] == pairs;
    r := Some((minKey, maxKey));
  }

  method BuildChunkBitmap<T>(pairs: seq<(I64, T)>, budget: Usize) returns (r: Option<ChunkBitmap>)
    ensures r.Some? <==> pairs == [] || (MinKey(pairs) >= 0 && 8 * ChunkWords(pairs) <= budget)
    ensures r.Some? ==> Spans(r.value, pairs)
  {
    if pairs == [] {
      return Some(ChunkBitmap([], 0, 0, -1, 0));
    }
    var bounds := ChunkBounds(pairs);
    if bounds.None? { return None; }
    var (minKey, maxKey) := bounds.value;
    Extremes(pairs);
    var baseWord, maxWord := minKey / 64, maxKey / 64;
    var wordCount := maxWord - baseWord + 1;
    match CheckedMul(wordCount, 8) {
      case None => return None;
      case Some(bytes) => if bytes > budget { return None; }
    }
    var words := MarkLocalKeys(pairs, baseWord, wordCount);
    r := Some(ChunkBitmap(words, baseWord, minKey, maxKey, |pairs|));
  }

  // ----- flattening

  lemma {:induction false} FlattenPrefix<T>(chunks: seq<seq<T>>, i: nat)
    requires i <= |chunks|
    ensures Flatten(chunks) == Flatten(chunks[..i]) + Flatten(chunks[i..])
  {
    assert chunks == chunks[..i] + chunks[i..];
    FlattenConcat(chunks[..i], chunks[i..]);
  }

  lemma {:induction false} FlattenSnoc<T>(chunks: seq<seq<T>>, i: nat)
    requires i < |chunks|
    ensures Flatten(chunks[..i + 1]) == Flatten(chunks[..i]) + chunks[i]
  {
    assert chunks[..i + 1][..i] == chunks[..i];
  }

  lemma {:induction false} KeyInSomeChunk<T>(chunks: seq<seq<(I64, T)>>, key: int)
    ensures key in Keys(Flatten(chunks)) <==> exists i :: 0 <= i < |chunks| && key in Keys(chunks[i])
  {
    if chunks != [] {
      var n := |chunks| - 1;
      var init := chunks[..n];
      KeysConcat(Flatten(init), chunks[n]);
      KeyInSomeChunk(init, key);
      if i :| 0 <= i < |chunks| && key in Keys(chunks[i]) {
        assert i < n ==> init[i] == chunks[i];
      }
      if i :| 0 <= i < |init| && key in Keys(init[i]) {
        assert init[i] == chunks[i];
      }
    }
  }

  lemma {:induction false} ExtremesConcat<T>(a: seq<(I64, T)>, b: seq<(I64, T)>)
    ensures MinKey(a + b) == Min(MinKey(a), MinKey(b)) && MaxKey(a + b) == Max(MaxKey(a), MaxKey(b))
  {
    if b == [] {
      assert a + b == a;
    } else {
      assert (a + b)[..|a + b| - 1] == a + b[..|b| - 1];
      ExtremesConcat(a, b[..|b| - 1]);
    }
  }

  // ----- ordered chunks

  ghost predicate Before<T>(p: seq<(I64, T)>, q: seq<(I64, T)>) {
    forall x, y :: x in Keys(p) && y in Keys(q) ==> x < y
  }

  /** Every key of an earlier chunk is below every key of a later one. */
  ghost predicate Ordered<T>(chunks: seq<seq<(I64, T)>>) {
    forall a, b :: 0 <= a < b < |chunks| ==> Before(chunks[a], chunks[b])
  }

  /** A bitmap of exactly the keys of these pairs, none negative. */
  ghost predicate BitmapOf<T>(words: seq<Word>, pairs: seq<(I64, T)>) {
    && (forall k: nat :: Has(words, k) <==> k in Keys(pairs))
    && (forall k :: k in Keys(pairs) ==> k >= 0)
  }

  ghost predicate OrderedDistinct<T>(chunks: seq<seq<(I64, T)>>) {
    Ordered(chunks) && |Keys(Flatten(chunks))| == |Flatten(chunks)|
  }

  /** The keys below the least key of chunk `i` are those of the earlier chunks. */
  lemma {:induction false} KeysBelowChunk<T>(chunks: seq<seq<(I64, T)>>, i: nat)
    requires i < |chunks| && Ordered(chunks) && chunks[i] != []
    ensures (set x | x in Keys(Flatten(chunks)) && x < MinKey(chunks[i])) == Keys(Flatten(chunks[..i]))
  {
    var all, before, minKey := Keys(Flatten(chunks)), Keys(Flatten(chunks[..i])), MinKey(chunks[i]);
    Extremes(chunks[i]);
    forall x ensures x in before <==> x in all && x < minKey {
      KeyInSomeChunk(chunks, x);
      KeyInSomeChunk(chunks[..i], x);
      if x in before {
        var a :| 0 <= a < i && x in Keys(chunks[..i][a]);
        assert x in Keys(chunks[a]) && Before(chunks[a], chunks[i]);
      }
      if x in all && x < minKey {
        var a :| 0 <= a < |chunks| && x in Keys(chunks[a]);
        assert a < i && chunks[..i][a] == chunks[a];
      }
    }
  }

  /** The keys below a key of chunk `i` lie in the earlier chunks or in the chunk itself. */
  lemma {:induction false} KeysBelowKey<T>(chunks: seq<seq<(I64, T)>>, i: nat, key: nat)
    requires i < |chunks| && Ordered(chunks) && key in Keys(chunks[i])
    ensures (set x | x in Keys(Flatten(chunks)) && x < key) <= Keys(Flatten(chunks[..i])) + (Keys(chunks[i]) - {key})
  {
    forall x | x in Keys(Flatten(chunks)) && x < key
      ensures x in Keys(Flatten(chunks[..i])) + (Keys(chunks[i]) - {key})
    {
      KeyInSomeChunk(chunks, x);
      var a :| 0 <= a < |chunks| && x in Keys(chunks[a]);
      KeyInSomeChunk(chunks[..i], x);
      if a < i {
        assert chunks[..i][a] == chunks[a];
      } else if i < a {
        assert Before(chunks[i], chunks[a]);
      }
    }
  }

  /**
   * In ordered chunks without duplicate keys, the keys of chunk `i` have the ranks that
   * follow those of all earlier chunks. This is why the fast path may place each chunk
   * on its own and concatenate.
   */
  lemma {:induction false} ChunkRanks<T>(chunks: seq<seq<(I64, T)>>, i: nat, words: seq<Word>, key: nat)
    requires i < |chunks| && OrderedDistinct(chunks) && BitmapOf(words, Flatten(chunks))
    requires key in Keys(chunks[i])
    ensures MinKey(chunks[i]) >= 0 && WordsContain(words, MinKey(chunks[i])) && Has(words, key)
    ensures Rank(words, MinKey(chunks[i])) == |Flatten(chunks[..i])|
    ensures |Flatten(chunks[..i])| <= Rank(words, key) < |Flatten(chunks[..i])| + |chunks[i]|
  {
    var all, minKey := Keys(Flatten(chunks)), MinKey(chunks[i]);
    Extremes(chunks[i]);
    KeyInSomeChunk(chunks, minKey);
    KeyInSomeChunk(chunks, key);
    DistinctPrefix(chunks, i);
    KeysBelowChunk(chunks, i);
    RankIsCardinality(words, all, minKey);
    RankMonotone(words, minKey, key);
    KeysBelowKey(chunks, i, key);
    RankIsCardinality(words, all, key);
    KeysCount(chunks[i]);
    SubsetCount((set x | x in all && x < key), Keys(Flatten(chunks[..i])), Keys(chunks[i]) - {key});
  }

  lemma {:induction false} DistinctPrefix<T>(chunks: seq<seq<(I64, T)>>, i: nat)
    requires i <= |chunks| && |Keys(Flatten(chunks))| == |Flatten(chunks)|
    ensures |Keys(Flatten(chunks[..i]))| == |Flatten(chunks[..i])|
  {
    var a, b := Flatten(chunks[..i]), Flatten(chunks[i..]);
    FlattenPrefix(chunks, i);
    KeysConcat(a, b);
    KeysCount(a);
    KeysCount(b);
    SubsetCount(Keys(a + b), Keys(a), Keys(b));
  }

  lemma {:induction false} SubsetCount(s: set<int>, a: set<int>, b: set<int>)
    requires s <= a + b
    ensures |s| <= |a| + |b|
  {
    assert a + b == s + (a + b - s);
  }

  // ----- the chunked builder

  ghost predicate AllSpan<T>(bitmaps: seq<ChunkBitmap>, chunks: seq<seq<(I64, T)>>) {
    |bitmaps| == |chunks| && forall i :: 0 <= i < |chunks| ==> Spans(bitmaps[i], chunks[i])
  }

  /** The bitmaps of all chunks, or nothing when one is refused. */
  method ChunkBitmaps<T>(chunks: seq<seq<(I64, T)>>, budget: Usize) returns (r: Option<seq<ChunkBitmap>>)
    ensures r.Some? ==> AllSpan(r.value, chunks)
    ensures r.None? ==> exists i :: 0 <= i < |chunks| && chunks[i] != [] &&
                          (MinKey(chunks[i]) < 0 || 8 * ChunkWords(chunks[i]) > budget)
  {
    var bitmaps: seq<ChunkBitmap> := [];
    for i := 0 to |chunks|
      invariant AllSpan(bitmaps, chunks[..i])
    {
      var bitmap := BuildChunkBitmap(chunks[i], budget);
      if bitmap.None? { return None; }
      bitmaps := bitmaps + [bitmap.value];
    }
    assert chunks[..|chunks|] == chunks;
    r := Some(bitmaps);
  }

  /** No key exceeds the bound; without one there are no keys. */
  ghost predicate AllUpTo<T>(chunks: seq<seq<(I64, T)>>, bound: Option<I64>) {
    forall a :: 0 <= a < |chunks| ==> UpTo(chunks[a], bound)
  }

  ghost predicate UpTo<T>(chunk: seq<(I64, T)>, bound: Option<I64>) {
    forall x :: x in Keys(chunk) ==> bound.Some? && x <= bound.value
  }

  lemma {:induction false} OrderedSnoc<T>(chunks: seq<seq<(I64, T)>>, bound: Option<I64>, chunk: seq<(I64, T)>)
    requires Ordered(chunks) && AllUpTo(chunks, bound)
    requires chunk != [] && bound.Some? ==> bound.value < MinKey(chunk)
    ensures Ordered(chunks + [chunk])
    ensures AllUpTo(chunks + [chunk], if chunk == [] then bound else Some(MaxKey(chunk)))
  {
    var more := chunks + [chunk];
    if chunk != [] { Extremes(chunk); }
    forall a, b | 0 <= a < b < |more| ensures Before(more[a], more[b]) {
      assert UpTo(chunks[a], bound);
      if b < |chunks| { assert Before(chunks[a], chunks[b]); }
    }
    forall a | 0 <= a < |more| ensures UpTo(more[a], if chunk == [] then bound else Some(MaxKey(chunk))) {
      if a < |chunks| { assert UpTo(chunks[a], bound); }
    }
  }

  /** Whether each non-empty chunk starts above the previous one. */
  method OrderedNonOverlapping<T>(bitmaps: seq<ChunkBitmap>, ghost chunks: seq<seq<(I64, T)>>)
    returns (ordered: bool)
    requires AllSpan(bitmaps, chunks)
    ensures ordered ==> Ordered(chunks)
  {
    var previousMax: Option<I64> := None;
    for i := 0 to |bitmaps|
      invariant Ordered(chunks[..i])
      invariant AllUpTo(chunks[..i], previousMax)
    {
      assert Spans(bitmaps[i], chunks[i]);
      assert chunks[..i + 1] == chunks[..i] + [chunks[i]];
      if bitmaps[i].pairCount > 0 {
        if previousMax.Some? && previousMax.value >= bitmaps[i].minKey { return false; }
        OrderedSnoc(chunks[..i], previousMax, chunks[i]);
        previousMax := Some(bitmaps[i].maxKey);
      } else {
        OrderedSnoc(chunks[..i], previousMax, chunks[i]);
      }
    }
    assert chunks[..|chunks|] == chunks;
    ordered := true;
  }

  /** The first `offset` words of a bitmap ored into the words from `base` on. */
  ghost predicate OredUpTo(r: seq<Word>, words: seq<Word>, bits: seq<Word>, base: nat, offset: nat) {
    && |r| == |words|
    && forall k: nat :: Has(r, k) <==>
         (Has(words, k) || (64 * base <= k < 64 * (base + offset) && Has(bits, k - 64 * base)))
  }

  lemma {:induction false} BitInWord(bits: seq<Word>, base: nat, offset: nat, k: nat)
    requires offset < |bits|
    ensures k / 64 == base + offset <==> 64 * (base + offset) <= k < 64 * (base + offset + 1)
    ensures k / 64 == base + offset ==> (Has(bits, k - 64 * base) <==> bits[offset][k % 64])
  {
  }

  lemma {:induction false} OredSnoc(r: seq<Word>, words: seq<Word>, bits: seq<Word>, base: nat, offset: nat)
    requires OredUpTo(r, words, bits, base, offset) && offset < |bits| && base + |bits| <= |words|
    ensures OredUpTo(r[base + offset := Or(r[base + offset], bits[offset])], words, bits, base, offset + 1)
  {
    OrWord(r, base + offset, bits[offset]);
    var more := r[base + offset := Or(r[base + offset], bits[offset])];
    forall k: nat
      ensures Has(more, k) <==>
              (Has(words, k) || (64 * base <= k < 64 * (base + (offset + 1)) && Has(bits, k - 64 * base)))
    {
      BitInWord(bits, base, offset, k);
    }
  }

  /** Ors one chunk bitmap into the words of the whole key range. */
  method OrBitmap(words: seq<Word>, bitmap: ChunkBitmap) returns (r: seq<Word>)
    requires bitmap.baseWord + |bitmap.words| <= |words| || bitmap.words == []
    ensures |r| == |words|
    ensures forall k: nat :: Has(r, k) <==>
              Has(words, k) || (64 * bitmap.baseWord <= k && Has(bitmap.words, k - 64 * bitmap.baseWord))
  {
    r := words;
    var base := bitmap.baseWord;
    for offset := 0 to |bitmap.words|
      invariant OredUpTo(r, words, bitmap.words, base, offset)
    {
      OredSnoc(r, words, bitmap.words, base, offset);
      r := r[base + offset := Or(r[base + offset], bitmap.words[offset])];
    }
  }

  /** Ors every chunk bitmap into one bitmap of the whole key range. */
  method UnionBitmaps<T>(bitmaps: seq<ChunkBitmap>, ghost chunks: seq<seq<(I64, T)>>, wordCount: nat)
    returns (words: seq<Word>)
    requires AllSpan(bitmaps, chunks)
    requires forall i :: 0 <= i < |bitmaps| ==>
               (bitmaps[i].words == [] || bitmaps[i].baseWord + |bitmaps[i].words| <= wordCount)
    ensures |words| == wordCount
    ensures forall k: nat :: Has(words, k) <==> k in Keys(Flatten(chunks))
  {
    words := ZeroWords(wordCount);
    for i := 0 to |bitmaps|
      invariant |words| == wordCount
      invariant forall k: nat :: Has(words, k) <==> k in Keys(Flatten(chunks[..i]))
    {
      assert Spans(bitmaps[i], chunks[i]);
      words := OrBitmap(words, bitmaps[i]);
      FlattenSnoc(chunks, i);
      KeysConcat(Flatten(chunks[..i]), chunks[i]);
    }
    assert chunks[..|chunks|] == chunks;
  }

  lemma {:induction false} OrWord(words: seq<Word>, w: nat, v: Word)
    requires w < |words|
    ensures forall k: nat :: Has(words[w := Or(words[w], v)], k) <==>
              Has(words, k) || (k / 64 == w && v[k % 64])
  {
  }

  /** The rank of the least key of a chunk: the number of pairs in the chunks before it. */
  method FirstRank<T>(words: seq<Word>, rankPrefixes: seq<nat>, ghost chunks: seq<seq<(I64, T)>>, ghost i: nat,
                      chunk: seq<(I64, T)>)
    returns (base: nat)
    requires Prefixed(words, rankPrefixes)
    requires OrderedDistinct(chunks) && BitmapOf(words, Flatten(chunks))
    requires i < |chunks| && chunk == chunks[i] && chunk != []
    ensures base == |Flatten(chunks[..i])|
  {
    var minKey := MinKey(chunk);
    Extremes(chunk);
    KeyInSomeChunk(chunks, minKey);
    ChunkRanks(chunks, i, words, minKey);
    RankFromPartsIsRank(words, rankPrefixes, minKey);
    base := RankFromParts(words, rankPrefixes, minKey).value;
  }

  /** One chunk placed relative to the rank of its own least key. */
  method PlaceChunk<T>(words: seq<Word>, rankPrefixes: seq<nat>, ghost chunks: seq<seq<(I64, T)>>, ghost i: nat,
                       chunk: seq<(I64, T)>, default: T)
    returns (local: seq<T>)
    requires Prefixed(words, rankPrefixes)
    requires OrderedDistinct(chunks) && BitmapOf(words, Flatten(chunks))
    requires i < |chunks| && chunk == chunks[i]
    ensures |local| == |chunk|
    ensures forall k: nat :: k in Keys(chunk) ==>
              (0 <= Rank(words, k) - |Flatten(chunks[..i])| < |chunk| &&
               LastValue(chunk, k) == Some(local[Rank(words, k) - |Flatten(chunks[..i])|]))
  {
    if chunk == [] { return []; }
    var base := FirstRank(words, rankPrefixes, chunks, i, chunk);
    ChunkKeysInRange(chunks, i, words);
    local := PlaceValues(words, rankPrefixes, base, |chunk|, chunk, default);
  }

  /** The fast path: each chunk placed on its own, then concatenated. */
  method PlaceOrderedChunks<T>(words: seq<Word>, rankPrefixes: seq<nat>, chunks: seq<seq<(I64, T)>>, default: T)
    returns (values: seq<T>)
    requires Prefixed(words, rankPrefixes)
    requires OrderedDistinct(chunks) && BitmapOf(words, Flatten(chunks))
    ensures |values| == |Flatten(chunks)| && Placed(words, values, Flatten(chunks))
  {
    values := [];
    for i := 0 to |chunks|
      invariant |values| == |Flatten(chunks[..i])| && Placed(words, values, Flatten(chunks[..i]))
    {
      FlattenSnoc(chunks, i);
      var local := PlaceChunk(words, rankPrefixes, chunks, i, chunks[i], default);
      PlacedConcat(words, values, local, chunks, i);
      values := values + local;
    }
    assert chunks[..|chunks|] == chunks;
  }

  lemma {:induction false} ChunkKeysInRange<T>(chunks: seq<seq<(I64, T)>>, i: nat, words: seq<Word>)
    requires i < |chunks| && OrderedDistinct(chunks) && BitmapOf(words, Flatten(chunks))
    ensures forall j :: 0 <= j < |chunks[i]| ==>
              (WordsContain(words, chunks[i][j].0) &&
               |Flatten(chunks[..i])| <= Rank(words, chunks[i][j].0) < |Flatten(chunks[..i])| + |chunks[i]|)
  {
    forall j | 0 <= j < |chunks[i]|
      ensures WordsContain(words, chunks[i][j].0) &&
              |Flatten(chunks[..i])| <= Rank(words, chunks[i][j].0) < |Flatten(chunks[..i])| + |chunks[i]|
    {
      assert chunks[i][j].0 as int in Keys(chunks[i]);
      KeyInSomeChunk(chunks, chunks[i][j].0);
      ChunkRanks(chunks, i, words, chunks[i][j].0);
    }
  }

  lemma {:induction false} PlacedConcat<T>(words: seq<Word>, values: seq<T>, local: seq<T>, chunks: seq<seq<(I64, T)>>,
                                           i: nat)
    requires i < |chunks| && Ordered(chunks)
    requires Placed(words, values, Flatten(chunks[..i])) && |local| == |chunks[i]|
    requires forall k: nat :: k in Keys(chunks[i]) ==>
               (0 <= Rank(words, k) - |values| < |local|
                && LastValue(chunks[i], k) == Some(local[Rank(words, k) - |values|]))
    ensures Placed(words, values + local, Flatten(chunks[..i + 1]))
  {
    var before, chunk := Flatten(chunks[..i]), chunks[i];
    FlattenSnoc(chunks, i);
    KeysConcat(before, chunk);
    forall k: nat | k in Keys(before + chunk)
      ensures Rank(words, k) < |values + local|
      ensures LastValue(before + chunk, k) == Some((values + local)[Rank(words, k)])
    {
      LastValueConcat(before, chunk, k);
      LastValueDefined(chunk, k);
      assert k in Keys(chunk) || k in Keys(before);
    }
  }

  datatype ChunkTotals = ChunkTotals(minKey: I64, maxKey: I64, pairCount: nat, localWords: nat)

  /** What one more chunk adds to the totals. */
  lemma {:induction false} TotalStep<T>(b: ChunkBitmap, chunks: seq<seq<(I64, T)>>, i: nat)
    requires i < |chunks| && Spans(b, chunks[i])
    ensures var before, after := Flatten(chunks[..i]), Flatten(chunks[..i + 1]);
            && |after| == |before| + b.pairCount <= |Flatten(chunks)|
            && (if b.pairCount == 0 then MinKey(after) == MinKey(before) && MaxKey(after) == MaxKey(before)
                else b.minKey >= 0 && MinKey(after) == Min(MinKey(before), b.minKey)
                     && MaxKey(after) == Max(MaxKey(before), b.maxKey))
    ensures LocalWords(chunks[..i + 1]) == LocalWords(chunks[..i]) + |b.words| <= LocalWords(chunks)
    ensures b.pairCount == 0 ==> |b.words| == 0
  {
    FlattenSnoc(chunks, i);
    ExtremesConcat(Flatten(chunks[..i]), chunks[i]);
    LocalWordsOfPrefix(chunks, i);
    FlattenPrefix(chunks, i + 1);
    assert chunks[..i + 1][..i] == chunks[..i];
  }

  /** Key bounds, pair count and local bitmap words over all non-empty chunks. */
  method TotalChunks<T>(bitmaps: seq<ChunkBitmap>, ghost chunks: seq<seq<(I64, T)>>)
    returns (r: Option<ChunkTotals>)
    requires AllSpan(bitmaps, chunks)
    ensures r.None? ==> |Flatten(chunks)| > USIZE_MAX || LocalWords(chunks) > USIZE_MAX
    ensures r.Some? ==> r.value.minKey == MinKey(Flatten(chunks)) && r.value.minKey >= 0
                        && r.value.maxKey == MaxKey(Flatten(chunks))
                        && r.value.pairCount == |Flatten(chunks)| <= USIZE_MAX
                        && r.value.localWords == LocalWords(chunks)
  {
    var minKey: I64, maxKey: I64, pairCount: nat, localWords: nat := I64_MAX, I64_MIN, 0, 0;
    for i := 0 to |bitmaps|
      invariant minKey == MinKey(Flatten(chunks[..i])) && maxKey == MaxKey(Flatten(chunks[..i])) && minKey >= 0
      invariant pairCount == |Flatten(chunks[..i])| <= USIZE_MAX
      invariant localWords == LocalWords(chunks[..i])
    {
      TotalStep(bitmaps[i], chunks, i);
      if bitmaps[i].pairCount == 0 { continue; }
      minKey, maxKey := Min(minKey, bitmaps[i].minKey), Max(maxKey, bitmaps[i].maxKey);
      match CheckedAdd(pairCount, bitmaps[i].pairCount) {
        case None => return None;
        case Some(n) => pairCount := n;
      }
      match CheckedAdd(localWords, |bitmaps[i].words|) {
        case None => return None;
        case Some(n) => localWords := n;
      }
    }
    assert chunks[..|chunks|] == chunks;
    r := Some(ChunkTotals(minKey, maxKey, pairCount, localWords));
  }

  /** Chunks that share a key each pay for a local bitmap: two such pairs fit 15 bytes in one list only. */
  lemma {:induction false} ChunkedRefusesMore<T>(value: T)
    ensures var chunks: seq<seq<(I64, T)>> := [[(0, value)], [(0, value)]];
            Accepted(Flatten(chunks), 15, 1) && !(8 * LocalWords(chunks) <= 15)
  {
    var chunk: seq<(I64, T)> := [(0, value)];
    var chunks := [chunk, chunk];
    assert chunks[..1] == [chunk] && [chunk][..0] == [];
    assert Flatten([chunk]) == chunk;
    assert Flatten(chunks) == [(0, value), (0, value)];
    assert chunk[..0] == [] && MinKey(chunk) == 0 && MaxKey(chunk) == 0;
    assert Flatten(chunks)[..1] == chunk;
    KeysCount(Flatten(chunks));
    assert LocalWords([chunk]) == 1;
  }

  /** The chunked builder adds one condition to Accepted: the local bitmaps fit the budget too. */
  method FromChunksParallel<T>(chunks: seq<seq<(I64, T)>>, budget: Usize, valueSize: Usize, default: T)
    returns (r: Option<RankMap<T>>)
    ensures r.Some? <==> Accepted(Flatten(chunks), budget, valueSize) && 8 * LocalWords(chunks) <= budget
    ensures r.Some? ==> Represents(r.value, Flatten(chunks))
    ensures r.Some? ==> 8 * |r.value.words| + 4 * |r.value.rankPrefixes| + |Flatten(chunks)| * valueSize <= budget
  {
    var maybe := ChunkBitmaps(chunks, budget);
    if maybe.None? {
      RefusedChunk(chunks, budget);
      return None;
    }
    var bitmaps := maybe.value;
    var totals := TotalChunks(bitmaps, chunks);
    if totals.None? || totals.value.pairCount == 0 { return None; }
    var ChunkTotals(minKey, maxKey, pairCount, localWords) := totals.value;
    Extremes(Flatten(chunks));
    EstimateIsFootprint(maxKey, pairCount, valueSize, budget);
    match (EstimatedBytes(maxKey, pairCount, valueSize), CheckedMul(localWords, 8)) {
      case (Some(bytes), Some(localBytes)) => if bytes > budget || localBytes > budget { return None; }
      case _ => return None;
    }
    var ordered := OrderedNonOverlapping(bitmaps, chunks);
    BitmapsFit(bitmaps, chunks);
    var words := UnionBitmaps(bitmaps, chunks, maxKey / 64 + 1);
    BitmapCount(words, Flatten(chunks));
    var parts := RankPrefixes(words);
    if parts.None? { return None; }
    var (rankPrefixes, valueCount) := parts.value;
    var fast := ordered && valueCount == pairCount;
    var values := PlaceChunkValues(words, rankPrefixes, chunks, fast, valueCount, default);
    r := Some(RankMap(words, rankPrefixes, values, minKey, maxKey));
    FootprintOfMap(r.value, Flatten(chunks), valueSize);
  }

  /** Both ways of filling the values: chunk by chunk, or over the flattened pairs in order. */
  method PlaceChunkValues<T>(words: seq<Word>, rankPrefixes: seq<nat>, chunks: seq<seq<(I64, T)>>, fast: bool,
                             valueCount: nat, default: T)
    returns (values: seq<T>)
    requires Prefixed(words, rankPrefixes)
    requires BitmapOf(words, Flatten(chunks)) && Flatten(chunks) != []
    requires valueCount == Rank(words, 64 * |words|)
    requires fast ==> OrderedDistinct(chunks) && valueCount == |Flatten(chunks)|
    ensures |values| == valueCount && Placed(words, values, Flatten(chunks))
  {
    if fast {
      values := PlaceOrderedChunks(words, rankPrefixes, chunks, default);
    } else {
      Extremes(Flatten(chunks));
      values := PlaceAll(words, rankPrefixes, valueCount, Flatten(chunks), default);
    }
  }

  lemma {:induction false} BitmapsFit<T>(bitmaps: seq<ChunkBitmap>, chunks: seq<seq<(I64, T)>>)
    requires AllSpan(bitmaps, chunks)
    ensures forall i :: 0 <= i < |bitmaps| ==>
              (bitmaps[i].words == [] || bitmaps[i].baseWord + |bitmaps[i].words| <= MaxKey(Flatten(chunks)) / 64 + 1)
  {
    forall i | 0 <= i < |bitmaps| && bitmaps[i].words != []
      ensures bitmaps[i].baseWord + |bitmaps[i].words| <= MaxKey(Flatten(chunks)) / 64 + 1
    {
      Extremes(chunks[i]);
      KeyInSomeChunk(chunks, MaxKey(chunks[i]));
      Extremes(Flatten(chunks));
    }
  }

  lemma {:induction false} LocalWordsOfPrefix<T>(chunks: seq<seq<(I64, T)>>, i: nat)
    requires i < |chunks|
    ensures LocalWords(chunks[..i]) + ChunkWords(chunks[i]) <= LocalWords(chunks)
    ensures 0 <= LocalWords(chunks[..i])
    decreases |chunks|
  {
    var init, last := chunks[..|chunks| - 1], chunks[|chunks| - 1];
    ChunkWordsNonNegative(last);
    if i < |init| {
      assert init[..i] == chunks[..i];
      LocalWordsOfPrefix(init, i);
    } else if init != [] {
      assert init[..|init|] == init;
      LocalWordsOfPrefix(init, |init| - 1);
      ChunkWordsNonNegative(init[|init| - 1]);
    }
  }

  lemma {:induction false} ChunkWordsNonNegative<T>(chunk: seq<(I64, T)>)
    ensures ChunkWords(chunk) >= 0
  {
    if chunk != [] { Extremes(chunk); }
  }

  lemma {:induction false} RefusedChunk<T>(chunks: seq<seq<(I64, T)>>, budget: Usize)
    requires exists i :: 0 <= i < |chunks| && chunks[i] != [] &&
               (MinKey(chunks[i]) < 0 || 8 * ChunkWords(chunks[i]) > budget)
    ensures MinKey(Flatten(chunks)) < 0 || 8 * LocalWords(chunks) > budget
  {
    var i :| 0 <= i < |chunks| && chunks[i] != [] &&
             (MinKey(chunks[i]) < 0 || 8 * ChunkWords(chunks[i]) > budget);
    Extremes(chunks[i]);
    KeyInSomeChunk(chunks, MinKey(chunks[i]));
    Extremes(Flatten(chunks));
    LocalWordsOfPrefix(chunks, i);
  }

  /**
   * Whenever the chunked builder returns a map, the sequential builder on the concatenated
   * chunks returns the same one: words, prefixes, values and bounds.
   */
  lemma {:induction false} ChunkedEqualsSequential<T>(chunks: seq<seq<(I64, T)>>, budget: Usize, valueSize: Usize,
                                   chunked: Option<RankMap<T>>, sequential: Option<RankMap<T>>)
    requires chunked.Some? <==> Accepted(Flatten(chunks), budget, valueSize) && 8 * LocalWords(chunks) <= budget
    requires chunked.Some? ==> Represents(chunked.value, Flatten(chunks))
    requires sequential.Some? <==> Accepted(Flatten(chunks), budget, valueSize)
    requires sequential.Some? ==> Represents(sequential.value, Flatten(chunks))
    ensures chunked.Some? ==> sequential == chunked
    ensures chunked.None? && sequential.Some? ==> 8 * LocalWords(chunks) > budget
  {
    if chunked.Some? {
      RepresentationIsUnique(chunked.value, sequential.value, Flatten(chunks));
    }
  }

  /** The two builders run on the same data. */
  method BuildBothWays<T>(chunks: seq<seq<(I64, T)>>, budget: Usize, valueSize: Usize, default: T)
    returns (chunked: Option<RankMap<T>>, sequential: Option<RankMap<T>>)
    ensures chunked.Some? ==> sequential == chunked
    ensures chunked.None? && sequential.Some? ==> 8 * LocalWords(chunks) > budget
    ensures sequential.Some? ==> forall k: I64 :: sequential.value.Get(k) == LastValue(Flatten(chunks), k)
  {
    chunked := FromChunksParallel(chunks, budget, valueSize, default);
    sequential := FromPairs(Flatten(chunks), budget, valueSize, default);
    ChunkedEqualsSequential(chunks, budget, valueSize, chunked, sequential);
    if sequential.Some? {
      forall k: I64 ensures sequential.value.Get(k) == LastValue(Flatten(chunks), k) {
        GetIsLastValue(sequential.value, Flatten(chunks), k);
      }
    }
  }
}
