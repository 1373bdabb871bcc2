/**
 * The rank map: a bitmap of the keys, a running popcount before each word, and the
 * values packed in key order. The sequential and the chunked builder are both proved
 * against one description, Represents, which admits a single map per pair list.
 */
module RankMap {
  import opened Machine
  import opened BitWords

  datatype RankMap<T> = RankMap(words: seq<Word>, rankPrefixes: seq<nat>, values: seq<T>,
                                minKey: I64, maxKey: I64)
  {
    function Get(key: I64): Option<T> {
      match RankFromParts(words, rankPrefixes, key)
      case None => None
      case Some(rank) => if rank < |values| then Some(values[rank]) else None
    }
  }

  /** The rank of a present key: the prefix of its word plus the ones below its bit. */
  function RankFromParts(words: seq<Word>, rankPrefixes: seq<nat>, key: I64): Option<nat> {
    if key < 0 || key / 64 >= |words| then None
    else
      var word, bit := words[key / 64], key % 64;
      if And(word, OneBit(bit)) == Zero() || key / 64 >= |rankPrefixes| then None
      else Some(rankPrefixes[key / 64] + CountOnes(And(word, LowMask(bit))))
  }

  // ----- what a pair list means

  ghost function Keys<T>(pairs: seq<(I64, T)>): set<int> {
    set i | 0 <= i < |pairs| :: pairs[i].0 as int
  }

  /** The value of the last pair with this key. */
  function LastValue<T>(pairs: seq<(I64, T)>, key: int): Option<T> {
    if pairs == [] then None
    else if pairs[|pairs| - 1].0 == key then Some(pairs[|pairs| - 1].1)
    else LastValue(pairs[..|pairs| - 1], key)
  }

  function MinKey<T>(pairs: seq<(I64, T)>): I64 {
    if pairs == [] then I64_MAX else Min(MinKey(pairs[..|pairs| - 1]), pairs[|pairs| - 1].0)
  }

  function MaxKey<T>(pairs: seq<(I64, T)>): I64 {
    if pairs == [] then I64_MIN else Max(MaxKey(pairs[..|pairs| - 1]), pairs[|pairs| - 1].0)
  }

  lemma {:induction false} KeysSnoc<T>(pairs: seq<(I64, T)>, i: nat)
    requires i < |pairs|
    ensures Keys(pairs[..i + 1]) == Keys(pairs[..i]) + {pairs[i].0 as int}
  {
    var a, b := pairs[..i], pairs[..i + 1];
    forall k | k in Keys(a) ensures k in Keys(b) {
      var j :| 0 <= j < |a| && a[j].0 == k;
      assert b[j].0 == k;
    }
    assert b[i].0 == pairs[i].0;
  }

  lemma {:induction false} KeysConcat<T>(a: seq<(I64, T)>, b: seq<(I64, T)>)
    ensures Keys(a + b) == Keys(a) + Keys(b)
  {
    var c := a + b;
    forall k | k in Keys(a) + Keys(b) ensures k in Keys(c) {
      if k in Keys(a) {
        var j :| 0 <= j < |a| && a[j].0 == k;
        assert c[j].0 == k;
      } else {
        var j :| 0 <= j < |b| && b[j].0 == k;
        assert c[|a| + j].0 == k;
      }
    }
  }

  lemma {:induction false} KeysCount<T>(pairs: seq<(I64, T)>)
    ensures |Keys(pairs)| <= |pairs|
  {
    if pairs != [] {
      KeysCount(pairs[..|pairs| - 1]);
      KeysSnoc(pairs, |pairs| - 1);
      assert pairs[..|pairs|] == pairs;
    }
  }

  lemma {:induction false} LastValueDefined<T>(pairs: seq<(I64, T)>, key: int)
    ensures LastValue(pairs, key).Some? <==> key in Keys(pairs)
  {
    if pairs != [] {
      LastValueDefined(pairs[..|pairs| - 1], key);
      KeysSnoc(pairs, |pairs| - 1);
      assert pairs[..|pairs|] == pairs;
    }
  }

  lemma {:induction false} LastValueConcat<T>(a: seq<(I64, T)>, b: seq<(I64, T)>, key: int)
    ensures LastValue(a + b, key) == if LastValue(b, key).Some? then LastValue(b, key) else LastValue(a, key)
  {
    if b == [] {
      assert a + b == a;
    } else {
      assert (a + b)[..|a + b| - 1] == a + b[..|b| - 1];
      LastValueConcat(a, b[..|b| - 1], key);
    }
  }

  lemma {:induction false} Extremes<T>(pairs: seq<(I64, T)>)
    requires pairs != []
    ensures MinKey(pairs) as int in Keys(pairs) && MaxKey(pairs) as int in Keys(pairs)
    ensures forall k :: k in Keys(pairs) ==> MinKey(pairs) <= k <= MaxKey(pairs)
  {
    KeysSnoc(pairs, |pairs| - 1);
    assert pairs[..|pairs|] == pairs;
    if |pairs| > 1 { Extremes(pairs[..|pairs| - 1]); }
  }

  // ----- the map that a pair list denotes

  ghost predicate Represents<T>(m: RankMap<T>, pairs: seq<(I64, T)>) {
    && pairs != []
    && m.minKey == MinKey(pairs) && m.maxKey == MaxKey(pairs) && 0 <= m.minKey
    && |m.words| == m.maxKey / 64 + 1
    && (forall k: nat :: Has(m.words, k) <==> k in Keys(pairs))
    && Prefixed(m.words, m.rankPrefixes)
    && |m.values| == Rank(m.words, 64 * |m.words|)
    && Placed(m.words, m.values, pairs)
  }

  ghost predicate Prefixed(words: seq<Word>, rankPrefixes: seq<nat>) {
    |rankPrefixes| == |words| && forall i :: 0 <= i < |words| ==> rankPrefixes[i] == Rank(words, 64 * i)
  }

  ghost predicate Placed<T>(words: seq<Word>, values: seq<T>, pairs: seq<(I64, T)>) {
    forall k: nat :: k in Keys(pairs) ==>
      Rank(words, k) < |values| && LastValue(pairs, k) == Some(values[Rank(words, k)])
  }

  lemma {:induction false} RankFromPartsIsRank(words: seq<Word>, rankPrefixes: seq<nat>, key: I64)
    requires Prefixed(words, rankPrefixes)
    ensures RankFromParts(words, rankPrefixes, key) == if WordsContain(words, key) then Some(Rank(words, key)) else None
  {
    if 0 <= key && key / 64 < |words| {
      var word, bit := words[key / 64], key % 64;
      var probe := And(word, OneBit(bit));
      assert probe[bit] == word[bit];
      assert !word[bit] ==> probe == Zero();
      MaskedCountOnes(word, bit);
      RankInWord(words, key / 64, bit);
      assert 64 * (key / 64) + bit == key;
    }
  }

  /** A lookup yields the value of the last pair with the key, and nothing for other keys. */
  lemma {:induction false} GetIsLastValue<T>(m: RankMap<T>, pairs: seq<(I64, T)>, key: I64)
    requires Represents(m, pairs)
    ensures m.Get(key) == LastValue(pairs, key)
  {
    RankFromPartsIsRank(m.words, m.rankPrefixes, key);
    LastValueDefined(pairs, key);
    if key >= 0 {
      assert Has(m.words, key) <==> key in Keys(pairs);
    } else if key as int in Keys(pairs) {
      Extremes(pairs);
      assert false;
    }
  }

  lemma {:induction false} AllGetsAreLastValues<T>(m: RankMap<T>, pairs: seq<(I64, T)>)
    requires Represents(m, pairs)
    ensures forall key: I64 :: m.Get(key) == LastValue(pairs, key)
  {
    forall key: I64 ensures m.Get(key) == LastValue(pairs, key) { GetIsLastValue(m, pairs, key); }
  }

  ghost predicate RankReached<T>(words: seq<Word>, pairs: seq<(I64, T)>, rank: nat) {
    exists k: nat :: k in Keys(pairs) && Rank(words, k) == rank
  }

  /** Rank is an order-preserving bijection from the distinct keys onto 0..|values|. */
  lemma {:induction false} RankIsOrderIsomorphism<T>(m: RankMap<T>, pairs: seq<(I64, T)>)
    requires Represents(m, pairs)
    ensures |m.values| == |Keys(pairs)|
    ensures forall j: nat, k: nat :: j in Keys(pairs) && k in Keys(pairs) ==>
              (j < k <==> Rank(m.words, j) < Rank(m.words, k))
    ensures forall k: nat :: k in Keys(pairs) ==> Rank(m.words, k) < |m.values|
    ensures forall r: nat :: r < |m.values| ==> RankReached(m.words, pairs, r)
  {
    BitmapCount(m.words, pairs);
    forall j: nat, k: nat | j in Keys(pairs) && k in Keys(pairs)
      ensures j < k <==> Rank(m.words, j) < Rank(m.words, k)
    {
      assert Has(m.words, j) && Has(m.words, k);
      if j < k { RankMonotone(m.words, j, k); } else { RankMonotone(m.words, k, j); }
    }
    forall r: nat | r < |m.values| ensures RankReached(m.words, pairs, r) {
      var k := RankOnto(m.words, 64 * |m.words|, r);
    }
  }

  /** A pair list is represented by one map only: words, prefixes, values and bounds. */
  lemma {:induction false} RepresentationIsUnique<T>(m: RankMap<T>, n: RankMap<T>, pairs: seq<(I64, T)>)
    requires Represents(m, pairs) && Represents(n, pairs)
    ensures m == n
  {
    BitmapExtensionality(m.words, n.words);
    assert m.rankPrefixes == n.rankPrefixes;
    forall r | 0 <= r < |m.values| ensures m.values[r] == n.values[r] {
      var k := RankOnto(m.words, 64 * |m.words|, r);
      assert k in Keys(pairs);
    }
  }

  // ----- the memory budget

  /** 8 + 4 bytes per word up to the largest key, plus the values. */
  function Footprint(maxIndex: nat, pairCount: nat, valueSize: nat): nat {
    12 * (maxIndex / 64 + 1) + pairCount * valueSize
  }

  /** The overflow-checked estimate that the builders compare with the budget. */
  function EstimatedBytes(maxIndex: nat, pairCount: nat, valueSize: nat): Option<nat> {
    match CheckedAdd(maxIndex, 1)
    case None => None
    case Some(bits) =>
      var wordCount := (bits + 63) / 64;
      match (CheckedMul(wordCount, 8), CheckedMul(wordCount, 4), CheckedMul(pairCount, valueSize))
      case (Some(bitmap), Some(ranks), Some(values)) =>
        (match CheckedAdd(bitmap, ranks)
         case None => None
         case Some(words) => CheckedAdd(words, values))
      case _ => None
  }

  lemma {:induction false} EstimateIsFootprint(maxIndex: I64, pairCount: nat, valueSize: nat, budget: Usize)
    requires maxIndex >= 0
    ensures (match EstimatedBytes(maxIndex, pairCount, valueSize)
             case None => Footprint(maxIndex, pairCount, valueSize) > budget
             case Some(bytes) => bytes == Footprint(maxIndex, pairCount, valueSize))
  {
  }

  /** The footprint is the size of the built map, with a value for every pair: 8 bytes a word and 4 a prefix. */
  lemma {:induction false} FootprintOfMap<T>(m: RankMap<T>, pairs: seq<(I64, T)>, valueSize: nat)
    requires Represents(m, pairs)
    ensures Footprint(MaxKey(pairs), |pairs|, valueSize) == 8 * |m.words| + 4 * |m.rankPrefixes| + |pairs| * valueSize
    ensures |m.values| <= |pairs|
  {
    BitmapCount(m.words, pairs);
    KeysCount(pairs);
  }

  /** Exactly the pair lists from which a map is built. */
  ghost predicate Accepted<T>(pairs: seq<(I64, T)>, budget: Usize, valueSize: nat) {
    && 0 < |pairs| <= USIZE_MAX
    && MinKey(pairs) >= 0
    && Footprint(MaxKey(pairs), |pairs|, valueSize) <= budget
    && |Keys(pairs)| <= U32_MAX
  }

  // ----- steps shared by the two builders

  /** The running popcount before each word, refused when a count leaves `u32`. */
  method RankPrefixes(words: seq<Word>) returns (r: Option<(seq<nat>, nat)>)
    ensures r.Some? <==> Rank(words, 64 * |words|) <= U32_MAX
    ensures r.Some? ==> Prefixed(words, r.value.0) && r.value.1 == Rank(words, 64 * |words|)
  {
    var prefixes: seq<nat>, count: nat := [], 0;
    for i := 0 to |words|
      invariant |prefixes| == i && count == Rank(words, 64 * i)
      invariant forall j :: 0 <= j < i ==> prefixes[j] == Rank(words, 64 * j)
    {
      RankMonotone(words, 64 * i, 64 * |words|);
      if count > U32_MAX { return None; }
      prefixes := prefixes + [count];
      RankInWord(words, i, 64);
      RankMonotone(words, 64 * i + 64, 64 * |words|);
      match CheckedAdd(count, CountOnes(words[i])) {
        case None => return None;
        case Some(sum) => count := sum;
      }
    }
    if count > U32_MAX { return None; }
    r := Some((prefixes, count));
  }

  /** Writes each value at the rank of its key; a later pair overwrites an earlier one. */
  method PlaceValues<T>(words: seq<Word>, rankPrefixes: seq<nat>, base: nat, count: nat,
                        pairs: seq<(I64, T)>, default: T)
    returns (values: seq<T>)
    requires Prefixed(words, rankPrefixes)
    requires forall i :: 0 <= i < |pairs| ==>
               WordsContain(words, pairs[i].0) && base <= Rank(words, pairs[i].0) < base + count
    ensures |values| == count
    ensures forall k: nat :: k in Keys(pairs) ==>
              (0 <= Rank(words, k) - base < count && LastValue(pairs, k) == Some(values[Rank(words, k) - base]))
  {
    values := seq(count, _ => default);
    for i := 0 to |pairs|
      invariant |values| == count
      invariant forall k: nat :: k in Keys(pairs[..i]) ==>
                  (WordsContain(words, k) && 0 <= Rank(words, k) - base < count &&
                   LastValue(pairs[..i], k) == Some(values[Rank(words, k) - base]))
    {
      var (key, value) := pairs[i];
      RankFromPartsIsRank(words, rankPrefixes, key);
      var rank := RankFromParts(words, rankPrefixes, key).value;
      values := values[rank - base := value];
      KeysSnoc(pairs, i);
      assert pairs[..i + 1][..i] == pairs[..i];
      forall k: nat | k in Keys(pairs[..i + 1]) && k != key
        ensures Rank(words, k) != rank && LastValue(pairs[..i + 1], k) == LastValue(pairs[..i], k)
      {
        RankMonotone(words, Min(k, key), Max(k, key));
      }
    }
    assert pairs[..|pairs|] == pairs;
  }

  /** Writes the values of all pairs, whose keys are the marked ones. */
  method PlaceAll<T>(words: seq<Word>, rankPrefixes: seq<nat>, count: nat, pairs: seq<(I64, T)>, default: T)
    returns (values: seq<T>)
    requires Prefixed(words, rankPrefixes) && count == Rank(words, 64 * |words|)
    requires pairs != [] && MinKey(pairs) >= 0 && forall k: nat :: Has(words, k) <==> k in Keys(pairs)
    ensures |values| == count && Placed(words, values, pairs)
  {
    RankBounds(words, pairs);
    values := PlaceValues(words, rankPrefixes, 0, count, pairs, default);
    PlacedFromZero(words, values, pairs);
  }

  lemma {:induction false} PlacedFromZero<T>(words: seq<Word>, values: seq<T>, pairs: seq<(I64, T)>)
    requires forall k: nat :: k in Keys(pairs) ==>
               (0 <= Rank(words, k) - 0 < |values| && LastValue(pairs, k) == Some(values[Rank(words, k) - 0]))
    ensures Placed(words, values, pairs)
  {
  }

  // ----- the sequential builder

  /** One bit for every key. */
  method MarkKeys<T>(pairs: seq<(I64, T)>, wordCount: nat) returns (words: seq<Word>)
    requires forall k :: k in Keys(pairs) ==> 0 <= k < 64 * wordCount
    ensures |words| == wordCount && forall k: nat :: Has(words, k) <==> k in Keys(pairs)
  {
    words := ZeroWords(wordCount);
    for i := 0 to |pairs|
      invariant |words| == wordCount
      invariant forall k: nat :: Has(words, k) <==> k in Keys(pairs[..i])
    {
      KeysSnoc(pairs, i);
      assert pairs[i].0 as int in Keys(pairs);
      words := SetBit(words, pairs[i].0);
    }
    assert pairs[..|pairs|] == pairs;
  }

  /** Key bounds and number of the pairs; nothing for a negative key or more pairs than a word counts. */
  method ScanPairs<T>(pairs: seq<(I64, T)>) returns (r: Option<(I64, I64, nat)>)
    ensures r.Some? <==> MinKey(pairs) >= 0 && |pairs| <= USIZE_MAX
    ensures r.Some? ==> r.value == (MinKey(pairs), MaxKey(pairs), |pairs|)
  {
    var minKey: I64, maxKey: I64, pairCount: nat := I64_MAX, I64_MIN, 0;
    for i := 0 to |pairs|
      invariant minKey == MinKey(pairs[..i]) && maxKey == MaxKey(pairs[..i]) && pairCount == i
      invariant minKey >= 0 && i <= USIZE_MAX
    {
      assert pairs[..i + 1][..i] == pairs[..i];
      MinKeyOfPrefix(pairs, i + 1);
      if pairs[i].0 < 0 { return None; }
      minKey, maxKey := Min(minKey, pairs[i].0), Max(maxKey, pairs[i].0);
      match CheckedAdd(pairCount, 1) {
        case None => return None;
        case Some(next) => pairCount := next;
      }
    }
    assert pairs[..|pairs|] == pairs;
    r := Some((minKey, maxKey, pairCount));
  }

  method FromPairs<T>(pairs: seq<(I64, T)>, budget: Usize, valueSize: Usize, default: T)
    returns (r: Option<RankMap<T>>)
    ensures r.Some? <==> Accepted(pairs, budget, valueSize)
    ensures r.Some? ==> Represents(r.value, pairs) && forall key: I64 :: r.value.Get(key) == LastValue(pairs, key)
    ensures r.Some? ==> 8 * |r.value.words| + 4 * |r.value.rankPrefixes| + |pairs| * valueSize <= budget
  {
    var scanned := ScanPairs(pairs);
    if scanned.None? { return None; }
    var (minKey, maxKey, pairCount) := scanned.value;
    if pairCount == 0 { return None; }
    Extremes(pairs);
    EstimateIsFootprint(maxKey, pairCount, valueSize, budget);
    match EstimatedBytes(maxKey, pairCount, valueSize) {
      case None => return None;
      case Some(bytes) => if bytes > budget { return None; }
    }
    var words := MarkKeys(pairs, maxKey / 64 + 1);
    r := RankPairs(words, pairs, minKey, maxKey, default);
    if r.Some? {
      AllGetsAreLastValues(r.value, pairs);
      FootprintOfMap(r.value, pairs, valueSize);
    }
  }

  /** Ranks and places the pairs whose keys are marked. */
  method RankPairs<T>(words: seq<Word>, pairs: seq<(I64, T)>, minKey: I64, maxKey: I64, default: T)
    returns (r: Option<RankMap<T>>)
    requires pairs != [] && minKey == MinKey(pairs) >= 0 && maxKey == MaxKey(pairs)
    requires |words| == maxKey / 64 + 1 && forall k: nat :: Has(words, k) <==> k in Keys(pairs)
    ensures r.Some? <==> |Keys(pairs)| <= U32_MAX
    ensures r.Some? ==> Represents(r.value, pairs)
  {
    Extremes(pairs);
    BitmapCount(words, pairs);
    var parts := RankPrefixes(words);
    if parts.None? { return None; }
    var (rankPrefixes, valueCount) := parts.value;
    var values := PlaceAll(words, rankPrefixes, valueCount, pairs, default);
    r := Some(RankMap(words, rankPrefixes, values, minKey, maxKey));
  }

  lemma {:induction false} MinKeyOfPrefix<T>(pairs: seq<(I64, T)>, i: nat)
    requires i <= |pairs|
    ensures MinKey(pairs) <= MinKey(pairs[..i])
  {
    if i < |pairs| {
      assert pairs[..|pairs| - 1][..i] == pairs[..i];
      MinKeyOfPrefix(pairs[..|pairs| - 1], i);
    } else {
      assert pairs[..i] == pairs;
    }
  }

  lemma {:induction false} BitmapCount<T>(words: seq<Word>, pairs: seq<(I64, T)>)
    requires pairs != [] && MinKey(pairs) >= 0 && MaxKey(pairs) / 64 < |words|
    requires forall k: nat :: Has(words, k) <==> k in Keys(pairs)
    ensures Rank(words, 64 * |words|) == |Keys(pairs)|
  {
    Extremes(pairs);
    RankIsCardinality(words, Keys(pairs), 64 * |words|);
    assert (set k | k in Keys(pairs) && k < 64 * |words|) == Keys(pairs);
  }

  lemma {:induction false} RankBounds<T>(words: seq<Word>, pairs: seq<(I64, T)>)
    requires forall k: nat :: Has(words, k) <==> k in Keys(pairs)
    requires pairs != [] && MinKey(pairs) >= 0
    ensures forall i :: 0 <= i < |pairs| ==>
              WordsContain(words, pairs[i].0) && Rank(words, pairs[i].0) < Rank(words, 64 * |words|)
  {
    Extremes(pairs);
    forall i | 0 <= i < |pairs|
      ensures WordsContain(words, pairs[i].0) && Rank(words, pairs[i].0) < Rank(words, 64 * |words|)
    {
      assert pairs[i].0 as int in Keys(pairs);
      RankMonotone(words, pairs[i].0, 64 * |words|);
    }
  }
}
