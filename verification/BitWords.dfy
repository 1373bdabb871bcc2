/**
 * 64-bit words used as a bitmap over the natural numbers, with ranks. A word is
 * the sequence of its 64 bits, the least significant first.
 */
module BitWords {
  import opened Machine

  type Word = w: seq<bool> | |w| == 64 witness seq(64, _ => false)

  /** `0_u64` */
  function Zero(): Word { seq(64, _ => false) }

  /** `1_u64 << b` */
  function OneBit(b: nat): Word
    requires b < 64
  {
    seq(64, i => i == b)
  }

  /** `(1_u64 << b).wrapping_sub(1)`; see MaskValue */
  function LowMask(b: nat): Word
    requires b < 64
  {
    seq(64, i => i < b)
  }

  /** `v | w` */
  function Or(v: Word, w: Word): Word {
    seq(64, i requires 0 <= i < 64 => v[i] || w[i])
  }

  /** `v & w` */
  function And(v: Word, w: Word): Word {
    seq(64, i requires 0 <= i < 64 => v[i] && w[i])
  }

  /** The number held by the low `n` bits of a word. */
  function Value(w: Word, n: nat): nat
    requires n <= 64
  {
    if n == 0 then 0 else Value(w, n - 1) + if w[n - 1] then Power(n - 1) else 0
  }

  lemma {:induction false} LowValues(b: nat, n: nat)
    requires b < 64 && n <= 64
    ensures Value(OneBit(b), n) == if b < n then Power(b) else 0
    ensures Value(LowMask(b), n) == Power(Min(b, n)) - 1
  {
    if n > 0 { LowValues(b, n - 1); }
  }

  /** Subtracting one from a single bit leaves the mask of the bits below it. */
  lemma {:induction false} MaskValue(b: nat)
    requires b < 64
    ensures Value(LowMask(b), 64) == Value(OneBit(b), 64) - 1
  {
    LowValues(b, 64);
  }

  /** The number of set bits of `w` below position `n`. */
  function OnesBelow(w: Word, n: nat): (c: nat)
    requires n <= 64
    ensures c <= n
  {
    if n == 0 then 0 else OnesBelow(w, n - 1) + if w[n - 1] then 1 else 0
  }

  /** `w.count_ones()` */
  function CountOnes(w: Word): nat { OnesBelow(w, 64) }

  lemma {:induction false} MaskedOnes(w: Word, b: nat, n: nat)
    requires b < 64 && n <= 64
    ensures OnesBelow(And(w, LowMask(b)), n) == OnesBelow(w, Min(b, n))
  {
    if n > 0 { MaskedOnes(w, b, n - 1); }
  }

  /** Counting the ones of the masked word counts the ones below the mask. */
  lemma {:induction false} MaskedCountOnes(w: Word, b: nat)
    requires b < 64
    ensures CountOnes(And(w, LowMask(b))) == OnesBelow(w, b)
  {
    MaskedOnes(w, b, 64);
  }

  /** Membership of a natural number in the bitmap. */
  predicate Has(words: seq<Word>, n: nat) {
    n / 64 < |words| && words[n / 64][n % 64]
  }

  /** The probe on signed keys: a key that does not convert to `usize` is absent. */
  predicate WordsContain(words: seq<Word>, key: int) {
    key >= 0 && Has(words, key)
  }

  /** `words[n / 64] |= 1 << (n % 64)` */
  function SetBit(words: seq<Word>, n: nat): (r: seq<Word>)
    requires n / 64 < |words|
    ensures |r| == |words|
    ensures forall m: nat :: Has(r, m) <==> m == n || Has(words, m)
  {
    words[n / 64 := Or(words[n / 64], OneBit(n % 64))]
  }

  /** `vec![0_u64; len]`, or what `resize(len, 0)` appends */
  function ZeroWords(len: nat): (r: seq<Word>)
    ensures |r| == len && forall m: nat :: !Has(r, m)
  {
    seq(len, _ => Zero())
  }

  /** Growing a bitmap with zero words changes no membership. */
  lemma {:induction false} ResizeKeepsBits(words: seq<Word>, len: nat)
    requires |words| <= len
    ensures forall m: nat :: Has(Resize(words, len, Zero()), m) <==> Has(words, m)
  {
  }

  /** Two bitmaps of one length with the same members are the same words. */
  lemma {:induction false} BitmapExtensionality(u: seq<Word>, v: seq<Word>)
    requires |u| == |v| && forall m: nat :: Has(u, m) <==> Has(v, m)
    ensures u == v
  {
    forall i | 0 <= i < |u| ensures u[i] == v[i] {
      forall b: nat | b < 64 ensures u[i][b] == v[i][b] {
        var m := 64 * i + b;
        assert m / 64 == i && m % 64 == b;
        assert Has(u, m) <==> Has(v, m);
      }
    }
  }

  /** The number of members below `n`. */
  function Rank(words: seq<Word>, n: nat): nat {
    if n == 0 then 0 else Rank(words, n - 1) + if Has(words, n - 1) then 1 else 0
  }

  /** Inside one word, the rank advances by the ones below the bit. */
  lemma {:induction false} RankInWord(words: seq<Word>, w: nat, b: nat)
    requires w < |words| && b <= 64
    ensures Rank(words, 64 * w + b) == Rank(words, 64 * w) + OnesBelow(words[w], b)
  {
    if b > 0 {
      RankInWord(words, w, b - 1);
      var m := 64 * w + b - 1;
      assert m / 64 == w && m % 64 == b - 1;
    }
  }

  lemma {:induction false} RankMonotone(words: seq<Word>, m: nat, n: nat)
    requires m <= n
    ensures Rank(words, m) <= Rank(words, n)
    ensures m < n && Has(words, m) ==> Rank(words, m) < Rank(words, n)
    decreases n
  {
    if m < n { RankMonotone(words, m, n - 1); }
  }

  /** Every position below the total rank is the rank of some member. */
  lemma {:induction false} RankOnto(words: seq<Word>, n: nat, r: nat) returns (m: nat)
    requires r < Rank(words, n)
    ensures m < n && Has(words, m) && Rank(words, m) == r
    decreases n
  {
    if r < Rank(words, n - 1) {
      m := RankOnto(words, n - 1, r);
    } else {
      m := n - 1;
    }
  }

  /** The rank is the cardinality of the members below `n`. */
  lemma {:induction false} RankIsCardinality(words: seq<Word>, members: set<int>, n: nat)
    requires forall m: nat :: Has(words, m) <==> m in members
    requires forall m :: m in members ==> m >= 0
    ensures Rank(words, n) == |set m | m in members && m < n|
  {
    var below := set m | m in members && m < n;
    if n == 0 {
      assert below == {};
    } else {
      RankIsCardinality(words, members, n - 1);
      var smaller := set m | m in members && m < n - 1;
      if n - 1 in members {
        assert below == smaller + {n - 1};
      } else {
        assert below == smaller;
      }
    }
  }
}
