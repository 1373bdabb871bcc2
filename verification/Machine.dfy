/** Machine integers, the option type and list flattening, shared by every component. */
module Machine {

  datatype Option<+T> = None | Some(value: T) {
    function GetOr(default: T): T {
      if Some? then value else default
    }
  }

  const USIZE_MAX: nat := 0xFFFF_FFFF_FFFF_FFFF
  const U32_MAX: nat := 0xFFFF_FFFF
  const I64_MAX: int := 0x7FFF_FFFF_FFFF_FFFF
  const I64_MIN: int := -0x8000_0000_0000_0000

  type I64 = k: int | I64_MIN <= k <= I64_MAX
  type Usize = n: nat | n <= USIZE_MAX

  function Min(a: int, b: int): (m: int)
    ensures m <= a && m <= b && (m == a || m == b)
  {
    if a <= b then a else b
  }

  function Max(a: int, b: int): (m: int)
    ensures m >= a && m >= b && (m == a || m == b)
  {
    if a >= b then a else b
  }

  /** `usize::saturating_add` */
  function SatAdd(a: nat, b: nat): nat { Min(a + b, USIZE_MAX) }

  /** `usize::saturating_mul` */
  function SatMul(a: nat, b: nat): nat { Min(a * b, USIZE_MAX) }

  /** `usize::checked_add` */
  function CheckedAdd(a: nat, b: nat): Option<nat> {
    if a + b <= USIZE_MAX then Some(a + b) else None
  }

  /** `usize::checked_mul` */
  function CheckedMul(a: nat, b: nat): Option<nat> {
    if a * b <= USIZE_MAX then Some(a * b) else None
  }

  /** `i64` arithmetic whose overflow is reported as `None` */
  function CheckedI64(k: int): Option<I64> {
    if I64_MIN <= k <= I64_MAX then Some(k) else None
  }

  /** `vec.resize(len, fill)` for a length that does not shrink the vector */
  function Resize<T>(s: seq<T>, len: nat, fill: T): (r: seq<T>)
    requires |s| <= len
    ensures |r| == len
    ensures forall i :: 0 <= i < len ==> r[i] == if i < |s| then s[i] else fill
  {
    s + seq(len - |s|, _ => fill)
  }

  /** Two to the `n` */
  function Power(n: nat): (p: nat)
    ensures p >= 1
  {
    if n == 0 then 1 else 2 * Power(n - 1)
  }

  /** `u32` has 32 bits, `usize` twice as many, and `i64` is two's complement of the same width. */
  lemma {:induction false} WordSizes()
    ensures U32_MAX + 1 == Power(32) && USIZE_MAX + 1 == (U32_MAX + 1) * (U32_MAX + 1)
    ensures I64_MAX - I64_MIN == USIZE_MAX && I64_MAX + I64_MIN == -1
  {
    var n := 8;
    assert Power(n) == 256;
    PowerAdds(n, n);
    PowerAdds(2 * n, 2 * n);
  }

  lemma {:induction false} PowerAdds(m: nat, n: nat)
    ensures Power(m + n) == Power(m) * Power(n)
  {
    if n > 0 { PowerAdds(m, n - 1); }
  }

  /** Saturating operations are exact up to the largest word and stay there; checked ones report the rest. */
  lemma {:induction false} WordArithmetic(a: nat, b: nat, k: int)
    ensures SatAdd(a, b) <= USIZE_MAX && SatMul(a, b) <= USIZE_MAX
    ensures a + b <= USIZE_MAX ==> SatAdd(a, b) == a + b && CheckedAdd(a, b) == Some(a + b)
    ensures a * b <= USIZE_MAX ==> SatMul(a, b) == a * b && CheckedMul(a, b) == Some(a * b)
    ensures a + b > USIZE_MAX ==> SatAdd(a, b) == USIZE_MAX && CheckedAdd(a, b) == None
    ensures a * b > USIZE_MAX ==> SatMul(a, b) == USIZE_MAX && CheckedMul(a, b) == None
    ensures CheckedI64(k).Some? <==> I64_MIN <= k <= I64_MAX
    ensures CheckedI64(k).Some? ==> CheckedI64(k).value == k
  {
  }

  function Flatten<T>(parts: seq<seq<T>>): seq<T> {
    if parts == [] then [] else Flatten(parts[..|parts| - 1]) + parts[|parts| - 1]
  }

  lemma {:induction false} FlattenPush<T>(parts: seq<seq<T>>, part: seq<T>)
    ensures Flatten(parts + [part]) == Flatten(parts) + part
  {
    assert (parts + [part])[..|parts|] == parts;
  }

  lemma {:induction false} FlattenConcat<T>(a: seq<seq<T>>, b: seq<seq<T>>)
    ensures Flatten(a + b) == Flatten(a) + Flatten(b)
  {
    if b == [] {
      assert a + b == a;
    } else {
      var init, last := b[..|b| - 1], b[|b| - 1];
      assert a + b == (a + init) + [last];
      FlattenConcat(a, init);
      FlattenPush(a + init, last);
      assert Flatten(a) + (Flatten(init) + last) == Flatten(a) + Flatten(init) + last;
    }
  }
}
