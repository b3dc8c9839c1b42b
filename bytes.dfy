/**
 * The JavaScript number operations the decoder relies on, written out over
 * unbounded integers: bytes as DataView.getUint8 returns them, array reads
 * that may be `undefined`, `slice`, bitwise AND, and the 32-bit signed
 * register behind `<<` and `|`.
 */
module Bytes {
  import opened Wrappers

  /** A byte as DataView.getUint8 returns it. */
  type Byte = b: int | 0 <= b < 256
  const TWO_31: int := 0x8000_0000
  const TWO_32: int := 0x1_0000_0000


  function Pow2(k: nat): (r: nat)
    ensures r >= 1
  {
    if k == 0 then 1 else 2 * Pow2(k - 1)
  }

  lemma {:induction false} Pow2Add(a: nat, b: nat)
    ensures Pow2(a + b) == Pow2(a) * Pow2(b)
  {
    if a > 0 {
      Pow2Add(a - 1, b);
      assert Pow2(a + b) == 2 * Pow2(a - 1 + b);
    }
  }

  lemma Pow2ThirtyTwo()
    ensures Pow2(32) == TWO_32
  {
    assert Pow2(8) == 256;
    assert Pow2(16) == 0x1_0000;
    assert Pow2(24) == 0x100_0000;
  }

  lemma Pow2TwentyEight()
    ensures Pow2(28) == 0x1000_0000
  {
    assert Pow2(8) == 256;
    assert Pow2(16) == 0x1_0000;
    assert Pow2(24) == 0x100_0000;
  }

  /**
   * ToInt32: the signed reading of a 32-bit pattern. Every `<<`, `|` and
   * `&` in JavaScript leaves its result in this form.
   */
  function Signed32(u: int): (r: int)
    requires 0 <= u < TWO_32
    ensures -TWO_31 <= r < TWO_31
    ensures r == u || r == u - TWO_32
    ensures u < TWO_31 ==> r == u
  {
    if u < TWO_31 then u else u - TWO_32
  }

  /** A non-negative number below 2^31 reads as itself. */
  lemma Signed32OfSmall(u: int)
    requires 0 <= u < TWO_31
    ensures Signed32(u % TWO_32) == u
  {
    DivModUnique(u, TWO_32, 0, u);
  }

  /** `a & b` on non-negative numbers, one bit at a time from the least significant end. */
  function BitAnd(a: nat, b: nat): nat
  {
    if a == 0 || b == 0 then 0
    else 2 * BitAnd(a / 2, b / 2) + (if a % 2 == 1 && b % 2 == 1 then 1 else 0)
  }

  lemma MulAwayFromZero(x: int, d: int)
    requires d > 0
    ensures x >= 1 ==> x * d >= d
    ensures x <= -1 ==> x * d <= -d
  {
    if x >= 1 {
      assert x * d == (x - 1) * d + d;
    } else if x <= -1 {
      assert x * d == (x + 1) * d - d;
    }
  }

  /** Quotient and remainder are determined by `a == q * d + r` with `0 <= r < d`. */
  lemma DivModUnique(a: int, d: int, q: int, r: int)
    requires d > 0 && a == q * d + r && 0 <= r < d
    ensures a / d == q && a % d == r
  {
    var q0, r0 := a / d, a % d;
    assert a == q0 * d + r0;
    assert (q - q0) * d == r0 - r;
    MulAwayFromZero(q - q0, d);
  }

  lemma ModDouble(a: nat, p: nat)
    requires p >= 1
    ensures a % (2 * p) == 2 * ((a / 2) % p) + a % 2
  {
    var q := (a / 2) / p;
    var r := (a / 2) % p;
    assert a / 2 == q * p + r;
    assert a == q * (2 * p) + (2 * r + a % 2);
    DivModUnique(a, 2 * p, q, 2 * r + a % 2);
  }

  /** AND with an odd mask keeps the low bit and ANDs the rest. */
  lemma BitAndOdd(a: nat, m: nat)
    requires a > 0 && m % 2 == 1
    ensures BitAnd(a, m) == 2 * BitAnd(a / 2, m / 2) + a % 2
  {
  }

  /** One more low bit: ANDing with 2p - 1 is the remainder modulo 2p when ANDing the rest with p - 1 is the remainder modulo p. */
  lemma MaskStep(a: nat, p: nat)
    requires a > 0 && p >= 1
    requires BitAnd(a / 2, p - 1) == (a / 2) % p
    ensures BitAnd(a, 2 * p - 1) == a % (2 * p)
  {
    DivModUnique(2 * p - 1, 2, p - 1, 1);
    BitAndOdd(a, 2 * p - 1);
    ModDouble(a, p);
  }

  /** A mask of the k low bits keeps exactly the remainder modulo 2^k. */
  lemma {:induction false} MaskKeepsLowBits(a: nat, k: nat)
    ensures BitAnd(a, Pow2(k) - 1) == a % Pow2(k)
  {
    if k == 0 {
      assert Pow2(k) == 1;
    } else if a == 0 {
      DivModUnique(0, Pow2(k), 0, 0);
    } else {
      var p := Pow2(k - 1);
      MaskKeepsLowBits(a / 2, k - 1);
      MaskStep(a, p);
      assert Pow2(k) == 2 * p;
    }
  }

  lemma MaskKeepsLowBitsAll(k: nat)
    ensures forall a: nat :: BitAnd(a, Pow2(k) - 1) == a % Pow2(k)
  {
    forall a: nat
      ensures BitAnd(a, Pow2(k) - 1) == a % Pow2(k)
    {
      MaskKeepsLowBits(a, k);
    }
  }

  /** Multiplying by p modulo p * q only keeps the remainder of the multiplicand modulo q. */
  lemma ShiftMod(acc: nat, p: nat, q: nat)
    requires p >= 1 && q >= 1
    ensures (acc * p) % (p * q) == (acc % q) * p
    ensures (acc % q) * p <= p * q - p
  {
    var a1, a0 := acc / q, acc % q;
    assert acc * p == (a1 * q + a0) * p;
    assert (a1 * q + a0) * p == a1 * (p * q) + a0 * p;
    assert a0 * p <= (q - 1) * p == p * q - p;
    DivModUnique(acc * p, p * q, a1, a0 * p);
  }

  lemma ShiftInLowBitsMod(acc: nat, f: nat, p: nat, q: nat, m: nat)
    requires p >= 1 && q >= 1 && acc == f % (p * q) && m < p
    ensures (acc * p) % (p * q) + m < p * q
    ensures (acc * p) % (p * q) + m == (f * p + m) % (p * q)
  {
    ShiftMod(acc, p, q);
    var a1, a0 := acc / q, acc % q;
    assert acc * p == a1 * (p * q) + a0 * p by {
      assert acc * p == (a1 * q + a0) * p;
    }
    var f1 := f / (p * q);
    assert f == f1 * (p * q) + acc;
    assert f * p == f1 * p * (p * q) + acc * p;
    assert f * p + m == (f1 * p + a1) * (p * q) + (a0 * p + m);
    DivModUnique(f * p + m, p * q, f1 * p + a1, a0 * p + m);
  }

  /**
   * Shifting a 32-bit register left by k <= 8 bits clears its k low bits, so
   * OR-ing in a value below 2^k adds it without a carry, and the register
   * keeps tracking the unbounded value modulo 2^32.
   */
  lemma ShiftInLowBits(acc: nat, f: nat, k: nat, m: nat)
    requires k <= 8 && acc == f % TWO_32 && m < Pow2(k)
    ensures (acc * Pow2(k)) % TWO_32 + m < TWO_32
    ensures (acc * Pow2(k)) % TWO_32 + m == (f * Pow2(k) + m) % TWO_32
  {
    Pow2Add(k, 32 - k);
    Pow2ThirtyTwo();
    ShiftInLowBitsMod(acc, f, Pow2(k), Pow2(32 - k), m);
  }

  /**
   * The number whose base-2^k digits, most significant first, are the k low
   * bits of each byte: the value a shift-and-OR loop accumulates.
   */
  function BigEndianFold(bytes: seq<Byte>, k: nat): nat
  {
    if |bytes| == 0 then 0
    else BigEndianFold(bytes[..|bytes| - 1], k) * Pow2(k) + bytes[|bytes| - 1] % Pow2(k)
  }

  /** `s[i]`: undefined (None) past the end. */
  function At(s: seq<Byte>, i: nat): (r: Option<Byte>)
    ensures r.Some? <==> i < |s|
    ensures r.Some? ==> r.value == s[i]
  {
    if i < |s| then Some(s[i]) else None
  }

  function Min(a: int, b: int): int { if a < b then a else b }

  /** `s.slice(from, to)` for non-negative bounds: clamped to the length, empty when `to <= from`. */
  function JsSlice(s: seq<Byte>, from: nat, to: nat): (r: seq<Byte>)
    ensures |r| == if from < Min(to, |s|) then Min(to, |s|) - from else 0
    ensures forall k :: 0 <= k < |r| ==> r[k] == s[from + k]
  {
    var end := Min(to, |s|);
    if from < end then s[from..end] else []
  }
}
