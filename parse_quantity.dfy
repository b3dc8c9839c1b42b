/**
 * Variable-length quantities (assets/js/midi/parse-quantity.js): a delta-time
 * is stored in 1 to 4 bytes, seven value bits per byte, most significant
 * group first, with the top bit set on every byte but the last.
 */
module ParseQuantity {
  import opened Wrappers
  import opened Bytes

  /** Seven value bits per byte. */
  const BITS_TO_SHIFT: nat := 7

  /**
   * calculateMask: the number whose `bitsToMaskOn` low bits are set. It is an
   * error to ask for fewer than 0 or more than 8 bits.
   */
  function CalculateMask(bitsToMaskOn: int): (r: Result<nat, MidiError>)
    ensures r.Success? <==> 0 <= bitsToMaskOn <= 8
    ensures r.Failure? ==> r.error == MaskOutOfRange
    ensures r.Success? ==> r.value < 256
    ensures r.Success? ==> forall a: nat :: BitAnd(a, r.value) == a % Pow2(bitsToMaskOn)
  {
    if bitsToMaskOn < 0 || bitsToMaskOn > 8 then Failure(MaskOutOfRange)
    else
      MaskKeepsLowBitsAll(bitsToMaskOn);
      assert Pow2(bitsToMaskOn) <= Pow2(8) == 256 by { Pow2Monotone(bitsToMaskOn, 8); }
      Success(Pow2(bitsToMaskOn) - 1)
  }

  /** The mask is the number with exactly the `bitsToMaskOn` low bits set. */
  lemma MaskValue(bitsToMaskOn: int)
    requires 0 <= bitsToMaskOn <= 8
    ensures CalculateMask(bitsToMaskOn) == Success(Pow2(bitsToMaskOn) - 1)
  {
  }

  lemma {:induction false} Pow2Monotone(a: nat, b: nat)
    requires a <= b
    ensures Pow2(a) <= Pow2(b)
  {
    if a < b {
      Pow2Monotone(a, b - 1);
    }
  }

  lemma FoldSnoc(bytes: seq<Byte>, i: nat, k: nat)
    requires i < |bytes|
    ensures BigEndianFold(bytes[..i + 1], k) == BigEndianFold(bytes[..i], k) * Pow2(k) + bytes[i] % Pow2(k)
  {
    assert bytes[..i + 1][..i] == bytes[..i];
  }

  /**
   * twiddle: shift the register left and OR in the masked bits of each byte,
   * except that leading zero bytes are skipped and the first contributing
   * byte is not shifted. The register is JavaScript's 32-bit one, so the
   * result is the fold modulo 2^32, read as a signed number.
   */
  method Twiddle(byteArray: seq<Byte>, bitsToShift: int) returns (r: Result<int, MidiError>)
    ensures r.Failure? <==> !(0 <= bitsToShift <= 8)
    ensures r.Failure? ==> r.error == MaskOutOfRange
    ensures r.Success? ==> r.value == Signed32(BigEndianFold(byteArray, bitsToShift) % TWO_32)
  {
    var maskResult := CalculateMask(bitsToShift);
    if maskResult.Failure? {
      return Failure(maskResult.error);
    }
    var mask := maskResult.value;
    var k: nat := bitsToShift;
    // the register, kept as its unsigned 32-bit pattern
    var result := 0;
    var hasSkippedFirstBitShift := false;
    var i := 0;
    while i < |byteArray|
      invariant 0 <= i <= |byteArray|
      invariant 0 <= result < TWO_32
      invariant result == BigEndianFold(byteArray[..i], k) % TWO_32
      invariant !hasSkippedFirstBitShift ==> result == 0
    {
      FoldSnoc(byteArray, i, k);
      ShiftInLowBits(result, BigEndianFold(byteArray[..i], k), k, byteArray[i] % Pow2(k));
      if byteArray[i] == 0 && !hasSkippedFirstBitShift {
        i := i + 1;
        continue;
      }
      // shifting in the low bits leaves them clear, so the OR below is an addition
      if hasSkippedFirstBitShift {
        result := (result * Pow2(k)) % TWO_32;
      }
      hasSkippedFirstBitShift := true;
      result := result + BitAnd(byteArray[i], mask);
      i := i + 1;
    }
    assert byteArray[..i] == byteArray;
    r := Success(Signed32(result));
  }

  /** What parseVariableLengthValue returns for a run of bytes. */
  function VlqValue(bytes: seq<Byte>): int
  {
    Signed32(BigEndianFold(bytes, BITS_TO_SHIFT) % TWO_32)
  }

  /** parseVariableLengthValue: twiddle with seven bits per byte. */
  method ParseVariableLengthValue(byteArray: seq<Byte>) returns (value: int)
    ensures value == VlqValue(byteArray)
  {
    var r := Twiddle(byteArray, BITS_TO_SHIFT);
    value := r.value;
  }

  /** The mask parseVariableLengthValue uses is 0x7F. */
  lemma SevenBitMask()
    ensures CalculateMask(BITS_TO_SHIFT) == Success(0x7F)
  {
    assert Pow2(7) == 128;
  }

  /** Below 2^31 the 32-bit register does not wrap: the value is the fold itself. */
  lemma VlqValueOfSmall(bytes: seq<Byte>)
    requires BigEndianFold(bytes, 7) < TWO_31
    ensures VlqValue(bytes) == BigEndianFold(bytes, 7)
  {
    Signed32OfSmall(BigEndianFold(bytes, BITS_TO_SHIFT));
  }

  /** A single byte below 0x80 decodes to itself: the first byte is not shifted. */
  lemma SingleByteUnshifted(b: Byte)
    requires b < 0x80
    ensures VlqValue([b]) == b
  {
    assert [b][..0] == [];
    assert Pow2(7) == 128;
    assert BigEndianFold([b], 7) == BigEndianFold([], 7) * Pow2(7) + b % Pow2(7);
    VlqValueOfSmall([b]);
  }

  /** The same number written as a sum of digits times powers of 128. */
  function DigitSum(bytes: seq<Byte>): nat
  {
    if |bytes| == 0 then 0
    else (bytes[0] % 128) * Pow2(7 * (|bytes| - 1)) + DigitSum(bytes[1..])
  }

  lemma {:induction false} FoldCons(b: Byte, s: seq<Byte>)
    ensures BigEndianFold([b] + s, 7) == (b % 128) * Pow2(7 * |s|) + BigEndianFold(s, 7)
    decreases |s|
  {
    assert Pow2(7) == 128;
    if |s| == 0 {
      assert ([b] + s)[..0] == [];
    } else {
      var init := s[..|s| - 1];
      var x := s[|s| - 1];
      assert ([b] + s)[..|s|] == [b] + init;
      FoldCons(b, init);
      Pow2Add(7 * |init|, 7);
      calc {
        BigEndianFold([b] + s, 7);
        BigEndianFold([b] + init, 7) * 128 + x % 128;
        ((b % 128) * Pow2(7 * |init|) + BigEndianFold(init, 7)) * 128 + x % 128;
        (b % 128) * (Pow2(7 * |init|) * 128) + (BigEndianFold(init, 7) * 128 + x % 128);
        (b % 128) * Pow2(7 * |s|) + BigEndianFold(s, 7);
      }
    }
  }

  /** The shift-and-OR fold is the sum of (b_i & 0x7F) * 128^(n-1-i). */
  lemma {:induction false} FoldIsDigitSum(bytes: seq<Byte>)
    ensures BigEndianFold(bytes, 7) == DigitSum(bytes)
    decreases |bytes|
  {
    if |bytes| > 0 {
      assert bytes == [bytes[0]] + bytes[1..];
      FoldCons(bytes[0], bytes[1..]);
      FoldIsDigitSum(bytes[1..]);
    }
  }

  lemma {:induction false} ZerosAddNoDigits(zeros: seq<Byte>, rest: seq<Byte>)
    requires forall j :: 0 <= j < |zeros| ==> zeros[j] == 0
    ensures DigitSum(zeros + rest) == DigitSum(rest)
    decreases |zeros|
  {
    if |zeros| > 0 {
      var all := zeros + rest;
      assert all[0] == 0;
      assert all[1..] == zeros[1..] + rest;
      assert DigitSum(all) == (all[0] % 128) * Pow2(7 * (|all| - 1)) + DigitSum(all[1..]);
      assert (all[0] % 128) * Pow2(7 * (|all| - 1)) == 0;
      ZerosAddNoDigits(zeros[1..], rest);
      assert DigitSum(all) == DigitSum(zeros[1..] + rest);
    } else {
      assert zeros + rest == rest;
    }
  }

  /** Leading zero bytes are skipped and do not change the value; no bytes decode to 0. */
  lemma LeadingZerosIgnored(zeros: seq<Byte>, rest: seq<Byte>)
    requires forall j :: 0 <= j < |zeros| ==> zeros[j] == 0
    ensures VlqValue(zeros + rest) == VlqValue(rest)
    ensures VlqValue([]) == 0
  {
    assert BigEndianFold(zeros + rest, 7) == BigEndianFold(rest, 7) by {
      FoldIsDigitSum(zeros + rest);
      FoldIsDigitSum(rest);
      ZerosAddNoDigits(zeros, rest);
    }
    VlqValueOfSmall([]);
  }

  lemma {:induction false} FoldBelow(bytes: seq<Byte>)
    ensures BigEndianFold(bytes, 7) < Pow2(7 * |bytes|)
    decreases |bytes|
  {
    assert Pow2(7) == 128;
    if |bytes| > 0 {
      var init := bytes[..|bytes| - 1];
      FoldBelow(init);
      Pow2Add(7 * |init|, 7);
      assert BigEndianFold(bytes, 7) <= (Pow2(7 * |init|) - 1) * 128 + 127;
    }
  }

  /** One to four bytes decode, without wrapping, to at most 0x0FFFFFFF. */
  lemma ShortInputInRange(bytes: seq<Byte>)
    requires |bytes| <= 4
    ensures 0 <= VlqValue(bytes) <= 0x0FFF_FFFF
    ensures VlqValue(bytes) == BigEndianFold(bytes, 7)
  {
    FoldBelow(bytes);
    Pow2Monotone(7 * |bytes|, 28);
    Pow2TwentyEight();
    VlqValueOfSmall(bytes);
  }

  lemma FoldOfTwo(a: Byte, b: Byte)
    ensures BigEndianFold([a, b], 7) == (a % 128) * 128 + b % 128
  {
    assert Pow2(7) == 128;
    assert [a, b][..1] == [a];
    assert [a][..0] == [];
    assert BigEndianFold([a], 7) == BigEndianFold([], 7) * Pow2(7) + a % Pow2(7);
    assert BigEndianFold([a, b], 7) == BigEndianFold([a], 7) * Pow2(7) + b % Pow2(7);
  }

  lemma FoldOfFour(a: Byte, b: Byte, c: Byte, d: Byte)
    ensures BigEndianFold([a, b, c, d], 7) == (((a % 128) * 128 + b % 128) * 128 + c % 128) * 128 + d % 128
  {
    assert Pow2(7) == 128;
    assert [a, b, c, d][..3] == [a, b, c];
    assert [a, b, c][..2] == [a, b];
    FoldOfTwo(a, b);
  }

  /** The byte vectors of the project's own VLQ test script. */
  lemma KnownVectors()
    ensures VlqValue([0x00]) == 0
    ensures VlqValue([0x81, 0x00]) == 128
    ensures VlqValue([0xC0, 0x00]) == 8192
    ensures VlqValue([0xFF, 0xFF, 0x7F]) == 2097151
    ensures VlqValue([0xC0, 0x80, 0x80, 0x00]) == 134217728
    ensures VlqValue([0xFF, 0xFF, 0xFF, 0x7F]) == 268435455
  {
    SingleByteUnshifted(0x00);
    FoldOfTwo(0x81, 0x00);
    VlqValueOfSmall([0x81, 0x00]);
    FoldOfTwo(0xC0, 0x00);
    VlqValueOfSmall([0xC0, 0x00]);
    assert [0x00] + [0xFF, 0xFF, 0x7F] == [0x00, 0xFF, 0xFF, 0x7F];
    LeadingZerosIgnored([0x00], [0xFF, 0xFF, 0x7F]);
    FoldOfFour(0x00, 0xFF, 0xFF, 0x7F);
    VlqValueOfSmall([0x00, 0xFF, 0xFF, 0x7F]);
    FoldOfFour(0xC0, 0x80, 0x80, 0x00);
    VlqValueOfSmall([0xC0, 0x80, 0x80, 0x00]);
    FoldOfFour(0xFF, 0xFF, 0xFF, 0x7F);
    VlqValueOfSmall([0xFF, 0xFF, 0xFF, 0x7F]);
  }

  /** The groups before the last one, each with its top bit set. */
  function ContinuationBytes(v: nat): (r: seq<Byte>)
    ensures |r| >= 1
    ensures forall j :: 0 <= j < |r| ==> r[j] >= 0x80
    ensures r[|r| - 1] == v % 128 + 128
    decreases v
  {
    if v < 128 then [v + 128] else ContinuationBytes(v / 128) + [v % 128 + 128]
  }

  /** The MIDI encoding of a delta-time: seven bits per byte, top bit set on all but the last. */
  function EncodeVlq(v: nat): (r: seq<Byte>)
    ensures |r| >= 1
  {
    if v < 128 then [v] else ContinuationBytes(v / 128) + [v % 128]
  }

  lemma {:induction false} ContinuationBytesFold(v: nat, n: nat)
    requires v < Pow2(7 * n)
    ensures 1 <= |ContinuationBytes(v)| && (n >= 1 ==> |ContinuationBytes(v)| <= n)
    ensures forall j :: 0 <= j < |ContinuationBytes(v)| ==> ContinuationBytes(v)[j] >= 0x80
    ensures BigEndianFold(ContinuationBytes(v), 7) == v
    decreases v
  {
    assert Pow2(7) == 128;
    var c := ContinuationBytes(v);
    if v < 128 {
      assert [v + 128][..0] == [];
    } else {
      if n == 0 {
        assert false;
      }
      Pow2Add(7 * (n - 1), 7);
      ContinuationBytesFold(v / 128, n - 1);
      FoldSnoc(c, |c| - 1, 7);
      assert c[..|c| - 1] == ContinuationBytes(v / 128);
    }
  }

  /** Encoding a delta-time in range and decoding it gives it back. */
  lemma VlqRoundTrip(v: nat)
    requires v <= 0x0FFF_FFFF
    ensures 1 <= |EncodeVlq(v)| <= 4
    ensures EncodeVlq(v)[|EncodeVlq(v)| - 1] < 0x80
    ensures forall j :: 0 <= j < |EncodeVlq(v)| - 1 ==> EncodeVlq(v)[j] >= 0x80
    ensures VlqValue(EncodeVlq(v)) == v
  {
    var e := EncodeVlq(v);
    if v < 128 {
      SingleByteUnshifted(v);
    } else {
      assert Pow2(7) == 128;
      assert Pow2(21) == 0x20_0000;
      ContinuationBytesFold(v / 128, 3);
      FoldSnoc(e, |e| - 1, 7);
      assert e[..|e| - 1] == ContinuationBytes(v / 128);
      VlqValueOfSmall(e);
    }
  }
}
