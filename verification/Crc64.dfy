/** The bit-by-bit CRC-64 of crc64.c: polynomial division over GF(2), most significant bit first, with every data byte
    entered least significant bit first and the result bit-reflected; and the same division carried out on the
    reflected register, where a byte is one xor and eight shifts. */
module Crc64 {
  import opened ByteBits

  const POLY: bv64 := 0xad93d23594c935a9

  /** POLY read from the other end. */
  const REFLECTED_POLY: bv64 := 0x95ac9329ac4bc9b5

  // ---------------------------------------------------------------------------------------------------------
  // Reflection
  // ---------------------------------------------------------------------------------------------------------

  function Reflect(x: bv64): bv64 {
    var a := ((x >> 1) & 0x5555555555555555) | ((x & 0x5555555555555555) << 1);
    var b := ((a >> 2) & 0x3333333333333333) | ((a & 0x3333333333333333) << 2);
    var c := ((b >> 4) & 0x0f0f0f0f0f0f0f0f) | ((b & 0x0f0f0f0f0f0f0f0f) << 4);
    var d := ((c >> 8) & 0x00ff00ff00ff00ff) | ((c & 0x00ff00ff00ff00ff) << 8);
    var e := ((d >> 16) & 0x0000ffff0000ffff) | ((d & 0x0000ffff0000ffff) << 16);
    (e >> 32) | (e << 32)
  }

  lemma ReflectTwice(x: bv64)
    ensures Reflect(Reflect(x)) == x
  {
  }

  lemma ReflectXor(x: bv64, y: bv64)
    ensures Reflect(x ^ y) == Reflect(x) ^ Reflect(y)
  {
  }

  lemma ReflectShift(x: bv64)
    ensures Reflect(x << 1) == Reflect(x) >> 1
    ensures (Reflect(x) & 1 != 0) == (x & 0x8000000000000000 != 0)
  {
  }

  lemma ReflectPoly()
    ensures Reflect(POLY) == REFLECTED_POLY
  {
  }

  function Half(w: bv128): bv128 { w >> 1 }

  /** n single shifts of a double word. */
  ghost function Shifted(w: bv128, n: nat): bv128 {
    if n == 0 then w else Half(Shifted(w, n - 1))
  }

  lemma {:induction false} ShiftedAdds(w: bv128, m: nat, n: nat)
    ensures Shifted(w, m + n) == Shifted(Shifted(w, m), n)
    decreases n
  {
    hide Half;
    if n != 0 {
      ShiftedAdds(w, m, n - 1);
    }
  }

  lemma Shifted1(w: bv128)
    ensures Shifted(w, 1) == w >> 1
  {
    assert Shifted(w, 0) == w;
  }

  lemma Shifted2(w: bv128)
    ensures Shifted(w, 2) == w >> 2
  {
    hide Shifted;
    Shifted1(w);
    Shifted1(w >> 1);
    ShiftedAdds(w, 1, 1);
  }

  lemma Shifted4(w: bv128)
    ensures Shifted(w, 4) == w >> 4
  {
    hide Shifted;
    Shifted2(w);
    Shifted2(w >> 2);
    ShiftedAdds(w, 2, 2);
  }

  lemma Shifted8(w: bv128)
    ensures Shifted(w, 8) == w >> 8
  {
    hide Shifted;
    Shifted4(w);
    Shifted4(w >> 4);
    ShiftedAdds(w, 4, 4);
  }

  lemma Shifted16(w: bv128)
    ensures Shifted(w, 16) == w >> 16
  {
    hide Shifted;
    Shifted8(w);
    Shifted8(w >> 8);
    ShiftedAdds(w, 8, 8);
  }

  lemma Shifted32(w: bv128)
    ensures Shifted(w, 32) == w >> 32
  {
    hide Shifted;
    Shifted16(w);
    Shifted16(w >> 16);
    ShiftedAdds(w, 16, 16);
  }

  lemma Shifted64(w: bv128)
    ensures Shifted(w, 64) == w >> 64
  {
    hide Shifted;
    Shifted32(w);
    Shifted32(w >> 32);
    ShiftedAdds(w, 32, 32);
  }

  /** The word still to be read above the reflection of what was read. */
  function Pair(hi: bv64, lo: bv64): bv128 {
    ((hi as bv128) << 64) | (lo as bv128)
  }

  lemma PairShift(hi: bv64, lo: bv64)
    ensures Half(Pair(hi, lo)) == Pair(hi >> 1, Received(lo, hi & 1))
  {
  }

  lemma PairEnds(x: bv64, hi: bv64, lo: bv64)
    requires Pair(hi, lo) == Pair(x, 0) >> 64
    ensures lo == x
  {
  }

  function Pushed(ret: bv64, bit: bv64): bv64 { (ret << 1) | bit }

  function Received(r: bv64, bit: bv64): bv64 { (r >> 1) | (bit << 63) }

  lemma ReflectOr1(ret: bv64)
    ensures Reflect((ret << 1) | 1) == (Reflect(ret) >> 1) | 0x8000000000000000
  {
  }

  lemma PushedIs(x: bv64)
    ensures Pushed(x, 0) == x << 1 && Pushed(x, 1) == (x << 1) | 1
    ensures Received(x, 0) == x >> 1 && Received(x, 1) == (x >> 1) | 0x8000000000000000
  {
  }

  lemma ReflectAppendZero(ret: bv64)
    ensures Reflect(Pushed(ret, 0)) == Received(Reflect(ret), 0)
  {
    hide Reflect, Pushed, Received;
    PushedIs(ret);
    PushedIs(Reflect(ret));
    ReflectShift(ret);
  }

  lemma ReflectAppendOne(ret: bv64)
    ensures Reflect(Pushed(ret, 1)) == Received(Reflect(ret), 1)
  {
    hide Reflect, Pushed, Received;
    PushedIs(ret);
    PushedIs(Reflect(ret));
    ReflectOr1(ret);
  }

  /** A bit pushed in at one end enters the reflection at the other. */
  lemma ReflectAppend(ret: bv64, bit: bv64)
    requires bit == 0 || bit == 1
    ensures Reflect(Pushed(ret, bit)) == Received(Reflect(ret), bit)
  {
    hide Reflect, Pushed, Received;
    if bit == 0 {
      ReflectAppendZero(ret);
    } else {
      ReflectAppendOne(ret);
    }
  }

  lemma ReflectBit(bit: bv64)
    requires bit == 0 || bit == 1
    ensures Reflect(bit) == Received(0, bit)
  {
  }

  lemma LowBit(x: bv64)
    ensures x & 1 == 0 || x & 1 == 1
  {
  }

  /** crc_reflect, for the 64-bit width it is called with. */
  method CrcReflect(word: bv64) returns (ret: bv64)
    ensures ret == Reflect(word)
  {
    hide Reflect, Pair, Half, Shifted, Pushed, Received;
    var data := word;
    ret := data & 1;
    ghost var start := Pair(word, 0);
    LowBit(data);
    ReflectBit(data & 1);
    PairShift(data, 0);
    ShiftedStarts(start);
    var i := 1;
    while i < 64
      invariant 1 <= i <= 64
      invariant Pair(data >> 1, Reflect(ret)) == Shifted(start, i)
    {
      data := data >> 1;
      LowBit(data);
      ReflectAppend(ret, data & 1);
      PairShift(data, Reflect(ret));
      ShiftedNext(start, i);
      ret := Pushed(ret, data & 1);
      i := i + 1;
    }
    Shifted64(start);
    PairEnds(word, data >> 1, Reflect(ret));
    ReflectTwice(ret);
  }

  lemma ShiftedStarts(w: bv128)
    ensures Shifted(w, 1) == Half(w)
  {
    assert Shifted(w, 0) == w;
  }

  lemma ShiftedNext(w: bv128, n: nat)
    ensures Shifted(w, n + 1) == Half(Shifted(w, n))
  {
    hide Half;
  }

  // ---------------------------------------------------------------------------------------------------------
  // Division, most significant bit first
  // ---------------------------------------------------------------------------------------------------------

  /** Shift one data bit in; subtract the polynomial when a one falls out. */
  function DivideBit(crc: bv64, d: bool): bv64 {
    var out := crc << 1;
    if ((crc & 0x8000000000000000) != 0) != d then out ^ POLY else out
  }

  /** The first k bits of byte c, least significant first. */
  function DivideBits(crc: bv64, c: bv8, k: nat): bv64
    requires k <= 8
  {
    if k == 0 then crc else DivideBit(DivideBits(crc, c, k - 1), Has(c, k - 1))
  }

  function Divide(crc: bv64, data: seq<bv8>): bv64 {
    if data == [] then crc else DivideBits(Divide(crc, data[..|data| - 1]), data[|data| - 1], 8)
  }

  /** The mask of the inner loop after k rounds: after the last it has fallen out of the byte. */
  function Walking(k: nat): bv8 {
    if k < 8 then Mask(k) else 0
  }

  function Twice(i: bv8): bv8 { i << 1 }

  predicate Meets(c: bv8, i: bv8) { c & i != 0 }

  lemma MaskWalks(k: nat)
    ensures Walking(0) == 1 && (Walking(k) == 0 <==> 8 <= k) && Walking(k + 1) == Twice(Walking(k))
  {
  }

  /** The body of the inner loop of _crc64. */
  method ShiftIn(before: bv64, d: bool) returns (crc: bv64)
    ensures crc == DivideBit(before, d)
  {
    var bit := (before & 0x8000000000000000) != 0;
    if d {
      bit := !bit;
    }
    crc := before << 1;
    if bit {
      crc := crc ^ POLY;
    }
  }

  /** The inner loop of _crc64: mask i walks up the byte until it falls out. */
  method DivideByte(before: bv64, c: bv8) returns (crc: bv64)
    ensures crc == DivideBits(before, c, 8)
  {
    hide DivideBits, Walking, DivideBit, Twice, Meets;
    crc := before;
    var i: bv8 := 1;
    ghost var k := 0;
    DivideNoBits(before, c);
    MaskWalks(0);
    while i != 0
      invariant 0 <= k <= 8 && i == Walking(k)
      invariant crc == DivideBits(before, c, k)
      decreases 8 - k
    {
      MaskWalks(k);
      DivideNextBit(before, c, k);
      crc := ShiftIn(crc, Meets(c, i));
      i := Twice(i);
      k := k + 1;
    }
    MaskWalks(k);
  }

  lemma DivideNoBits(crc: bv64, c: bv8)
    ensures DivideBits(crc, c, 0) == crc
  {
  }

  lemma DivideNextBit(crc: bv64, c: bv8, k: nat)
    requires k < 8
    ensures DivideBits(crc, c, k + 1) == DivideBit(DivideBits(crc, c, k), Meets(c, Walking(k)))
  {
    hide DivideBit, Mask;
  }

  /** _crc64. */
  method BitwiseCrc64(start: bv64, data: seq<bv8>) returns (r: bv64)
    ensures r == Reflect(Divide(start, data))
  {
    hide Reflect, DivideBits;
    var crc := start;
    var offset := 0;
    while offset < |data|
      invariant 0 <= offset <= |data|
      invariant crc == Divide(start, data[..offset])
    {
      crc := DivideByte(crc, data[offset]);
      assert data[..offset + 1][..offset] == data[..offset];
      offset := offset + 1;
    }
    assert data[..offset] == data;
    r := CrcReflect(crc);
  }

  // ---------------------------------------------------------------------------------------------------------
  // The check value
  // ---------------------------------------------------------------------------------------------------------

  lemma OneByte(crc: bv64, c: bv8, out: bv64, data: seq<bv8>)
    requires Divide(0, data) == crc && DivideBits(crc, c, 8) == out
    ensures Divide(0, data + [c]) == out
  {
    hide DivideBits;
    assert (data + [c])[..|data|] == data;
  }

  lemma Digit1()
    ensures DivideBits(0x0000000000000000, 49, 8) == 0x5f9cef95218e83bf
  {
  }

  lemma Digit2()
    ensures DivideBits(0x5f9cef95218e83bf, 50, 8) == 0x69b7195c8a26c087
  {
  }

  lemma Digit3()
    ensures DivideBits(0x69b7195c8a26c087, 51, 8) == 0x358d9e2281df3dab
  {
  }

  lemma Digit4()
    ensures DivideBits(0x358d9e2281df3dab, 52, 8) == 0x0f84a5b3ba3c9ac2
  {
  }

  lemma Digit5()
    ensures DivideBits(0x0f84a5b3ba3c9ac2, 53, 8) == 0xb07e39c4c8a1ae0f
  {
  }

  lemma Digit6()
    ensures DivideBits(0xb07e39c4c8a1ae0f, 54, 8) == 0xc092d54da49095c5
  {
  }

  lemma Digit7()
    ensures DivideBits(0xc092d54da49095c5, 55, 8) == 0xa2b58c246cb241e2
  {
  }

  lemma Digit8()
    ensures DivideBits(0xa2b58c246cb241e2, 56, 8) == 0x43b617a8cd043792
  {
  }

  lemma Digit9()
    ensures DivideBits(0x43b617a8cd043792, 57, 8) == 0x539b1d23289b6397
  {
  }

  lemma NoBytes(data: seq<bv8>)
    requires data == []
    ensures Divide(0, data) == 0
  {
  }

  lemma LastReflected()
    ensures Reflect(0x539b1d23289b6397) == 0xe9c6d914c4b8d9ca
  {
  }

  /** "123456789" */
  const DIGITS: seq<bv8> := [49, 50, 51, 52, 53, 54, 55, 56, 57]

  /** The value that the generated code documents for it. */
  lemma CheckValue()
    ensures Reflect(Divide(0, DIGITS)) == 0xe9c6d914c4b8d9ca
  {
    hide Divide, DivideBits, Reflect;
    NoBytes(DIGITS[..0]);
    Digit1();
    OneByte(0x0000000000000000, 49, 0x5f9cef95218e83bf, DIGITS[..0]);
    assert DIGITS[..0] + [49] == DIGITS[..1];
    Digit2();
    OneByte(0x5f9cef95218e83bf, 50, 0x69b7195c8a26c087, DIGITS[..1]);
    assert DIGITS[..1] + [50] == DIGITS[..2];
    Digit3();
    OneByte(0x69b7195c8a26c087, 51, 0x358d9e2281df3dab, DIGITS[..2]);
    assert DIGITS[..2] + [51] == DIGITS[..3];
    Digit4();
    OneByte(0x358d9e2281df3dab, 52, 0x0f84a5b3ba3c9ac2, DIGITS[..3]);
    assert DIGITS[..3] + [52] == DIGITS[..4];
    Digit5();
    OneByte(0x0f84a5b3ba3c9ac2, 53, 0xb07e39c4c8a1ae0f, DIGITS[..4]);
    assert DIGITS[..4] + [53] == DIGITS[..5];
    Digit6();
    OneByte(0xb07e39c4c8a1ae0f, 54, 0xc092d54da49095c5, DIGITS[..5]);
    assert DIGITS[..5] + [54] == DIGITS[..6];
    Digit7();
    OneByte(0xc092d54da49095c5, 55, 0xa2b58c246cb241e2, DIGITS[..6]);
    assert DIGITS[..6] + [55] == DIGITS[..7];
    Digit8();
    OneByte(0xa2b58c246cb241e2, 56, 0x43b617a8cd043792, DIGITS[..7]);
    assert DIGITS[..7] + [56] == DIGITS[..8];
    Digit9();
    OneByte(0x43b617a8cd043792, 57, 0x539b1d23289b6397, DIGITS[..8]);
    assert DIGITS[..8] + [57] == DIGITS[..9];
    assert DIGITS[..9] == DIGITS;
    LastReflected();
  }
}
