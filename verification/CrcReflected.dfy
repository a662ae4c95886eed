/** The division of crc64.c carried out on the reflected register. A step is linear over xor, so a data byte can be
    entered at once, and the effect of every byte of a word can be looked up on its own. */
module CrcReflected {
  import opened ByteBits
  import opened Crc64

  // The word operations, named so that proofs can reason about them without looking at bits.

  function Xor(a: bv64, b: bv64): bv64 { a ^ b }

  function Shr1(r: bv64): bv64 { r >> 1 }

  function Shr8(r: bv64): bv64 { r >> 8 }

  predicate Odd(r: bv64) { r & 1 != 0 }

  function Wide(c: bv8): bv64 { c as bv64 }

  function Low(x: bv64): bv8 { (x & 0xff) as bv8 }

  lemma BitXorAssociates(a: bv64, b: bv64, c: bv64)
    ensures (a ^ b) ^ c == a ^ (b ^ c)
  {
  }

  lemma BitXor(a: bv64, b: bv64)
    ensures a ^ b == b ^ a
    ensures (a ^ b) ^ b == a
    ensures a ^ 0 == a
  {
  }

  lemma XorCommutes(a: bv64, b: bv64)
    ensures Xor(a, b) == Xor(b, a)
  {
    BitXor(a, b);
  }

  lemma XorLeft(a: bv64, b: bv64, c: bv64)
    ensures Xor(Xor(a, b), c) == (a ^ b) ^ c
  {
  }

  lemma XorRight(a: bv64, b: bv64, c: bv64)
    ensures Xor(a, Xor(b, c)) == a ^ (b ^ c)
  {
  }

  lemma XorAssociates(a: bv64, b: bv64, c: bv64)
    ensures Xor(Xor(a, b), c) == Xor(a, Xor(b, c))
  {
    hide Xor;
    XorLeft(a, b, c);
    XorRight(a, b, c);
    BitXorAssociates(a, b, c);
  }

  lemma XorCancels(a: bv64, b: bv64)
    ensures Xor(Xor(a, b), b) == a
    ensures Xor(a, 0) == a
  {
    BitXor(a, b);
  }

  lemma XorLaws(a: bv64, b: bv64, c: bv64)
    ensures Xor(a, b) == Xor(b, a)
    ensures Xor(Xor(a, b), c) == Xor(a, Xor(b, c))
    ensures Xor(Xor(a, b), b) == a
    ensures Xor(a, 0) == a
  {
    hide Xor;
    XorCommutes(a, b);
    XorAssociates(a, b, c);
    XorCancels(a, b);
  }

  lemma XorPairs(a: bv64, b: bv64, p: bv64)
    ensures Xor(Xor(a, p), Xor(b, p)) == Xor(a, b)
    ensures Xor(Xor(a, p), b) == Xor(Xor(a, b), p)
    ensures Xor(a, Xor(b, p)) == Xor(Xor(a, b), p)
  {
    hide Xor;
    XorLaws(a, p, b);
    XorLaws(p, b, 0);
    XorLaws(a, b, p);
    XorLaws(Xor(a, b), p, p);
    XorLaws(Xor(a, p), b, p);
  }

  lemma Shr1Xor(x: bv64, y: bv64)
    ensures Shr1(Xor(x, y)) == Xor(Shr1(x), Shr1(y))
  {
    assert (x ^ y) >> 1 == (x >> 1) ^ (y >> 1);
  }

  lemma OddXor(x: bv64, y: bv64)
    ensures Odd(Xor(x, y)) == (Odd(x) != Odd(y))
  {
    assert (x ^ y) & 1 == (x & 1) ^ (y & 1);
  }

  // ---------------------------------------------------------------------------------------------------------
  // Steps and their linearity
  // ---------------------------------------------------------------------------------------------------------

  /** One step with a zero data bit: shift right, and subtract the reflected polynomial when a one falls out. */
  function Shift1(r: bv64): bv64 {
    if Odd(r) then Xor(Shr1(r), REFLECTED_POLY) else Shr1(r)
  }

  function Shift(r: bv64, n: nat): bv64 {
    if n == 0 then r else Shift1(Shift(r, n - 1))
  }

  lemma Shift1Linear(x: bv64, y: bv64)
    ensures Shift1(Xor(x, y)) == Xor(Shift1(x), Shift1(y))
  {
    hide Xor, Odd, Shr1;
    Shr1Xor(x, y);
    OddXor(x, y);
    XorPairs(Shr1(x), Shr1(y), REFLECTED_POLY);
  }

  lemma {:induction false} ShiftLinear(x: bv64, y: bv64, n: nat)
    ensures Shift(Xor(x, y), n) == Xor(Shift(x, n), Shift(y, n))
  {
    hide Shift1, Xor;
    if n != 0 {
      ShiftLinear(x, y, n - 1);
      Shift1Linear(Shift(x, n - 1), Shift(y, n - 1));
    }
  }

  lemma {:induction false} ShiftAdds(r: bv64, m: nat, n: nat)
    ensures Shift(r, m + n) == Shift(Shift(r, m), n)
    decreases n
  {
    hide Shift1;
    if n != 0 {
      ShiftAdds(r, m, n - 1);
    }
  }

  lemma Shift1Zero()
    ensures Shift1(0) == 0
  {
  }

  lemma {:induction false} ShiftZero(n: nat)
    ensures Shift(0, n) == 0
  {
    hide Shift1;
    Shift1Zero();
    if n != 0 {
      ShiftZero(n - 1);
    }
  }

  // ---------------------------------------------------------------------------------------------------------
  // Steps on which only zeros fall out
  // ---------------------------------------------------------------------------------------------------------

  function Shr(r: bv64, n: nat): bv64 {
    if n == 0 then r else Shr1(Shr(r, n - 1))
  }

  lemma ShrIs(r: bv64)
    ensures Shr(r, 0) == r && Shr(r, 1) == r >> 1 && Shr(r, 2) == r >> 2
    ensures Shr(r, 3) == r >> 3 && Shr(r, 4) == r >> 4 && Shr(r, 5) == r >> 5
    ensures Shr(r, 6) == r >> 6 && Shr(r, 7) == r >> 7 && Shr(r, 8) == r >> 8
  {
    assert Shr(r, 0) == r;
    assert Shr(r, 1) == r >> 1;
    assert Shr(r, 2) == r >> 2;
    assert Shr(r, 3) == r >> 3;
    assert Shr(r, 4) == r >> 4;
    assert Shr(r, 5) == r >> 5;
    assert Shr(r, 6) == r >> 6;
    assert Shr(r, 7) == r >> 7;
    assert Shr(r, 8) == r >> 8;
  }

  lemma EvenBelow(y: bv64, k: nat)
    requires Low(y) == 0 && k < 8
    ensures !Odd(Shr(y, k))
  {
    hide Shr;
    ShrIs(y);
  }

  lemma {:induction false} ShiftOfEvens(y: bv64, k: nat)
    requires Low(y) == 0 && k <= 8
    ensures Shift(y, k) == Shr(y, k)
  {
    hide Xor, Odd, Shr1, Low;
    if k != 0 {
      ShiftOfEvens(y, k - 1);
      EvenBelow(y, k - 1);
    }
  }

  lemma ShiftClear(y: bv64)
    requires Low(y) == 0
    ensures Shift(y, 8) == Shr8(y)
  {
    hide Shift, Shr;
    ShiftOfEvens(y, 8);
    ShrIs(y);
  }

  function Shl8(x: bv64): bv64 { x << 8 }

  lemma SplitLowByte(x: bv64)
    ensures x == Xor(Wide(Low(x)), Shl8(Shr8(x)))
    ensures Low(Shl8(Shr8(x))) == 0 && Shr8(Shl8(Shr8(x))) == Shr8(x)
  {
  }

  /** The low byte alone decides which multiple of the polynomial eight steps subtract. */
  lemma ShiftByLowByte(x: bv64)
    ensures Shift(x, 8) == Xor(Shift(Wide(Low(x)), 8), Shr8(x))
  {
    hide Shift, Xor, Wide, Low, Shl8, Shr8;
    SplitLowByte(x);
    ShiftLinear(Wide(Low(x)), Shl8(Shr8(x)), 8);
    ShiftClear(Shl8(Shr8(x)));
  }

  // ---------------------------------------------------------------------------------------------------------
  // The reflected register follows the division
  // ---------------------------------------------------------------------------------------------------------

  function Unit(d: bool): bv64 {
    if d then 1 else 0
  }

  lemma XorUnit(r: bv64, d: bool)
    ensures Shr1(Xor(r, Unit(d))) == Shr1(r)
    ensures Odd(Xor(r, Unit(d))) == (Odd(r) != d)
  {
  }

  lemma DivideBitOut(crc: bv64, d: bool)
    ensures Reflect(DivideBit(crc, d)) == if Odd(Reflect(crc)) != d then Reflect((crc << 1) ^ POLY) else Reflect(crc << 1)
  {
    hide Reflect;
    ReflectShift(crc);
  }

  lemma ReflectOut(crc: bv64)
    ensures Reflect(crc << 1) == Shr1(Reflect(crc))
  {
    hide Reflect;
    ReflectShift(crc);
  }

  lemma ReflectSubtract(x: bv64)
    ensures Reflect(x ^ POLY) == Xor(Reflect(x), REFLECTED_POLY)
  {
    hide Reflect;
    ReflectXor(x, POLY);
    ReflectPoly();
  }

  lemma DivideBitCases(crc: bv64, d: bool)
    ensures Reflect(DivideBit(crc, d)) ==
            if Odd(Reflect(crc)) != d then Xor(Shr1(Reflect(crc)), REFLECTED_POLY) else Shr1(Reflect(crc))
  {
    hide Reflect, DivideBit, Odd, Xor, Shr1;
    DivideBitOut(crc, d);
    ReflectOut(crc);
    ReflectSubtract(crc << 1);
  }

  lemma DivideBitReflected(crc: bv64, d: bool)
    ensures Reflect(DivideBit(crc, d)) == Shift1(Xor(Reflect(crc), Unit(d)))
  {
    hide Reflect, DivideBit, Xor, Odd, Shr1, Unit;
    DivideBitCases(crc, d);
    XorUnit(Reflect(crc), d);
  }

  lemma NextBit(c: bv8, k: nat)
    requires k < 8
    ensures Unit(Has(c, k)) == Unit(Odd(Shr(Wide(c), k)))
  {
    hide Shr;
    ShrIs(Wide(c));
  }

  lemma DropLowBit(rest: bv64)
    ensures var even := Xor(rest, Unit(Odd(rest))); !Odd(even) && Shr1(even) == Shr1(rest)
  {
  }

  lemma CarryRest(s: bv64, rest: bv64)
    ensures Shift1(Xor(Xor(s, rest), Unit(Odd(rest)))) == Xor(Shift1(s), Shr1(rest))
  {
    hide Xor, Odd, Shr1, Unit;
    var even := Xor(rest, Unit(Odd(rest)));
    XorLaws(s, rest, Unit(Odd(rest)));
    DropLowBit(rest);
    Shift1Linear(s, even);
  }

  lemma {:induction false} DivideBitsReflected(crc: bv64, c: bv8, k: nat)
    requires k <= 8
    ensures Reflect(DivideBits(crc, c, k)) == Xor(Shift(Xor(Reflect(crc), Wide(c)), k), Shr(Wide(c), k))
  {
    hide Reflect, DivideBit, Has, Unit, Shift1, Xor, Wide, Shr1, Odd;
    var r := Xor(Reflect(crc), Wide(c));
    if k == 0 {
      XorLaws(Reflect(crc), Wide(c), 0);
    } else {
      DivideBitsReflected(crc, c, k - 1);
      DivideBitReflected(DivideBits(crc, c, k - 1), Has(c, k - 1));
      NextBit(c, k - 1);
      CarryRest(Shift(r, k - 1), Shr(Wide(c), k - 1));
    }
  }

  lemma ByteRunsOut(c: bv8)
    ensures Shr(Wide(c), 8) == 0
  {
    hide Shr;
    ShrIs(Wide(c));
  }

  /** Entering a byte bit by bit is one xor and eight shifts of the reflected register. */
  lemma DivideByteReflected(crc: bv64, c: bv8)
    ensures Reflect(DivideBits(crc, c, 8)) == Shift(Xor(Reflect(crc), Wide(c)), 8)
  {
    hide Reflect, DivideBits, Shift, Shr, Xor, Wide;
    DivideBitsReflected(crc, c, 8);
    ByteRunsOut(c);
    XorLaws(Shift(Xor(Reflect(crc), Wide(c)), 8), 0, 0);
  }

  /** The reflected register after a buffer. */
  function Update(r: bv64, data: seq<bv8>): bv64 {
    if data == [] then r else Shift(Xor(Update(r, data[..|data| - 1]), Wide(data[|data| - 1])), 8)
  }

  /** Dividing and then reflecting is updating the reflected register. */
  lemma {:induction false} UpdateIsReflectedDivision(crc: bv64, data: seq<bv8>)
    ensures Update(Reflect(crc), data) == Reflect(Divide(crc, data))
    decreases |data|
  {
    hide Reflect, DivideBits, Shift, Xor, Wide;
    if data != [] {
      UpdateIsReflectedDivision(crc, data[..|data| - 1]);
      DivideByteReflected(Divide(crc, data[..|data| - 1]), data[|data| - 1]);
    }
  }

  lemma {:induction false} UpdateConcat(r: bv64, a: seq<bv8>, b: seq<bv8>)
    ensures Update(r, a + b) == Update(Update(r, a), b)
    decreases |b|
  {
    hide Shift, Xor, Wide;
    if b == [] {
      assert a + b == a;
    } else {
      var b' := b[..|b| - 1];
      assert (a + b)[..|a + b| - 1] == a + b';
      UpdateConcat(r, a, b');
    }
  }
}
