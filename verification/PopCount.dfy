/** redisPopcount: counting bits seven words at a time. */
module PopCount {
  import opened Basics
  import opened ByteBits

  // ---------------------------------------------------------------------------------------------------------
  // What is counted
  // ---------------------------------------------------------------------------------------------------------

  function Bit(b: bv8, k: nat): nat
    requires k < 8
  {
    if Has(b, k) then 1 else 0
  }

  /** The number of bits set in a byte, as the table bitsinbyte gives it. */
  function Ones(b: bv8): nat {
    Bit(b, 0) + Bit(b, 1) + Bit(b, 2) + Bit(b, 3) + Bit(b, 4) + Bit(b, 5) + Bit(b, 6) + Bit(b, 7)
  }

  function Count(s: seq<bv8>): nat {
    if s == [] then 0 else Count(s[..|s| - 1]) + Ones(s[|s| - 1])
  }

  // ---------------------------------------------------------------------------------------------------------
  // Words as numbers
  // ---------------------------------------------------------------------------------------------------------

  function Plus(x: bv32, y: bv32): bv32 { x + y }

  function Pred(x: bv32): bv32 { x - 1 }

  /** The number a word stands for. */
  function Number(x: bv32): nat
    decreases x
  {
    if x == 0 then 0 else 1 + Number(Pred(x))
  }

  lemma PlusPred(x: bv32, y: bv32)
    requires x <= 0xffff && 0 < y <= 0xffff
    ensures Plus(x, y) != 0 && Pred(Plus(x, y)) == Plus(x, Pred(y)) && Pred(y) < y
  {
  }

  lemma PlusZero(x: bv32)
    ensures Plus(x, 0) == x
  {
  }

  lemma {:induction false} NumberAdd(x: bv32, y: bv32)
    requires x <= 0xffff && y <= 0xffff
    ensures Number(Plus(x, y)) == Number(x) + Number(y)
    decreases y
  {
    hide Plus, Pred;
    if y == 0 {
      PlusZero(x);
    } else {
      PlusPred(x, y);
      NumberAdd(x, Pred(y));
    }
  }

  // ---------------------------------------------------------------------------------------------------------
  // One word
  // ---------------------------------------------------------------------------------------------------------

  /** Four bytes as a little-endian machine loads them. */
  function Load(a: bv8, b: bv8, c: bv8, d: bv8): bv32 {
    (a as bv32) | ((b as bv32) << 8) | ((c as bv32) << 16) | ((d as bv32) << 24)
  }

  /** The counting of one word: pairs, nibbles, bytes. */
  function Lanes(w: bv32): bv32 {
    var a := w - ((w >> 1) & 0x55555555);
    var c := (a & 0x33333333) + ((a >> 2) & 0x33333333);
    (c + (c >> 4)) & 0x0F0F0F0F
  }

  /** A digit of a byte. */
  function Shifted(b: bv32, k: nat): bv32
    requires k < 8
  {
    match k
    case 0 => b & 1
    case 1 => (b >> 1) & 1
    case 2 => (b >> 2) & 1
    case 3 => (b >> 3) & 1
    case 4 => (b >> 4) & 1
    case 5 => (b >> 5) & 1
    case 6 => (b >> 6) & 1
    case _ => (b >> 7) & 1
  }

  function Pop(b: bv32): bv32 {
    Plus(Plus(Plus(Plus(Plus(Plus(Plus(Shifted(b, 0), Shifted(b, 1)), Shifted(b, 2)), Shifted(b, 3)), Shifted(b, 4)),
      Shifted(b, 5)), Shifted(b, 6)), Shifted(b, 7))
  }

  function B0(x: bv32): bv32 { x & 0xff }
  function B1(x: bv32): bv32 { (x >> 8) & 0xff }
  function B2(x: bv32): bv32 { (x >> 16) & 0xff }
  function B3(x: bv32): bv32 { (x >> 24) & 0xff }

  /** Every byte of the result counts the byte it stands for. */
  lemma LanesCount(w: bv32)
    ensures B0(Lanes(w)) == Pop(B0(w)) && B1(Lanes(w)) == Pop(B1(w))
    ensures B2(Lanes(w)) == Pop(B2(w)) && B3(Lanes(w)) == Pop(B3(w))
  {
    hide Lanes, Pop, B0, B1, B2, B3;
    Lane0(w);
    Lane1(w);
    Lane2(w);
    Lane3(w);
  }

  lemma Lane0(w: bv32)
    ensures B0(Lanes(w)) == Pop(B0(w))
  {
  }

  lemma Lane1(w: bv32)
    ensures B1(Lanes(w)) == Pop(B1(w))
  {
  }

  lemma Lane2(w: bv32)
    ensures B2(Lanes(w)) == Pop(B2(w))
  {
  }

  lemma Lane3(w: bv32)
    ensures B3(Lanes(w)) == Pop(B3(w))
  {
  }

  lemma LoadedBytes(a: bv8, b: bv8, c: bv8, d: bv8)
    ensures B0(Load(a, b, c, d)) == a as bv32 && B1(Load(a, b, c, d)) == b as bv32
    ensures B2(Load(a, b, c, d)) == c as bv32 && B3(Load(a, b, c, d)) == d as bv32
  {
  }

  function Digit(b: bv8, k: nat): bv32
    requires k < 8
  {
    if Has(b, k) then 1 else 0
  }

  lemma DigitIs(b: bv8, k: nat)
    requires k < 8
    ensures Shifted(b as bv32, k) == Digit(b, k)
  {
    match k
    case 0 =>
    case 1 =>
    case 2 =>
    case 3 =>
    case 4 =>
    case 5 =>
    case 6 =>
    case _ =>
  }

  lemma PopIsDigits(b: bv8)
    ensures Pop(b as bv32)
            == Plus(Plus(Plus(Plus(Plus(Plus(Plus(Digit(b, 0), Digit(b, 1)), Digit(b, 2)), Digit(b, 3)), Digit(b, 4)),
                    Digit(b, 5)), Digit(b, 6)), Digit(b, 7))
  {
    hide Plus, Digit, Shifted;
    DigitIs(b, 0);
    DigitIs(b, 1);
    DigitIs(b, 2);
    DigitIs(b, 3);
    DigitIs(b, 4);
    DigitIs(b, 5);
    DigitIs(b, 6);
    DigitIs(b, 7);
  }

  lemma AddDigit(x: bv32, b: bv8, k: nat, m: bv32)
    requires k < 8 && x <= m && m <= 8
    ensures Number(Plus(x, Digit(b, k))) == Number(x) + Bit(b, k) && Plus(x, Digit(b, k)) <= Plus(m, 1)
  {
    hide Has;
    NumberAdd(x, Digit(b, k));
  }

  lemma PopCounts(b: bv8)
    ensures Number(Pop(b as bv32)) == Ones(b)
  {
    hide Number, Plus, Pop, Digit, Bit;
    PopIsDigits(b);
    var x1 := Plus(Digit(b, 0), Digit(b, 1));
    var x2 := Plus(x1, Digit(b, 2));
    var x3 := Plus(x2, Digit(b, 3));
    var x4 := Plus(x3, Digit(b, 4));
    var x5 := Plus(x4, Digit(b, 5));
    var x6 := Plus(x5, Digit(b, 6));
    FirstDigit(b);
    AddDigit(Digit(b, 0), b, 1, 1);
    PlusOnes();
    AddDigit(x1, b, 2, 2);
    AddDigit(x2, b, 3, 3);
    AddDigit(x3, b, 4, 4);
    AddDigit(x4, b, 5, 5);
    AddDigit(x5, b, 6, 6);
    AddDigit(x6, b, 7, 7);
  }

  lemma FirstDigit(b: bv8)
    ensures Number(Digit(b, 0)) == Bit(b, 0) && Digit(b, 0) <= 1
  {
    hide Has;
    assert Number(1) == 1 + Number(Pred(1));
  }

  lemma PlusOnes()
    ensures Plus(1, 1) == 2 && Plus(2, 1) == 3 && Plus(3, 1) == 4 && Plus(4, 1) == 5 && Plus(5, 1) == 6 && Plus(6, 1) == 7
  {
  }

  // ---------------------------------------------------------------------------------------------------------
  // Seven words
  // ---------------------------------------------------------------------------------------------------------

  /** Four byte lanes as one number. */
  function Pack(c0: int, c1: int, c2: int, c3: int): int { c0 + 0x100 * c1 + 0x10000 * c2 + 0x1000000 * c3 }

  /** The number a word stands for, byte by byte. */
  function Value(x: bv32): int {
    Pack(Number(B0(x)), Number(B1(x)), Number(B2(x)), Number(B3(x)))
  }

  lemma WordValue(a: bv8, b: bv8, c: bv8, d: bv8)
    ensures Value(Lanes(Load(a, b, c, d))) == Pack(Ones(a), Ones(b), Ones(c), Ones(d))
  {
    hide B0, B1, B2, B3, Lanes, Load, Pop, Number, Ones;
    LanesCount(Load(a, b, c, d));
    LoadedBytes(a, b, c, d);
    PopCounts(a);
    PopCounts(b);
    PopCounts(c);
    PopCounts(d);
  }

  lemma OnesBound(b: bv8)
    ensures Ones(b) <= 8
  {
    hide Has;
  }

  /** The multiply and shift: with lanes of at most 56 the top byte of the 32-bit product is their sum. */
  lemma MultiplyShift(c0: int, c1: int, c2: int, c3: int)
    requires 0 <= c0 <= 56 && 0 <= c1 <= 56 && 0 <= c2 <= 56 && 0 <= c3 <= 56
    ensures ((Pack(c0, c1, c2, c3) * 0x01010101) % TWO_32) / 0x1000000 == c0 + c1 + c2 + c3
  {
    var low := c0 + 0x100 * (c0 + c1) + 0x10000 * (c0 + c1 + c2);
    var high := (c1 + c2 + c3) + 0x100 * (c2 + c3) + 0x10000 * c3;
    assert Pack(c0, c1, c2, c3) * 0x01010101 == TWO_32 * high + 0x1000000 * (c0 + c1 + c2 + c3) + low;
    TopByte(high, c0 + c1 + c2 + c3, low);
  }

  lemma TopByte(high: int, top: int, low: int)
    requires 0 <= top < 256 && 0 <= low < 0x1000000
    ensures ((TWO_32 * high + 0x1000000 * top + low) % TWO_32) / 0x1000000 == top
  {
    assert (TWO_32 * high + 0x1000000 * top + low) % TWO_32 == 0x1000000 * top + low;
  }

  lemma CountQuad(s: seq<bv8>, i: nat)
    requires i + 4 <= |s|
    ensures Count(s[..i + 4]) == Count(s[..i]) + Ones(s[i]) + Ones(s[i + 1]) + Ones(s[i + 2]) + Ones(s[i + 3])
  {
    hide Ones;
    CountNext(s, i);
    CountNext(s, i + 1);
    CountNext(s, i + 2);
    CountNext(s, i + 3);
  }

  lemma CountNext(s: seq<bv8>, i: nat)
    requires i < |s|
    ensures Count(s[..i + 1]) == Count(s[..i]) + Ones(s[i])
  {
    hide Ones;
    assert s[..i + 1][..i] == s[..i];
  }

  /** One round of the main loop: 28 bytes. No lane overflows, and neither does the product's top byte. */
  method CountRound(s: seq<bv8>, i: nat) returns (bits: nat)
    requires i + 28 <= |s|
    ensures Count(s[..i + 28]) == Count(s[..i]) + bits
  {
    hide Lanes, Load, Ones, Value, Count, Pack;
    var total := 0;
    ghost var c0, c1, c2, c3 := 0, 0, 0, 0;
    PackNothing();
    for j := 0 to 7
      invariant 0 <= c0 <= 8 * j && 0 <= c1 <= 8 * j && 0 <= c2 <= 8 * j && 0 <= c3 <= 8 * j
      invariant total == Pack(c0, c1, c2, c3)
      invariant Count(s[..i + 4 * j]) == Count(s[..i]) + (c0 + c1 + c2 + c3)
    {
      var k := i + 4 * j;
      var a, b, c, d := s[k], s[k + 1], s[k + 2], s[k + 3];
      CountQuad(s, k);
      WordValue(a, b, c, d);
      OnesBound(a); OnesBound(b); OnesBound(c); OnesBound(d);
      PackAdds(c0, c1, c2, c3, Ones(a), Ones(b), Ones(c), Ones(d));
      total := (total + Value(Lanes(Load(a, b, c, d)))) % TWO_32;
      c0, c1, c2, c3 := c0 + Ones(a), c1 + Ones(b), c2 + Ones(c), c3 + Ones(d);
    }
    MultiplyShift(c0, c1, c2, c3);
    bits := ((total * 0x01010101) % TWO_32) / 0x1000000;
  }

  lemma PackNothing()
    ensures Pack(0, 0, 0, 0) == 0
  {
  }

  lemma PackAdds(c0: int, c1: int, c2: int, c3: int, d0: int, d1: int, d2: int, d3: int)
    requires 0 <= c0 <= 48 && 0 <= c1 <= 48 && 0 <= c2 <= 48 && 0 <= c3 <= 48
    requires 0 <= d0 <= 8 && 0 <= d1 <= 8 && 0 <= d2 <= 8 && 0 <= d3 <= 8
    ensures (Pack(c0, c1, c2, c3) + Pack(d0, d1, d2, d3)) % TWO_32 == Pack(c0 + d0, c1 + d1, c2 + d2, c3 + d3)
  {
  }

  /** redisPopcount: unaligned bytes, rounds of 28 bytes, the rest. */
  method Popcount(s: seq<bv8>, addr: nat) returns (bits: nat)
    ensures bits == Count(s)
  {
    hide Count, Ones;
    bits := 0;
    var i, count := 0, |s|;
    CountNothing(s);
    while (addr + i) % 4 != 0 && count > 0
      invariant i + count == |s| && 0 <= count && bits == Count(s[..i])
      decreases count
    {
      CountNext(s, i);
      bits := bits + Ones(s[i]);
      i, count := i + 1, count - 1;
    }
    while count >= 28
      invariant i + count == |s| && 0 <= count && bits == Count(s[..i])
    {
      var more := CountRound(s, i);
      bits := bits + more;
      i, count := i + 28, count - 28;
    }
    while count > 0
      invariant i + count == |s| && 0 <= count && bits == Count(s[..i])
    {
      CountNext(s, i);
      bits := bits + Ones(s[i]);
      i, count := i + 1, count - 1;
    }
    assert s[..i] == s;
  }

  lemma CountNothing(s: seq<bv8>)
    ensures Count(s[..0]) == 0
  {
  }
}
