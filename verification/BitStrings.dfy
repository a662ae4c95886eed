/** Bitmaps as bit strings, and integers read from and written to them. */
module BitStrings {
  import opened ByteBits

  // ---------------------------------------------------------------------------------------------------------
  // Powers of two
  // ---------------------------------------------------------------------------------------------------------

  function Pow2(k: nat): (p: nat)
    ensures 0 < p
  {
    if k == 0 then 1 else 2 * Pow2(k - 1)
  }

  lemma {:induction false} Pow2Add(a: nat, b: nat)
    ensures Pow2(a + b) == Pow2(a) * Pow2(b)
  {
    if a > 0 {
      Pow2Add(a - 1, b);
      assert Pow2(a + b) == 2 * Pow2(a - 1 + b);
      assert 2 * (Pow2(a - 1) * Pow2(b)) == (2 * Pow2(a - 1)) * Pow2(b);
    }
  }

  lemma Multiples(m: int, d: int)
    requires 0 < m
    ensures d >= 1 ==> m * d >= m
    ensures d <= -1 ==> m * d <= -m
  {
  }

  lemma ModUnique(x: int, m: int, q: int, r: int)
    requires 0 <= r < m && x == q * m + r
    ensures x % m == r
  {
    var d := q - x / m;
    assert m * d == x % m - r by {
      assert x == m * (x / m) + x % m;
      assert m * d == m * q - m * (x / m);
    }
    Multiples(m, d);
  }

  /** Adding a multiple does not change a remainder. */
  lemma ModShift(x: int, m: int, t: int)
    requires 0 < m
    ensures (x + t * m) % m == x % m
  {
    assert x == m * (x / m) + x % m;
    assert x + t * m == (x / m + t) * m + x % m;
    ModUnique(x + t * m, m, x / m + t, x % m);
  }

  lemma ModHalves(v: nat, p: nat)
    requires 0 < p
    ensures v % (2 * p) == 2 * ((v / 2) % p) + v % 2
  {
    var h := v / 2;
    var q, r := h / p, h % p;
    assert h == p * q + r;
    assert v == q * (2 * p) + (2 * r + v % 2);
    ModUnique(v, 2 * p, q, 2 * r + v % 2);
  }

  lemma ModOfMod(x: int, m: int, k: int)
    requires 0 < m && 0 < k
    ensures 0 < m * k && (x % (m * k)) % m == x % m
  {
    var n := m * k;
    assert 0 < n;
    var q, r := x / n, x % n;
    assert x == n * q + r;
    assert n * q == (k * q) * m by { Regroup(m, k, q); }
    ModShift(r, m, k * q);
  }

  lemma Regroup(m: int, k: int, q: int)
    ensures (m * k) * q == (k * q) * m
  {
  }

  /** Reducing modulo 2^b first does not matter when a <= b. */
  lemma ModPow2(x: int, a: nat, b: nat)
    requires a <= b
    ensures (x % Pow2(b)) % Pow2(a) == x % Pow2(a)
  {
    hide Pow2;
    Pow2Add(a, b - a);
    ModOfMod(x, Pow2(a), Pow2(b - a));
  }

  // ---------------------------------------------------------------------------------------------------------
  // Bits
  // ---------------------------------------------------------------------------------------------------------

  /** Bit k of a number. */
  function Digit(v: nat, k: nat): (d: nat)
    ensures d <= 1
  {
    if k == 0 then v % 2 else Digit(v / 2, k - 1)
  }

  /** Bit p of a bitmap: bit 0 is the most significant bit of the first byte. */
  function BitAt(s: seq<bv8>, p: nat): (d: nat)
    requires p < 8 * |s|
    ensures d <= 1
  {
    if Has(s[p / 8], 7 - p % 8) then 1 else 0
  }

  /** The bit string of a bitmap. */
  ghost function Bits(s: seq<bv8>): (b: seq<nat>)
    ensures |b| == 8 * |s| && forall p: nat | p < 8 * |s| :: b[p] == BitAt(s, p)
  {
    seq(8 * |s|, p requires 0 <= p < 8 * |s| => BitAt(s, p))
  }

  // ---------------------------------------------------------------------------------------------------------
  // Fields
  // ---------------------------------------------------------------------------------------------------------

  /** Beyond its end a bit string is zero. */
  function At(b: seq<nat>, p: nat): nat {
    if p < |b| then b[p] else 0
  }

  /** The n bits from offset on, as an unsigned number. */
  function Read(b: seq<nat>, offset: nat, n: nat): nat {
    if n == 0 then 0 else 2 * Read(b, offset, n - 1) + At(b, offset + n - 1)
  }

  /** The low n bits of v put there. */
  ghost function Write(b: seq<nat>, offset: nat, n: nat, v: nat): (r: seq<nat>)
    ensures |r| == |b|
  {
    seq(|b|, p requires 0 <= p < |b| => if offset <= p < offset + n then Digit(v, n - 1 - (p - offset)) else b[p])
  }

  lemma {:induction false} ReadBound(b: seq<nat>, offset: nat, n: nat)
    requires forall p | 0 <= p < |b| :: b[p] <= 1
    ensures Read(b, offset, n) < Pow2(n)
  {
    if n > 0 { ReadBound(b, offset, n - 1); }
  }

  lemma {:induction false} ReadDigits(b: seq<nat>, offset: nat, n: nat, v: nat)
    requires offset + n <= |b| && forall p | offset <= p < offset + n :: b[p] == Digit(v, n - 1 - (p - offset))
    ensures Read(b, offset, n) == v % Pow2(n)
  {
    hide Digit;
    if n > 0 {
      forall p | offset <= p < offset + (n - 1) ensures b[p] == Digit(v / 2, n - 2 - (p - offset)) {
        DigitHalf(v, n - 1 - (p - offset));
      }
      ReadDigits(b, offset, n - 1, v / 2);
      LastBit(b, offset, n, v);
      ModHalves(v, Pow2(n - 1));
    }
  }

  lemma LastBit(b: seq<nat>, offset: nat, n: nat, v: nat)
    requires 0 < n && offset + n <= |b| && b[offset + n - 1] == Digit(v, 0)
    ensures Read(b, offset, n) == 2 * Read(b, offset, n - 1) + v % 2
  {
  }

  lemma DigitHalf(v: nat, k: nat)
    requires 0 < k
    ensures Digit(v, k) == Digit(v / 2, k - 1)
  {
  }

  /** What is written is read back, reduced to the width, and no bit outside the field changes. */
  lemma ReadWrite(b: seq<nat>, offset: nat, n: nat, v: nat)
    requires offset + n <= |b|
    ensures Read(Write(b, offset, n, v), offset, n) == v % Pow2(n)
    ensures forall p: nat | !(offset <= p < offset + n) :: At(Write(b, offset, n, v), p) == At(b, p)
  {
    ReadDigits(Write(b, offset, n, v), offset, n, v);
  }

  /** A field that does not overlap reads as before. */
  lemma {:induction false} ReadElsewhere(b: seq<nat>, offset: nat, n: nat, v: nat, o: nat, m: nat)
    requires o + m <= offset || offset + n <= o
    ensures Read(Write(b, offset, n, v), o, m) == Read(b, o, m)
  {
    if m > 0 { ReadElsewhere(b, offset, n, v, o, m - 1); }
  }
}
