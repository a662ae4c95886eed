/** What the division of crc64.c divides: polynomials over GF(2), given as the set of exponents whose coefficient is one. */
module CrcPolynomial {
  import opened ByteBits
  import opened Crc64

  type Poly = set<nat>

  function Add(a: Poly, b: Poly): Poly { (a - b) + (b - a) }

  function TimesX(a: Poly): Poly { set e | e in a :: e + 1 }

  /** a times x to the n. */
  function Raised(a: Poly, n: nat): Poly { set e | e in a :: e + n }

  /** The product of p with the polynomial whose coefficients are listed, highest first, by Horner's rule. */
  function Times(q: seq<bool>, p: Poly): Poly {
    if q == [] then {} else Add(TimesX(Times(q[..|q| - 1], p)), if q[|q| - 1] then p else {})
  }

  const ONE: Poly := {0}

  /** The polynomial with these coefficients, highest first. */
  function PolyOf(bits: seq<bool>): Poly { Times(bits, ONE) }

  // ---------------------------------------------------------------------------------------------------------
  // Registers
  // ---------------------------------------------------------------------------------------------------------

  predicate Top(x: bv64) { x & 0x8000000000000000 != 0 }

  function Up(x: bv64): bv64 { x << 1 }

  function Sum(x: bv64, y: bv64): bv64 { x ^ y }

  function Ups(x: bv64, n: nat): bv64
    decreases n
  {
    if n == 0 then x else Ups(Up(x), n - 1)
  }

  /** Bit e of a register is the coefficient of x to the e. */
  predicate Coefficient(x: bv64, e: nat)
    requires e < 64
  {
    Top(Ups(x, 63 - e))
  }

  function Of(x: bv64): Poly {
    set e: nat | e < 64 && Coefficient(x, e)
  }

  /** The generator: POLY with the leading coefficient that the register has no room for. */
  function Generator(): Poly { Add({64}, Of(POLY)) }

  lemma {:induction false} UpsSum(x: bv64, y: bv64, n: nat)
    ensures Ups(Sum(x, y), n) == Sum(Ups(x, n), Ups(y, n))
    decreases n
  {
    hide Up, Sum;
    if n != 0 {
      UpSum(x, y);
      UpsSum(Up(x), Up(y), n - 1);
    }
  }

  lemma UpSum(x: bv64, y: bv64)
    ensures Up(Sum(x, y)) == Sum(Up(x), Up(y))
    ensures Top(Sum(x, y)) == (Top(x) != Top(y))
  {
    BitUpSum(x, y);
  }

  lemma BitUpSum(x: bv64, y: bv64)
    ensures (x ^ y) << 1 == (x << 1) ^ (y << 1)
    ensures ((x ^ y) & 0x8000000000000000 != 0) == ((x & 0x8000000000000000 != 0) != (y & 0x8000000000000000 != 0))
  {
  }

  lemma OfSum(x: bv64, y: bv64)
    ensures Of(Sum(x, y)) == Add(Of(x), Of(y))
  {
    hide Sum, Top, Ups;
    forall e: nat | e < 64 ensures Coefficient(Sum(x, y), e) == (Coefficient(x, e) != Coefficient(y, e)) {
      UpsSum(x, y, 63 - e);
      UpSum(Ups(x, 63 - e), Ups(y, 63 - e));
    }
  }

  lemma {:induction false} UpsAdds(x: bv64, m: nat, n: nat)
    ensures Ups(x, m + n) == Ups(Ups(x, m), n)
    decreases m
  {
    hide Up;
    if m != 0 { UpsAdds(Up(x), m - 1, n); }
  }

  lemma Ups2(x: bv64)
    ensures Ups(x, 2) == x << 2
  {
    assert Ups(Up(x), 1) == Ups(Up(Up(x)), 0) == Up(Up(x));
  }

  lemma Ups4(x: bv64)
    ensures Ups(x, 4) == x << 4
  {
    hide Ups;
    Ups2(x);
    Ups2(x << 2);
    UpsAdds(x, 2, 2);
  }

  lemma Ups8(x: bv64)
    ensures Ups(x, 8) == x << 8
  {
    hide Ups;
    Ups4(x);
    Ups4(x << 4);
    UpsAdds(x, 4, 4);
  }

  lemma Ups16(x: bv64)
    ensures Ups(x, 16) == x << 16
  {
    hide Ups;
    Ups8(x);
    Ups8(x << 8);
    UpsAdds(x, 8, 8);
  }

  lemma Ups32(x: bv64)
    ensures Ups(x, 32) == x << 32
  {
    hide Ups;
    Ups16(x);
    Ups16(x << 16);
    UpsAdds(x, 16, 16);
  }

  /** Sixty-four shifts leave nothing. */
  lemma Ups64(x: bv64)
    ensures !Top(Ups(x, 64))
  {
    hide Ups;
    Ups32(x);
    Ups32(x << 32);
    UpsAdds(x, 32, 32);
  }

  /** A shift is a multiplication by x, less what falls out. */
  lemma OfUp(x: bv64)
    ensures Of(Up(x)) == TimesX(Of(x)) - {64}
    ensures 63 in Of(x) <==> Top(x)
  {
    hide Up, Top;
    assert Ups(x, 0) == x;
    forall e: nat ensures e in Of(Up(x)) <==> e in TimesX(Of(x)) - {64} {
      if 0 < e < 64 {
        assert Ups(x, 63 - (e - 1)) == Ups(Up(x), 63 - e);
        assert e - 1 in Of(x) <==> e in TimesX(Of(x));
      } else if e == 0 {
        Ups64(x);
        assert Ups(Up(x), 63) == Ups(x, 64);
      }
    }
  }

  // ---------------------------------------------------------------------------------------------------------
  // One step
  // ---------------------------------------------------------------------------------------------------------

  /** Whether the step subtracts the generator. */
  predicate Subtracts(crc: bv64, d: bool) { Top(crc) != d }

  lemma DivideBitIs(crc: bv64, d: bool)
    ensures DivideBit(crc, d) == if Subtracts(crc, d) then Sum(Up(crc), POLY) else Up(crc)
  {
  }

  /** The register before, times x, plus the data bit times x to the 64, is the register after plus the generator if that
      was subtracted. */
  lemma StepIs(crc: bv64, d: bool)
    ensures Add(TimesX(Of(crc)), if d then {64} else {})
            == Add(Of(DivideBit(crc, d)), if Subtracts(crc, d) then Generator() else {})
  {
    hide Of, DivideBit, Top, Up, Sum, Add, TimesX;
    DivideBitIs(crc, d);
    OfUp(crc);
    OfSum(Up(crc), POLY);
    OfIsSmall(POLY);
    StepSets(Of(crc), Of(POLY), d, Of(DivideBit(crc, d)));
  }

  lemma StepSets(a: Poly, g: Poly, d: bool, now: Poly)
    requires (forall e <- g :: e < 64)
    requires now == if (63 in a) != d then Add(TimesX(a) - {64}, g) else TimesX(a) - {64}
    ensures Add(TimesX(a), if d then {64} else {}) == Add(now, if (63 in a) != d then Add({64}, g) else {})
  {
    assert 64 in TimesX(a) <==> 63 in a;
  }

  lemma OfIsSmall(x: bv64)
    ensures forall e <- Of(x) :: e < 64
  {
  }

  // ---------------------------------------------------------------------------------------------------------
  // The whole division
  // ---------------------------------------------------------------------------------------------------------

  function DivideAll(crc: bv64, bits: seq<bool>): bv64 {
    if bits == [] then crc else DivideBit(DivideAll(crc, bits[..|bits| - 1]), bits[|bits| - 1])
  }

  /** The quotient, one coefficient for every data bit. */
  function Quotient(crc: bv64, bits: seq<bool>): (q: seq<bool>)
    ensures |q| == |bits|
  {
    if bits == [] then []
    else
      var before := bits[..|bits| - 1];
      Quotient(crc, before) + [Subtracts(DivideAll(crc, before), bits[|bits| - 1])]
  }

  /** What is divided: the starting register moved up by the length of the data, plus the data moved up by 64. */
  function Dividend(crc: bv64, bits: seq<bool>): Poly {
    Add(Raised(Of(crc), |bits|), Raised(PolyOf(bits), 64))
  }

  lemma AddLaws(a: Poly, b: Poly, c: Poly)
    ensures Add(a, b) == Add(b, a) && Add(Add(a, b), c) == Add(a, Add(b, c)) && Add(a, {}) == a
    ensures TimesX(Add(a, b)) == Add(TimesX(a), TimesX(b))
  {
    forall e ensures e in TimesX(Add(a, b)) <==> e in Add(TimesX(a), TimesX(b)) {
      if e > 0 {
        assert e in TimesX(a) <==> e - 1 in a;
        assert e in TimesX(b) <==> e - 1 in b;
        assert e in TimesX(Add(a, b)) <==> e - 1 in Add(a, b);
      }
    }
  }

  lemma DividendNext(crc: bv64, bits: seq<bool>)
    requires bits != []
    ensures var before, d := bits[..|bits| - 1], bits[|bits| - 1];
            Dividend(crc, bits) == Add(TimesX(Dividend(crc, before)), if d then {64} else {})
  {
    hide Of;
    var before, d := bits[..|bits| - 1], bits[|bits| - 1];
    var a, m := Of(crc), PolyOf(before);
    AddLaws(Raised(a, |before|), Raised(m, 64), {});
    assert PolyOf(bits) == Add(TimesX(m), if d then ONE else {});
    RaisedNext(a, |before|);
    RaisedAdd(TimesX(m), if d then ONE else {}, 64);
    RaisedTimesX(m, 64);
    assert Raised(if d then ONE else {}, 64) == if d then {64} else {};
    AddLaws(Raised(a, |bits|), TimesX(Raised(m, 64)), if d then {64} else {});
  }

  lemma RaisedNext(a: Poly, n: nat)
    ensures Raised(a, n + 1) == TimesX(Raised(a, n))
  {
    forall e ensures e in Raised(a, n + 1) <==> e in TimesX(Raised(a, n)) {
      if e >= n + 1 {
        assert e in Raised(a, n + 1) <==> e - n - 1 in a;
        assert e - 1 in Raised(a, n) <==> e - 1 - n in a;
        assert e in TimesX(Raised(a, n)) <==> e - 1 in Raised(a, n);
      }
    }
  }

  lemma RaisedTimesX(a: Poly, n: nat)
    ensures Raised(TimesX(a), n) == TimesX(Raised(a, n))
  {
    forall e ensures e in Raised(TimesX(a), n) <==> e in TimesX(Raised(a, n)) {
      if e >= n + 1 {
        assert e in Raised(TimesX(a), n) <==> e - n in TimesX(a);
        assert e - n in TimesX(a) <==> e - n - 1 in a;
        assert e - 1 in Raised(a, n) <==> e - 1 - n in a;
        assert e in TimesX(Raised(a, n)) <==> e - 1 in Raised(a, n);
      }
    }
  }

  lemma RaisedAdd(a: Poly, b: Poly, n: nat)
    ensures Raised(Add(a, b), n) == Add(Raised(a, n), Raised(b, n))
  {
    forall e ensures e in Raised(Add(a, b), n) <==> e in Add(Raised(a, n), Raised(b, n)) {
      if e >= n {
        assert e in Raised(a, n) <==> e - n in a;
        assert e in Raised(b, n) <==> e - n in b;
        assert e in Raised(Add(a, b), n) <==> e - n in Add(a, b);
      }
    }
  }

  /** The register is what the division leaves of the dividend. */
  lemma {:induction false} Divides(crc: bv64, bits: seq<bool>)
    ensures Dividend(crc, bits) == Add(Of(DivideAll(crc, bits)), Times(Quotient(crc, bits), Generator()))
  {
    hide Of, DivideBit, Generator, Top, Add, TimesX, Subtracts;
    if bits == [] {
      NothingDivided(crc);
    } else {
      var before, d := bits[..|bits| - 1], bits[|bits| - 1];
      var r, q := DivideAll(crc, before), Quotient(crc, before);
      var now, g := DivideAll(crc, bits), Generator();
      var c := Subtracts(r, d);
      Divides(crc, before);
      DividendNext(crc, bits);
      StepIs(r, d);
      assert Quotient(crc, bits)[..|q|] == q;
      var b, h, t: Poly := if d then {64} else {}, if c then g else {}, Times(q, g);
      assert Times(Quotient(crc, bits), g) == Add(TimesX(t), h);
      Rearranged(Of(r), t, b, Of(now), h);
    }
  }

  lemma NothingDivided(crc: bv64)
    ensures Dividend(crc, []) == Add(Of(crc), {}) && Times([], Generator()) == {}
  {
    hide Of;
    assert Raised(Of(crc), 0) == Of(crc);
    assert Raised(PolyOf([]), 64) == {};
  }

  lemma Rearranged(r: Poly, t: Poly, b: Poly, now: Poly, h: Poly)
    requires Add(TimesX(r), b) == Add(now, h)
    ensures Add(TimesX(Add(r, t)), b) == Add(now, Add(TimesX(t), h))
  {
    AddLaws(r, t, {});
    var x, y := TimesX(r), TimesX(t);
    forall e ensures e in Add(Add(x, y), b) <==> e in Add(now, Add(y, h)) {
      assert e in Add(x, b) <==> e in Add(now, h);
    }
  }

  // ---------------------------------------------------------------------------------------------------------
  // Bytes
  // ---------------------------------------------------------------------------------------------------------

  /** The bits of a byte in the order they are divided, least significant first. */
  function BitsOf(c: bv8, k: nat): (bits: seq<bool>)
    requires k <= 8
    ensures |bits| == k
  {
    if k == 0 then [] else BitsOf(c, k - 1) + [Has(c, k - 1)]
  }

  function Message(data: seq<bv8>): (bits: seq<bool>)
    ensures |bits| == 8 * |data|
  {
    if data == [] then [] else Message(data[..|data| - 1]) + BitsOf(data[|data| - 1], 8)
  }

  lemma {:induction false} DivideByteIs(crc: bv64, bits: seq<bool>, c: bv8, k: nat)
    requires k <= 8
    ensures DivideAll(crc, bits + BitsOf(c, k)) == DivideBits(DivideAll(crc, bits), c, k)
    decreases k
  {
    hide DivideBit, Has;
    if k == 0 {
      assert bits + BitsOf(c, 0) == bits;
    } else {
      DivideByteIs(crc, bits, c, k - 1);
      var all := bits + BitsOf(c, k);
      assert all[..|all| - 1] == bits + BitsOf(c, k - 1) && all[|all| - 1] == Has(c, k - 1);
    }
  }

  lemma {:induction false} DivideIs(crc: bv64, data: seq<bv8>)
    ensures DivideAll(crc, Message(data)) == Divide(crc, data)
    decreases |data|
  {
    hide DivideBits, BitsOf;
    if data != [] {
      DivideIs(crc, data[..|data| - 1]);
      DivideByteIs(crc, Message(data[..|data| - 1]), data[|data| - 1], 8);
    }
  }

  /** r is what remains of a modulo p, a polynomial of degree 64. */
  ghost predicate IsRemainder(r: Poly, a: Poly, p: Poly) {
    (forall e <- r :: e < 64) && exists q :: a == Add(r, Times(q, p))
  }

  /** The division of crc64.c computes the remainder of the dividend modulo the generator. */
  lemma DivideIsRemainder(crc: bv64, data: seq<bv8>)
    ensures IsRemainder(Of(Divide(crc, data)), Dividend(crc, Message(data)), Generator())
  {
    hide Of, Divide, DivideAll, Dividend, Times, Generator;
    var bits := Message(data);
    DivideIs(crc, data);
    Divides(crc, bits);
    OfIsSmall(Divide(crc, data));
    assert Dividend(crc, bits) == Add(Of(Divide(crc, data)), Times(Quotient(crc, bits), Generator()));
  }

  // ---------------------------------------------------------------------------------------------------------
  // There is only one remainder
  // ---------------------------------------------------------------------------------------------------------

  /** The highest exponent is 64. */
  predicate Degree64(p: Poly) { 64 in p && forall e <- p :: e <= 64 }

  lemma GeneratorDegree()
    ensures Degree64(Generator())
  {
    hide Of;
    OfIsSmall(POLY);
  }

  function Zeros(n: nat): (z: seq<bool>)
    ensures |z| == n
  {
    if n == 0 then [] else Zeros(n - 1) + [false]
  }

  lemma {:induction false} TimesZeros(n: nat, p: Poly)
    ensures Times(Zeros(n), p) == {}
  {
    if n > 0 {
      TimesZeros(n - 1, p);
      assert Zeros(n)[..n - 1] == Zeros(n - 1);
      assert TimesX({}) == {};
    }
  }

  lemma TimesNext(q: seq<bool>, c: bool, p: Poly)
    ensures Times(q + [c], p) == Add(TimesX(Times(q, p)), if c then p else {})
  {
    hide Add, TimesX;
    assert (q + [c])[..|q|] == q;
  }

  /** Leading zeros change nothing. */
  lemma {:induction false} LeadingZeros(q: seq<bool>, n: nat, p: Poly)
    ensures Times(Zeros(n) + q, p) == Times(q, p)
    decreases |q|
  {
    hide Add, TimesX, Zeros, Times;
    if q == [] {
      TimesZeros(n, p);
      TimesZeros(0, p);
      assert Zeros(n) + q == Zeros(n) && Zeros(0) == q;
    } else {
      var before, c := q[..|q| - 1], q[|q| - 1];
      assert q == before + [c] && Zeros(n) + q == Zeros(n) + before + [c];
      LeadingZeros(before, n, p);
      TimesNext(before, c, p);
      TimesNext(Zeros(n) + before, c, p);
    }
  }

  function Differ(q: seq<bool>, s: seq<bool>): (d: seq<bool>)
    requires |q| == |s|
    ensures |d| == |q|
  {
    if q == [] then [] else Differ(q[..|q| - 1], s[..|s| - 1]) + [q[|q| - 1] != s[|s| - 1]]
  }

  lemma {:induction false} TimesDiffer(q: seq<bool>, s: seq<bool>, p: Poly)
    requires |q| == |s|
    ensures Times(Differ(q, s), p) == Add(Times(q, p), Times(s, p))
  {
    if q != [] {
      var q1, s1, c, d := q[..|q| - 1], s[..|s| - 1], q[|q| - 1], s[|s| - 1];
      TimesDiffer(q1, s1, p);
      assert Differ(q, s)[..|q| - 1] == Differ(q1, s1);
      AddLaws(Times(q1, p), Times(s1, p), {});
      AddFour(TimesX(Times(q1, p)), TimesX(Times(s1, p)), if c then p else {}, if d then p else {},
              if c != d then p else {});
    }
  }

  lemma AddFour(a: Poly, b: Poly, c: Poly, d: Poly, e: Poly)
    requires e == Add(c, d)
    ensures Add(Add(a, b), e) == Add(Add(a, c), Add(b, d))
  {
  }

  /** A multiple of p that is not zero reaches at least as high as p. */
  lemma {:induction false} MultipleIsHigh(q: seq<bool>, p: Poly)
    requires Degree64(p)
    ensures Times(q, p) == {} || exists e :: e >= 64 && e in Times(q, p)
  {
    if q != [] {
      var before := Times(q[..|q| - 1], p);
      MultipleIsHigh(q[..|q| - 1], p);
      if before == {} {
        assert TimesX(before) == {} && Times(q, p) == if q[|q| - 1] then p else {};
      } else {
        var e :| e >= 64 && e in before;
        assert e + 1 in TimesX(before) && e + 1 !in p;
        assert e + 1 in Times(q, p);
      }
    }
  }

  lemma RemainderIsUnique(r: Poly, s: Poly, a: Poly, p: Poly)
    requires Degree64(p) && IsRemainder(r, a, p) && IsRemainder(s, a, p)
    ensures r == s
  {
    hide Times, Degree64;
    var q :| a == Add(r, Times(q, p));
    var t :| a == Add(s, Times(t, p));
    var q1, t1 := Zeros(|t|) + q, Zeros(|q|) + t;
    LeadingZeros(q, |t|, p);
    LeadingZeros(t, |q|, p);
    TimesDiffer(q1, t1, p);
    MultipleIsHigh(Differ(q1, t1), p);
    SameSum(r, Times(q, p), s, Times(t, p));
    assert forall e <- Add(r, s) :: e < 64;
  }

  lemma SameSum(a: Poly, b: Poly, c: Poly, d: Poly)
    requires Add(a, b) == Add(c, d)
    ensures Add(b, d) == Add(a, c) && (Add(a, c) == {} ==> a == c)
  {
    forall e ensures e in Add(b, d) <==> e in Add(a, c) {
      assert e in Add(a, b) <==> e in Add(c, d);
    }
    if Add(a, c) == {} {
      forall e ensures e in a <==> e in c { assert e !in Add(a, c); }
    }
  }

  /** Only the register is a remainder of the dividend. */
  lemma OnlyRemainder(crc: bv64, data: seq<bv8>, r: Poly)
    ensures IsRemainder(r, Dividend(crc, Message(data)), Generator()) <==> r == Of(Divide(crc, data))
  {
    hide Of, Divide, Dividend, Generator, IsRemainder, Degree64;
    DivideIsRemainder(crc, data);
    GeneratorDegree();
    if IsRemainder(r, Dividend(crc, Message(data)), Generator()) {
      RemainderIsUnique(r, Of(Divide(crc, data)), Dividend(crc, Message(data)), Generator());
    }
  }
}
