/** The BITFIELD command: integers of 1 to 64 bits at any offset of a string, with three ways to handle overflow. */
module BitField {
  import opened Basics
  import opened ByteBits
  import opened BitStrings

  datatype Overflow = Wrap | Sat | Fail
  datatype Opcode = Get | Set | IncrBy

  /** struct bitfieldOp. */
  datatype Op = Op(opcode: Opcode, signed: bool, bits: nat, offset: nat, i64: int, ow: Overflow)

  datatype Reply = Number(n: int) | Null

  /** Widths are i1 to i64 and u1 to u63. */
  predicate OpOk(op: Op) {
    1 <= op.bits <= (if op.signed then 64 else 63) && IsI64(op.i64)
  }

  // ---------------------------------------------------------------------------------------------------------
  // As integers
  // ---------------------------------------------------------------------------------------------------------

  function Min(bits: nat, signed: bool): int
    requires 1 <= bits
  {
    if signed then 0 - Pow2(bits - 1) else 0
  }

  function Max(bits: nat, signed: bool): int
    requires 1 <= bits
  {
    if signed then Pow2(bits - 1) - 1 else Pow2(bits) - 1
  }

  predicate Fits(v: int, bits: nat, signed: bool)
    requires 1 <= bits
  {
    Min(bits, signed) <= v <= Max(bits, signed)
  }

  /** The number a field of raw bits stands for; signed fields are two's complement. */
  function Decode(raw: int, bits: nat, signed: bool): int
    requires 1 <= bits
  {
    if signed && raw >= Pow2(bits - 1) then raw - Pow2(bits) else raw
  }

  /** What is stored for v, if anything. */
  function Stored(v: int, bits: nat, signed: bool, ow: Overflow): (r: int)
    requires 1 <= bits && (ow == Fail ==> Fits(v, bits, signed))
  {
    if Fits(v, bits, signed) then v
    else if ow == Wrap then Decode(v % Pow2(bits), bits, signed)
    else if v > Max(bits, signed) then Max(bits, signed)
    else Min(bits, signed)
  }

  /** The difference max - value, computed in 64 bits, has overflowed. */
  predicate LimitOverflows(value: int, bits: nat)
    requires 1 <= bits
  {
    Max(bits, true) - value >= TWO_63
  }

  /** A saturating signed SET so far below the range that the limit overflows. */
  predicate FarBelow(op: Op)
    requires 1 <= op.bits
  {
    op.opcode == Set && op.signed && op.ow == Sat && op.i64 < Min(op.bits, true) && LimitOverflows(op.i64, op.bits)
  }

  /** What an operation stores for v: far below the range the overflowing limit turns the minimum into the maximum. */
  function StoredBy(op: Op, v: int): (r: int)
    requires 1 <= op.bits && (op.ow == Fail ==> Fits(v, op.bits, op.signed))
  {
    if FarBelow(op) then Max(op.bits, true) else Stored(v, op.bits, op.signed, op.ow)
  }

  /** The number an operation is about: the sum, or the argument, which for unsigned SET is taken modulo 2^64. */
  function Target(op: Op, was: int): int {
    if op.opcode == IncrBy then was + op.i64 else if op.signed then op.i64 else op.i64 % TWO_64
  }

  /** One operation on a bit string. */
  ghost function Step(b: seq<nat>, op: Op): (seq<nat>, Reply)
    requires OpOk(op)
  {
    var was := Decode(Read(b, op.offset, op.bits), op.bits, op.signed);
    var v := Target(op, was);
    if op.opcode == Get then (b, Number(was))
    else if op.ow == Fail && !Fits(v, op.bits, op.signed) then (b, Null)
    else
      var now := StoredBy(op, v);
      (Write(b, op.offset, op.bits, now % Pow2(op.bits)), Number(if op.opcode == IncrBy then now else was))
  }

  lemma {:induction false} Pow2Grows(a: nat, b: nat)
    requires a <= b
    ensures Pow2(a) <= Pow2(b)
  {
    if a < b { Pow2Grows(a, b - 1); }
  }

  lemma Pow2Words()
    ensures Pow2(63) == TWO_63 && Pow2(64) == TWO_64
  {
    assert Pow2(8) == 256;
    Pow2Add(8, 8);
    Pow2Add(16, 16);
    Pow2Add(32, 32);
  }

  /** Storing and reading back a number that fits. */
  lemma DecodeStored(v: int, bits: nat, signed: bool)
    requires 1 <= bits && Fits(v, bits, signed)
    ensures Decode(v % Pow2(bits), bits, signed) == v
  {
    var p := Pow2(bits);
    assert p == 2 * Pow2(bits - 1);
    if v < 0 {
      ModUnique(v, p, -1, v + p);
    } else {
      ModUnique(v, p, 0, v);
    }
  }

  /** Whatever is stored fits. */
  lemma StoredFits(v: int, bits: nat, signed: bool, ow: Overflow)
    requires 1 <= bits && (ow == Fail ==> Fits(v, bits, signed))
    ensures Fits(Stored(v, bits, signed, ow), bits, signed)
  {
    assert Pow2(bits) == 2 * Pow2(bits - 1);
  }

  /** The meaning of a write: the field then reads as the stored number, and no other bit has changed. */
  lemma StepMeans(b: seq<nat>, op: Op)
    requires OpOk(op) && op.opcode != Get && op.offset + op.bits <= |b|
    ensures var v := Target(op, Decode(Read(b, op.offset, op.bits), op.bits, op.signed));
            var (after, reply) := Step(b, op);
            && (reply == Null <==> op.ow == Fail && !Fits(v, op.bits, op.signed))
            && (reply == Null ==> after == b)
            && (reply != Null ==>
                  && Decode(Read(after, op.offset, op.bits), op.bits, op.signed) == StoredBy(op, v)
                  && forall p: nat | !(op.offset <= p < op.offset + op.bits) :: At(after, p) == At(b, p))
  {
    hide Pow2, Read, Write, Decode, Stored, StoredBy, Fits, Target;
    var v := Target(op, Decode(Read(b, op.offset, op.bits), op.bits, op.signed));
    if !(op.ow == Fail && !Fits(v, op.bits, op.signed)) {
      var now := StoredBy(op, v);
      StoredByFits(op, v);
      DecodeStored(now, op.bits, op.signed);
      var raw := now % Pow2(op.bits);
      ReadWrite(b, op.offset, op.bits, raw);
      assert raw % Pow2(op.bits) == raw by { ModUnique(raw, Pow2(op.bits), 0, raw); }
    }
  }

  lemma StoredByFits(op: Op, v: int)
    requires OpOk(op) && (op.ow == Fail ==> Fits(v, op.bits, op.signed))
    ensures Fits(StoredBy(op, v), op.bits, op.signed)
  {
    StoredFits(v, op.bits, op.signed, op.ow);
    Pow2Doubles(op.bits);
  }

  // ---------------------------------------------------------------------------------------------------------
  // The overflow checks, in 64-bit arithmetic
  // ---------------------------------------------------------------------------------------------------------

  /** The returned code and *limit, which is left alone under FAIL. */
  datatype Check = Check(code: int, limit: int)

  /** checkUnsignedBitfieldOverflow. */
  function CheckUnsigned(value: int, incr: int, bits: nat, ow: Overflow): Check {
    var max := if bits == 64 then TWO_64 - 1 else Pow2(bits) - 1;
    var maxincr := ToI64(max - value);
    var minincr := ToI64(-value);
    var wrapped := ((value + incr) % TWO_64) % Pow2(bits);
    if value > max || (incr > 0 && incr > maxincr) then
      (match ow case Wrap => Check(1, wrapped) case Sat => Check(1, max) case Fail => Check(1, 0))
    else if incr < 0 && incr < minincr then
      (match ow case Wrap => Check(1, wrapped) case Sat => Check(-1, 0) case Fail => Check(-1, 0))
    else Check(0, 0)
  }

  /** checkSignedBitfieldOverflow; the sign bit is propagated, or the high bits cleared. */
  function CheckSigned(value: int, incr: int, bits: nat, ow: Overflow): Check
    requires 1 <= bits <= 64
  {
    var max := if bits == 64 then TWO_63 - 1 else Pow2(bits - 1) - 1;
    var min := -max - 1;
    var maxincr := ToI64(max - value);
    var minincr := ToI64(min - value);
    var c := (value + incr) % TWO_64;
    var low := c % Pow2(bits);
    var wrapped := ToI64(if bits == 64 then c else if low >= Pow2(bits - 1) then low + (TWO_64 - Pow2(bits)) else low);
    if value > max || (bits != 64 && incr > maxincr) || (value >= 0 && incr > 0 && incr > maxincr) then
      (match ow case Wrap => Check(1, wrapped) case Sat => Check(1, max) case Fail => Check(1, 0))
    else if value < min || (bits != 64 && incr < minincr) || (value < 0 && incr < 0 && incr < minincr) then
      (match ow case Wrap => Check(1, wrapped) case Sat => Check(-1, min) case Fail => Check(-1, 0))
    else Check(0, 0)
  }

  lemma ToI64Small(x: int)
    requires IsI64(x)
    ensures ToI64(x) == x
  {
    if x < 0 { ModUnique(x, TWO_64, -1, x + TWO_64); } else { ModUnique(x, TWO_64, 0, x); }
  }

  /** A positive difference too large for 64 bits comes out negative. */
  lemma ToI64Large(x: int)
    requires TWO_63 <= x < TWO_64
    ensures ToI64(x) == x - TWO_64 < 0
  {
    ModUnique(x, TWO_64, 0, x);
  }

  /** The unsigned check finds exactly the sums that do not fit, and its limit is what is to be stored. */
  lemma CheckUnsignedIs(value: int, incr: int, bits: nat, ow: Overflow)
    requires 1 <= bits <= 63 && 0 <= value < TWO_64 && IsI64(incr) && (value < Pow2(bits) || incr == 0)
    ensures var c, v := CheckUnsigned(value, incr, bits, ow), value + incr;
            && (c.code == 0 <==> Fits(v, bits, false))
            && (c.code != 0 && ow != Fail ==> c.limit == Stored(v, bits, false, ow))
  {
    hide Pow2, ToI64;
    Pow2Words();
    Pow2Grows(bits, 63);
    var max := Pow2(bits) - 1;
    if value <= max {
      ToI64Small(max - value);
      ToI64Small(-value);
    }
    ModPow2(value + incr, bits, 64);
  }

  lemma WrappedIs(v: int, bits: nat)
    requires 1 <= bits <= 64
    ensures var c := v % TWO_64;
            var low := c % Pow2(bits);
            low == v % Pow2(bits)
            && ToI64(if bits == 64 then c else if low >= Pow2(bits - 1) then low + (TWO_64 - Pow2(bits)) else low)
               == Decode(v % Pow2(bits), bits, true)
  {
    hide Pow2;
    Pow2Words();
    ModPow2(v, bits, 64);
    var low := v % Pow2(bits);
    Pow2Doubles(bits);
    if bits == 64 {
      if low >= TWO_63 { ToI64Large(low); } else { ToI64Small(low); }
    } else {
      Pow2Grows(bits, 63);
      if low >= Pow2(bits - 1) { ToI64Large(low + (TWO_64 - Pow2(bits))); } else { ToI64Small(low); }
    }
  }

  lemma Pow2Doubles(bits: nat)
    requires 1 <= bits
    ensures Pow2(bits) == 2 * Pow2(bits - 1)
  {
  }

  /** The signed check finds exactly the sums that do not fit, and its limit is what is to be stored: always when wrapping,
      and when saturating unless the value is so far below the range that max - value overflows. */
  lemma CheckSignedIs(value: int, incr: int, bits: nat, ow: Overflow)
    requires 1 <= bits <= 64 && IsI64(value) && IsI64(incr) && (Fits(value, bits, true) || incr == 0)
    ensures var c, v := CheckSigned(value, incr, bits, ow), value + incr;
            && (c.code == 0 <==> Fits(v, bits, true))
            && (c.code != 0 && ow == Wrap ==> c.limit == Stored(v, bits, true, ow))
            && (c.code != 0 && ow == Sat ==>
                  c.limit == if value < Min(bits, true) && LimitOverflows(value, bits) then Max(bits, true)
                             else Stored(v, bits, true, ow))
  {
    hide Pow2, ToI64;
    Pow2Words();
    Pow2Doubles(bits);
    WrappedIs(value + incr, bits);
    if bits == 64 {
      Check64(value, incr);
    } else {
      Pow2Grows(bits, 63);
      CheckNarrow(value, bits);
    }
  }

  /** With 64 bits the differences are only used where they do not overflow. */
  lemma Check64(value: int, incr: int)
    requires IsI64(value)
    ensures value >= 0 ==> ToI64(TWO_63 - 1 - value) == TWO_63 - 1 - value
    ensures value < 0 ==> ToI64(-TWO_63 - value) == -TWO_63 - value
  {
    if value >= 0 { ToI64Small(TWO_63 - 1 - value); } else { ToI64Small(-TWO_63 - value); }
  }

  lemma CheckNarrow(value: int, bits: nat)
    requires 1 <= bits <= 63 && IsI64(value) && Pow2(bits) == 2 * Pow2(bits - 1) <= TWO_63
    ensures var max := Pow2(bits - 1) - 1;
            && (IsI64(max - value) ==> ToI64(max - value) == max - value)
            && (max - value >= TWO_63 ==> ToI64(max - value) < 0)
            && (IsI64(-max - 1 - value) ==> ToI64(-max - 1 - value) == -max - 1 - value)
  {
    hide Pow2, ToI64;
    var max := Pow2(bits - 1) - 1;
    if IsI64(max - value) { ToI64Small(max - value); } else { ToI64Large(max - value); }
    if IsI64(-max - 1 - value) { ToI64Small(-max - 1 - value); }
  }

  // ---------------------------------------------------------------------------------------------------------
  // Saturation
  // ---------------------------------------------------------------------------------------------------------

  function Distance(a: int, b: int): nat { if a < b then b - a else a - b }

  /** No number of this width is closer to v than r. */
  ghost predicate Nearest(r: int, v: int, bits: nat, signed: bool)
    requires 1 <= bits
  {
    Fits(r, bits, signed) && forall w | Fits(w, bits, signed) :: Distance(r, v) <= Distance(w, v)
  }

  /** The nearest number is unique: v itself, or the end of the range on its side. */
  lemma NearestIsStored(r: int, v: int, bits: nat, signed: bool)
    requires 1 <= bits
    ensures Nearest(r, v, bits, signed) <==> r == Stored(v, bits, signed, Sat)
  {
    StoredFits(v, bits, signed, Sat);
    var s := Stored(v, bits, signed, Sat);
    assert Fits(s, bits, signed);
  }

  /** What a caller of the check goes on with. */
  function Outcome(c: Check, v: int): int { if c.code == 0 then v else c.limit }

  /** The saturating signed check yields the nearest number unless the value lies below the range by so much that
      max - value overflows 64 bits, and only then. */
  lemma SignedSaturates(value: int, incr: int, bits: nat)
    requires 1 <= bits <= 64 && IsI64(value) && IsI64(incr) && (Fits(value, bits, true) || incr == 0)
    ensures Nearest(Outcome(CheckSigned(value, incr, bits, Sat), value + incr), value + incr, bits, true)
            <==> !(value < Min(bits, true) && LimitOverflows(value, bits))
  {
    hide CheckSigned, Nearest, Pow2;
    CheckSignedIs(value, incr, bits, Sat);
    NearestIsStored(Outcome(CheckSigned(value, incr, bits, Sat), value + incr), value + incr, bits, true);
    Pow2Doubles(bits);
    assert Pow2(bits - 1) >= 1;
  }

  /** The saturating unsigned check always does. */
  lemma UnsignedSaturates(value: int, incr: int, bits: nat)
    requires 1 <= bits <= 63 && 0 <= value < TWO_64 && IsI64(incr) && (value < Pow2(bits) || incr == 0)
    ensures Nearest(Outcome(CheckUnsigned(value, incr, bits, Sat), value + incr), value + incr, bits, false)
  {
    hide CheckUnsigned, Nearest, Pow2;
    CheckUnsignedIs(value, incr, bits, Sat);
    NearestIsStored(Outcome(CheckUnsigned(value, incr, bits, Sat), value + incr), value + incr, bits, false);
  }

  /** The number the client asks for. */
  function Asked(op: Op, was: int): int {
    if op.opcode == IncrBy then was + op.i64 else op.i64
  }

  /** An unsigned SET of a negative number, which the code takes for a number of 2^63 or more. */
  predicate TakenForHuge(op: Op) {
    op.opcode == Set && !op.signed && op.i64 < 0
  }

  /** What the code works with is what was asked for, except that a negative number becomes one above every unsigned
      range; in both cases modulo the width it is the same. */
  lemma TargetIs(op: Op, was: int)
    requires OpOk(op) && op.opcode != Get
    ensures !TakenForHuge(op) ==> Target(op, was) == Asked(op, was)
    ensures TakenForHuge(op) ==> Target(op, was) > Max(op.bits, false) && Asked(op, was) < 0
    ensures Target(op, was) % Pow2(op.bits) == Asked(op, was) % Pow2(op.bits)
  {
    hide Pow2;
    Pow2Words();
    if op.opcode == Set && !op.signed {
      ModPow2(op.i64, op.bits, 64);
      Pow2Grows(op.bits, 63);
      if op.i64 < 0 {
        ModUnique(op.i64, TWO_64, -1, op.i64 + TWO_64);
      } else {
        ModUnique(op.i64, TWO_64, 0, op.i64);
      }
    }
  }

  ghost function FieldAfter(b: seq<nat>, op: Op): int
    requires OpOk(op)
  {
    Decode(Read(Step(b, op).0, op.offset, op.bits), op.bits, op.signed)
  }

  /** After a saturating SET or INCRBY the field reads as the number nearest to what was asked for, unless the operation
      is a signed SET too far below the range or an unsigned SET of a negative number, and only then. */
  lemma SaturationIsNearest(b: seq<nat>, op: Op)
    requires OpOk(op) && op.opcode != Get && op.ow == Sat && op.offset + op.bits <= |b|
    ensures var asked := Asked(op, Decode(Read(b, op.offset, op.bits), op.bits, op.signed));
            Nearest(FieldAfter(b, op), asked, op.bits, op.signed) <==> !FarBelow(op) && !TakenForHuge(op)
  {
    hide Pow2, Read, Step, Nearest, Target;
    var was := Decode(Read(b, op.offset, op.bits), op.bits, op.signed);
    var v, asked := Target(op, was), Asked(op, was);
    TargetIs(op, was);
    StepMeans(b, op);
    NearestIsStored(StoredBy(op, v), asked, op.bits, op.signed);
    Pow2Doubles(op.bits);
    assert Pow2(op.bits - 1) >= 1;
  }

  /** A failing SET or INCRBY is refused if and only if what was asked for does not fit. */
  lemma RefusedExactly(b: seq<nat>, op: Op)
    requires OpOk(op) && op.opcode != Get && op.ow == Fail && op.offset + op.bits <= |b|
    ensures var asked := Asked(op, Decode(Read(b, op.offset, op.bits), op.bits, op.signed));
            Step(b, op).1 == Null <==> !Fits(asked, op.bits, op.signed)
  {
    hide Pow2, Read, Step, Target;
    TargetIs(op, Decode(Read(b, op.offset, op.bits), op.bits, op.signed));
    StepMeans(b, op);
  }

  /** GET changes nothing and replies what the field holds, SET replies what it held, and INCRBY what it holds now. */
  lemma RepliesExactly(b: seq<nat>, op: Op)
    requires OpOk(op) && op.offset + op.bits <= |b|
    ensures var was := Decode(Read(b, op.offset, op.bits), op.bits, op.signed);
            var (after, reply) := Step(b, op);
            match op.opcode
            case Get => after == b && reply == Number(was)
            case Set => reply == Null || reply == Number(was)
            case IncrBy => reply == Null || reply == Number(Decode(Read(after, op.offset, op.bits), op.bits, op.signed))
  {
    hide Pow2, Read, Write, Decode, StoredBy, Fits, Target;
    if op.opcode != Get { StepMeans(b, op); }
  }

  /** A wrapping one stores what was asked for modulo 2 to the width. */
  lemma WrapsModulo(b: seq<nat>, op: Op)
    requires OpOk(op) && op.opcode != Get && op.ow == Wrap && op.offset + op.bits <= |b|
    ensures var asked := Asked(op, Decode(Read(b, op.offset, op.bits), op.bits, op.signed));
            FieldAfter(b, op) % Pow2(op.bits) == asked % Pow2(op.bits)
  {
    hide Pow2, Read, Step, Target, Fits, FarBelow;
    var was := Decode(Read(b, op.offset, op.bits), op.bits, op.signed);
    TargetIs(op, was);
    StepMeans(b, op);
    WrapNotFar(op);
    DecodedModulo(Target(op, was), op.bits, op.signed);
  }

  lemma WrapNotFar(op: Op)
    requires OpOk(op) && op.ow == Wrap
    ensures !FarBelow(op)
  {
  }

  lemma DecodedModulo(v: int, bits: nat, signed: bool)
    requires 1 <= bits
    ensures Decode(v % Pow2(bits), bits, signed) % Pow2(bits) == v % Pow2(bits)
  {
    hide Pow2;
    var p, raw := Pow2(bits), v % Pow2(bits);
    ModUnique(raw, p, 0, raw);
    if Decode(raw, bits, signed) != raw { ModUnique(raw - p, p, -1, raw); }
  }

  /** SET u8 to -1 stores 255, while 0 is nearest. */
  lemma SetsNegativeToMax()
    ensures var op := Op(Set, false, 8, 0, -1, Sat);
            && OpOk(op) && TakenForHuge(op) && !FarBelow(op)
            && CheckUnsigned(op.i64 % TWO_64, 0, 8, Sat) == Check(1, 255)
            && (forall b: seq<nat> | |b| == 8 :: FieldAfter(b, op) == 255)
            && Nearest(0, -1, 8, false) && !Nearest(255, -1, 8, false)
  {
    hide Read, Step, CheckUnsigned;
    var op := Op(Set, false, 8, 0, -1, Sat);
    assert Pow2(7) == 128 && Pow2(8) == 256;
    ModUnique(-1, TWO_64, -1, TWO_64 - 1);
    NegativeCode();
    NearestIsStored(0, -1, 8, false);
    NearestIsStored(255, -1, 8, false);
    forall b: seq<nat> | |b| == 8 ensures FieldAfter(b, op) == 255 {
      StepMeans(b, op);
    }
  }

  lemma NegativeCode()
    ensures CheckUnsigned(TWO_64 - 1, 0, 8, Sat) == Check(1, 255)
  {
    assert Pow2(7) == 128 && Pow2(8) == 256;
  }

  /** SET i8 to the least 64-bit number stores 127, the greatest of the range. */
  lemma SetsTheWrongEnd()
    ensures var op := Op(Set, true, 8, 0, -TWO_63, Sat);
            && OpOk(op) && FarBelow(op)
            && CheckSigned(op.i64, 0, 8, Sat) == Check(1, 127)
            && forall b: seq<nat> | |b| == 8 :: FieldAfter(b, op) == 127
  {
    hide Read, Step, CheckSigned;
    var op := Op(Set, true, 8, 0, -TWO_63, Sat);
    assert Pow2(7) == 128 && Pow2(8) == 256;
    CheckSignedIs(op.i64, 0, 8, Sat);
    assert CheckSigned(op.i64, 0, 8, Sat) == Check(1, 127) by { FarBelowCode(op.i64); }
    forall b: seq<nat> | |b| == 8 ensures FieldAfter(b, op) == 127 {
      StepMeans(b, op);
    }
  }

  lemma FarBelowCode(value: int)
    requires value == -TWO_63
    ensures CheckSigned(value, 0, 8, Sat) == Check(1, 127)
  {
    assert Pow2(7) == 128 && Pow2(8) == 256;
    ToI64Large(127 - value);
  }
}
