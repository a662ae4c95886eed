/** The loops of BITFIELD: reading and writing fields bit by bit, the nine-byte window of GET, and the operation list. */
module BitFieldOps {
  import opened Basics
  import opened ByteBits
  import opened BitStrings
  import opened BitField

  // ---------------------------------------------------------------------------------------------------------
  // Fields in memory
  // ---------------------------------------------------------------------------------------------------------

  /** getUnsignedBitfield. */
  method GetUnsigned(p: array<bv8>, offset: nat, bits: nat) returns (value: nat)
    requires offset + bits <= 8 * p.Length && bits <= 64
    ensures value == Read(Bits(p[..]), offset, bits)
  {
    hide Has, Bits;
    value := 0;
    for j := 0 to bits
      invariant value == Read(Bits(p[..]), offset, j)
    {
      var byte, bit := (offset + j) / 8, 7 - (offset + j) % 8;
      var bitval := if Has(p[byte], bit) then 1 else 0;
      assert Bits(p[..])[offset + j] == BitAt(p[..], offset + j) == bitval;
      value := 2 * value + bitval;
    }
  }

  /** getSignedBitfield. */
  method GetSigned(p: array<bv8>, offset: nat, bits: nat) returns (value: int)
    requires offset + bits <= 8 * p.Length && 1 <= bits <= 64
    ensures value == Decode(Read(Bits(p[..]), offset, bits), bits, true)
  {
    hide Bits, Pow2, Read;
    var u := GetUnsigned(p, offset, bits);
    ghost var raw := Read(Bits(p[..]), offset, bits);
    BitsAreBits(p[..]);
    ReadBound(Bits(p[..]), offset, bits);
    WrappedIs(u, bits);
    Pow2Words();
    Pow2Grows(bits, 64);
    assert u % TWO_64 == u by { ModUnique(u, TWO_64, 0, u); }
    assert u % Pow2(bits) == u by { ModUnique(u, Pow2(bits), 0, u); }
    value := ToI64(u);
    if bits < 64 && u >= Pow2(bits - 1) {
      value := ToI64(u + (TWO_64 - Pow2(bits)));
    }
  }

  lemma BitsAreBits(s: seq<bv8>)
    ensures forall p | 0 <= p < |Bits(s)| :: Bits(s)[p] <= 1
  {
    assert forall p: nat | p < 8 * |s| :: Bits(s)[p] == BitAt(s, p);
  }

  /** A byte with one bit replaced. */
  function PutBit(b: bv8, bit: nat, value: bool): bv8
    requires bit < 8
  {
    var cleared := b & !Mask(bit);
    if value then cleared | Mask(bit) else cleared
  }

  lemma PutBitIs(b: bv8, bit: nat, value: bool, i: nat)
    requires bit < 8 && i < 8
    ensures Has(PutBit(b, bit, value), i) <==> if i == bit then value else Has(b, i)
  {
    hide Mask, Has;
    MaskClear(b, bit, i);
    MaskSet(b & !Mask(bit), bit, i);
  }

  /** The body of the loop of setUnsignedBitfield. */
  method StoreBit(p: array<bv8>, at: nat, bitval: nat)
    requires at < 8 * p.Length && bitval <= 1
    modifies p
    ensures Bits(p[..]) == old(Bits(p[..]))[at := bitval]
  {
    hide Has, PutBit;
    var byte, bit := at / 8, 7 - at % 8;
    ghost var s := p[..];
    p[byte] := PutBit(p[byte], bit, bitval == 1);
    assert p[..] == s[byte := PutBit(s[byte], bit, bitval == 1)];
    forall q: nat | q < 8 * p.Length ensures BitAt(p[..], q) == if q == at then bitval else BitAt(s, q) {
      if q / 8 == byte { PutBitIs(s[byte], bit, bitval == 1, 7 - q % 8); }
    }
  }

  /** setUnsignedBitfield; setSignedBitfield passes its value modulo 2^64. */
  method SetUnsigned(p: array<bv8>, offset: nat, bits: nat, value: nat)
    requires offset + bits <= 8 * p.Length && bits <= 64
    modifies p
    ensures Bits(p[..]) == Write(old(Bits(p[..])), offset, bits, value)
  {
    hide Bits, Digit;
    ghost var b := Bits(p[..]);
    for j := 0 to bits
      invariant |Bits(p[..])| == |b|
      invariant forall q | 0 <= q < |b| ::
                  Bits(p[..])[q] == if offset <= q < offset + j then Digit(value, bits - 1 - (q - offset)) else b[q]
    {
      StoreBit(p, offset + j, Digit(value, bits - 1 - j));
    }
  }

  // ---------------------------------------------------------------------------------------------------------
  // GET through a window of nine bytes
  // ---------------------------------------------------------------------------------------------------------

  lemma {:induction false} ReadShifted(a: seq<nat>, b: seq<nat>, shift: nat, offset: nat, n: nat)
    requires forall i: nat | i < offset + n :: At(a, i) == At(b, shift + i)
    ensures Read(a, offset, n) == Read(b, shift + offset, n)
  {
    if n > 0 {
      ReadShifted(a, b, shift, offset, n - 1);
      assert At(a, offset + n - 1) == At(b, shift + (offset + n - 1));
    }
  }

  /** The copy of up to nine bytes, zero where the string has ended. */
  method Window(o: array<bv8>, byte: nat) returns (buf: array<bv8>)
    ensures fresh(buf) && buf.Length == 9
    ensures forall i: nat | i < 72 :: At(Bits(buf[..]), i) == At(Bits(o[..]), 8 * byte + i)
  {
    hide Has, Bits;
    buf := new bv8[9](_ => 0);
    var i := 0;
    while i < 9 && i + byte < o.Length
      invariant i <= 9 && (i > 0 ==> i + byte <= o.Length)
      invariant forall k | 0 <= k < i :: buf[k] == o[k + byte]
      invariant forall k | i <= k < 9 :: buf[k] == 0
    {
      buf[i] := o[i + byte];
      i := i + 1;
    }
    forall q: nat | q < 72 ensures At(Bits(buf[..]), q) == At(Bits(o[..]), 8 * byte + q) {
      WindowBit(buf[..], o[..], byte, q);
    }
  }

  lemma WindowBit(buf: seq<bv8>, o: seq<bv8>, byte: nat, q: nat)
    requires |buf| == 9 && q < 72
    requires forall k: nat | k < 9 :: buf[k] == if k + byte < |o| then o[k + byte] else 0
    ensures At(Bits(buf), q) == At(Bits(o), 8 * byte + q)
  {
    hide Bits, Has;
    assert Bits(buf)[q] == BitAt(buf, q);
    assert (8 * byte + q) / 8 == byte + q / 8 && (8 * byte + q) % 8 == q % 8;
    if byte + q / 8 < |o| {
      assert Bits(o)[8 * byte + q] == BitAt(o, 8 * byte + q);
      assert buf[q / 8] == o[q / 8 + byte];
    } else {
      assert buf[q / 8] == 0;
      ZeroHasNone(7 - q % 8);
    }
  }

  lemma ZeroHasNone(bit: nat)
    requires bit < 8
    ensures !Has(0, bit)
  {
  }

  /** The GET branch: any offset, also past the end. */
  method GetField(o: array<bv8>, op: Op) returns (value: int)
    requires OpOk(op)
    ensures value == Decode(Read(Bits(o[..]), op.offset, op.bits), op.bits, op.signed)
  {
    hide Bits, Read, Pow2;
    var byte := op.offset / 8;
    var at := op.offset - byte * 8;
    var buf := Window(o, byte);
    ReadShifted(Bits(buf[..]), Bits(o[..]), 8 * byte, at, op.bits);
    if op.signed {
      value := GetSigned(buf, at, op.bits);
    } else {
      value := GetUnsigned(buf, at, op.bits);
    }
  }

  // ---------------------------------------------------------------------------------------------------------
  // SET, INCRBY and the list of operations
  // ---------------------------------------------------------------------------------------------------------

  /** The signed branch: what is stored, what is answered, and whether a check failed under FAIL. */
  method ComputeSigned(op: Op, was: int) returns (newval: int, retval: int, refused: bool)
    requires OpOk(op) && op.signed && op.opcode != Get && Fits(was, op.bits, true)
    ensures var v := Target(op, was);
            && refused == (op.ow == Fail && !Fits(v, op.bits, true))
            && (!refused ==> newval == StoredBy(op, v) && retval == if op.opcode == IncrBy then newval else was)
  {
    hide CheckSigned, Pow2, Stored;
    Pow2Words();
    Pow2Grows(op.bits - 1, 63);
    var c;
    if op.opcode == IncrBy {
      CheckSignedIs(was, op.i64, op.bits, op.ow);
      FitsIsStored(was + op.i64, op.bits, true, op.ow);
      newval := ToI64(was + op.i64);
      c := CheckSigned(was, op.i64, op.bits, op.ow);
      if c.code == 0 { ToI64Small(was + op.i64); }
    } else {
      CheckSignedIs(op.i64, 0, op.bits, op.ow);
      FitsIsStored(op.i64, op.bits, true, op.ow);
      newval := op.i64;
      c := CheckSigned(op.i64, 0, op.bits, op.ow);
    }
    if c.code != 0 { newval := c.limit; }
    retval := if op.opcode == IncrBy then newval else was;
    refused := c.code != 0 && op.ow == Fail;
  }

  lemma FitsIsStored(v: int, bits: nat, signed: bool, ow: Overflow)
    requires 1 <= bits
    ensures Fits(v, bits, signed) ==> Stored(v, bits, signed, ow) == v
  {
  }

  /** The unsigned branch. */
  method ComputeUnsigned(op: Op, was: int) returns (newval: int, retval: int, refused: bool)
    requires OpOk(op) && !op.signed && op.opcode != Get && Fits(was, op.bits, false)
    ensures var v := Target(op, was);
            && refused == (op.ow == Fail && !Fits(v, op.bits, false))
            && (!refused ==> newval == StoredBy(op, v) && retval == if op.opcode == IncrBy then newval else was)
  {
    hide CheckUnsigned, Pow2, Stored;
    Pow2Words();
    Pow2Grows(op.bits, 63);
    var c;
    if op.opcode == IncrBy {
      CheckUnsignedIs(was, op.i64, op.bits, op.ow);
      FitsIsStored(was + op.i64, op.bits, false, op.ow);
      newval := (was + op.i64) % TWO_64;
      c := CheckUnsigned(was, op.i64, op.bits, op.ow);
      if c.code == 0 { ModUnique(was + op.i64, TWO_64, 0, was + op.i64); }
    } else {
      newval := op.i64 % TWO_64;
      CheckUnsignedIs(newval, 0, op.bits, op.ow);
      FitsIsStored(newval, op.bits, false, op.ow);
      c := CheckUnsigned(newval, 0, op.bits, op.ow);
    }
    if c.code != 0 { newval := c.limit; }
    retval := if op.opcode == IncrBy then newval else was;
    refused := c.code != 0 && op.ow == Fail;
  }

  lemma FieldFits(s: seq<bv8>, op: Op)
    requires OpOk(op)
    ensures Fits(Decode(Read(Bits(s), op.offset, op.bits), op.bits, op.signed), op.bits, op.signed)
  {
    hide Bits, Read;
    BitsAreBits(s);
    ReadBound(Bits(s), op.offset, op.bits);
    Pow2Doubles(op.bits);
  }

  lemma {:induction false} DigitMod(v: nat, n: nat, k: nat)
    requires k < n
    ensures Digit(v % Pow2(n), k) == Digit(v, k)
  {
    ModHalves(v, Pow2(n - 1));
    var w := v % Pow2(n);
    assert w % 2 == v % 2 && w / 2 == (v / 2) % Pow2(n - 1);
    if k > 0 { DigitMod(v / 2, n - 1, k - 1); }
  }

  /** Only the bits of the field's width matter to a write. */
  lemma WriteLowBits(b: seq<nat>, offset: nat, bits: nat, v: int)
    requires bits <= 64
    ensures Write(b, offset, bits, v % TWO_64) == Write(b, offset, bits, v % Pow2(bits))
  {
    hide Digit, Pow2;
    Pow2Words();
    ModPow2(v, bits, 64);
    forall k: nat | k < bits ensures Digit(v % TWO_64, k) == Digit(v % Pow2(bits), k) {
      DigitMod(v % TWO_64, bits, k);
    }
  }

  /** One operation of the loop in bitfieldGeneric. */
  method RunOp(o: array<bv8>, op: Op) returns (reply: Reply)
    requires OpOk(op) && (op.opcode != Get ==> op.offset + op.bits <= 8 * o.Length)
    modifies o
    ensures (Bits(o[..]), reply) == Step(old(Bits(o[..])), op)
  {
    hide Bits, Read, Write, Pow2, StoredBy, Fits, Target, Decode;
    var was, newval, retval, refused;
    if op.opcode == Get {
      was := GetField(o, op);
      return Number(was);
    }
    FieldFits(o[..], op);
    if op.signed {
      was := GetSigned(o, op.offset, op.bits);
      newval, retval, refused := ComputeSigned(op, was);
    } else {
      was := GetUnsigned(o, op.offset, op.bits);
      UnsignedIsRaw(was, op.bits);
      newval, retval, refused := ComputeUnsigned(op, was);
    }
    if refused { return Null; }
    WriteLowBits(Bits(o[..]), op.offset, op.bits, newval);
    SetUnsigned(o, op.offset, op.bits, newval % TWO_64);
    return Number(retval);
  }

  lemma UnsignedIsRaw(raw: int, bits: nat)
    requires 1 <= bits
    ensures Decode(raw, bits, false) == raw
  {
  }

  /** The whole list, one operation after the other. */
  ghost function Steps(b: seq<nat>, ops: seq<Op>): (seq<nat>, seq<Reply>)
    requires forall op <- ops :: OpOk(op)
  {
    if ops == [] then (b, [])
    else
      var (mid, replies) := Steps(b, ops[..|ops| - 1]);
      var (after, reply) := Step(mid, ops[|ops| - 1]);
      (after, replies + [reply])
  }

  /** The operation loop of bitfieldGeneric, on a string grown to hold every bit that is written. */
  method RunOps(o: array<bv8>, ops: seq<Op>) returns (replies: seq<Reply>)
    requires forall op <- ops :: OpOk(op) && (op.opcode != Get ==> op.offset + op.bits <= 8 * o.Length)
    modifies o
    ensures (Bits(o[..]), replies) == Steps(old(Bits(o[..])), ops)
  {
    hide Bits, Step, OpOk;
    replies := [];
    for j := 0 to |ops|
      invariant (Bits(o[..]), replies) == Steps(old(Bits(o[..])), ops[..j])
    {
      assert ops[..j + 1][..j] == ops[..j];
      assert ops[j] in ops;
      var reply := RunOp(o, ops[j]);
      replies := replies + [reply];
    }
    assert ops[..|ops|] == ops;
  }

  /** Making room: zero bytes at the end leave the zero-padded bit string as it is. */
  lemma GrowthIsInvisible(s: seq<bv8>, zeros: nat, p: nat)
    ensures At(Bits(s + seq(zeros, _ => 0)), p) == At(Bits(s), p)
  {
    hide Has;
    var t := s + seq(zeros, _ => 0);
    if p < 8 * |t| {
      assert Bits(t)[p] == BitAt(t, p);
      if p < 8 * |s| { assert Bits(s)[p] == BitAt(s, p); } else { ZeroHasNone(7 - p % 8); }
    }
  }

  // ---------------------------------------------------------------------------------------------------------
  // On a string without end
  // ---------------------------------------------------------------------------------------------------------

  /** A bit for every position. */
  type Tape = nat -> nat

  ghost function ReadTape(t: Tape, offset: nat, n: nat): nat {
    if n == 0 then 0 else 2 * ReadTape(t, offset, n - 1) + t(offset + n - 1)
  }

  ghost function WriteTape(t: Tape, offset: nat, n: nat, v: nat): Tape {
    (p: nat) => if offset <= p < offset + n then Digit(v, n - 1 - (p - offset)) else t(p)
  }

  /** One operation, as BitField.Step has it. */
  ghost function StepTape(t: Tape, op: Op): (Tape, Reply)
    requires OpOk(op)
  {
    var was := Decode(ReadTape(t, op.offset, op.bits), op.bits, op.signed);
    var v := Target(op, was);
    if op.opcode == Get then (t, Number(was))
    else if op.ow == Fail && !Fits(v, op.bits, op.signed) then (t, Null)
    else
      var now := StoredBy(op, v);
      (WriteTape(t, op.offset, op.bits, now % Pow2(op.bits)), Number(if op.opcode == IncrBy then now else was))
  }

  ghost function StepsTape(t: Tape, ops: seq<Op>): (Tape, seq<Reply>)
    requires forall op <- ops :: OpOk(op)
  {
    if ops == [] then (t, [])
    else
      var (mid, replies) := StepsTape(t, ops[..|ops| - 1]);
      var (after, reply) := StepTape(mid, ops[|ops| - 1]);
      (after, replies + [reply])
  }

  /** The string as far as it goes, then zeros. */
  ghost predicate Shows(b: seq<nat>, t: Tape) {
    forall p: nat :: At(b, p) == t(p)
  }

  lemma {:induction false} ReadShown(b: seq<nat>, t: Tape, offset: nat, n: nat)
    requires Shows(b, t)
    ensures Read(b, offset, n) == ReadTape(t, offset, n)
  {
    if n > 0 { ReadShown(b, t, offset, n - 1); }
  }

  lemma WriteShown(b: seq<nat>, t: Tape, offset: nat, n: nat, v: nat)
    requires Shows(b, t) && offset + n <= |b|
    ensures Shows(Write(b, offset, n, v), WriteTape(t, offset, n, v))
  {
    hide Digit;
    forall p: nat ensures At(Write(b, offset, n, v), p) == WriteTape(t, offset, n, v)(p) {
      assert At(b, p) == t(p);
    }
  }

  predicate HasRoom(size: nat, op: Op) { op.opcode != Get ==> op.offset + op.bits <= size }

  lemma StepShown(b: seq<nat>, t: Tape, op: Op)
    requires OpOk(op) && Shows(b, t) && HasRoom(|b|, op)
    ensures var (after, reply), (tape, told) := Step(b, op), StepTape(t, op);
            Shows(after, tape) && reply == told && |after| == |b|
  {
    hide Read, Write, WriteTape, Decode, Target, Fits, StoredBy, Pow2, Shows;
    ReadShown(b, t, op.offset, op.bits);
    if op.opcode != Get {
      var v := Target(op, Decode(Read(b, op.offset, op.bits), op.bits, op.signed));
      if !(op.ow == Fail && !Fits(v, op.bits, op.signed)) {
        WriteShown(b, t, op.offset, op.bits, StoredBy(op, v) % Pow2(op.bits));
      }
    }
  }

  lemma {:induction false} StepsShown(b: seq<nat>, t: Tape, ops: seq<Op>)
    requires Shows(b, t) && forall op <- ops :: OpOk(op) && HasRoom(|b|, op)
    ensures var (after, replies), (tape, told) := Steps(b, ops), StepsTape(t, ops);
            Shows(after, tape) && replies == told && |after| == |b|
  {
    hide Step, StepTape, Shows, OpOk, HasRoom;
    if ops != [] {
      var rest, op := ops[..|ops| - 1], ops[|ops| - 1];
      assert op in ops && forall o <- rest :: o in ops;
      StepsShown(b, t, rest);
      StepShown(Steps(b, rest).0, StepsTape(t, rest).0, op);
    }
  }

  ghost function TapeOf(s: seq<bv8>): Tape {
    (p: nat) => At(Bits(s), p)
  }

  /** The size the string is given: enough for the highest bit that is written. */
  method SizeFor(len: nat, ops: seq<Op>) returns (size: nat)
    requires forall op <- ops :: OpOk(op)
    ensures size >= len && forall op <- ops :: HasRoom(8 * size, op)
    ensures size > len ==> exists op <- ops :: op.opcode != Get && 8 * size <= op.offset + op.bits + 7
  {
    var readonly, highest := true, 0;
    for j := 0 to |ops|
      invariant forall i | 0 <= i < j :: ops[i].opcode != Get ==> !readonly && ops[i].offset + ops[i].bits <= highest + 1
      invariant if readonly then highest == 0 else exists op <- ops :: op.opcode != Get && highest + 1 <= op.offset + op.bits
    {
      var op := ops[j];
      assert op in ops;
      if op.opcode != Get {
        readonly := false;
        if highest < op.offset + op.bits - 1 { highest := op.offset + op.bits - 1; }
      }
    }
    size := if readonly || highest / 8 + 1 < len then len else highest / 8 + 1;
    forall op <- ops ensures HasRoom(8 * size, op) {
      var i :| 0 <= i < |ops| && ops[i] == op;
    }
  }

  /** bitfieldGeneric once its arguments are parsed: whatever the string's length, the replies and the bits afterwards are
      those of the operations on the string continued by zeros for ever. */
  method Bitfield(s: seq<bv8>, ops: seq<Op>) returns (o: array<bv8>, replies: seq<Reply>)
    requires forall op <- ops :: OpOk(op)
    ensures var (tape, told) := StepsTape(TapeOf(s), ops); Shows(Bits(o[..]), tape) && replies == told
    ensures o.Length >= |s|
  {
    hide Bits, Steps, StepsTape, OpOk, HasRoom;
    var size := SizeFor(|s|, ops);
    o := new bv8[size](i requires i >= 0 => if i < |s| then s[i] else 0);
    assert o[..] == s + seq(size - |s|, _ => 0);
    ghost var b := Bits(o[..]);
    GrownShows(s, size - |s|);
    BitsLength(o[..]);
    StepsShown(b, TapeOf(s), ops);
    RoomForAll(ops, size);
    replies := RunOps(o, ops);
  }

  lemma RoomForAll(ops: seq<Op>, size: nat)
    requires forall op <- ops :: OpOk(op) && HasRoom(8 * size, op)
    ensures forall op <- ops :: op.opcode != Get ==> op.offset + op.bits <= 8 * size
  {
    hide OpOk;
    forall op <- ops ensures op.opcode != Get ==> op.offset + op.bits <= 8 * size {
      assert HasRoom(8 * size, op);
    }
  }

  lemma BitsLength(s: seq<bv8>)
    ensures |Bits(s)| == 8 * |s|
  {
  }

  lemma GrownShows(s: seq<bv8>, zeros: nat)
    ensures Shows(Bits(s + seq(zeros, _ => 0)), TapeOf(s))
  {
    hide Bits;
    forall p: nat ensures At(Bits(s + seq(zeros, _ => 0)), p) == TapeOf(s)(p) {
      GrowthIsInvisible(s, zeros, p);
    }
  }
}
