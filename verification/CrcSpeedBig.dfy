/** The big-endian variant of crcspeed.c: the register and the tables are kept byte-swapped, and a word is loaded with
    its first byte on top. */
module CrcSpeedBig {
  import opened Crc64
  import opened CrcReflected
  import opened CrcSpeed

  /** The bytes of a word in the opposite order. */
  function Swap(x: bv64): bv64 {
    ((x & 0xff) << 56) | (((x >> 8) & 0xff) << 48) | (((x >> 16) & 0xff) << 40) | (((x >> 24) & 0xff) << 32)
    | (((x >> 32) & 0xff) << 24) | (((x >> 40) & 0xff) << 16) | (((x >> 48) & 0xff) << 8) | (x >> 56)
  }

  /** rev8 as written for compilers without a byte-swap builtin. */
  method Rev8(word: bv64) returns (a: bv64)
    ensures a == Swap(word)
  {
    var m := 0xff00ff00ff00ff;
    a := ((word >> 8) & m) | ((word & m) << 8);
    m := 0xffff0000ffff;
    a := ((a >> 16) & m) | ((a & m) << 16);
    a := (a >> 32) | (a << 32);
  }

  lemma SwapTwice(x: bv64)
    ensures Swap(Swap(x)) == x
  {
  }

  lemma SwapXor(x: bv64, y: bv64)
    ensures Swap(Xor(x, y)) == Xor(Swap(x), Swap(y))
  {
  }

  lemma SwapShift(x: bv64)
    ensures Swap(Shr8(x)) == Shl8(Swap(x))
  {
    SwapShiftBits(x);
  }

  lemma SwapShiftBits(x: bv64)
    ensures Swap(x >> 8) == Swap(x) << 8
  {
  }

  lemma SwapBytes(x: bv64, k: nat)
    requires k < 8
    ensures Byte(Swap(x), k) == Byte(x, 7 - k)
  {
    hide Low, Swap;
    SwapBytesBits(x);
  }

  lemma SwapBytesBits(x: bv64)
    ensures Low(Swap(x)) == Low(x >> 56) && Low(Swap(x) >> 8) == Low(x >> 48)
    ensures Low(Swap(x) >> 16) == Low(x >> 40) && Low(Swap(x) >> 24) == Low(x >> 32)
    ensures Low(Swap(x) >> 32) == Low(x >> 24) && Low(Swap(x) >> 40) == Low(x >> 16)
    ensures Low(Swap(x) >> 48) == Low(x >> 8) && Low(Swap(x) >> 56) == Low(x)
  {
  }

  lemma TopByte(r: bv64, c: bv8)
    ensures Low(Xor(Swap(r) >> 56, Wide(c))) == Low(Xor(r, Wide(c)))
  {
  }

  // ---------------------------------------------------------------------------------------------------------
  // Loading eight bytes
  // ---------------------------------------------------------------------------------------------------------

  /** The word a big-endian machine reads: every byte pushes the earlier ones up. */
  function LoadBig(d: seq<bv8>): bv64 {
    if d == [] then 0 else Xor(Shl8(LoadBig(d[..|d| - 1])), Wide(d[|d| - 1]))
  }

  lemma PushByte(d: seq<bv8>, k: nat)
    requires k < |d|
    ensures LoadBig(d[..k + 1]) == Xor(Shl8(LoadBig(d[..k])), Wide(d[k]))
  {
    hide Xor, Shl8, Wide;
    assert d[..k + 1][..k] == d[..k];
  }

  lemma LoadBigHead(d: seq<bv8>)
    requires |d| == 8
    ensures LoadBig(d[..4]) == Xor(Shl8(Xor(Shl8(Xor(Shl8(Wide(d[0])), Wide(d[1]))), Wide(d[2]))), Wide(d[3]))
  {
    hide Xor, Shl8, Wide, LoadBig;
    LoadBigNothing(d);
    ShiftedNothing(d[0]);
    PushByte(d, 0);
    PushByte(d, 1);
    PushByte(d, 2);
    PushByte(d, 3);
  }

  lemma LoadBigIs(d: seq<bv8>)
    requires |d| == 8
    ensures LoadBig(d) == Xor(Shl8(Xor(Shl8(Xor(Shl8(Xor(Shl8(Xor(Shl8(Xor(Shl8(Xor(Shl8(Wide(d[0])),
              Wide(d[1]))), Wide(d[2]))), Wide(d[3]))), Wide(d[4]))), Wide(d[5]))), Wide(d[6]))), Wide(d[7]))
  {
    hide Xor, Shl8, Wide, LoadBig;
    LoadBigHead(d);
    PushByte(d, 4);
    PushByte(d, 5);
    PushByte(d, 6);
    PushByte(d, 7);
    assert d[..8] == d;
  }

  lemma LoadBigNothing(d: seq<bv8>)
    ensures LoadBig(d[..0]) == 0
  {
  }

  lemma ShiftedNothing(c: bv8)
    ensures Xor(Shl8(0), Wide(c)) == Wide(c)
  {
  }

  lemma TakeByte(d: seq<bv8>, k: nat)
    requires k < |d|
    ensures LoadLittle(d[k..]) == Xor(Wide(d[k]), Shl8(LoadLittle(d[k + 1..])))
  {
    hide Xor, Shl8, Wide;
    assert d[k..][1..] == d[k + 1..];
  }

  lemma LoadLittleNothing(d: seq<bv8>)
    requires d == []
    ensures LoadLittle(d) == 0
  {
  }

  lemma LoadLittleTail(d: seq<bv8>)
    requires |d| == 8
    ensures LoadLittle(d[4..]) == Xor(Wide(d[4]), Shl8(Xor(Wide(d[5]), Shl8(Xor(Wide(d[6]), Shl8(Wide(d[7])))))))
  {
    hide Xor, Shl8, Wide, LoadLittle;
    TakeByte(d, 4);
    TakeByte(d, 5);
    TakeByte(d, 6);
    TakeByte(d, 7);
    LoadLittleNothing(d[8..]);
    LowestByte(d[7]);
  }

  lemma LoadLittleIs(d: seq<bv8>)
    requires |d| == 8
    ensures LoadLittle(d) == Xor(Wide(d[0]), Shl8(Xor(Wide(d[1]), Shl8(Xor(Wide(d[2]), Shl8(Xor(Wide(d[3]),
              Shl8(Xor(Wide(d[4]), Shl8(Xor(Wide(d[5]), Shl8(Xor(Wide(d[6]), Shl8(Wide(d[7])))))))))))))))
  {
    hide Xor, Shl8, Wide, LoadLittle;
    assert d[0..] == d;
    TakeByte(d, 0);
    TakeByte(d, 1);
    TakeByte(d, 2);
    TakeByte(d, 3);
    LoadLittleTail(d);
  }

  lemma LowestByte(c: bv8)
    ensures Xor(Wide(c), Shl8(0)) == Wide(c)
  {
  }

  lemma SwapEight(a: bv8, b: bv8, c: bv8, d: bv8, e: bv8, f: bv8, g: bv8, h: bv8)
    ensures Swap(Xor(Wide(a), Shl8(Xor(Wide(b), Shl8(Xor(Wide(c), Shl8(Xor(Wide(d),
              Shl8(Xor(Wide(e), Shl8(Xor(Wide(f), Shl8(Xor(Wide(g), Shl8(Wide(h))))))))))))))))
            == Xor(Shl8(Xor(Shl8(Xor(Shl8(Xor(Shl8(Xor(Shl8(Xor(Shl8(Xor(Shl8(Wide(a)),
              Wide(b))), Wide(c))), Wide(d))), Wide(e))), Wide(f))), Wide(g))), Wide(h))
  {
  }

  /** The two byte orders load each other's byte-swapped word. */
  lemma LoadsSwap(d: seq<bv8>)
    requires |d| == 8
    ensures LoadBig(d) == Swap(LoadLittle(d))
  {
    hide LoadBig, LoadLittle, Swap, Xor, Shl8, Wide;
    LoadBigIs(d);
    LoadLittleIs(d);
    SwapEight(d[0], d[1], d[2], d[3], d[4], d[5], d[6], d[7]);
  }

  // ---------------------------------------------------------------------------------------------------------
  // Big-endian loop
  // ---------------------------------------------------------------------------------------------------------

  ghost predicate IsBigTable(table: array2<bv64>)
    reads table
  {
    && table.Length0 == 8 && table.Length1 == 256
    && forall k: nat, n: bv8 :: k < 8 ==> table[k, n as int] == Swap(Entry(k, n))
  }

  /** crcspeed64big_init over _crc64. */
  method InitBig(table: array2<bv64>)
    requires table.Length0 == 8 && table.Length1 == 256
    modifies table
    ensures IsBigTable(table)
  {
    hide Entry, Swap;
    InitLittle(table);
    for k := 0 to 8
      invariant forall j: nat, m: bv8 :: j < k ==> table[j, m as int] == Swap(Entry(j, m))
      invariant forall j: nat, m: bv8 :: k <= j < 8 ==> table[j, m as int] == Entry(j, m)
    {
      SwapRow(table, k);
    }
  }

  method SwapRow(table: array2<bv64>, k: nat)
    requires table.Length0 == 8 && table.Length1 == 256 && k < 8
    modifies table
    ensures forall m | 0 <= m < 256 :: table[k, m] == Swap(old(table[k, m]))
    ensures forall j, m | 0 <= j < 8 && j != k && 0 <= m < 256 :: table[j, m] == old(table[j, m])
  {
    hide Swap;
    for n := 0 to 256
      invariant forall m | 0 <= m < n :: table[k, m] == Swap(old(table[k, m]))
      invariant forall m | n <= m < 256 :: table[k, m] == old(table[k, m])
      invariant forall j, m | 0 <= j < 8 && j != k && 0 <= m < 256 :: table[j, m] == old(table[j, m])
    {
      var swapped := Rev8(table[k, n]);
      table[k, n] := swapped;
    }
  }

  lemma LookUpByteBig(r: bv64, c: bv8)
    ensures Swap(Shift(Xor(r, Wide(c)), 8))
            == Xor(Swap(Entry(0, Low(Xor(Swap(r) >> 56, Wide(c))))), Shl8(Swap(r)))
  {
    hide Swap, Shift, Xor, Wide, Low, Shl8, Shr8, Entry;
    LookUpByte(r, c);
    TopByte(r, c);
    SwapXor(Entry(0, Low(Xor(r, Wide(c)))), Shr8(r));
    SwapShift(r);
  }

  lemma SwapEightXors(a: bv64, b: bv64, c: bv64, d: bv64, e: bv64, f: bv64, g: bv64, h: bv64)
    ensures Swap(Xor(a, Xor(b, Xor(c, Xor(d, Xor(e, Xor(f, Xor(g, h))))))))
            == Xor(Xor(Xor(Xor(Xor(Xor(Xor(Swap(h), Swap(g)), Swap(f)), Swap(e)), Swap(d)), Swap(c)), Swap(b)), Swap(a))
  {
    hide Xor, Swap;
    var x1 := Xor(g, h);
    var x2 := Xor(f, x1);
    var x3 := Xor(e, x2);
    var x4 := Xor(d, x3);
    var x5 := Xor(c, x4);
    var x6 := Xor(b, x5);
    SwapXor(g, h);
    SwapXor(f, x1);
    SwapXor(e, x2);
    SwapXor(d, x3);
    SwapXor(c, x4);
    SwapXor(b, x5);
    SwapXor(a, x6);
    XorCommutes(Swap(g), Swap(h));
    XorCommutes(Swap(f), Swap(x1));
    XorCommutes(Swap(e), Swap(x2));
    XorCommutes(Swap(d), Swap(x3));
    XorCommutes(Swap(c), Swap(x4));
    XorCommutes(Swap(b), Swap(x5));
    XorCommutes(Swap(a), Swap(x6));
  }

  /** Eight lookups in the order crcspeed64big makes them. */
  method SliceBig(table: array2<bv64>, y: bv64, ghost x: bv64) returns (crc: bv64)
    requires IsBigTable(table) && y == Swap(x)
    ensures crc == Swap(Slices(x))
  {
    hide Xor, Byte, Entry, Swap, Slices;
    SlicesByByte(x);
    forall k: nat | k < 8 ensures Byte(y, k) == Byte(x, 7 - k) {
      SwapBytes(x, k);
    }
    SwapEightXors(Entry(7, Byte(x, 0)), Entry(6, Byte(x, 1)), Entry(5, Byte(x, 2)), Entry(4, Byte(x, 3)),
                  Entry(3, Byte(x, 4)), Entry(2, Byte(x, 5)), Entry(1, Byte(x, 6)), Entry(0, Byte(x, 7)));
    crc := Xor(Xor(Xor(Xor(Xor(Xor(Xor(
      table[0, Byte(y, 0) as int],
      table[1, Byte(y, 1) as int]),
      table[2, Byte(y, 2) as int]),
      table[3, Byte(y, 3) as int]),
      table[4, Byte(y, 4) as int]),
      table[5, Byte(y, 5) as int]),
      table[6, Byte(y, 6) as int]),
      table[7, Byte(y, 7) as int]);
  }

  /** crcspeed64big. */
  method CrcSpeed64Big(table: array2<bv64>, start: bv64, buf: seq<bv8>, addr: nat) returns (r: bv64)
    requires IsBigTable(table)
    ensures r == Update(start, buf)
  {
    hide Update, Xor, Wide, Low, Shl8, Shift, Slices, LoadLittle, LoadBig, Swap;
    var crc := Rev8(start);
    var next, len := 0, |buf|;
    UpdateNothing(start, buf);
    while len != 0 && (addr + next) % 8 != 0
      invariant next + len == |buf| && 0 <= len
      invariant crc == Swap(Update(start, buf[..next]))
    {
      UpdateByte(start, buf, next);
      LookUpByteBig(Update(start, buf[..next]), buf[next]);
      crc := Xor(table[0, Low(Xor(crc >> 56, Wide(buf[next]))) as int], Shl8(crc));
      next, len := next + 1, len - 1;
    }
    while 8 <= len
      invariant next + len == |buf| && 0 <= len
      invariant crc == Swap(Update(start, buf[..next]))
    {
      UpdateWord(start, buf, next);
      ghost var r, w := Update(start, buf[..next]), LoadLittle(buf[next..next + 8]);
      LoadsSwap(buf[next..next + 8]);
      SwapXor(r, w);
      crc := SliceBig(table, Xor(crc, LoadBig(buf[next..next + 8])), Xor(r, w));
      next, len := next + 8, len - 8;
    }
    while len != 0
      invariant next + len == |buf| && 0 <= len
      invariant crc == Swap(Update(start, buf[..next]))
    {
      UpdateByte(start, buf, next);
      LookUpByteBig(Update(start, buf[..next]), buf[next]);
      crc := Xor(table[0, Low(Xor(crc >> 56, Wide(buf[next]))) as int], Shl8(crc));
      next, len := next + 1, len - 1;
    }
    assert buf[..next] == buf;
    SwapTwice(Update(start, buf));
    r := Rev8(crc);
  }

  // ---------------------------------------------------------------------------------------------------------
  // crc64 on either kind of machine
  // ---------------------------------------------------------------------------------------------------------

  /** crc64_init and crc64: the table-driven result is the bit-by-bit one, started from the reflected register,
      whatever the byte order of the machine and the address of the buffer. */
  method CrcNative(littleEndian: bool, start: bv64, buf: seq<bv8>, addr: nat) returns (crc: bv64)
    ensures crc == Reflect(Divide(Reflect(start), buf))
  {
    hide Reflect, Divide, Update, IsTable, IsBigTable;
    var table := new bv64[8, 256];
    if littleEndian {
      InitLittle(table);
      crc := CrcSpeed64Little(table, start, buf, addr);
    } else {
      InitBig(table);
      crc := CrcSpeed64Big(table, start, buf, addr);
    }
    UpdateIsReflectedDivision(Reflect(start), buf);
    ReflectTwice(start);
  }
}
