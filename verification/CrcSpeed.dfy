/** The slice-by-8 CRC-64 of crcspeed.c: the lookup tables and the little-endian loop, which gives, for every buffer,
    address and starting value, what the bit-by-bit division gives. */
module CrcSpeed {
  import opened Crc64
  import opened CrcReflected

  /** Entry n of table k: byte n followed by k zero bytes. */
  function Entry(k: nat, n: bv8): bv64 {
    Shift(Wide(n), 8 * k + 8)
  }

  ghost predicate IsTable(table: array2<bv64>)
    reads table
  {
    && table.Length0 == 8 && table.Length1 == 256
    && forall k: nat, n: bv8 :: k < 8 ==> table[k, n as int] == Entry(k, n)
  }

  // ---------------------------------------------------------------------------------------------------------
  // One byte and one word through the tables
  // ---------------------------------------------------------------------------------------------------------

  lemma Shr8IgnoresByte(r: bv64, c: bv8)
    ensures Shr8(Xor(r, Wide(c))) == Shr8(r)
  {
  }

  lemma LookUpByte(r: bv64, c: bv8)
    ensures Shift(Xor(r, Wide(c)), 8) == Xor(Entry(0, Low(Xor(r, Wide(c)))), Shr8(r))
  {
    hide Shift, Xor, Wide, Low, Shr8;
    ShiftByLowByte(Xor(r, Wide(c)));
    Shr8IgnoresByte(r, c);
  }

  /** The table recurrence of crcspeed64little_init. */
  lemma NextEntry(k: nat, n: bv8)
    ensures Entry(k + 1, n) == Xor(Entry(0, Low(Entry(k, n))), Shr8(Entry(k, n)))
  {
    hide Shift, Xor, Wide, Low, Shr8;
    ShiftAdds(Wide(n), 8 * k + 8, 8);
    ShiftByLowByte(Entry(k, n));
  }

  lemma PeelByte(x: bv64, m: nat)
    ensures Shift(x, 8 * m + 8) == Xor(Entry(m, Low(x)), Shift(Shr8(x), 8 * m))
  {
    hide Shift, Xor, Wide, Low, Shr8, Shl8;
    SplitLowByte(x);
    var high := Shl8(Shr8(x));
    ShiftLinear(Wide(Low(x)), high, 8 * m + 8);
    ShiftAdds(high, 8, 8 * m);
    ShiftClear(high);
  }

  lemma EightPeels(x: bv64)
    ensures Shr8(Shr8(Shr8(Shr8(Shr8(Shr8(Shr8(Shr8(x)))))))) == 0
  {
  }

  /** Sixty-four steps, one table entry per byte. */
  function Slices(x: bv64): bv64 {
    var x1 := Shr8(x);
    var x2 := Shr8(x1);
    var x3 := Shr8(x2);
    var x4 := Shr8(x3);
    var x5 := Shr8(x4);
    var x6 := Shr8(x5);
    var x7 := Shr8(x6);
    Xor(Entry(7, Low(x)), Xor(Entry(6, Low(x1)), Xor(Entry(5, Low(x2)), Xor(Entry(4, Low(x3)),
      Xor(Entry(3, Low(x4)), Xor(Entry(2, Low(x5)), Xor(Entry(1, Low(x6)), Entry(0, Low(x7)))))))))
  }

  lemma ShiftIsSlices(x: bv64)
    ensures Shift(x, 64) == Slices(x)
  {
    hide Shift, Xor, Low, Shr8, Entry;
    var x1 := Shr8(x);
    var x2 := Shr8(x1);
    var x3 := Shr8(x2);
    var x4 := Shr8(x3);
    var x5 := Shr8(x4);
    var x6 := Shr8(x5);
    var x7 := Shr8(x6);
    PeelByte(x, 7);
    PeelByte(x1, 6);
    PeelByte(x2, 5);
    PeelByte(x3, 4);
    PeelByte(x4, 3);
    PeelByte(x5, 2);
    PeelByte(x6, 1);
    PeelByte(x7, 0);
    EightPeels(x);
    ShiftZero(0);
    XorCancels(Entry(0, Low(x7)), 0);
  }

  // ---------------------------------------------------------------------------------------------------------
  // Loading eight bytes
  // ---------------------------------------------------------------------------------------------------------

  /** The word a little-endian machine reads from up to eight bytes. */
  function LoadLittle(d: seq<bv8>): bv64 {
    if d == [] then 0 else Xor(Wide(d[0]), Shl8(LoadLittle(d[1..])))
  }

  function OneMoreByte(ones: bv64): bv64 { (ones << 8) | 0xff }

  function Ones(k: nat): bv64 {
    if k == 0 then 0 else OneMoreByte(Ones(k - 1))
  }

  ghost predicate Fits(w: bv64, ones: bv64) {
    w & ones == w
  }

  lemma AddByteFits(w: bv64, c: bv8, ones: bv64)
    requires Fits(w, ones)
    ensures Fits(Xor(Wide(c), Shl8(w)), OneMoreByte(ones))
  {
  }

  lemma NoBitsFit(ones: bv64)
    ensures Fits(0, ones)
  {
  }

  lemma {:induction false} LoadFits(d: seq<bv8>, k: nat)
    requires |d| <= k
    ensures Fits(LoadLittle(d), Ones(k))
    decreases k
  {
    hide Fits, Xor, Wide, Shl8, OneMoreByte;
    if d == [] {
      NoBitsFit(Ones(k));
    } else {
      LoadFits(d[1..], k - 1);
      AddByteFits(LoadLittle(d[1..]), d[0], Ones(k - 1));
    }
  }

  lemma SevenOnes()
    ensures Ones(7) == 0x00ffffffffffffff
  {
    assert Ones(1) == 0xff;
    assert Ones(2) == 0xffff;
    assert Ones(3) == 0xffffff;
    assert Ones(4) == 0xffffffff;
    assert Ones(5) == 0xffffffffff;
    assert Ones(6) == 0xffffffffffff;
  }

  lemma RoomForByte(w: bv64, c: bv8)
    requires Fits(w, 0x00ffffffffffffff)
    ensures Low(Shl8(w)) == 0 && Shr8(Shl8(w)) == w
  {
  }

  lemma LoadShifts(d: seq<bv8>)
    requires |d| <= 7
    ensures Shift(Shl8(LoadLittle(d)), 8) == LoadLittle(d)
  {
    hide Fits, Xor, Wide, Shl8, Shift, LoadLittle, Ones, Low, Shr8;
    LoadFits(d, 7);
    SevenOnes();
    RoomForByte(LoadLittle(d), 0);
    ShiftClear(Shl8(LoadLittle(d)));
  }

  /** Entering bytes one at a time is entering the word they form at once. */
  lemma {:induction false} UpdateIsWordShift(r: bv64, d: seq<bv8>)
    requires |d| <= 8
    ensures Update(r, d) == Shift(Xor(r, LoadLittle(d)), 8 * |d|)
    decreases |d|
  {
    hide Xor, Wide, Shl8, Shift;
    if d == [] {
      XorCancels(r, 0);
      ShiftNothing(r);
    } else {
      var c, rest := d[0], d[1..];
      var r1, w := Shift(Xor(r, Wide(c)), 8), LoadLittle(rest);
      assert d == [c] + rest;
      UpdateConcat(r, [c], rest);
      UpdateOne(r, c);
      UpdateIsWordShift(r1, rest);
      XorAssociates(r, Wide(c), Shl8(w));
      ShiftAdds(Xor(Xor(r, Wide(c)), Shl8(w)), 8, 8 * |rest|);
      ShiftLinear(Xor(r, Wide(c)), Shl8(w), 8);
      LoadShifts(rest);
    }
  }

  lemma ShiftNothing(r: bv64)
    ensures Shift(r, 0) == r
  {
  }

  lemma UpdateOne(r: bv64, c: bv8)
    ensures Update(r, [c]) == Shift(Xor(r, Wide(c)), 8)
  {
    hide Xor, Wide, Shift;
    assert [c][..0] == [];
    assert Update(r, []) == r;
  }

  lemma LookUpWord(r: bv64, d: seq<bv8>)
    requires |d| == 8
    ensures Update(r, d) == Slices(Xor(r, LoadLittle(d)))
  {
    hide Update, Shift, Slices, Xor, LoadLittle;
    UpdateIsWordShift(r, d);
    ShiftIsSlices(Xor(r, LoadLittle(d)));
  }

  // ---------------------------------------------------------------------------------------------------------
  // Little-endian loop
  // ---------------------------------------------------------------------------------------------------------

  lemma SingleByteCrc(v: bv8)
    ensures Reflect(Divide(0, [v])) == Entry(0, v)
  {
    hide Reflect, Divide, Shift, Xor, Wide;
    UpdateIsReflectedDivision(0, [v]);
    ReflectZero();
    UpdateOne(0, v);
    XorCommutes(0, Wide(v));
    XorCancels(Wide(v), 0);
  }

  lemma ReflectZero()
    ensures Reflect(0) == 0
  {
  }

  /** A byte is the byte with its number. */
  lemma ByteNumber(m: bv8)
    ensures 0 <= m as int < 256 && (m as int) as bv8 == m
  {
  }

  /** crcspeed64little_init over _crc64. */
  method InitLittle(table: array2<bv64>)
    requires table.Length0 == 8 && table.Length1 == 256
    modifies table
    ensures IsTable(table)
  {
    hide Reflect, Divide, Entry, Xor, Shr8, Low;
    for n := 0 to 256
      invariant forall m: bv8 :: m as int < n ==> table[0, m as int] == Entry(0, m)
    {
      var v := n as bv8;
      var first := BitwiseCrc64(0, [v]);
      SingleByteCrc(v);
      table[0, n] := first;
      forall m: bv8 | m as int < n + 1 ensures table[0, m as int] == Entry(0, m) {
        ByteNumber(m);
      }
    }
    forall m: bv8 ensures table[0, m as int] == Entry(0, m) {
      ByteNumber(m);
    }
    FillRows(table);
  }

  /** The second loop of crcspeed64little_init. */
  method FillRows(table: array2<bv64>)
    requires table.Length0 == 8 && table.Length1 == 256
    requires forall m: bv8 :: table[0, m as int] == Entry(0, m)
    modifies table
    ensures IsTable(table)
  {
    hide Entry, Xor, Shr8, Low;
    for n := 0 to 256
      invariant forall m: bv8 :: table[0, m as int] == Entry(0, m)
      invariant forall k: nat, m: bv8 :: k < 8 && m as int < n ==> table[k, m as int] == Entry(k, m)
    {
      FillColumn(table, n);
    }
    forall k: nat, m: bv8 | k < 8 ensures table[k, m as int] == Entry(k, m) {
      ByteNumber(m);
    }
  }

  /** Its inner loop. */
  method FillColumn(table: array2<bv64>, n: nat)
    requires table.Length0 == 8 && table.Length1 == 256 && n < 256
    requires forall m: bv8 :: table[0, m as int] == Entry(0, m)
    modifies table
    ensures forall k: nat, i: nat | k < 8 && i < 256 && (i != n || k == 0) :: table[k, i] == old(table[k, i])
    ensures forall k: nat, m: bv8 | k < 8 && m as int == n :: table[k, m as int] == Entry(k, m)
  {
    hide Entry, Xor, Shr8, Low;
    var crc := table[0, n];
    for k := 1 to 8
      invariant crc == table[k - 1, n]
      invariant forall j: nat, i: nat | j < 8 && i < 256 && (i != n || j == 0) :: table[j, i] == old(table[j, i])
      invariant forall j: nat, m: bv8 | j < k && m as int == n :: table[j, m as int] == Entry(j, m)
    {
      var low := Low(crc);
      ByteNumber(low);
      assert table[0, low as int] == Entry(0, low);
      forall m: bv8 | m as int == n ensures Xor(Entry(0, low), Shr8(crc)) == Entry(k, m) {
        assert table[k - 1, m as int] == Entry(k - 1, m);
        NextEntry(k - 1, m);
      }
      crc := Xor(table[0, low as int], Shr8(crc));
      table[k, n] := crc;
    }
  }

  lemma {:induction false} UpdateByte(r: bv64, buf: seq<bv8>, next: nat)
    requires next < |buf|
    ensures Update(r, buf[..next + 1]) == Shift(Xor(Update(r, buf[..next]), Wide(buf[next])), 8)
  {
    hide Shift, Xor, Wide;
    assert buf[..next + 1][..next] == buf[..next];
  }

  lemma UpdateWord(r: bv64, buf: seq<bv8>, next: nat)
    requires next + 8 <= |buf|
    ensures Update(r, buf[..next + 8]) == Slices(Xor(Update(r, buf[..next]), LoadLittle(buf[next..next + 8])))
  {
    hide Update, Slices, Xor, LoadLittle;
    assert buf[..next + 8] == buf[..next] + buf[next..next + 8];
    UpdateConcat(r, buf[..next], buf[next..next + 8]);
    LookUpWord(Update(r, buf[..next]), buf[next..next + 8]);
  }

  lemma EightXors(a: bv64, b: bv64, c: bv64, d: bv64, e: bv64, f: bv64, g: bv64, h: bv64)
    ensures Xor(Xor(Xor(Xor(Xor(Xor(Xor(a, b), c), d), e), f), g), h)
            == Xor(a, Xor(b, Xor(c, Xor(d, Xor(e, Xor(f, Xor(g, h)))))))
  {
    hide Xor;
    var p := Xor(g, h);
    XorAssociates(Xor(Xor(Xor(Xor(Xor(a, b), c), d), e), f), g, h);
    XorAssociates(Xor(Xor(Xor(Xor(a, b), c), d), e), f, p);
    XorAssociates(Xor(Xor(Xor(a, b), c), d), e, Xor(f, p));
    XorAssociates(Xor(Xor(a, b), c), d, Xor(e, Xor(f, p)));
    XorAssociates(Xor(a, b), c, Xor(d, Xor(e, Xor(f, p))));
    XorAssociates(a, b, Xor(c, Xor(d, Xor(e, Xor(f, p)))));
  }

  /** Eight lookups in the order crcspeed64little makes them. */
  method SliceLittle(table: array2<bv64>, x: bv64) returns (crc: bv64)
    requires IsTable(table)
    ensures crc == Slices(x)
  {
    hide Xor, Byte, Entry, Slices;
    SlicesByByte(x);
    EightXors(Entry(7, Byte(x, 0)), Entry(6, Byte(x, 1)), Entry(5, Byte(x, 2)), Entry(4, Byte(x, 3)),
              Entry(3, Byte(x, 4)), Entry(2, Byte(x, 5)), Entry(1, Byte(x, 6)), Entry(0, Byte(x, 7)));
    crc := Xor(Xor(Xor(Xor(Xor(Xor(Xor(
      table[7, Byte(x, 0) as int],
      table[6, Byte(x, 1) as int]),
      table[5, Byte(x, 2) as int]),
      table[4, Byte(x, 3) as int]),
      table[3, Byte(x, 4) as int]),
      table[2, Byte(x, 5) as int]),
      table[1, Byte(x, 6) as int]),
      table[0, Byte(x, 7) as int]);
  }

  /** The byte of a word shifted down by whole bytes and masked. */
  function Byte(x: bv64, k: nat): bv8
    requires k < 8
  {
    match k
    case 0 => Low(x)
    case 1 => Low(x >> 8)
    case 2 => Low(x >> 16)
    case 3 => Low(x >> 24)
    case 4 => Low(x >> 32)
    case 5 => Low(x >> 40)
    case 6 => Low(x >> 48)
    case _ => Low(x >> 56)
  }

  lemma SlicesByByte(x: bv64)
    ensures Slices(x)
            == Xor(Entry(7, Byte(x, 0)), Xor(Entry(6, Byte(x, 1)), Xor(Entry(5, Byte(x, 2)), Xor(Entry(4, Byte(x, 3)),
                 Xor(Entry(3, Byte(x, 4)), Xor(Entry(2, Byte(x, 5)), Xor(Entry(1, Byte(x, 6)), Entry(0, Byte(x, 7)))))))))
  {
    hide Xor, Low, Entry, Shr8;
    ByteShifts(x);
  }

  lemma ByteShifts(x: bv64)
    ensures Shr8(x) == x >> 8
    ensures Shr8(x >> 8) == x >> 16 && Shr8(x >> 16) == x >> 24 && Shr8(x >> 24) == x >> 32
    ensures Shr8(x >> 32) == x >> 40 && Shr8(x >> 40) == x >> 48 && Shr8(x >> 48) == x >> 56
  {
  }

  /** crcspeed64little: bytes up to an aligned address, words, remaining bytes. */
  method CrcSpeed64Little(table: array2<bv64>, start: bv64, buf: seq<bv8>, addr: nat) returns (crc: bv64)
    requires IsTable(table)
    ensures crc == Update(start, buf)
  {
    hide Update, Xor, Wide, Low, Shr8, Shift, Slices, LoadLittle;
    crc := start;
    var next, len := 0, |buf|;
    UpdateNothing(start, buf);
    while len != 0 && (addr + next) % 8 != 0
      invariant next + len == |buf| && 0 <= len
      invariant crc == Update(start, buf[..next])
    {
      UpdateByte(start, buf, next);
      LookUpByte(crc, buf[next]);
      crc := Xor(table[0, Low(Xor(crc, Wide(buf[next]))) as int], Shr8(crc));
      next, len := next + 1, len - 1;
    }
    while 8 <= len
      invariant next + len == |buf| && 0 <= len
      invariant crc == Update(start, buf[..next])
    {
      UpdateWord(start, buf, next);
      crc := SliceLittle(table, Xor(crc, LoadLittle(buf[next..next + 8])));
      next, len := next + 8, len - 8;
    }
    while len != 0
      invariant next + len == |buf| && 0 <= len
      invariant crc == Update(start, buf[..next])
    {
      UpdateByte(start, buf, next);
      LookUpByte(crc, buf[next]);
      crc := Xor(table[0, Low(Xor(crc, Wide(buf[next]))) as int], Shr8(crc));
      next, len := next + 1, len - 1;
    }
    assert buf[..next] == buf;
  }

  lemma UpdateNothing(r: bv64, buf: seq<bv8>)
    ensures Update(r, buf[..0]) == r
  {
  }
}
