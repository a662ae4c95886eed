/** redisBitpos: the first bit of a given value in a string, found by whole words first. */
module BitPos {
  import opened ByteBits
  import opened BitStrings

  // ---------------------------------------------------------------------------------------------------------
  // Words
  // ---------------------------------------------------------------------------------------------------------

  /** The first j bytes pushed into a word, the first one on top. */
  function LoadN(d: seq<bv8>, j: nat): bv64
    requires j <= |d|
  {
    if j == 0 then 0 else Append(LoadN(d, j - 1), d[j - 1])
  }

  function Append(w: bv64, b: bv8): bv64 { (w << 8) | (b as bv64) }

  /** A byte moved to place i of a word, counted from the top. */
  function Place(x: bv8, i: nat): bv64
    requires i < 8
  {
    var w := x as bv64;
    match i
    case 0 => w << 56
    case 1 => w << 48
    case 2 => w << 40
    case 3 => w << 32
    case 4 => w << 24
    case 5 => w << 16
    case 6 => w << 8
    case _ => w
  }

  /** The byte at place i of a word. */
  function ByteOf(w: bv64, i: nat): bv8
    requires i < 8
  {
    var x := match i
      case 0 => w >> 56
      case 1 => w >> 48
      case 2 => w >> 40
      case 3 => w >> 32
      case 4 => w >> 24
      case 5 => w >> 16
      case 6 => w >> 8
      case _ => w;
    (x & 0xff) as bv8
  }

  predicate Meets(x: bv64, w: bv64) { x & w != 0 }

  function Up(x: bv64): bv64 { x << 8 }

  function Down(w: bv64): bv64 { w >> 8 }

  lemma MeetsUp(x: bv64, w: bv64)
    ensures Meets(Up(x), w) <==> Meets(x, Down(w))
  {
  }

  predicate Common(b: bv8, m: bv8) { b & m != 0 }

  lemma PlaceUp(m: bv8, i: nat)
    requires i < 7
    ensures Place(m, i) == Up(Place(m, i + 1))
  {
  }

  lemma ByteDown(w: bv64, i: nat)
    requires i < 7
    ensures ByteOf(w, i) == ByteOf(Down(w), i + 1)
  {
    match i
    case 0 => assert (w >> 56) & 0xff == ((w >> 8) >> 48) & 0xff;
    case 1 => assert (w >> 48) & 0xff == ((w >> 8) >> 40) & 0xff;
    case 2 => assert (w >> 40) & 0xff == ((w >> 8) >> 32) & 0xff;
    case 3 => assert (w >> 32) & 0xff == ((w >> 8) >> 24) & 0xff;
    case 4 => assert (w >> 24) & 0xff == ((w >> 8) >> 16) & 0xff;
    case 5 => assert (w >> 16) & 0xff == ((w >> 8) >> 8) & 0xff;
    case _ => assert (w >> 8) & 0xff == (w >> 8) & 0xff;
  }

  lemma PlaceLast(m: bv8, w: bv64)
    ensures Meets(Place(m, 7), w) <==> Common(ByteOf(w, 7), m)
  {
  }

  lemma {:induction false} PlaceMeets(m: bv8, w: bv64, i: nat)
    requires i < 8
    ensures Meets(Place(m, i), w) <==> Common(ByteOf(w, i), m)
    decreases 7 - i
  {
    hide Place, ByteOf, Meets, Up, Down, Common;
    if i == 7 {
      PlaceLast(m, w);
    } else {
      PlaceUp(m, i);
      ByteDown(w, i);
      MeetsUp(Place(m, i + 1), w);
      PlaceMeets(m, Down(w), i + 1);
    }
  }

  /** The probe for bit r of byte i: the most significant bit moved down. */
  function One(i: nat, r: nat): bv64
    requires i < 8 && r < 8
  {
    Place(Mask(7 - r), i)
  }

  function Half(x: bv64): bv64 { x >> 1 }

  lemma OneMoves(i: nat, r: nat)
    requires i < 8 && r < 8
    ensures One(0, 0) == 0x8000_0000_0000_0000 && One(i, r) != 0
    ensures Half(One(i, r)) == if r < 7 then One(i, r + 1) else if i < 7 then One(i + 1, 0) else 0
  {
  }

  lemma PushedBytes(w: bv64, b: bv8)
    ensures ByteOf(Append(w, b), 7) == b
    ensures forall i: nat | i < 7 :: ByteOf(Append(w, b), i) == ByteOf(w, i + 1)
  {
  }

  lemma {:induction false} LoadedBytes(d: seq<bv8>, j: nat, i: nat)
    requires j <= |d| && 8 - j <= i < 8
    ensures ByteOf(LoadN(d, j), i) == d[i - (8 - j)]
  {
    hide ByteOf, Append;
    PushedBytes(LoadN(d, j - 1), d[j - 1]);
    if i < 7 { LoadedBytes(d, j - 1, i + 1); }
  }

  lemma WordIsBytes(w: bv64)
    ensures w == 0 <==> forall i: nat | i < 8 :: ByteOf(w, i) == 0
    ensures w == 0xffff_ffff_ffff_ffff <==> forall i: nat | i < 8 :: ByteOf(w, i) == 255
  {
    if forall i: nat | i < 8 :: ByteOf(w, i) == 0 {
      assert ByteOf(w, 0) == 0 && ByteOf(w, 1) == 0 && ByteOf(w, 2) == 0 && ByteOf(w, 3) == 0;
      assert ByteOf(w, 4) == 0 && ByteOf(w, 5) == 0 && ByteOf(w, 6) == 0 && ByteOf(w, 7) == 0;
    }
    if forall i: nat | i < 8 :: ByteOf(w, i) == 255 {
      assert ByteOf(w, 0) == 255 && ByteOf(w, 1) == 255 && ByteOf(w, 2) == 255 && ByteOf(w, 3) == 255;
      assert ByteOf(w, 4) == 255 && ByteOf(w, 5) == 255 && ByteOf(w, 6) == 255 && ByteOf(w, 7) == 255;
    }
  }

  // ---------------------------------------------------------------------------------------------------------
  // The search
  // ---------------------------------------------------------------------------------------------------------

  /** Bit p of the string is the one looked for. */
  predicate IsBit(s: seq<bv8>, bit: bool, p: nat)
    requires p < 8 * |s|
  {
    Has(s[p / 8], 7 - p % 8) == bit
  }

  /** A byte, and a word, without the bit looked for. */
  function SkipByte(bit: bool): bv8 { if bit then 0 else 255 }

  function SkipWord(bit: bool): bv64 { if bit then 0 else 0xffff_ffff_ffff_ffff }

  lemma SkipHasNone(bit: bool, k: nat)
    requires k < 8
    ensures Has(SkipByte(bit), k) != bit && !Has(0, k)
  {
  }

  lemma NotSkip(b: bv8, bit: bool) returns (k: nat)
    requires b != SkipByte(bit)
    ensures k < 8 && Has(b, k) == bit
  {
    k := if Has(b, 0) == bit then 0 else if Has(b, 1) == bit then 1 else if Has(b, 2) == bit then 2
         else if Has(b, 3) == bit then 3 else if Has(b, 4) == bit then 4 else if Has(b, 5) == bit then 5
         else if Has(b, 6) == bit then 6 else 7;
  }

  lemma WordSkips(d: seq<bv8>, bit: bool)
    requires |d| == 8
    ensures LoadN(d, 8) == SkipWord(bit) <==> forall i: nat | i < 8 :: d[i] == SkipByte(bit)
  {
    hide ByteOf, LoadN;
    WordIsBytes(LoadN(d, 8));
    forall i: nat | i < 8 ensures ByteOf(LoadN(d, 8), i) == d[i] {
      LoadedBytes(d, 8, i);
    }
  }

  /** The next eight bytes, zero where the string has ended. */
  function Pad(s: seq<bv8>): (d: seq<bv8>)
    ensures |d| == 8 && forall k: nat | k < 8 :: d[k] == if k < |s| then s[k] else 0
    decreases 8 - |s|
  {
    if |s| >= 8 then s[..8] else Pad(s + [0])
  }

  /** The probe after q steps. */
  function Probe(q: nat): bv64 {
    if q < 64 then One(q / 8, q % 8) else 0
  }

  lemma ProbeMoves(q: nat)
    requires q < 64
    ensures Probe(0) == 0x8000_0000_0000_0000 && Probe(q) != 0 && Half(Probe(q)) == Probe(q + 1)
  {
    hide One, Half;
    OneMoves(q / 8, q % 8);
    assert if q % 8 < 7 then (q + 1) / 8 == q / 8 && (q + 1) % 8 == q % 8 + 1
           else (q + 1) / 8 == q / 8 + 1 && (q + 1) % 8 == 0;
  }

  /** The probe at step q tests bit q of the padded bytes. */
  lemma ProbeTests(d: seq<bv8>, q: nat)
    requires |d| == 8 && q < 64
    ensures Meets(Probe(q), LoadN(d, 8)) <==> Has(d[q / 8], 7 - q % 8)
  {
    hide Place, ByteOf, Meets, LoadN, Mask;
    PlaceMeets(Mask(7 - q % 8), LoadN(d, 8), q / 8);
    LoadedBytes(d, 8, q / 8);
    HasIsCommon(d[q / 8], 7 - q % 8);
  }

  lemma HasIsCommon(b: bv8, k: nat)
    requires k < 8
    ensures Has(b, k) == Common(b, Mask(k))
  {
  }

  /** The part that skips bytes and words: nothing before i matches, and something at i or within the next word does unless
      fewer than eight bytes are left. */
  method SkipAhead(s: seq<bv8>, addr: nat, bit: bool) returns (i: nat)
    ensures i <= |s| && forall k: nat | k < i :: s[k] == SkipByte(bit)
    ensures |s| - i < 8 || exists k: nat :: i <= k < i + 8 && s[k] != SkipByte(bit)
  {
    hide LoadN, SkipByte, SkipWord;
    i := 0;
    var found := false;
    while (addr + i) % 8 != 0 && i < |s|
      invariant i <= |s| && !found && forall k: nat | k < i :: s[k] == SkipByte(bit)
      decreases |s| - i
    {
      if s[i] != SkipByte(bit) {
        found := true;
        break;
      }
      i := i + 1;
    }
    if !found {
      while |s| - i >= 8
        invariant i <= |s| && forall k: nat | k < i :: s[k] == SkipByte(bit)
      {
        var d := s[i..i + 8];
        WordSkips(d, bit);
        if LoadN(d, 8) != SkipWord(bit) {
          var j: nat :| j < 8 && d[j] != SkipByte(bit);
          assert s[i + j] != SkipByte(bit);
          break;
        }
        forall k: nat | i <= k < i + 8 ensures s[k] == SkipByte(bit) {
          assert s[k] == d[k - i];
        }
        i := i + 8;
      }
    }
  }

  method LoadWord(s: seq<bv8>, i: nat) returns (word: bv64)
    requires i <= |s|
    ensures word == LoadN(Pad(s[i..]), 8)
  {
    hide Pad, Append;
    ghost var d := Pad(s[i..]);
    word := 0;
    for j := 0 to 8
      invariant word == LoadN(d, j)
    {
      assert d[j] == if i + j < |s| then s[i + j] else 0;
      word := Append(word, if i + j < |s| then s[i + j] else 0);
    }
  }

  /** Bit q of the padded bytes is the one looked for. */
  predicate PadBit(d: seq<bv8>, bit: bool, q: nat)
    requires |d| == 8 && q < 64
  {
    Has(d[q / 8], 7 - q % 8) == bit
  }

  /** Scanning the last word bit by bit; the panic behind the loop is never reached. */
  method ScanWord(ghost d: seq<bv8>, word: bv64, bit: bool, ghost some: nat) returns (q: nat)
    requires |d| == 8 && word == LoadN(d, 8) && some < 64 && PadBit(d, bit, some)
    ensures q < 64 && PadBit(d, bit, q) && forall p: nat | p < q :: !PadBit(d, bit, p)
  {
    hide Probe, Half, LoadN, Meets, PadBit;
    q := 0;
    var one := 0x8000_0000_0000_0000;
    ProbeMoves(0);
    while one != 0
      invariant q <= 64 && one == Probe(q) && (q < 64 ==> one != 0)
      invariant forall p: nat | p < q :: !PadBit(d, bit, p)
      decreases 64 - q
    {
      InRange(q);
      ProbeTests(d, q);
      PadBitIs(d, bit, q);
      if Meets(one, word) == bit { return; }
      ProbeMoves(q);
      one := Half(one);
      q := q + 1;
      if q < 64 { ProbeMoves(q); }
    }
    assert false;
  }

  lemma InRange(q: nat)
    requires Probe(q) != 0
    ensures q < 64
  {
    hide One;
  }

  lemma PadBitIs(d: seq<bv8>, bit: bool, q: nat)
    requires |d| == 8 && q < 64
    ensures PadBit(d, bit, q) == (Has(d[q / 8], 7 - q % 8) == bit)
  {
    hide Has;
  }

  /** Nothing matches in the bytes skipped. */
  lemma SkippedBits(s: seq<bv8>, bit: bool, i: nat)
    requires i <= |s| && forall k: nat | k < i :: s[k] == SkipByte(bit)
    ensures forall p: nat | p < 8 * i :: !IsBit(s, bit, p)
  {
    hide Has, SkipByte;
    forall p: nat | p < 8 * i ensures !IsBit(s, bit, p) {
      SkipHasNone(bit, 7 - p % 8);
    }
  }

  /** Bit q of the padded bytes is bit 8 * i + q of the string, or a zero behind its end. */
  lemma PaddedBit(s: seq<bv8>, bit: bool, i: nat, q: nat)
    requires i <= |s| && q < 64
    ensures PadBit(Pad(s[i..]), bit, q) == if 8 * i + q < 8 * |s| then IsBit(s, bit, 8 * i + q) else !bit
  {
    hide Has, Pad;
    assert (8 * i + q) / 8 == i + q / 8 && (8 * i + q) % 8 == q % 8;
    SkipHasNone(bit, 7 - q % 8);
  }

  /** Under the conditions SkipAhead establishes the word holds a match, unless ones are sought and it is zero. */
  lemma SomeBit(s: seq<bv8>, bit: bool, i: nat, word: bv64) returns (q: nat)
    requires i <= |s| && word == LoadN(Pad(s[i..]), 8) && (bit ==> word != 0)
    requires |s| - i < 8 || exists k: nat :: i <= k < i + 8 && s[k] != SkipByte(bit)
    ensures q < 64 && PadBit(Pad(s[i..]), bit, q)
  {
    hide Has, Pad, LoadN, SkipByte, SkipWord;
    var d := Pad(s[i..]);
    if !bit && |s| - i < 8 {
      q := 8 * (|s| - i);
      PaddedBit(s, bit, i, q);
    } else {
      WordSkips(d, true);
      SkipIsZero();
      var j := NonSkip(s, bit, i, d);
      var k := NotSkip(d[j], bit);
      q := 8 * j + (7 - k);
      assert q / 8 == j && q % 8 == 7 - k;
    }
  }

  lemma SkipIsZero()
    ensures SkipWord(true) == 0 && SkipByte(true) == 0
  {
  }

  lemma NonSkip(s: seq<bv8>, bit: bool, i: nat, d: seq<bv8>) returns (j: nat)
    requires i <= |s| && d == Pad(s[i..])
    requires (|s| - i >= 8 && exists k: nat :: i <= k < i + 8 && s[k] != SkipByte(bit))
             || (bit && !forall k: nat | k < 8 :: d[k] == SkipByte(true))
    ensures j < 8 && d[j] != SkipByte(bit)
  {
    hide Pad, SkipByte;
    if |s| - i >= 8 && exists k: nat :: i <= k < i + 8 && s[k] != SkipByte(bit) {
      var k: nat :| i <= k < i + 8 && s[k] != SkipByte(bit);
      j := k - i;
    } else {
      j :| j < 8 && d[j] != SkipByte(true);
    }
  }

  /** redisBitpos. */
  method FindBit(s: seq<bv8>, addr: nat, bit: bool) returns (pos: int)
    ensures if exists p: nat :: p < 8 * |s| && IsBit(s, bit, p)
            then 0 <= pos < 8 * |s| && IsBit(s, bit, pos) && forall p: nat | p < pos :: !IsBit(s, bit, p)
            else pos == if bit then -1 else 8 * |s|
  {
    hide LoadN, Pad, PadBit, IsBit, SkipByte, SkipWord;
    var i := SkipAhead(s, addr, bit);
    SkippedBits(s, bit, i);
    var word := LoadWord(s, i);
    ghost var d := Pad(s[i..]);
    if bit && word == 0 {
      WordSkips(d, true);
      SkipIsZero();
      NoneLeft(s, i);
      return -1;
    }
    ghost var some := SomeBit(s, bit, i, word);
    var q := ScanWord(d, word, bit, some);
    pos := 8 * i + q;
    FoundBit(s, bit, i, q);
  }

  /** A word of zeros is the end of the string, and holds no ones. */
  lemma NoneLeft(s: seq<bv8>, i: nat)
    requires i <= |s| && (forall k: nat | k < 8 :: Pad(s[i..])[k] == 0)
    requires |s| - i < 8 || exists k: nat :: i <= k < i + 8 && s[k] != SkipByte(true)
    requires forall p: nat | p < 8 * i :: !IsBit(s, true, p)
    ensures forall p: nat | p < 8 * |s| :: !IsBit(s, true, p)
  {
    hide Pad, Has;
    assert |s| - i < 8 by {
      assert forall k: nat | i <= k < i + 8 && k < |s| :: s[k] == Pad(s[i..])[k - i];
    }
    forall p: nat | p < 8 * |s| ensures !IsBit(s, true, p) {
      if p >= 8 * i {
        assert s[p / 8] == Pad(s[i..])[p / 8 - i];
        SkipHasNone(true, 7 - p % 8);
      }
    }
  }

  /** The first match in the padded bytes is the first in the string, or just behind its end. */
  lemma FoundBit(s: seq<bv8>, bit: bool, i: nat, q: nat)
    requires i <= |s| && q < 64 && PadBit(Pad(s[i..]), bit, q) && (forall p: nat | p < q :: !PadBit(Pad(s[i..]), bit, p))
    requires forall p: nat | p < 8 * i :: !IsBit(s, bit, p)
    ensures forall p: nat | p < 8 * i + q && p < 8 * |s| :: !IsBit(s, bit, p)
    ensures if 8 * i + q < 8 * |s| then IsBit(s, bit, 8 * i + q) else !bit && 8 * i + q == 8 * |s|
  {
    hide Pad, PadBit, IsBit;
    PaddedBit(s, bit, i, q);
    forall p: nat | p < 8 * i + q && p < 8 * |s| ensures !IsBit(s, bit, p) {
      if p >= 8 * i {
        PaddedBit(s, bit, i, p - 8 * i);
        assert !PadBit(Pad(s[i..]), bit, p - 8 * i);
      }
    }
    if 8 * i + q > 8 * |s| {
      PaddedBit(s, bit, i, 8 * |s| - 8 * i);
    }
  }
}
