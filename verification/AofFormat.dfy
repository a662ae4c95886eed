/** The append-only file as bytes: decimal numbers, the printer of one command and what libc's fgets, atoi and strtol
    make of such bytes. */
module AofFormat {
  import opened Basics

  newtype Byte = x: int | 0 <= x < 256

  type Bytes = seq<Byte>
  type Argv = seq<Bytes>

  const STAR: Byte := 42
  const DOLLAR: Byte := 36
  const CR: Byte := 13
  const LF: Byte := 10
  const CRLF: Bytes := [CR, LF]

  /** fgets is called with a buffer of 128 bytes, one of them for the terminator. */
  const LINE_ROOM: nat := 127

  // ---------------------------------------------------------------------------------------------------------
  // Decimal numbers
  // ---------------------------------------------------------------------------------------------------------

  predicate IsDigit(b: Byte) { 48 <= b <= 57 }

  predicate AllDigits(s: Bytes) { forall i | 0 <= i < |s| :: IsDigit(s[i]) }

  /** ll2string on a value that is not negative. */
  function Decimal(n: nat): (s: Bytes)
    ensures 0 < |s| && AllDigits(s)
  {
    if n < 10 then [(48 + n) as Byte] else Decimal(n / 10) + [(48 + n % 10) as Byte]
  }

  function Value(s: Bytes): nat
    requires AllDigits(s)
  {
    if s == [] then 0 else 10 * Value(s[..|s| - 1]) + (s[|s| - 1] - 48) as nat
  }

  function DigitsEnd(s: Bytes, i: nat): (e: nat)
    requires i <= |s|
    ensures i <= e <= |s| && AllDigits(s[i..e]) && (e < |s| ==> !IsDigit(s[e]))
    decreases |s| - i
  {
    if i < |s| && IsDigit(s[i]) then DigitsEnd(s, i + 1) else i
  }

  predicate IsSpace(b: Byte) { b == 32 || 9 <= b <= 13 }

  function SkipSpace(s: Bytes, i: nat): (e: nat)
    requires i <= |s|
    ensures i <= e <= |s|
    decreases |s| - i
  {
    if i < |s| && IsSpace(s[i]) then SkipSpace(s, i + 1) else i
  }

  /** strtol in base ten on a 64-bit machine. */
  function StrToL(s: Bytes): int {
    var i := SkipSpace(s, 0);
    var negative := i < |s| && s[i] == 45;
    var j := if i < |s| && (s[i] == 45 || s[i] == 43) then i + 1 else i;
    var v: int := Value(s[j..DigitsEnd(s, j)]);
    if negative then (if v > TWO_63 then -TWO_63 else -v) else if v >= TWO_63 then TWO_63 - 1 else v
  }

  /** atoi: strtol kept to 32 bits. */
  function AToI(s: Bytes): int {
    var v := StrToL(s) % TWO_32;
    if v >= TWO_31 then v - TWO_32 else v
  }

  /** A long stored in an unsigned long. */
  function ULong(v: int): nat {
    v % TWO_64
  }

  lemma {:induction false} DecimalValue(n: nat)
    ensures Value(Decimal(n)) == n
  {
    if n >= 10 {
      DecimalValue(n / 10);
      var s := Decimal(n);
      assert s[..|s| - 1] == Decimal(n / 10);
    } else {
      assert Decimal(n)[..0] == [];
    }
  }

  /** What is left of a positive number when its last digits are cut off is still positive, and no greater. */
  lemma {:induction false} DecimalPrefix(n: nat, k: nat)
    requires 1 <= n && 1 <= k <= |Decimal(n)|
    ensures 1 <= Value(Decimal(n)[..k]) <= n
  {
    var s := Decimal(n);
    if k == |s| {
      assert s[..k] == s;
      DecimalValue(n);
    } else {
      assert s[..k] == Decimal(n / 10)[..k];
      DecimalPrefix(n / 10, k);
    }
  }

  function Pow10(k: nat): nat { if k == 0 then 1 else 10 * Pow10(k - 1) }

  lemma {:induction false} DecimalLength(n: nat, k: nat)
    requires 0 < k && n < Pow10(k)
    ensures |Decimal(n)| <= k
  {
    if n >= 10 {
      DecimalLength(n / 10, k - 1);
    }
  }

  lemma DecimalFits(n: nat)
    requires n < TWO_63
    ensures |Decimal(n)| <= 20
  {
    assert Pow10(5) == 100000;
    assert Pow10(10) == 10000000000;
    assert Pow10(15) == 1000000000000000;
    assert Pow10(20) == 100000000000000000000;
    DecimalLength(n, 20);
  }

  lemma {:induction false} DigitsEndAt(s: Bytes, i: nat, e: nat)
    requires i <= e <= |s| && AllDigits(s[i..e]) && (e < |s| ==> !IsDigit(s[e]))
    ensures DigitsEnd(s, i) == e
    decreases e - i
  {
    if i < e {
      assert IsDigit(s[i..e][0]);
      assert s[i + 1..e] == s[i..e][1..];
      DigitsEndAt(s, i + 1, e);
    }
  }

  /** strtol on digits followed by anything that is not a digit. */
  lemma StrToLDigits(digits: Bytes, rest: Bytes)
    requires 0 < |digits| && AllDigits(digits) && (rest != [] ==> !IsDigit(rest[0]))
    requires Value(digits) < TWO_63
    ensures StrToL(digits + rest) == Value(digits)
  {
    var s := digits + rest;
    assert IsDigit(s[0]);
    assert s[0..|digits|] == digits;
    DigitsEndAt(s, 0, |digits|);
  }

  /** Tabs, line feeds, vertical tabs, form feeds, carriage returns and spaces in front do not count. */
  lemma {:induction false} SpacesAreSkipped(pad: Bytes, rest: Bytes)
    requires forall b <- pad :: b in {9, 10, 11, 12, 13, 32}
    ensures StrToL(pad + rest) == StrToL(rest)
  {
    if pad == [] {
      assert pad + rest == rest;
    } else {
      hide StrToL;
      assert pad[0] in pad && forall b <- pad[1..] :: b in pad;
      SpacesAreSkipped(pad[1..], rest);
      assert pad + rest == [pad[0]] + (pad[1..] + rest);
      SpaceIsSkipped(pad[0], pad[1..] + rest);
    }
  }

  lemma SpaceIsSkipped(b: Byte, rest: Bytes)
    requires IsSpace(b)
    ensures StrToL([b] + rest) == StrToL(rest)
  {
    hide Value, SkipSpace, DigitsEnd;
    var s := [b] + rest;
    SkipShifts(b, rest, 0);
    SkipsOne(s);
    var i := SkipSpace(rest, 0);
    var j := if i < |rest| && (rest[i] == 45 || rest[i] == 43) then i + 1 else i;
    EndShifts(b, rest, j);
    assert s[j + 1..DigitsEnd(s, j + 1)] == rest[j..DigitsEnd(rest, j)];
  }

  lemma SkipsOne(s: Bytes)
    requires s != [] && IsSpace(s[0])
    ensures SkipSpace(s, 0) == SkipSpace(s, 1)
  {
  }

  lemma {:induction false} SkipShifts(b: Byte, rest: Bytes, i: nat)
    requires i <= |rest|
    ensures SkipSpace([b] + rest, i + 1) == SkipSpace(rest, i) + 1
    decreases |rest| - i
  {
    if i < |rest| { SkipShifts(b, rest, i + 1); }
  }

  lemma {:induction false} EndShifts(b: Byte, rest: Bytes, i: nat)
    requires i <= |rest|
    ensures DigitsEnd([b] + rest, i + 1) == DigitsEnd(rest, i) + 1
    decreases |rest| - i
  {
    if i < |rest| { EndShifts(b, rest, i + 1); }
  }

  /** A number too large for 64 bits becomes the largest there is, and too small a one the smallest. */
  lemma StrToLSaturates(digits: Bytes)
    requires 0 < |digits| && AllDigits(digits)
    ensures StrToL(digits) == if Value(digits) < TWO_63 then Value(digits) else TWO_63 - 1
    ensures StrToL([45] + digits) == if Value(digits) <= TWO_63 then 0 - Value(digits) else -TWO_63
    ensures StrToL([43] + digits) == StrToL(digits)
  {
    hide StrToL;
    Unsigned(digits);
    Minus(digits);
    Plus(digits);
  }

  lemma Unsigned(digits: Bytes)
    requires 0 < |digits| && AllDigits(digits)
    ensures StrToL(digits) == if Value(digits) < TWO_63 then Value(digits) else TWO_63 - 1
  {
    hide Value, SkipSpace, DigitsEnd;
    assert IsDigit(digits[0]) && !IsSpace(digits[0]);
    SkipsNone(digits);
    DigitsEndAt(digits, 0, |digits|);
    assert digits[0..|digits|] == digits;
  }

  lemma Minus(digits: Bytes)
    requires 0 < |digits| && AllDigits(digits)
    ensures StrToL([45] + digits) == if Value(digits) <= TWO_63 then 0 - Value(digits) else -TWO_63
  {
    hide Value, SkipSpace, DigitsEnd, AllDigits;
    var s := [45] + digits;
    SkipsNone(s);
    SignedEnd(45, digits);
    assert s[1..|s|] == digits;
  }

  lemma Plus(digits: Bytes)
    requires 0 < |digits| && AllDigits(digits)
    ensures StrToL([43] + digits) == if Value(digits) < TWO_63 then Value(digits) else TWO_63 - 1
  {
    hide Value, SkipSpace, DigitsEnd, AllDigits;
    var s := [43] + digits;
    SkipsNone(s);
    SignedEnd(43, digits);
    assert s[1..|s|] == digits;
  }

  lemma SkipsNone(s: Bytes)
    requires s != [] && !IsSpace(s[0])
    ensures SkipSpace(s, 0) == 0
  {
  }

  lemma SignedEnd(sign: Byte, digits: Bytes)
    requires 0 < |digits| && AllDigits(digits)
    ensures DigitsEnd([sign] + digits, 1) == 1 + |digits|
  {
    hide DigitsEnd;
    var s := [sign] + digits;
    assert s[1..|s|] == digits;
    DigitsEndAt(s, 1, |s|);
  }

  /** atoi gives the one 32-bit number that differs from strtol's by a multiple of 2^32. */
  lemma AToIWraps(s: Bytes)
    ensures -TWO_31 <= AToI(s) < TWO_31 && (StrToL(s) - AToI(s)) % TWO_32 == 0
  {
    hide StrToL;
  }

  lemma AToISmall(digits: Bytes, rest: Bytes)
    requires 0 < |digits| && AllDigits(digits) && (rest != [] ==> !IsDigit(rest[0]))
    requires Value(digits) < TWO_31
    ensures AToI(digits + rest) == Value(digits)
  {
    hide StrToL, Value;
    StrToLDigits(digits, rest);
  }

  // ---------------------------------------------------------------------------------------------------------
  // Printing
  // ---------------------------------------------------------------------------------------------------------

  function Line(mark: Byte, n: nat): Bytes {
    [mark] + Decimal(n) + CRLF
  }

  function Bulk(arg: Bytes): Bytes {
    Line(DOLLAR, |arg|) + arg + CRLF
  }

  function Bulks(argv: Argv): Bytes {
    if argv == [] then [] else Bulk(argv[0]) + Bulks(argv[1..])
  }

  /** One command in the file. */
  function Command(argv: Argv): Bytes {
    Line(STAR, |argv|) + Bulks(argv)
  }

  lemma {:induction false} BulksAppend(argv: Argv, arg: Bytes)
    ensures Bulks(argv + [arg]) == Bulks(argv) + Bulk(arg)
  {
    if argv == [] {
      assert argv + [arg] == [arg];
      assert [arg][1..] == [];
    } else {
      assert (argv + [arg])[1..] == argv[1..] + [arg];
      BulksAppend(argv[1..], arg);
    }
  }

  lemma Regroup(dst: Bytes, done: Bytes, line: Bytes, arg: Bytes, end: Bytes)
    ensures dst + done + line + arg + end == dst + (done + (line + arg + end))
  {
  }

  lemma LineIsPrinted(mark: Byte, n: nat)
    ensures [mark] + Decimal(n) + [CR] + [LF] == Line(mark, n)
  {
  }

  /** catAppendOnlyGenericCommand. */
  method CatGenericCommand(dst: Bytes, argv: Argv) returns (r: Bytes)
    ensures r == dst + Command(argv)
  {
    hide Decimal, Line, Bulks;
    LineIsPrinted(STAR, |argv|);
    ghost var head := Line(STAR, |argv|);
    r := dst + ([STAR] + Decimal(|argv|) + [CR] + [LF]);
    NoBulks(argv);
    for j := 0 to |argv|
      invariant r == dst + (head + Bulks(argv[..j]))
    {
      BulksAppend(argv[..j], argv[j]);
      assert argv[..j + 1] == argv[..j] + [argv[j]];
      LineIsPrinted(DOLLAR, |argv[j]|);
      Regroup(dst, head + Bulks(argv[..j]), Line(DOLLAR, |argv[j]|), argv[j], CRLF);
      r := r + ([DOLLAR] + Decimal(|argv[j]|) + [CR] + [LF]);
      r := r + argv[j];
      r := r + CRLF;
      assert head + Bulks(argv[..j]) + Bulk(argv[j]) == head + Bulks(argv[..j + 1]);
    }
    assert argv[..|argv|] == argv;
  }

  lemma NoBulks(argv: Argv)
    ensures Bulks(argv[..0]) == []
  {
  }

  /** What the server can hold: the count is an int, every length a long, and a command has a name. */
  predicate Printable(argv: Argv) {
    0 < |argv| < TWO_31 && forall i | 0 <= i < |argv| :: |argv[i]| < TWO_63
  }

  // ---------------------------------------------------------------------------------------------------------
  // fgets
  // ---------------------------------------------------------------------------------------------------------

  /** How many bytes fgets takes from s when its buffer still has this much room. */
  function LineLength(s: Bytes, room: nat): (n: nat)
    ensures n <= |s| && n <= room && (s != [] && 0 < room ==> 0 < n)
  {
    if s == [] || room == 0 then 0 else if s[0] == LF then 1 else 1 + LineLength(s[1..], room - 1)
  }

  /** Whether that call hit the end of the file. */
  predicate HitsEnd(s: Bytes) {
    var n := LineLength(s, LINE_ROOM);
    n == |s| && n < LINE_ROOM && (n == 0 || s[n - 1] != LF)
  }

  lemma {:induction false} LineLengthIs(body: Bytes, rest: Bytes, room: nat)
    requires |body| < room && LF !in body
    ensures LineLength(body + [LF] + rest, room) == |body| + 1
  {
    var s := body + [LF] + rest;
    if body == [] {
      assert s[0] == LF;
    } else {
      assert s[0] == body[0];
      assert s[1..] == body[1..] + [LF] + rest;
      LineLengthIs(body[1..], rest, room - 1);
    }
  }

  lemma {:induction false} LineLengthCut(body: Bytes, room: nat)
    requires |body| < room && LF !in body
    ensures LineLength(body, room) == |body|
  {
    if body != [] {
      LineLengthCut(body[1..], room - 1);
    }
  }

  lemma LineIsRead(mark: Byte, n: nat, rest: Bytes)
    requires mark != LF && n < TWO_63
    ensures LineLength(Line(mark, n) + rest, LINE_ROOM) == |Line(mark, n)|
  {
    DecimalFits(n);
    var body := [mark] + Decimal(n) + [CR];
    assert LF !in Decimal(n);
    assert Line(mark, n) + rest == body + [LF] + rest;
    LineLengthIs(body, rest, LINE_ROOM);
  }

  lemma CutLineIsRead(mark: Byte, n: nat, k: nat)
    requires mark != LF && n < TWO_63 && k < |Line(mark, n)|
    ensures LineLength(Line(mark, n)[..k], LINE_ROOM) == k
    ensures HitsEnd(Line(mark, n)[..k])
  {
    DecimalFits(n);
    var body := Line(mark, n)[..k];
    assert LF !in Decimal(n);
    assert LF !in body by {
      assert Line(mark, n)[..|Line(mark, n)| - 1] == [mark] + Decimal(n) + [CR];
    }
    LineLengthCut(body, LINE_ROOM);
  }
}
