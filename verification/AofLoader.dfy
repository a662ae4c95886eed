/** loadAppendOnlyFile: reading a file back command by command, with MULTI/EXEC and with recovery from a short read. */
module AofLoader {
  import opened Basics
  import opened AofFormat

  // ---------------------------------------------------------------------------------------------------------
  // One command
  // ---------------------------------------------------------------------------------------------------------

  /** What reading the arguments, or a whole command, comes to; `used` counts the bytes taken from the file. */
  datatype Read =
    | Got(argv: Argv, used: nat)
    | EndOfFile      // fgets finds nothing before a command starts
    | Short          // a read error with the end-of-file flag set
    | Broken         // a read error without it
    | Malformed      // a format error

  function ReadArgs(s: Bytes, argc: nat): (r: Read)
    ensures r.Got? ==> |r.argv| == argc && r.used <= |s|
    ensures !r.EndOfFile? && !r.Broken?
    decreases argc
  {
    if argc == 0 then Got([], 0)
    else if s == [] then Short
    else if s[0] != DOLLAR then Malformed
    else
      var line := LineLength(s, LINE_ROOM);
      var len := ULong(StrToL(s[1..line]));
      if line + len + 2 > |s| then Short
      else
        var rest := ReadArgs(s[line + len + 2..], argc - 1);
        if rest.Got? then Got([s[line..line + len]] + rest.argv, line + len + 2 + rest.used) else rest
  }

  function ReadCommand(s: Bytes): (r: Read)
    ensures r.Got? ==> 0 < |r.argv| && 0 < r.used <= |s|
  {
    if s == [] then EndOfFile
    else if s[0] != STAR then Malformed
    else
      var line := LineLength(s, LINE_ROOM);
      if line == 1 || s[1] == 0 then (if HitsEnd(s) then Short else Broken)
      else
        var argc := AToI(s[1..line]);
        if argc < 1 then Malformed
        else
          var rest := ReadArgs(s[line..], argc);
          if rest.Got? then Got(rest.argv, line + rest.used) else rest
  }

  /** The length line of an argument, and whatever of the argument follows it. */
  lemma BulkHead(arg: Bytes, post: Bytes)
    requires |arg| < TWO_63
    ensures var head := Line(DOLLAR, |arg|);
            var s := head + post;
            && 1 < |head| && s[0] == DOLLAR && LineLength(s, LINE_ROOM) == |head|
            && ULong(StrToL(s[1..|head|])) == |arg|
  {
    hide StrToL, Value, LineLength;
    var head := Line(DOLLAR, |arg|);
    LineIsRead(DOLLAR, |arg|, post);
    assert (head + post)[1..|head|] == Decimal(|arg|) + CRLF;
    DecimalValue(|arg|);
    StrToLDigits(Decimal(|arg|), CRLF);
  }

  lemma ReadBulk(arg: Bytes, post: Bytes, argc: nat)
    requires |arg| < TWO_63
    ensures var rest := ReadArgs(post, argc);
            ReadArgs(Bulk(arg) + post, argc + 1)
            == if rest.Got? then Got([arg] + rest.argv, |Bulk(arg)| + rest.used) else rest
  {
    hide StrToL, Line, LineLength, ULong;
    var s := Bulk(arg) + post;
    var head := Line(DOLLAR, |arg|);
    assert s == head + (arg + CRLF + post);
    BulkHead(arg, arg + CRLF + post);
    assert s[|head|..|head| + |arg|] == arg;
    assert s[|head| + |arg| + 2..] == post;
  }

  lemma {:induction false} ReadBulks(argv: Argv, post: Bytes)
    requires forall i | 0 <= i < |argv| :: |argv[i]| < TWO_63
    ensures ReadArgs(Bulks(argv) + post, |argv|) == Got(argv, |Bulks(argv)|)
  {
    hide Bulk, StrToL, LineLength, ULong;
    if argv != [] {
      var rest := Bulks(argv[1..]);
      assert Bulks(argv) + post == Bulk(argv[0]) + (rest + post);
      ReadBulks(argv[1..], post);
      ReadBulk(argv[0], rest + post, |argv| - 1);
      assert argv == [argv[0]] + argv[1..];
    }
  }

  /** An argument cut short, the end of its line included, is a short read. */
  lemma CutBulk(arg: Bytes, k: nat, argc: nat)
    requires |arg| < TWO_63 && k < |Bulk(arg)|
    ensures ReadArgs(Bulk(arg)[..k], argc + 1) == Short
  {
    hide StrToL, ULong;
    var s := Bulk(arg)[..k];
    var head := Line(DOLLAR, |arg|);
    if k < |head| {
      assert s == head[..k];
      if k > 0 {
        CutLineIsRead(DOLLAR, |arg|, k);
      }
    } else {
      var post := (arg + CRLF)[..k - |head|];
      assert s == head + post;
      BulkHead(arg, post);
    }
  }

  lemma {:induction false} CutBulks(argv: Argv, k: nat, argc: nat)
    requires forall i | 0 <= i < |argv| :: |argv[i]| < TWO_63
    requires k < |Bulks(argv)|
    ensures ReadArgs(Bulks(argv)[..k], |argv| + argc) == Short
  {
    hide Bulk, StrToL, LineLength, ULong;
    var first := Bulk(argv[0]);
    if k < |first| {
      assert Bulks(argv)[..k] == first[..k];
      CutBulk(argv[0], k, |argv| + argc - 1);
    } else {
      var k1 := k - |first|;
      assert Bulks(argv)[..k] == first + Bulks(argv[1..])[..k1];
      CutBulks(argv[1..], k1, argc);
      ReadBulk(argv[0], Bulks(argv[1..])[..k1], |argv| + argc - 1);
    }
  }

  /** A printed command reads back, whatever follows it. */
  lemma ReadWhole(argv: Argv, post: Bytes)
    requires Printable(argv)
    ensures ReadCommand(Command(argv) + post) == Got(argv, |Command(argv)|)
  {
    hide Bulks, ReadArgs, AToI;
    var s := Command(argv) + post;
    var head := Line(STAR, |argv|);
    assert s == head + (Bulks(argv) + post);
    LineIsRead(STAR, |argv|, Bulks(argv) + post);
    assert s[1..|head|] == Decimal(|argv|) + CRLF;
    assert IsDigit(Decimal(|argv|)[0]) && s[1] == Decimal(|argv|)[0];
    DecimalValue(|argv|);
    AToISmall(Decimal(|argv|), CRLF);
    assert s[|head|..] == Bulks(argv) + post;
    ReadBulks(argv, post);
  }

  /** A printed command cut anywhere but at its ends is a short read, never a format error. */
  lemma CutCommand(argv: Argv, k: nat)
    requires Printable(argv) && 0 < k < |Command(argv)|
    ensures ReadCommand(Command(argv)[..k]) == Short
  {
    var head := Line(STAR, |argv|);
    if k < |head| {
      assert Command(argv)[..k] == head[..k];
      CutHead(argv, k);
    } else {
      CutBody(argv, k);
    }
  }

  lemma CutHead(argv: Argv, k: nat)
    requires Printable(argv) && 0 < k < |Line(STAR, |argv|)|
    ensures ReadCommand(Line(STAR, |argv|)[..k]) == Short
  {
    hide AToI, Value, Decimal, HitsEnd, LineLength;
    var digits := Decimal(|argv|);
    var s := Line(STAR, |argv|)[..k];
    CutLineIsRead(STAR, |argv|, k);
    if k > 1 {
      var n := if k <= 1 + |digits| then k - 1 else |digits|;
      DecimalPrefix(|argv|, n);
      HeadSplit(argv, k, n);
      AToISmall(digits[..n], s[1 + n..]);
      assert s[1..k] == s[1..] && s[k..] == [];
    }
  }

  lemma HeadSplit(argv: Argv, k: nat, n: nat)
    requires 1 < k < |Line(STAR, |argv|)|
    requires n == if k <= 1 + |Decimal(|argv|)| then k - 1 else |Decimal(|argv|)|
    ensures var digits, s := Decimal(|argv|), Line(STAR, |argv|)[..k];
            && s[1..] == digits[..n] + s[1 + n..]
            && (s[1 + n..] != [] ==> !IsDigit(s[1 + n..][0]))
            && s[0] == STAR && IsDigit(s[1])
  {
    hide Decimal;
    var digits := Decimal(|argv|);
    assert IsDigit(digits[0]);
    assert Line(STAR, |argv|) == [STAR] + (digits + CRLF);
  }

  lemma CutBody(argv: Argv, k: nat)
    requires Printable(argv) && |Line(STAR, |argv|)| <= k < |Command(argv)|
    ensures ReadCommand(Command(argv)[..k]) == Short
  {
    hide Bulks, ReadArgs, AToI;
    var head := Line(STAR, |argv|);
    var s := Command(argv)[..k];
    var k1 := k - |head|;
    assert s == head + Bulks(argv)[..k1];
    LineIsRead(STAR, |argv|, Bulks(argv)[..k1]);
    assert s[1..|head|] == Decimal(|argv|) + CRLF;
    assert IsDigit(Decimal(|argv|)[0]) && s[1] == Decimal(|argv|)[0];
    DecimalValue(|argv|);
    AToISmall(Decimal(|argv|), CRLF);
    assert s[|head|..] == Bulks(argv)[..k1];
    CutBulks(argv, k1, 0);
  }
}
