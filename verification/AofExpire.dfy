/** The commands feedAppendOnlyFile rewrites: a time to live is a number of seconds or milliseconds from now, the file needs
    the moment itself. */
module AofExpire {
  import opened Basics
  import opened AofFormat

  /** The functions behind the commands that set a time to live. */
  datatype Proc = Expire | PExpire | ExpireAt | PExpireAt | SetString | OtherProc

  /** "PEXPIREAT" and "PXAT" */
  const PEXPIREAT: Bytes := [80, 69, 88, 80, 73, 82, 69, 65, 84]
  const PXAT: Bytes := [80, 88, 65, 84]

  /** ll2string. */
  function SignedDecimal(n: int): Bytes {
    if n < 0 then [45] + Decimal(-n) else Decimal(n)
  }

  lemma WrapIsI64(x: int)
    ensures IsI64(ToI64(x)) && (IsI64(x) ==> ToI64(x) == x)
  {
  }

  /** A printed number is read back. */
  lemma SignedRead(n: int)
    requires IsI64(n)
    ensures StrToL(SignedDecimal(n)) == n
  {
    hide Decimal, Value;
    if n < 0 {
      DecimalValue(-n);
      NegativeRead(Decimal(-n));
    } else {
      DecimalValue(n);
      StrToLDigits(Decimal(n), []);
      assert Decimal(n) + [] == Decimal(n);
    }
  }

  lemma NegativeRead(digits: Bytes)
    requires 0 < |digits| && AllDigits(digits) && Value(digits) <= TWO_63
    ensures StrToL([45] + digits) == 0 - Value(digits)
  {
    hide Value;
    var s := [45] + digits;
    assert SkipSpace(s, 0) == 0;
    assert s[1..|s|] == digits;
    DigitsEndAt(s, 1, |s|);
  }

  // ---------------------------------------------------------------------------------------------------------
  // The rewriting
  // ---------------------------------------------------------------------------------------------------------

  /** strcasecmp with "px". */
  predicate IsPx(arg: Bytes) {
    2 <= |arg| && (arg[0] == 80 || arg[0] == 112) && (arg[1] == 88 || arg[1] == 120) && (|arg| == 2 || arg[2] == 0)
  }

  /** What the command table and setGenericCommand guarantee: the arguments that are looked at are there. */
  predicate ArityOk(proc: Proc, argv: Argv) {
    && argv != []
    && (proc in {Expire, PExpire, ExpireAt, PExpireAt} ==> |argv| == 3)
    && (proc == SetString && 3 < |argv| && IsPx(argv[3]) ==> |argv| == 5)
  }

  /** The moment in milliseconds that a command's argument stands for at a given time. */
  function Moment(proc: Proc, arg: int, now: int): int {
    var ms := if proc == Expire || proc == ExpireAt then ToI64(arg * 1000) else arg;
    if proc == Expire || proc == PExpire then ToI64(ms + now) else ms
  }

  function Rewritten(proc: Proc, argv: Argv, now: int): Argv
    requires ArityOk(proc, argv)
  {
    match proc
    case Expire => [PEXPIREAT, argv[1], SignedDecimal(Moment(proc, StrToL(argv[2]), now))]
    case PExpire => [PEXPIREAT, argv[1], SignedDecimal(Moment(proc, StrToL(argv[2]), now))]
    case ExpireAt => [PEXPIREAT, argv[1], SignedDecimal(Moment(proc, StrToL(argv[2]), now))]
    case SetString =>
      if 3 < |argv| && IsPx(argv[3]) then argv[..3] + [PXAT, SignedDecimal(ToI64(StrToL(argv[4]) + now))] else argv
    case _ => argv
  }

  function RewrittenProc(proc: Proc): Proc {
    if proc in {Expire, PExpire, ExpireAt} then PExpireAt else proc
  }

  /** catAppendOnlyExpireAtCommand. */
  method CatExpireAtCommand(dst: Bytes, proc: Proc, argv: Argv, now: int) returns (r: Bytes)
    requires ArityOk(proc, argv) && proc in {Expire, PExpire, ExpireAt}
    ensures r == dst + Command(Rewritten(proc, argv, now))
  {
    hide Command, StrToL, SignedDecimal;
    var when := StrToL(argv[2]);
    if proc == Expire || proc == ExpireAt { when := ToI64(when * 1000); }
    if proc == Expire || proc == PExpire { when := ToI64(when + now); }
    r := CatGenericCommand(dst, [PEXPIREAT, argv[1], SignedDecimal(when)]);
  }

  /** The part of feedAppendOnlyFile that chooses what to append. */
  method CatFedCommand(dst: Bytes, proc: Proc, argv: Argv, now: int) returns (r: Bytes)
    requires ArityOk(proc, argv)
    ensures r == dst + Command(Rewritten(proc, argv, now))
  {
    hide Command, StrToL, SignedDecimal, IsPx;
    if proc in {Expire, PExpire, ExpireAt} {
      r := CatExpireAtCommand(dst, proc, argv, now);
    } else if proc == SetString && 3 < |argv| && IsPx(argv[3]) {
      var when := ToI64(StrToL(argv[4]) + now);
      assert argv[..3] + [PXAT, SignedDecimal(when)] == [argv[0], argv[1], argv[2], PXAT, SignedDecimal(when)];
      r := CatGenericCommand(dst, [argv[0], argv[1], argv[2], PXAT, SignedDecimal(when)]);
    } else {
      r := CatGenericCommand(dst, argv);
    }
  }

  // ---------------------------------------------------------------------------------------------------------
  // What the rewriting means
  // ---------------------------------------------------------------------------------------------------------

  predicate IsPxAt(arg: Bytes) { arg == PXAT }

  /** The moment at which the key expires after the command was executed at a given time, if the command says. */
  function Deadline(proc: Proc, argv: Argv, now: int): Option<int>
    requires ArityOk(proc, argv)
  {
    if proc in {Expire, PExpire, ExpireAt, PExpireAt} then Some(Moment(proc, StrToL(argv[2]), now))
    else if proc == SetString && |argv| == 5 && IsPx(argv[3]) then Some(ToI64(StrToL(argv[4]) + now))
    else if proc == SetString && |argv| == 5 && IsPxAt(argv[3]) then Some(StrToL(argv[4]))
    else None
  }

  /** The deadline depends on when the command is executed. */
  predicate Relative(proc: Proc, argv: Argv) {
    proc == Expire || proc == PExpire || (proc == SetString && |argv| == 5 && IsPx(argv[3]))
  }

  /** "px" in any case. */
  lemma PxExactly(arg: Bytes)
    requires 0 !in arg
    ensures IsPx(arg) <==> arg in {[80, 88], [80, 120], [112, 88], [112, 120]}
  {
    if 2 <= |arg| {
      assert 2 < |arg| ==> arg[2] in arg;
      if |arg| == 2 { assert arg == [arg[0], arg[1]]; }
    }
  }

  /** Seconds count a thousandfold, times to live from now; SET says either with PX or PXAT; nothing else has a deadline. */
  lemma DeadlineMeans(cmd: Bytes, key: Bytes, value: Bytes, option: Bytes, t: int, now: int)
    requires IsI64(t) && IsI64(t * 1000) && IsI64(t * 1000 + now) && IsI64(t + now)
    ensures var three, five := [cmd, key, SignedDecimal(t)], [cmd, key, value, option, SignedDecimal(t)];
            && Deadline(Expire, three, now) == Some(now + 1000 * t) && Deadline(PExpire, three, now) == Some(now + t)
            && Deadline(ExpireAt, three, now) == Some(1000 * t) && Deadline(PExpireAt, three, now) == Some(t)
            && Deadline(SetString, [cmd, key, value], now) == None
            && Deadline(SetString, five, now)
               == (if IsPx(option) then Some(now + t) else if option == PXAT then Some(t) else None)
            && Deadline(OtherProc, three, now) == None && Deadline(OtherProc, five, now) == None
  {
    hide StrToL, SignedDecimal, ToI64, IsPx;
    SignedRead(t);
    WrapIsI64(t * 1000);
    WrapIsI64(t * 1000 + now);
    WrapIsI64(t + now);
  }

  /** What such a command changes besides the deadline. */
  datatype Core = ExpireKey(key: Bytes) | SetKey(key: Bytes, value: Bytes)

  function CoreOf(proc: Proc, argv: Argv): Core
    requires ArityOk(proc, argv) && Deadline(proc, argv, 0).Some?
  {
    if proc == SetString then SetKey(argv[1], argv[2]) else ExpireKey(argv[1])
  }

  /** Whether there is a deadline does not depend on the time. */
  lemma DeadlineOrNone(proc: Proc, argv: Argv, a: int, b: int)
    requires ArityOk(proc, argv)
    ensures Deadline(proc, argv, a).Some? <==> Deadline(proc, argv, b).Some?
  {
  }

  /** The rewritten command is about the same key and value, and one without a deadline is not rewritten. */
  lemma SameCore(proc: Proc, argv: Argv, fed: int)
    requires ArityOk(proc, argv)
    ensures var now, p := Rewritten(proc, argv, fed), RewrittenProc(proc);
            && ArityOk(p, now)
            && (Deadline(proc, argv, 0).Some? ==> Deadline(p, now, 0).Some? && CoreOf(p, now) == CoreOf(proc, argv))
            && (Deadline(proc, argv, 0).None? ==> now == argv && p == proc)
  {
    hide StrToL, SignedDecimal, ToI64, IsPx, Moment;
    RewrittenIsAbsolute(proc, argv, fed, 0);
    DeadlineOrNone(proc, argv, fed, 0);
    if proc == SetString && Deadline(proc, argv, 0).Some? {
      var now := Rewritten(proc, argv, fed);
      assert now[1] == now[..3][1] && now[2] == now[..3][2];
    }
  }

  lemma PxAtIsNotPx()
    ensures !IsPx(PXAT)
  {
  }

  lemma StrToLIsI64(s: Bytes)
    ensures IsI64(StrToL(s))
  {
  }

  lemma MomentIsI64(proc: Proc, s: Bytes, now: int)
    ensures IsI64(Moment(proc, StrToL(s), now))
  {
    hide StrToL, ToI64;
    StrToLIsI64(s);
    var arg := StrToL(s);
    WrapIsI64(arg * 1000);
    WrapIsI64(arg + now);
    WrapIsI64(ToI64(arg * 1000) + now);
  }

  /** Whenever the file is replayed, a rewritten command sets the deadline that the command itself would have set when it
      was fed, for the same key and value; and it is not rewritten again. */
  lemma RewrittenIsAbsolute(proc: Proc, argv: Argv, fed: int, replayed: int)
    requires ArityOk(proc, argv)
    ensures var now, p := Rewritten(proc, argv, fed), RewrittenProc(proc);
            && ArityOk(p, now) && !Relative(p, now)
            && Deadline(p, now, replayed) == Deadline(proc, argv, fed)
            && Rewritten(p, now, replayed) == now
            && (1 < |argv| ==> 1 < |now| && now[1] == argv[1])
            && (proc == SetString ==> |now| == |argv| && (2 < |argv| ==> now[..3] == argv[..3]))
            && (!Relative(proc, argv) && proc != ExpireAt ==> now == argv)
  {
    hide StrToL, SignedDecimal, ToI64, IsPx;
    PxAtIsNotPx();
    if proc in {Expire, PExpire, ExpireAt} {
      MomentIsI64(proc, argv[2], fed);
      SignedRead(Moment(proc, StrToL(argv[2]), fed));
    } else if proc == SetString && 3 < |argv| && IsPx(argv[3]) {
      WrapIsI64(StrToL(argv[4]) + fed);
      SignedRead(ToI64(StrToL(argv[4]) + fed));
      assert Rewritten(proc, argv, fed)[..3] == argv[..3];
    }
  }

  lemma MomentShifts(proc: Proc, arg: int, executed: int, fed: int)
    requires IsI64(arg) && IsI64(InMs(proc, arg)) && IsI64(InMs(proc, arg) + executed) && IsI64(InMs(proc, arg) + fed)
    ensures Moment(proc, arg, fed)
            == Moment(proc, arg, executed) + if proc == Expire || proc == PExpire then fed - executed else 0
  {
    hide ToI64;
    WrapIsI64(InMs(proc, arg));
    WrapIsI64(InMs(proc, arg) + executed);
    WrapIsI64(InMs(proc, arg) + fed);
  }

  /** Without overflow a key expires later after a replay than it would have in the server that executed the command, by
      exactly the time that passed between executing and feeding it, and not at all if the command gave the moment. */
  lemma ReplayedDeadline(proc: Proc, argv: Argv, executed: int, fed: int, replayed: int)
    requires ArityOk(proc, argv) && Deadline(proc, argv, executed).Some?
    requires NoOverflow(proc, argv, executed) && NoOverflow(proc, argv, fed)
    ensures Deadline(RewrittenProc(proc), Rewritten(proc, argv, fed), replayed)
            == Some(Deadline(proc, argv, executed).value + if Relative(proc, argv) then fed - executed else 0)
  {
    hide StrToL, IsPx, Rewritten, Moment, ToI64, InMs;
    RewrittenIsAbsolute(proc, argv, fed, replayed);
    if proc in {Expire, PExpire, ExpireAt, PExpireAt} {
      StrToLIsI64(argv[2]);
      MomentShifts(proc, StrToL(argv[2]), executed, fed);
    } else if IsPx(argv[3]) {
      WrapIsI64(StrToL(argv[4]) + executed);
      WrapIsI64(StrToL(argv[4]) + fed);
    }
  }

  /** The argument in milliseconds. */
  function InMs(proc: Proc, arg: int): int {
    if proc == Expire || proc == ExpireAt then arg * 1000 else arg
  }

  predicate NoOverflow(proc: Proc, argv: Argv, now: int)
    requires ArityOk(proc, argv)
  {
    if proc in {Expire, PExpire, ExpireAt, PExpireAt} then
      IsI64(InMs(proc, StrToL(argv[2]))) && IsI64(InMs(proc, StrToL(argv[2])) + now)
    else |argv| == 5 ==> IsI64(StrToL(argv[4]) + now)
  }

  /** Printing the number adds no argument that could not be printed. */
  lemma RewrittenPrints(proc: Proc, argv: Argv, fed: int)
    requires ArityOk(proc, argv) && Printable(argv)
    ensures Printable(Rewritten(proc, argv, fed))
  {
    hide StrToL, SignedDecimal, ToI64, IsPx, Moment;
    if proc in {Expire, PExpire, ExpireAt} {
      MomentIsI64(proc, argv[2], fed);
      SignedIsShort(Moment(proc, StrToL(argv[2]), fed));
    } else if proc == SetString && 3 < |argv| && IsPx(argv[3]) {
      WrapIsI64(StrToL(argv[4]) + fed);
      SignedIsShort(ToI64(StrToL(argv[4]) + fed));
    }
  }

  lemma SignedIsShort(n: int)
    requires IsI64(n)
    ensures |SignedDecimal(n)| <= 21
  {
    hide Decimal;
    var m := if n < 0 then -n else n;
    assert Pow10(5) == 100000;
    assert Pow10(10) == 10000000000;
    assert Pow10(15) == 1000000000000000;
    assert Pow10(20) == 100000000000000000000;
    DecimalLength(m, 20);
  }
}
