/** When loadAppendOnlyFile refuses a file: what it reads before it stops, and when it may cut the file. */
module AofRefusal {
  import opened Basics
  import opened AofFormat
  import opened AofLoader
  import opened AofReplay
  import opened AofRecovery
  import opened AofPreamble

  /** A short read may be repaired. */
  predicate MayTruncate(cfg: Config) { cfg.loadTruncated && cfg.truncates }

  /** The offsets to fall back to lie in the part that was read. */
  predicate InOrder(p: Progress) { p.validUpTo <= p.offset && p.beforeMulti <= p.offset }

  lemma {:induction false} ReplayKeepsFile(cfg: Config, s: Bytes, p: Progress)
    requires InOrder(p)
    ensures var o := Replay(cfg, s, p);
            o.Loaded? ==> o.size <= p.offset + |s| && (o.size < p.offset + |s| ==> MayTruncate(cfg))
    decreases |s|
  {
    hide ReadCommand, Perform;
    var r := ReadCommand(s);
    if r.Got? && !cfg.lookup(r.argv[0]).Unknown? {
      ReplayKeepsFile(cfg, s[r.used..], Advance(cfg, p, r.argv, r.used));
    } else if r.EndOfFile? {
      NothingRead(s);
    }
  }

  lemma NothingRead(s: Bytes)
    requires ReadCommand(s).EndOfFile?
    ensures s == []
  {
    hide LineLength, AToI, HitsEnd;
  }

  /** Whatever the file and the configuration: loading never makes a file longer, and makes it shorter only if
      aof-load-truncated is on and the system calls succeed. */
  lemma OnlyCutIfAllowed(cfg: Config, file: Bytes)
    ensures var o := Load(cfg, file);
            o.Loaded? ==> o.size <= |file| && (o.size < |file| ==> MayTruncate(cfg))
  {
    hide Replay;
    if file != [] {
      if HasSnapshot(file) {
        if cfg.preamble(file).Snapshot? && cfg.preamble(file).size <= |file| {
          var n := cfg.preamble(file).size;
          ReplayKeepsFile(cfg, file[n..], AfterSnapshot(n));
        }
      } else {
        ReplayKeepsFile(cfg, file, START);
      }
    }
  }

  /** Whole commands are read one by one; what follows them decides. */
  lemma {:induction false} ReplayThen(cfg: Config, commands: seq<Argv>, x: Bytes, p: Progress)
    requires AllKnown(cfg, commands)
    ensures Replay(cfg, Log(commands) + x, p) == Replay(cfg, x, After(cfg, p, commands))
    decreases |commands|
  {
    hide Command, ReadCommand, Advance, Printable;
    if commands == [] {
      assert Log(commands) + x == x;
    } else {
      assert Known(cfg, commands[0]);
      ReadWhole(commands[0], Log(commands[1..]) + x);
      ReplayThen(cfg, commands[1..], x, Advance(cfg, p, commands[0], |Command(commands[0])|));
      assert Log(commands) + x == Command(commands[0]) + (Log(commands[1..]) + x);
      assert (Log(commands) + x)[|Command(commands[0])|..] == Log(commands[1..]) + x;
    }
  }

  /** The same for a file without a snapshot. */
  lemma LoadThen(cfg: Config, es: seq<Entry>, x: Bytes)
    requires EntriesOk(cfg, es) && File(es) + x != [] && (es == [] ==> !HasSnapshot(x))
    ensures AllKnown(cfg, Flatten(es)) && Load(cfg, File(es) + x) == Replay(cfg, x, After(cfg, START, Flatten(es)))
  {
    hide Command, EntriesOk, Flatten, Replay, Log, Known, After;
    FlattenIsKnown(cfg, es);
    ReplayThen(cfg, Flatten(es), x, START);
    if es == [] {
      NoEntries();
      assert File(es) + x == x;
    } else {
      FileStarts(es);
      assert (File(es) + x)[0] == STAR;
    }
  }

  lemma NoEntries()
    ensures File([]) == []
  {
  }

  lemma FileStarts(es: seq<Entry>)
    requires es != []
    ensures File(es) != [] && File(es)[0] == STAR
  {
    hide Bulks, Decimal;
    assert Commands(es[0]) != [];
    var first := Flatten(es)[0];
    assert Log(Flatten(es)) == Command(first) + Log(Flatten(es)[1..]);
    NotAPreamble(first, Log(Flatten(es)[1..]));
  }

  /** Whole entries, then a byte that does not begin a command. */
  lemma GarbageIsRefused(cfg: Config, es: seq<Entry>, x: Bytes)
    requires EntriesOk(cfg, es) && x != [] && x[0] != STAR && (es == [] ==> !HasSnapshot(x))
    ensures Load(cfg, File(es) + x) == FormatError
  {
    hide Load, EntriesOk, File, After, Known;
    LoadThen(cfg, es, x);
    assert ReadCommand(x) == Malformed;
  }

  /** Whole entries, then a command the table lacks, whatever follows it. */
  lemma UnknownIsRefused(cfg: Config, es: seq<Entry>, argv: Argv, rest: Bytes)
    requires EntriesOk(cfg, es) && Printable(argv) && cfg.lookup(argv[0]).Unknown?
    ensures Load(cfg, File(es) + (Command(argv) + rest)) == UnknownCommand
  {
    hide Load, EntriesOk, File, After, Known, Command, ReadCommand, Printable;
    var x := Command(argv) + rest;
    NotAPreamble(argv, rest);
    LoadThen(cfg, es, x);
    ReadWhole(argv, rest);
  }

  /** Whole entries, then the head of a command and something that is no argument. */
  lemma BadArgumentIsRefused(cfg: Config, es: seq<Entry>, argc: nat, rest: Bytes)
    requires EntriesOk(cfg, es) && 0 < argc < TWO_31 && rest != [] && rest[0] != DOLLAR
    ensures Load(cfg, File(es) + (Line(STAR, argc) + rest)) == FormatError
  {
    hide Load, EntriesOk, File, After, Known, ReadCommand, Line;
    var x := Line(STAR, argc) + rest;
    HeadThen(argc, rest);
    LoadThen(cfg, es, x);
  }

  lemma HeadThen(argc: nat, rest: Bytes)
    requires 0 < argc < TWO_31 && rest != [] && rest[0] != DOLLAR
    ensures var x := Line(STAR, argc) + rest; x[0] == STAR && ReadCommand(x) == Malformed
  {
    hide AToI, LineLength, HitsEnd;
    var head := Line(STAR, argc);
    var x := head + rest;
    LineIsRead(STAR, argc, rest);
    assert x[1..|head|] == Decimal(argc) + CRLF;
    assert IsDigit(Decimal(argc)[0]) && x[1] == Decimal(argc)[0];
    DecimalValue(argc);
    AToISmall(Decimal(argc), CRLF);
    assert x[|head|..] == rest;
  }

  /** Whole entries, then a star that a NUL follows where more of the line was to come. */
  lemma NulIsRefused(cfg: Config, es: seq<Entry>, rest: Bytes)
    requires EntriesOk(cfg, es)
    ensures Load(cfg, File(es) + ([STAR, 0, LF] + rest)) == ReadError
  {
    hide Load, EntriesOk, File, After, Known, ReadCommand;
    var x := [STAR, 0, LF] + rest;
    NulBreaks(rest);
    LoadThen(cfg, es, x);
  }

  lemma NulBreaks(rest: Bytes)
    ensures var x := [STAR, 0, LF] + rest; !HasSnapshot(x) && ReadCommand(x) == Broken
  {
    hide LineLength, AToI, ReadArgs;
    var x := [STAR, 0, LF] + rest;
    assert 5 <= |x| ==> x[..5][0] == STAR;
    assert x == [STAR, 0] + [LF] + rest;
    LineLengthIs([STAR, 0], rest, LINE_ROOM);
  }

  // ---------------------------------------------------------------------------------------------------------
  // Files cut at any byte, when they may not be repaired
  // ---------------------------------------------------------------------------------------------------------

  /** The cut lies between two entries. */
  predicate CutBetween(es: seq<Entry>, k: nat)
    requires k <= |File(es)|
  {
    |File(es[..WholeEntries(es, k)])| == k
  }

  /** Without aof-load-truncated, or when the file cannot be truncated, a printed log cut at any byte is loaded in full if the
      cut lies between two entries, and refused if it lies inside a command or a transaction. */
  lemma CutIsRefused(cfg: Config, es: seq<Entry>, k: nat)
    requires EntriesOk(cfg, es) && 0 < k <= |File(es)| && !MayTruncate(cfg)
    ensures Load(cfg, File(es)[..k])
            == if CutBetween(es, k) then Loaded(Effects(es[..WholeEntries(es, k)]), k) else UnexpectedEnd
  {
    hide Load, EntryOk, Commands, Effect, Log, Replay;
    var m := WholeEntries(es, k);
    CutEntries(es, k);
    PrefixesOk(cfg, es, m);
    if m == |es| {
      assert es[..m] == es;
      RoundTrip(cfg, es);
    } else if CutBetween(es, k) {
      assert File(es)[..k] == File(es[..m]) + Log(Commands(es[m]))[..0] == File(es[..m]);
      RoundTrip(cfg, es[..m]);
    } else {
      StartsWithStar(Flatten(es), k);
      LoadsAll(cfg, File(es)[..k]);
      CutInEntry(cfg, es, m, k - |File(es[..m])|, START);
    }
  }

  lemma LoadsAll(cfg: Config, file: Bytes)
    requires file != [] && file[0] == STAR
    ensures Load(cfg, file) == Replay(cfg, file, START)
  {
    hide Replay;
  }

  /** The same for the commands after a snapshot, and then nothing of the tail has to be there. */
  lemma CutIsRefusedWithSnapshot(cfg: Config, rdb: Bytes, es: seq<Entry>, k: nat)
    requires SnapshotOk(cfg, rdb) && EntriesOk(cfg, es) && k <= |File(es)| && !MayTruncate(cfg)
    ensures Load(cfg, rdb + File(es)[..k])
            == if CutBetween(es, k) then Loaded(Effects(es[..WholeEntries(es, k)]), |rdb| + k) else UnexpectedEnd
  {
    hide Load, EntryOk, Commands, Effect, Log, SnapshotOk, Replay;
    var m := WholeEntries(es, k);
    CutEntries(es, k);
    PrefixesOk(cfg, es, m);
    if m == |es| {
      assert es[..m] == es;
      RoundTripWithSnapshot(cfg, rdb, es);
    } else if CutBetween(es, k) {
      assert File(es)[..k] == File(es[..m]) + Log(Commands(es[m]))[..0] == File(es[..m]);
      RoundTripWithSnapshot(cfg, rdb, es[..m]);
    } else {
      LoadsTail(cfg, rdb, File(es)[..k]);
      CutInEntry(cfg, es, m, k - |File(es[..m])|, AfterSnapshot(|rdb|));
    }
  }

  lemma PrefixesOk(cfg: Config, es: seq<Entry>, m: nat)
    requires EntriesOk(cfg, es) && m <= |es|
    ensures EntriesOk(cfg, es[..m])
  {
    hide EntryOk;
  }

  /** Whole entries, then the first r bytes of one. */
  lemma CutInEntry(cfg: Config, es: seq<Entry>, m: nat, r: nat, start: Progress)
    requires EntriesOk(cfg, es) && m < |es| && 0 < r < |Log(Commands(es[m]))| && !MayTruncate(cfg)
    requires start.client == FRESH
    ensures Replay(cfg, File(es[..m]) + Log(Commands(es[m]))[..r], start) == UnexpectedEnd
  {
    hide EntriesOk, Flatten, Replay, Log, Commands, Known, After, EntryOk;
    var x := Log(Commands(es[m]))[..r];
    PrefixOk(cfg, es, m);
    FlattenIsKnown(cfg, es[..m]);
    ReplayThen(cfg, Flatten(es[..m]), x, start);
    AfterEntries(cfg, start, es[..m]);
    CutWithin(cfg, es[m], r, After(cfg, start, Flatten(es[..m])));
  }

  lemma PrefixOk(cfg: Config, es: seq<Entry>, m: nat)
    requires EntriesOk(cfg, es) && m < |es|
    ensures EntriesOk(cfg, es[..m]) && EntryOk(cfg, es[m])
  {
    hide EntryOk;
  }

  /** The first r bytes of an entry: some of its commands and possibly part of one. */
  lemma CutWithin(cfg: Config, e: Entry, r: nat, p: Progress)
    requires EntryOk(cfg, e) && 0 < r < |Log(Commands(e))| && !MayTruncate(cfg)
    requires p.client == Client(false, [], p.client.executed)
    ensures Replay(cfg, Log(Commands(e))[..r], p) == UnexpectedEnd
  {
    hide Replay, Log, Commands, Known, After, EntryOk, CutShort;
    var commands := Commands(e);
    EntryIsKnown(cfg, e);
    CutCommands(commands, r);
    var n := WholeCommands(commands, r);
    var done := Log(commands[..n]);
    TakeKnown(cfg, commands, n);
    ReplayThen(cfg, commands[..n], Log(commands)[|done|..r], p);
    var q := After(cfg, p, commands[..n]);
    if r == |done| {
      assert Log(commands)[|done|..r] == [];
      StillOpen(cfg, e, n, p);
      EndOfReplay(cfg, q);
    } else {
      var x := Log(commands)[|done|..r];
      NoCommands(cfg, q);
      assert Log([]) + x == x;
      ReplayCut(cfg, [], x, commands[n], q);
    }
  }

  lemma NoCommands(cfg: Config, q: Progress)
    ensures Log([]) == [] && After(cfg, q, []) == q
  {
  }

  lemma EndOfReplay(cfg: Config, q: Progress)
    ensures Replay(cfg, [], q) == Finish(cfg, q)
  {
  }

  lemma TakeKnown(cfg: Config, commands: seq<Argv>, n: nat)
    requires AllKnown(cfg, commands) && n <= |commands|
    ensures AllKnown(cfg, commands[..n])
    ensures n < |commands| ==> Printable(commands[n])
  {
    hide Printable;
    assert n < |commands| ==> Known(cfg, commands[n]);
  }

  /** A cut between two commands of an entry lies in a transaction. */
  lemma StillOpen(cfg: Config, e: Entry, n: nat, p: Progress)
    requires EntryOk(cfg, e) && n <= |Commands(e)| && 0 < |Log(Commands(e)[..n])| < |Log(Commands(e))|
    requires AllKnown(cfg, Commands(e)[..n]) && p.client == Client(false, [], p.client.executed)
    ensures After(cfg, p, Commands(e)[..n]).client.inMulti
  {
    hide After, Known, Log, EntryOk;
    NoLog();
    assert Commands(e)[..0] == [] && Commands(e)[..|Commands(e)|] == Commands(e);
    if e.Transaction? { AfterOpened(cfg, p, e, n); }
  }
}
