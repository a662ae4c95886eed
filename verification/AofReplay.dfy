/** The loading loop of loadAppendOnlyFile: commands run in the context of a client that queues between MULTI and EXEC,
    and the two offsets a short read falls back to. */
module AofReplay {
  import opened AofFormat
  import opened AofLoader

  /** What lookupCommand finds for a command name. */
  datatype Kind = Unknown | Multi | Exec | Plain

  /** The fake client: its transaction state and the commands executed through it so far. */
  datatype Client = Client(inMulti: bool, queue: seq<Argv>, executed: seq<Argv>)

  /** What the loader of RDB snapshots makes of a file: it reads some bytes, or fails, possibly at the end of the file. */
  datatype Snapshot = Snapshot(size: nat) | NoSnapshot(atEnd: bool)

  /** The command table, the loader of snapshots, the aof-load-truncated option, and whether the truncate and lseek calls
      succeed. */
  datatype Config = Config(lookup: Bytes -> Kind, preamble: Bytes -> Snapshot, loadTruncated: bool, truncates: bool)

  /** Where the loader stands: `validUpTo` and `beforeMulti` are valid_up_to and valid_before_multi. */
  datatype Progress = Progress(client: Client, offset: nat, validUpTo: nat, beforeMulti: nat)

  datatype Outcome =
    | Loaded(executed: seq<Argv>, size: nat)  // C_OK: the commands after any snapshot, and the size the file is left with
    | EmptyFile                               // C_ERR for a file of no bytes
    | UnknownCommand | ReadError | FormatError | UnexpectedEnd  // the server exits

  const FRESH := Client(false, [], [])
  const START := Progress(FRESH, 0, 0, 0)

  /** "REDIS" */
  const SIGNATURE: Bytes := [82, 69, 68, 73, 83]

  predicate IsMulti(cfg: Config, argv: Argv) {
    argv != [] && cfg.lookup(argv[0]).Multi?
  }

  /** The queued commands that EXEC runs; the client is still in its transaction, so that a queued MULTI is only an error
      reply. */
  function Runs(cfg: Config, queue: seq<Argv>): seq<Argv> {
    if queue == [] then []
    else if IsMulti(cfg, queue[0]) then Runs(cfg, queue[1..])
    else [queue[0]] + Runs(cfg, queue[1..])
  }

  /** The client after one command; EXEC outside a transaction is only an error reply. */
  function Perform(cfg: Config, kind: Kind, c: Client, argv: Argv): Client {
    if c.inMulti && !kind.Exec? then c.(queue := c.queue + [argv])
    else if kind.Exec? then Client(false, [], if c.inMulti then c.executed + Runs(cfg, c.queue) else c.executed)
    else if kind.Multi? then Client(true, [], c.executed)
    else c.(executed := c.executed + [argv])
  }

  function Advance(cfg: Config, p: Progress, argv: Argv, used: nat): Progress
    requires argv != []
  {
    var kind := cfg.lookup(argv[0]);
    Progress(Perform(cfg, kind, p.client, argv),
             p.offset + used,
             if cfg.loadTruncated then p.offset + used else p.validUpTo,
             if kind.Multi? then p.validUpTo else p.beforeMulti)
  }

  function Truncate(cfg: Config, p: Progress): Outcome {
    if cfg.loadTruncated && cfg.truncates then Loaded(p.client.executed, p.validUpTo) else UnexpectedEnd
  }

  function Finish(cfg: Config, p: Progress): Outcome {
    if p.client.inMulti then Truncate(cfg, p.(validUpTo := p.beforeMulti)) else Loaded(p.client.executed, p.offset)
  }

  /** The loop from a given point on, over the bytes still unread. */
  function Replay(cfg: Config, s: Bytes, p: Progress): Outcome
    decreases |s|
  {
    match ReadCommand(s)
    case Got(argv, used) =>
      if cfg.lookup(argv[0]).Unknown? then UnknownCommand
      else Replay(cfg, s[used..], Advance(cfg, p, argv, used))
    case EndOfFile => Finish(cfg, p)
    case Short => Truncate(cfg, p)
    case Broken => ReadError
    case Malformed => FormatError
  }

  predicate HasSnapshot(file: Bytes) { 5 <= |file| && file[..5] == SIGNATURE }

  /** The commands begin where the snapshot ends, but the offsets to fall back to still are zero. */
  function AfterSnapshot(n: nat): Progress { Progress(FRESH, n, 0, 0) }

  function Load(cfg: Config, file: Bytes): Outcome {
    if file == [] then EmptyFile
    else if HasSnapshot(file) then
      match cfg.preamble(file)
      case Snapshot(n) => if |file| < n then ReadError else Replay(cfg, file[n..], AfterSnapshot(n))
      case NoSnapshot(atEnd) => if atEnd then Truncate(cfg, START) else ReadError
    else Replay(cfg, file, START)
  }

  // ---------------------------------------------------------------------------------------------------------
  // The loops
  // ---------------------------------------------------------------------------------------------------------

  function Prefixed(argv: Argv, used: nat, rest: Read): Read {
    if rest.Got? then Got(argv + rest.argv, used + rest.used) else rest
  }

  /** One argument further: `size` bytes of s hold it, whatever was read before. */
  lemma ArgStep(s: Bytes, argc: nat, argv: Argv, used: nat, arg: Bytes, size: nat)
    requires 0 < argc && s != [] && s[0] == DOLLAR
    requires var line := LineLength(s, LINE_ROOM);
             var len := ULong(StrToL(s[1..line]));
             size == line + len + 2 <= |s| && arg == s[line..line + len]
    ensures Prefixed(argv, used, ReadArgs(s, argc)) == Prefixed(argv + [arg], used + size, ReadArgs(s[size..], argc - 1))
  {
    hide LineLength, StrToL, ULong;
    var rest := ReadArgs(s[size..], argc - 1);
    if rest.Got? {
      assert argv + ([arg] + rest.argv) == argv + [arg] + rest.argv;
    }
  }

  /** The ways an argument fails to be read. */
  lemma ArgStops(s: Bytes, argc: nat)
    ensures argc == 0 ==> ReadArgs(s, argc) == Got([], 0)
    ensures 0 < argc && s == [] ==> ReadArgs(s, argc) == Short
    ensures 0 < argc && s != [] && s[0] != DOLLAR ==> ReadArgs(s, argc) == Malformed
    ensures 0 < argc && s != [] && s[0] == DOLLAR
            && LineLength(s, LINE_ROOM) + ULong(StrToL(s[1..LineLength(s, LINE_ROOM)])) + 2 > |s|
            ==> ReadArgs(s, argc) == Short
  {
    hide LineLength, StrToL, ULong;
  }

  /** The loop over the arguments of one command. */
  method LoadArgs(file: Bytes, start: nat, argc: nat) returns (r: Read)
    requires start <= |file|
    ensures r == ReadArgs(file[start..], argc)
  {
    hide LineLength, StrToL, ULong, ReadArgs;
    var argv: Argv, pos := [], start;
    for j := 0 to argc
      invariant start <= pos <= |file|
      invariant ReadArgs(file[start..], argc) == Prefixed(argv, pos - start, ReadArgs(file[pos..], argc - j))
    {
      var s := file[pos..];
      ArgStops(s, argc - j);
      if s == [] { return Short; }
      if s[0] != DOLLAR { return Malformed; }
      var line := LineLength(s, LINE_ROOM);
      var len := ULong(StrToL(s[1..line]));
      if line + len + 2 > |s| { return Short; }
      var arg := s[line..line + len];
      var size := line + len + 2;
      ArgStep(s, argc - j, argv, pos - start, arg, size);
      assert s[size..] == file[pos + size..];
      argv, pos := argv + [arg], pos + size;
    }
    ArgStops(file[pos..], 0);
    return Got(argv, pos - start);
  }

  /** The part of an iteration that reads one command. */
  method LoadCommand(file: Bytes, pos: nat) returns (r: Read)
    requires pos <= |file|
    ensures r == ReadCommand(file[pos..])
  {
    hide LineLength, AToI, HitsEnd, ReadArgs;
    var s := file[pos..];
    if s == [] { return EndOfFile; }
    if s[0] != STAR { return Malformed; }
    var line := LineLength(s, LINE_ROOM);
    if line == 1 || s[1] == 0 {
      return if HitsEnd(s) then Short else Broken;
    }
    var argc := AToI(s[1..line]);
    if argc < 1 { return Malformed; }
    assert file[pos + line..] == s[line..];
    r := LoadArgs(file, pos + line, argc);
    if r.Got? {
      r := Got(r.argv, line + r.used);
    }
  }

  /** loadAppendOnlyFile. */
  method LoadAppendOnlyFile(cfg: Config, file: Bytes) returns (outcome: Outcome)
    ensures outcome == Load(cfg, file)
  {
    hide ReadCommand, Perform;
    if file == [] { return EmptyFile; }
    var client := FRESH;
    var pos: nat, validUpTo: nat, beforeMulti: nat := 0, 0, 0;
    if HasSnapshot(file) {
      match cfg.preamble(file) {
        case Snapshot(n) =>
          if |file| < n { return ReadError; }
          pos := n;
        case NoSnapshot(atEnd) =>
          return if atEnd then Truncate(cfg, START) else ReadError;
      }
    }
    assert file[0..] == file;
    while true
      invariant pos <= |file|
      invariant Load(cfg, file) == Replay(cfg, file[pos..], Progress(client, pos, validUpTo, beforeMulti))
      decreases |file| - pos
    {
      var next := LoadCommand(file, pos);
      match next {
        case EndOfFile => return Finish(cfg, Progress(client, pos, validUpTo, beforeMulti));
        case Short => return Truncate(cfg, Progress(client, pos, validUpTo, beforeMulti));
        case Broken => return ReadError;
        case Malformed => return FormatError;
        case Got(argv, used) =>
          var kind := cfg.lookup(argv[0]);
          if kind.Unknown? { return UnknownCommand; }
          if kind.Multi? { beforeMulti := validUpTo; }
          client := Perform(cfg, kind, client, argv);
          assert file[pos..][used..] == file[pos + used..];
          pos := pos + used;
          if cfg.loadTruncated { validUpTo := pos; }
      }
    }
  }

  // ---------------------------------------------------------------------------------------------------------
  // Files printed command by command
  // ---------------------------------------------------------------------------------------------------------

  function Log(commands: seq<Argv>): Bytes {
    if commands == [] then [] else Command(commands[0]) + Log(commands[1..])
  }

  predicate Known(cfg: Config, argv: Argv) {
    Printable(argv) && !cfg.lookup(argv[0]).Unknown?
  }

  predicate AllKnown(cfg: Config, commands: seq<Argv>) {
    forall i | 0 <= i < |commands| :: Known(cfg, commands[i])
  }

  function After(cfg: Config, p: Progress, commands: seq<Argv>): Progress
    requires AllKnown(cfg, commands)
    decreases |commands|
  {
    if commands == [] then p
    else
      assert Known(cfg, commands[0]);
      After(cfg, Advance(cfg, p, commands[0], |Command(commands[0])|), commands[1..])
  }

  predicate CutShort(x: Bytes, argv: Argv) {
    0 < |x| < |Command(argv)| && x == Command(argv)[..|x|]
  }

  /** Whole commands, then nothing. */
  lemma {:induction false} ReplayWhole(cfg: Config, commands: seq<Argv>, p: Progress)
    requires AllKnown(cfg, commands)
    ensures Replay(cfg, Log(commands), p) == Finish(cfg, After(cfg, p, commands))
    decreases |commands|
  {
    hide Command, ReadCommand, Advance, Printable;
    if commands == [] {
      ReadNothing();
    } else {
      assert Known(cfg, commands[0]);
      ReadWhole(commands[0], Log(commands[1..]));
      ReplayWhole(cfg, commands[1..], Advance(cfg, p, commands[0], |Command(commands[0])|));
      assert Log(commands)[|Command(commands[0])|..] == Log(commands[1..]);
    }
  }

  lemma ReadNothing()
    ensures ReadCommand([]) == EndOfFile
  {
  }

  /** Whole commands, then part of one. */
  lemma {:induction false} ReplayCut(cfg: Config, commands: seq<Argv>, x: Bytes, argv: Argv, p: Progress)
    requires AllKnown(cfg, commands) && Printable(argv) && CutShort(x, argv)
    ensures Replay(cfg, Log(commands) + x, p) == Truncate(cfg, After(cfg, p, commands))
    decreases |commands|
  {
    hide Command, ReadCommand, Advance, Printable;
    if commands == [] {
      assert Log(commands) + x == x;
      CutCommand(argv, |x|);
    } else {
      assert Known(cfg, commands[0]);
      ReadWhole(commands[0], Log(commands[1..]) + x);
      ReplayCut(cfg, commands[1..], x, argv, Advance(cfg, p, commands[0], |Command(commands[0])|));
      assert Log(commands) + x == Command(commands[0]) + (Log(commands[1..]) + x);
      assert (Log(commands) + x)[|Command(commands[0])|..] == Log(commands[1..]) + x;
    }
  }

  lemma NotAPreamble(argv: Argv, rest: Bytes)
    ensures var s := Command(argv) + rest; s != [] && s[0] == STAR
  {
  }
}
