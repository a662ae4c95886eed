/** What loading does to whole files, to files cut at any byte, and to files that were cut, loaded and then grew again. */
module AofRecovery {
  import opened AofFormat
  import opened AofLoader
  import opened AofReplay

  /** What the server appends: a command on its own, or a transaction between MULTI and EXEC. */
  datatype Entry = Single(argv: Argv) | Transaction(multi: Argv, body: seq<Argv>, exec: Argv)

  function Commands(e: Entry): seq<Argv> {
    match e
    case Single(argv) => [argv]
    case Transaction(multi, body, exec) => [multi] + body + [exec]
  }

  predicate IsKind(cfg: Config, argv: Argv, kind: Kind) {
    Printable(argv) && cfg.lookup(argv[0]) == kind
  }

  predicate AllPlain(cfg: Config, commands: seq<Argv>) {
    forall i | 0 <= i < |commands| :: IsKind(cfg, commands[i], Plain)
  }

  ghost predicate EntryOk(cfg: Config, e: Entry) {
    match e
    case Single(argv) => IsKind(cfg, argv, Plain)
    case Transaction(multi, body, exec) => IsKind(cfg, multi, Multi) && IsKind(cfg, exec, Exec) && AllPlain(cfg, body)
  }

  ghost predicate EntriesOk(cfg: Config, es: seq<Entry>) {
    forall i | 0 <= i < |es| :: EntryOk(cfg, es[i])
  }

  function Effect(e: Entry): seq<Argv> {
    match e
    case Single(argv) => [argv]
    case Transaction(_, body, _) => body
  }

  /** The commands a log stands for, in order. */
  function Effects(es: seq<Entry>): seq<Argv> {
    if es == [] then [] else Effect(es[0]) + Effects(es[1..])
  }

  function Flatten(es: seq<Entry>): seq<Argv> {
    if es == [] then [] else Commands(es[0]) + Flatten(es[1..])
  }

  function File(es: seq<Entry>): Bytes {
    Log(Flatten(es))
  }

  // ---------------------------------------------------------------------------------------------------------
  // Running whole entries
  // ---------------------------------------------------------------------------------------------------------

  lemma {:induction false} LogAppend(a: seq<Argv>, b: seq<Argv>)
    ensures Log(a + b) == Log(a) + Log(b)
  {
    hide Command;
    if a == [] {
      assert a + b == b;
    } else {
      assert (a + b)[1..] == a[1..] + b;
      LogAppend(a[1..], b);
    }
  }

  lemma {:induction false} FlattenAppend(a: seq<Entry>, b: seq<Entry>)
    ensures Flatten(a + b) == Flatten(a) + Flatten(b)
    ensures Effects(a + b) == Effects(a) + Effects(b)
  {
    hide Commands, Effect;
    if a == [] {
      assert a + b == b;
    } else {
      assert (a + b)[1..] == a[1..] + b;
      FlattenAppend(a[1..], b);
    }
  }

  lemma KnownAppend(cfg: Config, a: seq<Argv>, b: seq<Argv>)
    requires AllKnown(cfg, a) && AllKnown(cfg, b)
    ensures AllKnown(cfg, a + b)
  {
    hide Known;
  }

  lemma PlainIsKnown(cfg: Config, commands: seq<Argv>)
    requires AllPlain(cfg, commands)
    ensures AllKnown(cfg, commands)
  {
    hide Printable;
    forall i | 0 <= i < |commands| ensures Known(cfg, commands[i]) {
      assert IsKind(cfg, commands[i], Plain);
    }
  }

  lemma EntryIsKnown(cfg: Config, e: Entry)
    requires EntryOk(cfg, e)
    ensures AllKnown(cfg, Commands(e))
  {
    hide Printable;
    if e.Transaction? {
      PlainIsKnown(cfg, e.body);
      KnownAppend(cfg, [e.multi], e.body);
      KnownAppend(cfg, [e.multi] + e.body, [e.exec]);
    }
  }

  lemma {:induction false} FlattenIsKnown(cfg: Config, es: seq<Entry>)
    requires EntriesOk(cfg, es)
    ensures AllKnown(cfg, Flatten(es))
    decreases |es|
  {
    hide Known, EntryOk, Commands;
    if es != [] {
      EntryIsKnown(cfg, es[0]);
      FlattenIsKnown(cfg, es[1..]);
      KnownAppend(cfg, Commands(es[0]), Flatten(es[1..]));
    }
  }

  lemma {:induction false} AfterAppend(cfg: Config, p: Progress, a: seq<Argv>, b: seq<Argv>)
    requires AllKnown(cfg, a) && AllKnown(cfg, b) && AllKnown(cfg, a + b)
    ensures After(cfg, p, a + b) == After(cfg, After(cfg, p, a), b)
    decreases |a|
  {
    hide Command, Advance;
    if a == [] {
      assert a + b == b;
    } else {
      assert (a + b)[1..] == a[1..] + b;
      AfterAppend(cfg, Advance(cfg, p, a[0], |Command(a[0])|), a[1..], b);
    }
  }

  /** Offsets only depend on the bytes read. */
  lemma {:induction false} AfterOffsets(cfg: Config, p: Progress, commands: seq<Argv>)
    requires AllKnown(cfg, commands) && cfg.loadTruncated && p.validUpTo == p.offset
    ensures var q := After(cfg, p, commands);
            q.offset == q.validUpTo == p.offset + |Log(commands)|
    decreases |commands|
  {
    hide Command, Perform;
    if commands != [] {
      assert Known(cfg, commands[0]);
      AfterOffsets(cfg, Advance(cfg, p, commands[0], |Command(commands[0])|), commands[1..]);
    }
  }

  lemma {:induction false} RunsAppend(cfg: Config, a: seq<Argv>, b: seq<Argv>)
    ensures Runs(cfg, a + b) == Runs(cfg, a) + Runs(cfg, b)
  {
    hide IsMulti;
    if a == [] {
      assert a + b == b;
    } else {
      assert (a + b)[1..] == a[1..] + b;
      RunsAppend(cfg, a[1..], b);
    }
  }

  /** EXEC runs all of a queue of plain commands. */
  lemma {:induction false} PlainRuns(cfg: Config, commands: seq<Argv>)
    requires AllPlain(cfg, commands)
    ensures Runs(cfg, commands) == commands
  {
    hide Printable;
    if commands != [] {
      assert IsKind(cfg, commands[0], Plain);
      PlainRuns(cfg, commands[1..]);
    }
  }

  /** In a transaction plain commands are queued. */
  lemma {:induction false} AfterQueued(cfg: Config, p: Progress, commands: seq<Argv>)
    requires AllPlain(cfg, commands) && AllKnown(cfg, commands) && p.client.inMulti
    ensures var q := After(cfg, p, commands);
            q.client == Client(true, p.client.queue + commands, p.client.executed) && q.beforeMulti == p.beforeMulti
    decreases |commands|
  {
    hide Command;
    if commands == [] {
      assert p.client.queue + commands == p.client.queue;
    } else {
      assert IsKind(cfg, commands[0], Plain);
      var p1 := Advance(cfg, p, commands[0], |Command(commands[0])|);
      AfterQueued(cfg, p1, commands[1..]);
      assert p.client.queue + [commands[0]] + commands[1..] == p.client.queue + commands;
    }
  }

  lemma AfterOne(cfg: Config, p: Progress, argv: Argv)
    requires Known(cfg, argv)
    ensures After(cfg, p, [argv]) == Advance(cfg, p, argv, |Command(argv)|)
  {
    hide Command, Advance;
    assert [argv][1..] == [];
  }

  /** The first n commands of a transaction, MULTI included. */
  lemma AfterOpened(cfg: Config, p: Progress, e: Entry, n: nat)
    requires e.Transaction? && EntryOk(cfg, e) && !p.client.inMulti && 0 < n <= |e.body| + 1
    requires AllKnown(cfg, Commands(e)[..n])
    ensures var q := After(cfg, p, Commands(e)[..n]);
            q.client == Client(true, e.body[..n - 1], p.client.executed) && q.beforeMulti == p.validUpTo
  {
    hide Command;
    var taken := e.body[..n - 1];
    assert Commands(e)[..n] == [e.multi] + taken;
    PlainIsKnown(cfg, taken);
    AfterAppend(cfg, p, [e.multi], taken);
    AfterOne(cfg, p, e.multi);
    AfterQueued(cfg, Advance(cfg, p, e.multi, |Command(e.multi)|), taken);
  }

  lemma AfterEntry(cfg: Config, p: Progress, e: Entry)
    requires EntryOk(cfg, e) && p.client == Client(false, [], p.client.executed)
    requires AllKnown(cfg, Commands(e))
    ensures After(cfg, p, Commands(e)).client == Client(false, [], p.client.executed + Effect(e))
  {
    hide Command;
    match e
    case Single(argv) => AfterOne(cfg, p, argv);
    case Transaction(multi, body, exec) =>
      var n := |body| + 1;
      assert Commands(e)[..n] == [multi] + body && body[..n - 1] == body;
      AfterOpened(cfg, p, e, n);
      PlainRuns(cfg, body);
      AfterAppend(cfg, p, [multi] + body, [exec]);
      AfterOne(cfg, After(cfg, p, [multi] + body), exec);
  }

  lemma {:induction false} AfterEntries(cfg: Config, p: Progress, es: seq<Entry>)
    requires EntriesOk(cfg, es) && AllKnown(cfg, Flatten(es)) && p.client == Client(false, [], p.client.executed)
    ensures After(cfg, p, Flatten(es)).client == Client(false, [], p.client.executed + Effects(es))
    decreases |es|
  {
    hide Commands, EntryOk, Effect, Known;
    if es == [] {
      assert p.client.executed + Effects(es) == p.client.executed;
    } else {
      EntryIsKnown(cfg, es[0]);
      FlattenIsKnown(cfg, es[1..]);
      AfterAppend(cfg, p, Commands(es[0]), Flatten(es[1..]));
      AfterEntry(cfg, p, es[0]);
      AfterEntries(cfg, After(cfg, p, Commands(es[0])), es[1..]);
      assert p.client.executed + Effect(es[0]) + Effects(es[1..]) == p.client.executed + Effects(es);
    }
  }

  // ---------------------------------------------------------------------------------------------------------
  // Whole files
  // ---------------------------------------------------------------------------------------------------------

  lemma StartsWithStar(commands: seq<Argv>, k: nat)
    requires 0 < k <= |Log(commands)|
    ensures Log(commands)[..k][0] == STAR
  {
    hide Bulks, Decimal;
  }

  /** Loading a printed log executes exactly what it stands for and keeps the whole file. */
  lemma RoundTrip(cfg: Config, es: seq<Entry>)
    requires EntriesOk(cfg, es) && File(es) != []
    ensures Load(cfg, File(es)) == Loaded(Effects(es), |File(es)|)
  {
    hide Command, EntriesOk, Flatten, Effects, Replay, Log, Known;
    var commands := Flatten(es);
    FlattenIsKnown(cfg, es);
    StartsWithStar(commands, |Log(commands)|);
    assert Log(commands)[..|Log(commands)|] == Log(commands);
    ReplayWhole(cfg, commands, START);
    AfterEntries(cfg, START, es);
    assert [] + Effects(es) == Effects(es);
    AfterOffset(cfg, START, commands);
  }

  /** The offset counts bytes whether or not aof-load-truncated is set. */
  lemma {:induction false} AfterOffset(cfg: Config, p: Progress, commands: seq<Argv>)
    requires AllKnown(cfg, commands)
    ensures After(cfg, p, commands).offset == p.offset + |Log(commands)|
    decreases |commands|
  {
    hide Command, Perform;
    if commands != [] {
      assert Known(cfg, commands[0]);
      AfterOffset(cfg, Advance(cfg, p, commands[0], |Command(commands[0])|), commands[1..]);
    }
  }

  // ---------------------------------------------------------------------------------------------------------
  // Files cut at any byte
  // ---------------------------------------------------------------------------------------------------------

  /** How many commands lie wholly within the first k bytes. */
  function WholeCommands(commands: seq<Argv>, k: nat): (n: nat)
    ensures n <= |commands|
  {
    if commands == [] || k < |Command(commands[0])| then 0
    else 1 + WholeCommands(commands[1..], k - |Command(commands[0])|)
  }

  /** How many entries lie wholly within the first k bytes. */
  function WholeEntries(es: seq<Entry>, k: nat): (m: nat)
    ensures m <= |es|
  {
    if es == [] || k < |Log(Commands(es[0]))| then 0
    else 1 + WholeEntries(es[1..], k - |Log(Commands(es[0]))|)
  }

  /** How much of an entry survives when only its first r bytes are there: a cut between two commands drops the entry,
      a cut inside a command keeps the commands before that one. */
  function KeptOfEntry(e: Entry, r: nat): (o: nat) {
    var o := |Log(Commands(e)[..WholeCommands(Commands(e), r)])|;
    if o == r then 0 else o
  }

  /** The size of the file after a load of its first k bytes. */
  function Kept(es: seq<Entry>, k: nat): (size: nat)
    requires k <= |File(es)|
    ensures |File(es[..WholeEntries(es, k)])| <= size <= k
  {
    var m := WholeEntries(es, k);
    var start := |File(es[..m])|;
    CutEntries(es, k);
    if m == |es| then start
    else
      CutCommands(Commands(es[m]), k - start);
      start + KeptOfEntry(es[m], k - start)
  }

  lemma LogCons(commands: seq<Argv>)
    requires commands != []
    ensures Log(commands) == Command(commands[0]) + Log(commands[1..])
  {
  }

  /** Not even the first command is whole. */
  lemma CutFirst(commands: seq<Argv>, k: nat)
    requires k <= |Log(commands)| && (commands == [] || k < |Command(commands[0])|)
    ensures WholeCommands(commands, k) == 0 && Log(commands[..0]) == []
    ensures k == 0 || (commands != [] && CutShort(Log(commands)[0..k], commands[0]))
  {
    hide Command;
    if 0 < k {
      assert Log(commands)[0..k] == Command(commands[0])[..k];
    }
  }

  lemma {:induction false} CutCommands(commands: seq<Argv>, k: nat)
    requires k <= |Log(commands)|
    ensures var n := WholeCommands(commands, k);
            var done := Log(commands[..n]);
            && |done| <= k && Log(commands)[..k] == done + Log(commands)[|done|..k]
            && (k == |done| || (n < |commands| && CutShort(Log(commands)[|done|..k], commands[n])))
  {
    hide Command, Log, CutShort;
    if commands == [] || k < |Command(commands[0])| {
      CutFirst(commands, k);
      assert Log(commands)[..k] == [] + Log(commands)[0..k];
    } else {
      var first, rest := Command(commands[0]), Log(commands[1..]);
      var k1 := k - |first|;
      LogCons(commands);
      CutCommands(commands[1..], k1);
      var n := WholeCommands(commands[1..], k1);
      assert commands[..n + 1][1..] == commands[1..][..n];
      LogCons(commands[..n + 1]);
      Shifted(first, rest, |Log(commands[1..][..n])|, k1);
    }
  }

  lemma Shifted(first: Bytes, rest: Bytes, done: nat, k: nat)
    requires done <= k <= |rest| && rest[..k] == rest[..done] + rest[done..k]
    ensures (first + rest)[|first| + done..|first| + k] == rest[done..k]
    ensures (first + rest)[..|first| + k] == first + rest[..done] + rest[done..k]
  {
  }

  lemma {:induction false} CutEntries(es: seq<Entry>, k: nat)
    requires k <= |File(es)|
    ensures var m := WholeEntries(es, k);
            var start := |File(es[..m])|;
            && start <= k
            && (if m == |es| then k == start && File(es)[..k] == File(es)
                else && k - start < |Log(Commands(es[m]))|
                     && File(es)[..k] == File(es[..m]) + Log(Commands(es[m]))[..k - start])
  {
    hide Commands, Log;
    NoLog();
    if es == [] {
    } else {
      var first := Commands(es[0]);
      LogAppend(first, Flatten(es[1..]));
      if k < |Log(first)| {
        assert File(es[..0]) == [];
        assert File(es)[..k] == [] + Log(first)[..k];
      } else {
        var k1 := k - |Log(first)|;
        CutEntries(es[1..], k1);
        var m := WholeEntries(es[1..], k1);
        assert es[..m + 1][1..] == es[1..][..m];
        LogAppend(first, Flatten(es[1..][..m]));
        assert File(es)[..k] == Log(first) + File(es[1..])[..k1];
        if m == |es| - 1 {
          assert es[1..][..m] == es[1..];
        } else {
          var r := k1 - |File(es[1..][..m])|;
          assert File(es)[..k] == File(es[..m + 1]) + Log(Commands(es[m + 1]))[..r];
        }
      }
    }
  }

  lemma NoLog()
    ensures Log([]) == []
  {
  }

  /** The commands of the first m entries and the first n commands of the next one. */
  function Part(es: seq<Entry>, m: nat, n: nat): seq<Argv>
    requires m < |es| && n <= |Commands(es[m])|
  {
    Flatten(es[..m]) + Commands(es[m])[..n]
  }

  lemma PartIsKnown(cfg: Config, es: seq<Entry>, m: nat, n: nat)
    requires EntriesOk(cfg, es) && m < |es| && n <= |Commands(es[m])|
    ensures AllKnown(cfg, Flatten(es[..m])) && AllKnown(cfg, Commands(es[m])[..n]) && AllKnown(cfg, Part(es, m, n))
  {
    hide Known, EntryOk;
    FlattenIsKnown(cfg, es[..m]);
    EntryIsKnown(cfg, es[m]);
    KnownAppend(cfg, Flatten(es[..m]), Commands(es[m])[..n]);
  }

  /** Where the loader stands after part of an entry. */
  lemma AfterPart(cfg: Config, es: seq<Entry>, m: nat, n: nat)
    requires EntriesOk(cfg, es) && cfg.loadTruncated && m < |es| && n < |Commands(es[m])|
    requires AllKnown(cfg, Part(es, m, n))
    ensures var q := After(cfg, START, Part(es, m, n));
            && q.client == (if n == 0 then Client(false, [], Effects(es[..m]))
                            else Client(true, es[m].body[..n - 1], Effects(es[..m])))
            && q.offset == q.validUpTo == |File(es[..m])| + |Log(Commands(es[m])[..n])|
            && (0 < n ==> q.beforeMulti == |File(es[..m])|)
  {
    hide Log, After, Known, EntryOk, Effects, Flatten;
    var done, taken := Flatten(es[..m]), Commands(es[m])[..n];
    PartIsKnown(cfg, es, m, n);
    AfterAppend(cfg, START, done, taken);
    var p := After(cfg, START, done);
    AfterEntries(cfg, START, es[..m]);
    assert [] + Effects(es[..m]) == Effects(es[..m]);
    AfterOffsets(cfg, START, done);
    AfterOffsets(cfg, p, taken);
    if n == 0 {
      AfterNothing(cfg, p, taken);
    } else {
      AfterOpened(cfg, p, es[m], n);
    }
  }

  lemma AfterNothing(cfg: Config, p: Progress, commands: seq<Argv>)
    requires commands == []
    ensures After(cfg, p, commands) == p
  {
  }

  /** A load of the first k bytes executes the entries that are wholly there, and leaves the file at Kept. */
  lemma Recovery(cfg: Config, es: seq<Entry>, k: nat)
    requires EntriesOk(cfg, es) && cfg.loadTruncated && cfg.truncates && 0 < k <= |File(es)|
    ensures Load(cfg, File(es)[..k]) == Loaded(Effects(es[..WholeEntries(es, k)]), Kept(es, k))
  {
    hide Command, Log, Flatten, Effects, EntryOk, Replay, After, Known, WholeEntries, WholeCommands, Printable;
    var file := File(es)[..k];
    var m := WholeEntries(es, k);
    CutEntries(es, k);
    StartsWithStar(Flatten(es), k);
    if m == |es| {
      assert es[..m] == es;
      RoundTrip(cfg, es);
    } else {
      var commands := Commands(es[m]);
      var r := k - |File(es[..m])|;
      CutCommands(commands, r);
      var n := WholeCommands(commands, r);
      PartIsKnown(cfg, es, m, n);
      LogAppend(Flatten(es[..m]), commands[..n]);
      assert commands[..|commands|] == commands;
      AfterPart(cfg, es, m, n);
      var done := Log(commands[..n]);
      var x := Log(commands)[|done|..r];
      assert file == Log(Part(es, m, n)) + x;
      if r == |done| {
        assert file == Log(Part(es, m, n));
        ReplayWhole(cfg, Part(es, m, n), START);
        NoCommands(commands, n);
      } else {
        EntryIsKnown(cfg, es[m]);
        KnownIsPrintable(cfg, commands, n);
        ReplayCut(cfg, Part(es, m, n), x, commands[n], START);
      }
    }
  }

  lemma NoCommands(commands: seq<Argv>, n: nat)
    requires n <= |commands|
    ensures n == 0 ==> Log(commands[..n]) == []
  {
  }

  lemma KnownIsPrintable(cfg: Config, commands: seq<Argv>, n: nat)
    requires AllKnown(cfg, commands) && n < |commands|
    ensures Printable(commands[n])
  {
    hide Printable;
    assert Known(cfg, commands[n]);
  }

  lemma {:induction false} WholeEntriesIs(es: seq<Entry>, m: nat, k: nat)
    requires m < |es| && |File(es[..m])| <= k < |File(es[..m])| + |Log(Commands(es[m]))|
    ensures WholeEntries(es, k) == m
  {
    hide Commands, Log;
    if m == 0 {
      NoLog();
    } else {
      assert es[..m][1..] == es[1..][..m - 1] && es[..m][0] == es[0];
      LogAppend(Commands(es[0]), Flatten(es[1..][..m - 1]));
      WholeEntriesIs(es[1..], m - 1, k - |Log(Commands(es[0]))|);
    }
  }

  /** A recovered file loads to the same commands again, and the second load leaves nothing open. */
  lemma RecoveredAgain(cfg: Config, es: seq<Entry>, k: nat)
    requires EntriesOk(cfg, es) && cfg.loadTruncated && cfg.truncates && 0 < k <= |File(es)| && 0 < Kept(es, k)
    ensures var m := WholeEntries(es, k);
            Load(cfg, File(es)[..Kept(es, k)]) == Loaded(Effects(es[..m]), |File(es[..m])|)
  {
    hide Load, Effects, Log, Flatten, Commands, WholeEntries, WholeCommands, CutShort;
    var m, size := WholeEntries(es, k), Kept(es, k);
    CutEntries(es, k);
    Recovery(cfg, es, k);
    Recovery(cfg, es, size);
    if m < |es| {
      WholeEntriesIs(es, m, size);
      KeptOfKept(es[m], k - |File(es[..m])|);
    }
  }

  lemma KeptOfKept(e: Entry, r: nat)
    requires r <= |Log(Commands(e))|
    ensures KeptOfEntry(e, KeptOfEntry(e, r)) == 0
  {
    hide Log, Command, Commands, CutShort;
    var commands, n := Commands(e), WholeCommands(Commands(e), r);
    CutCommands(commands, r);
    WholeCommandsIs(commands, n);
    WholeCommandsIs(commands, 0);
    NoLog();
    assert commands[..0] == [];
  }

  lemma {:induction false} WholeCommandsIs(commands: seq<Argv>, n: nat)
    requires n <= |commands|
    ensures WholeCommands(commands, |Log(commands[..n])|) == n
  {
    hide Command;
    if commands != [] {
      NotAPreamble(commands[0], []);
      assert Command(commands[0]) + [] == Command(commands[0]);
      if n > 0 {
        assert commands[..n][1..] == commands[1..][..n - 1];
        WholeCommandsIs(commands[1..], n - 1);
      }
    }
  }

  // ---------------------------------------------------------------------------------------------------------
  // Files that grow again after a recovery
  // ---------------------------------------------------------------------------------------------------------

  /** The cut falls inside command n of entry m. */
  predicate CutInside(es: seq<Entry>, m: nat, n: nat, k: nat) {
    && m < |es| && n < |Commands(es[m])|
    && |File(es[..m])| + |Log(Commands(es[m])[..n])| < k < |File(es[..m])| + |Log(Commands(es[m])[..n + 1])|
  }

  /** The cut falls inside a command that is not the first of its transaction: recovery leaves the transaction open. */
  ghost predicate LeftOpen(es: seq<Entry>, k: nat) {
    exists m: nat, n: nat :: 0 < n && CutInside(es, m, n, k)
  }

  /** The cut falls inside the first command after MULTI. */
  ghost predicate OnlyMultiLeft(es: seq<Entry>, k: nat) {
    exists m: nat :: CutInside(es, m, 1, k)
  }

  predicate OnlySingles(es: seq<Entry>) {
    forall i | 0 <= i < |es| :: es[i].Single?
  }

  lemma {:induction false} WholeCommandsBelow(commands: seq<Argv>, n: nat, r: nat)
    requires n < |commands| && |Log(commands[..n])| <= r < |Log(commands[..n + 1])|
    ensures WholeCommands(commands, r) == n && r < |Log(commands)|
  {
    hide Command;
    assert commands[..n + 1][1..] == commands[1..][..n];
    if n > 0 {
      assert commands[..n][1..] == commands[1..][..n - 1];
      WholeCommandsBelow(commands[1..], n - 1, r - |Command(commands[0])|);
    }
  }

  lemma LogNext(commands: seq<Argv>, n: nat)
    requires n < |commands|
    ensures Log(commands[..n + 1]) == Log(commands[..n]) + Command(commands[n])
  {
    hide Command;
    assert commands[..n + 1] == commands[..n] + [commands[n]];
    LogAppend(commands[..n], [commands[n]]);
    assert [commands[n]][1..] == [];
  }

  /** The command a cut falls into is what the loader finds incomplete. */
  lemma CutInsideIs(es: seq<Entry>, m: nat, n: nat, k: nat)
    requires CutInside(es, m, n, k)
    ensures m == WholeEntries(es, k) && n == WholeCommands(Commands(es[m]), k - |File(es[..m])|)
  {
    hide Log, Flatten, Commands, WholeEntries, WholeCommands;
    WholeCommandsBelow(Commands(es[m]), n, k - |File(es[..m])|);
    WholeEntriesIs(es, m, k);
  }

  /** What is left of the file: whole entries and, if the cut fell inside a later command of a transaction, what comes
      before that command. */
  lemma KeptIs(es: seq<Entry>, k: nat) returns (m: nat, n: nat)
    requires k <= |File(es)|
    ensures m == WholeEntries(es, k) && (LeftOpen(es, k) <==> 0 < n) && (OnlyMultiLeft(es, k) <==> n == 1)
    ensures forall i: nat, j: nat | CutInside(es, i, j, k) :: i == m && j == n
    ensures n == 0 ==> File(es)[..Kept(es, k)] == File(es[..m])
    ensures 0 < n ==> m < |es| && n < |Commands(es[m])| && File(es)[..Kept(es, k)] == Log(Part(es, m, n))
  {
    hide Log, Flatten, Commands, WholeEntries, WholeCommands, CutInside, Command;
    m, n := WholeEntries(es, k), 0;
    CutEntries(es, k);
    if m < |es| {
      var commands := Commands(es[m]);
      var r := k - |File(es[..m])|;
      CutCommands(commands, r);
      var w := WholeCommands(commands, r);
      NoCommands(commands, w);
      LogAppend(Flatten(es[..m]), commands[..w]);
      var kept := |Log(commands[..w])|;
      if kept != r {
        n := w;
        CutInsideAt(es, m, n, k);
        assert Log(commands)[..r][..kept] == Log(commands[..n]);
        assert File(es)[..k][..Kept(es, k)] == File(es[..m]) + Log(commands)[..r][..kept];
        assert n == 0 ==> File(es)[..k][..Kept(es, k)] == File(es[..m]);
      }
    }
    assert File(es)[..k][..Kept(es, k)] == File(es)[..Kept(es, k)];
    if m == |es| { assert es[..m] == es; }
    OpenOnlyAt(es, k, m, n);
  }

  lemma CutInsideAt(es: seq<Entry>, m: nat, n: nat, k: nat)
    requires m < |es| && |File(es[..m])| <= k && n < |Commands(es[m])|
    requires |Log(Commands(es[m])[..n])| < k - |File(es[..m])| < |Log(Commands(es[m])[..n])| + |Command(Commands(es[m])[n])|
    ensures CutInside(es, m, n, k)
  {
    hide Log, Flatten, Command, Commands;
    LogNext(Commands(es[m]), n);
  }

  /** No other place than the one the loader finds. */
  lemma OpenOnlyAt(es: seq<Entry>, k: nat, m: nat, n: nat)
    requires k <= |File(es)| && m == WholeEntries(es, k) && |File(es[..m])| <= k
    requires if m == |es| then n == 0
             else var commands, r := Commands(es[m]), k - |File(es[..m])|;
                  var w := WholeCommands(commands, r);
                  && |Log(commands[..w])| <= r
                  && if |Log(commands[..w])| == r then n == 0 else n == w && CutInside(es, m, n, k)
    ensures LeftOpen(es, k) <==> 0 < n
    ensures OnlyMultiLeft(es, k) <==> n == 1
    ensures forall i: nat, j: nat | CutInside(es, i, j, k) :: i == m && j == n
  {
    hide Log, Flatten, Commands, WholeEntries, WholeCommands;
    forall m1: nat, n1: nat | CutInside(es, m1, n1, k) ensures m1 == m && n1 == n {
      CutInsideIs(es, m1, n1, k);
    }
  }

  /** Entries read while a transaction is open: they are only queued, until the EXEC of a transaction among them runs the
      whole queue. */
  lemma {:induction false} AfterSwallowed(cfg: Config, p: Progress, es: seq<Entry>)
    requires EntriesOk(cfg, es) && AllKnown(cfg, Flatten(es)) && p.client.inMulti && AllPlain(cfg, p.client.queue)
    ensures var q := After(cfg, p, Flatten(es));
            if OnlySingles(es)
            then && q.client == Client(true, p.client.queue + Effects(es), p.client.executed)
                 && q.beforeMulti == p.beforeMulti
            else q.client == Client(false, [], p.client.executed + (p.client.queue + Effects(es)))
    decreases |es|
  {
    hide Known, Commands, Effect, Effects, EntryOk, After, Flatten, OnlySingles;
    if es == [] {
      SwallowsNothing(cfg, p);
    } else {
      var e, rest := es[0], es[1..];
      EntriesNext(cfg, es);
      EntryIsKnown(cfg, e);
      FlattenIsKnown(cfg, rest);
      AfterAppend(cfg, p, Commands(e), Flatten(rest));
      AfterNested(cfg, p, e);
      var p1 := After(cfg, p, Commands(e));
      Regroup(p.client.executed, p.client.queue, Effect(e), Effects(rest));
      if e.Single? {
        AfterSwallowed(cfg, p1, rest);
      } else {
        AfterEntries(cfg, p1, rest);
      }
    }
  }

  lemma SwallowsNothing(cfg: Config, p: Progress)
    ensures OnlySingles([]) && Flatten([]) == [] && AllKnown(cfg, []) && After(cfg, p, []) == p
    ensures p.client.queue + Effects([]) == p.client.queue
  {
  }

  lemma Regroup(x: seq<Argv>, q: seq<Argv>, a: seq<Argv>, b: seq<Argv>)
    ensures q + a + b == q + (a + b) && x + (q + a) + b == x + (q + (a + b))
  {
  }

  lemma EntriesNext(cfg: Config, es: seq<Entry>)
    requires es != [] && EntriesOk(cfg, es)
    ensures Flatten(es) == Commands(es[0]) + Flatten(es[1..]) && Effects(es) == Effect(es[0]) + Effects(es[1..])
    ensures OnlySingles(es) <==> es[0].Single? && OnlySingles(es[1..])
    ensures EntryOk(cfg, es[0]) && EntriesOk(cfg, es[1..])
  {
    hide EntryOk, Commands, Effect;
  }

  lemma AfterNested(cfg: Config, p: Progress, e: Entry)
    requires EntryOk(cfg, e) && AllKnown(cfg, Commands(e)) && p.client.inMulti && AllPlain(cfg, p.client.queue)
    ensures var q := After(cfg, p, Commands(e));
            match e
            case Single(argv) =>
              && q.client == Client(true, p.client.queue + Effect(e), p.client.executed)
              && q.beforeMulti == p.beforeMulti && AllPlain(cfg, q.client.queue)
            case Transaction(multi, body, exec) =>
              q.client == Client(false, [], p.client.executed + (p.client.queue + Effect(e)))
  {
    hide Command;
    match e
    case Single(argv) => AfterOne(cfg, p, argv);
    case Transaction(multi, body, exec) =>
      PlainIsKnown(cfg, body);
      KnownAppend(cfg, [multi], body);
      AfterAppend(cfg, p, [multi] + body, [exec]);
      AfterAppend(cfg, p, [multi], body);
      AfterOne(cfg, p, multi);
      var p1 := Advance(cfg, p, multi, |Command(multi)|);
      AfterQueued(cfg, p1, body);
      AfterOne(cfg, After(cfg, p1, body), exec);
      NestedRuns(cfg, p.client.queue, multi, body);
  }

  /** A nested MULTI changes nothing about what EXEC runs. */
  lemma NestedRuns(cfg: Config, queue: seq<Argv>, multi: Argv, body: seq<Argv>)
    requires AllPlain(cfg, queue) && IsKind(cfg, multi, Multi) && AllPlain(cfg, body)
    ensures Runs(cfg, queue + [multi] + body) == queue + body
  {
    RunsAppend(cfg, queue + [multi], body);
    RunsAppend(cfg, queue, [multi]);
    PlainRuns(cfg, queue);
    PlainRuns(cfg, body);
    assert IsMulti(cfg, multi) && [multi][1..] == [];
    assert Runs(cfg, [multi]) == [];
    assert queue + [] == queue;
  }

  /** After a recovery the file has shrunk to Kept bytes and the server appends to it. The next load then executes the
      recovered commands and the appended ones, and nothing else, if and only if the recovery left no transaction open,
      nothing is appended, or only MULTI was left and a transaction is appended, whose EXEC serves both. */
  lemma RecoverThenAppend(cfg: Config, es: seq<Entry>, k: nat, more: seq<Entry>)
    requires EntriesOk(cfg, es) && EntriesOk(cfg, more) && cfg.loadTruncated && cfg.truncates
    requires 0 < k <= |File(es)| && (0 < Kept(es, k) || more != [])
    ensures var o := Load(cfg, File(es)[..Kept(es, k)] + File(more));
            (o.Loaded? && o.executed == Effects(es[..WholeEntries(es, k)]) + Effects(more))
            <==> (!LeftOpen(es, k) || more == [] || (OnlyMultiLeft(es, k) && !OnlySingles(more)))
  {
    hide Log, Flatten, Load, LeftOpen, OnlyMultiLeft, WholeEntries, Kept, Effects, EntryOk, Commands;
    var m, n := KeptIs(es, k);
    if n == 0 {
      AppendToClosed(cfg, es[..m], more);
    } else {
      AppendToOpen(cfg, es, m, n, more);
      SinglesHaveEffects(more);
      NothingFor([]);
      LeftOfBody(cfg, es, m, n);
      NothingBetween(Effects(es[..m]), es[m].body[..n - 1], Effects(more));
    }
  }

  lemma LeftOfBody(cfg: Config, es: seq<Entry>, m: nat, n: nat)
    requires EntriesOk(cfg, es) && m < |es| && 0 < n < |Commands(es[m])|
    ensures es[m].Transaction? && n - 1 <= |es[m].body|
  {
  }

  lemma NothingFor(es: seq<Entry>)
    requires es == []
    ensures Effects(es) == []
  {
  }

  lemma NothingBetween(a: seq<Argv>, b: seq<Argv>, c: seq<Argv>)
    ensures a + b + c == a + c <==> b == []
    ensures a + c == a <==> c == []
  {
    if b != [] { assert |a + b + c| != |a + c|; } else { assert a + b == a; }
    if c != [] { assert |a + c| != |a|; }
  }

  lemma SinglesHaveEffects(es: seq<Entry>)
    ensures OnlySingles(es) ==> (es == [] <==> Effects(es) == [])
  {
  }

  lemma AppendToClosed(cfg: Config, es: seq<Entry>, more: seq<Entry>)
    requires EntriesOk(cfg, es) && EntriesOk(cfg, more) && (more != [] || File(es) != [])
    ensures Load(cfg, File(es) + File(more)) == Loaded(Effects(es) + Effects(more), |File(es) + File(more)|)
  {
    hide Log, Flatten, Effects, Load;
    FlattenAppend(es, more);
    LogAppend(Flatten(es), Flatten(more));
    EntriesHaveBytes(more);
    assert File(es + more) == File(es) + File(more);
    RoundTrip(cfg, es + more);
  }

  lemma EntriesHaveBytes(es: seq<Entry>)
    ensures es != [] ==> File(es) != []
  {
    hide Command, Bulks, Decimal;
    if es != [] {
      LogAppend(Commands(es[0]), Flatten(es[1..]));
      NotAPreamble(Commands(es[0])[0], []);
    }
  }

  /** The file ends inside a transaction of which n commands are left, and grows: commands appended on their own are lost,
      and the next transaction brings back the part of the old one that was left. */
  lemma AppendToOpen(cfg: Config, es: seq<Entry>, m: nat, n: nat, more: seq<Entry>)
    requires EntriesOk(cfg, es) && EntriesOk(cfg, more) && cfg.loadTruncated && cfg.truncates
    requires m < |es| && 0 < n < |Commands(es[m])|
    ensures Load(cfg, Log(Part(es, m, n)) + File(more))
            == if OnlySingles(more) then Loaded(Effects(es[..m]), |File(es[..m])|)
               else Loaded(Effects(es[..m]) + es[m].body[..n - 1] + Effects(more), |Log(Part(es, m, n)) + File(more)|)
  {
    hide Log, Flatten, Effects, EntryOk, Replay, After, Known;
    var part := Part(es, m, n);
    PartIsKnown(cfg, es, m, n);
    FlattenIsKnown(cfg, more);
    KnownAppend(cfg, part, Flatten(more));
    LogAppend(part, Flatten(more));
    AfterPart(cfg, es, m, n);
    AfterAppend(cfg, START, part, Flatten(more));
    var p := After(cfg, START, part);
    BodyIsPlain(cfg, es, m, n);
    AfterSwallowed(cfg, p, more);
    AfterOffset(cfg, START, part + Flatten(more));
    ReplayWhole(cfg, part + Flatten(more), START);
    PartHasBytes(es, m, n);
    var file := Log(part + Flatten(more));
    StartsWithStar(part + Flatten(more), |file|);
    assert file[..|file|] == file;
    assert Effects(es[..m]) + (es[m].body[..n - 1] + Effects(more))
           == Effects(es[..m]) + es[m].body[..n - 1] + Effects(more);
  }

  lemma BodyIsPlain(cfg: Config, es: seq<Entry>, m: nat, n: nat)
    requires EntriesOk(cfg, es) && m < |es| && 0 < n < |Commands(es[m])|
    ensures AllPlain(cfg, es[m].body[..n - 1])
  {
    hide IsKind;
    assert EntryOk(cfg, es[m]);
  }

  lemma PartHasBytes(es: seq<Entry>, m: nat, n: nat)
    requires m < |es| && 0 < n <= |Commands(es[m])|
    ensures Log(Part(es, m, n)) != []
  {
    hide Command, Flatten;
    LogAppend(Flatten(es[..m]), Commands(es[m])[..n]);
    NotAPreamble(Commands(es[m])[0], []);
  }

  // ---------------------------------------------------------------------------------------------------------
  // Two files
  // ---------------------------------------------------------------------------------------------------------

  const MULTI: Argv := [[77, 85, 76, 84, 73]]
  const EXEC: Argv := [[69, 88, 69, 67]]
  const INCR_A: Argv := [[73, 78, 67, 82], [97]]
  const INCR_B: Argv := [[73, 78, 67, 82], [98]]

  function Table(name: Bytes): Kind {
    if name == MULTI[0] then Multi else if name == EXEC[0] then Exec else Plain
  }

  function Defaults(): Config { Config(Table, FirstBytes, true, true) }

  /** For the example a snapshot is no more than its signature. */
  function FirstBytes(file: Bytes): Snapshot { Snapshot(|SIGNATURE|) }

  /** MULTI, INCR a, INCR b, EXEC. */
  function Increments(): seq<Entry> { [Transaction(MULTI, [INCR_A, INCR_B], EXEC)] }

  lemma IncrementsOk()
    ensures EntriesOk(Defaults(), Increments()) && EntryOk(Defaults(), Single(INCR_A)) && EntryOk(Defaults(), Single(INCR_B))
    ensures Commands(Increments()[0]) == [MULTI, INCR_A, INCR_B, EXEC]
  {
    assert forall i | 0 <= i < 2 :: IsKind(Defaults(), [INCR_A, INCR_B][i], Plain);
  }

  /** Cuts one byte into a command of the transaction. */
  lemma CutIncrements(n: nat)
    requires 0 < n < 4
    ensures var k := |Log([MULTI, INCR_A, INCR_B, EXEC][..n])| + 1;
            CutInside(Increments(), 0, n, k) && 0 < k <= |File(Increments())| && WholeEntries(Increments(), k) == 0
  {
    hide Command, Log, WholeEntries, WholeCommands;
    var all := [MULTI, INCR_A, INCR_B, EXEC];
    var k := |Log(all[..n])| + 1;
    IncrementsOk();
    NoLog();
    LogNext(all, n);
    CommandIsLong(all[n]);
    assert Increments()[..0] == [] && Flatten([]) == [];
    CutInsideIs(Increments(), 0, n, k);
    assert Flatten(Increments()) == all by {
      assert Increments()[1..] == [] && all + [] == all;
    }
    LogAppend(all[..n], all[n..]);
    assert all[..n] + all[n..] == all;
    LogAppend([all[n]], all[n + 1..]);
    assert [all[n]] + all[n + 1..] == all[n..];
    LogOne(all[n]);
  }

  lemma LogOne(argv: Argv)
    ensures Log([argv]) == Command(argv)
  {
    hide Command;
    assert [argv][1..] == [];
  }

  lemma CommandIsLong(argv: Argv)
    ensures 2 < |Command(argv)|
  {
    hide Bulks, Decimal;
  }

  /** Cut one byte into INCR a, recovered, and INCR b appended: the appended command is gone after the next load. */
  lemma AppendedIsLost() returns (k: nat)
    ensures k == |Command(MULTI)| + 1 <= |File(Increments())|
    ensures LeftOpen(Increments(), k)
    ensures Load(Defaults(), File(Increments())[..k]) == Loaded([], Kept(Increments(), k))
    ensures Load(Defaults(), File(Increments())[..Kept(Increments(), k)] + File([Single(INCR_B)])) == Loaded([], 0)
  {
    hide Log, Command, Load, Kept, EntriesOk, EntryOk, WholeEntries, LeftOpen, CutInside, Flatten;
    k := |Log([MULTI])| + 1;
    LogOne(MULTI);
    IncrementsOk();
    assert [MULTI, INCR_A, INCR_B, EXEC][..1] == [MULTI];
    CutIncrements(1);
    OneEntryOk(Defaults(), Single(INCR_B));
    OpenAt(Increments(), 0, 1, k);
    Recovery(Defaults(), Increments(), k);
    AppendToOpen(Defaults(), Increments(), 0, 1, [Single(INCR_B)]);
    NothingBefore(Increments());
  }

  /** Cut one byte into INCR b, recovered, and another transaction appended: INCR a, whose transaction was never complete,
      is executed with it. */
  lemma HalfIsExecuted() returns (k: nat)
    ensures k == |Command(MULTI)| + |Command(INCR_A)| + 1 <= |File(Increments())|
    ensures LeftOpen(Increments(), k)
    ensures Load(Defaults(), File(Increments())[..k]) == Loaded([], Kept(Increments(), k))
    ensures var o := Load(Defaults(), File(Increments())[..Kept(Increments(), k)] + File(Increments()));
            o.Loaded? && o.executed == [INCR_A, INCR_A, INCR_B]
  {
    hide Log, Command, Load, Kept, EntriesOk, EntryOk, WholeEntries, LeftOpen, CutInside, Flatten;
    k := |Log([MULTI, INCR_A])| + 1;
    assert [MULTI, INCR_A] == [MULTI] + [INCR_A];
    LogAppend([MULTI], [INCR_A]);
    LogOne(MULTI);
    LogOne(INCR_A);
    IncrementsOk();
    assert [MULTI, INCR_A, INCR_B, EXEC][..2] == [MULTI, INCR_A];
    CutIncrements(2);
    OpenAt(Increments(), 0, 2, k);
    Recovery(Defaults(), Increments(), k);
    AppendToOpen(Defaults(), Increments(), 0, 2, Increments());
    NothingBefore(Increments());
    assert Increments()[0].body[..1] == [INCR_A];
    assert Effects(Increments()) == [INCR_A, INCR_B] by { assert Increments()[1..] == []; }
  }

  lemma NothingBefore(es: seq<Entry>)
    ensures Effects(es[..0]) == [] && File(es[..0]) == []
  {
  }

  lemma OneEntryOk(cfg: Config, e: Entry)
    requires EntryOk(cfg, e)
    ensures EntriesOk(cfg, [e])
  {
  }

  lemma OpenAt(es: seq<Entry>, m: nat, n: nat, k: nat)
    requires 0 < n && CutInside(es, m, n, k) && k <= |File(es)|
    ensures LeftOpen(es, k) && File(es)[..Kept(es, k)] == Log(Part(es, m, n))
  {
    hide Log, Kept, CutInside, Flatten, WholeEntries, WholeCommands;
    CutInsideIs(es, m, n, k);
    var m1, n1 := KeptIs(es, k);
  }
}
