/** Files that begin with a snapshot in the RDB format, as a rewrite with aof-use-rdb-preamble leaves them. */
module AofPreamble {
  import opened AofFormat
  import opened AofLoader
  import opened AofReplay
  import opened AofRecovery

  /** A snapshot that loads, whatever follows it. */
  ghost predicate SnapshotOk(cfg: Config, rdb: Bytes) {
    HasSnapshot(rdb) && forall rest: Bytes :: cfg.preamble(rdb + rest) == Snapshot(|rdb|)
  }

  lemma LoadsTail(cfg: Config, rdb: Bytes, tail: Bytes)
    requires SnapshotOk(cfg, rdb)
    ensures Load(cfg, rdb + tail) == Replay(cfg, tail, AfterSnapshot(|rdb|))
  {
    hide Replay;
    var file := rdb + tail;
    assert file[..5] == rdb[..5] && file[|rdb|..] == tail;
  }

  /** The offset to fall back to is zero until a first command has been read. */
  lemma {:induction false} AfterFirst(cfg: Config, p: Progress, commands: seq<Argv>)
    requires AllKnown(cfg, commands) && cfg.loadTruncated
    ensures var q := After(cfg, p, commands);
            && q.offset == p.offset + |Log(commands)|
            && q.validUpTo == if commands == [] then p.validUpTo else q.offset
    decreases |commands|
  {
    hide Command, Perform;
    if commands != [] {
      assert Known(cfg, commands[0]);
      AfterFirst(cfg, Advance(cfg, p, commands[0], |Command(commands[0])|), commands[1..]);
    }
  }

  lemma FlattenIsEmpty(es: seq<Entry>)
    ensures Flatten(es) == [] <==> es == []
  {
  }

  /** Where the loader stands after the snapshot and part of an entry. */
  lemma AfterPartOfTail(cfg: Config, es: seq<Entry>, m: nat, n: nat, base: nat)
    requires EntriesOk(cfg, es) && cfg.loadTruncated && m < |es| && n < |Commands(es[m])|
    requires AllKnown(cfg, Part(es, m, n))
    ensures var q := After(cfg, AfterSnapshot(base), Part(es, m, n));
            && q.client == (if n == 0 then Client(false, [], Effects(es[..m]))
                            else Client(true, es[m].body[..n - 1], Effects(es[..m])))
            && q.offset == base + |File(es[..m])| + |Log(Commands(es[m])[..n])|
            && q.validUpTo == (if m == 0 && n == 0 then 0 else q.offset)
            && (0 < n ==> q.beforeMulti == if m == 0 then 0 else base + |File(es[..m])|)
  {
    hide Log, After, Known, EntryOk, Effects, Flatten;
    var start, done, taken := AfterSnapshot(base), Flatten(es[..m]), Commands(es[m])[..n];
    PartIsKnown(cfg, es, m, n);
    AfterAppend(cfg, start, done, taken);
    var p := After(cfg, start, done);
    AfterEntries(cfg, start, es[..m]);
    assert [] + Effects(es[..m]) == Effects(es[..m]);
    FlattenIsEmpty(es[..m]);
    AfterFirst(cfg, start, done);
    AfterFirst(cfg, p, taken);
    if n == 0 {
      AfterNothing(cfg, p, taken);
    } else {
      AfterOpened(cfg, p, es[m], n);
    }
  }

  /** A whole file: the snapshot, then exactly what the commands stand for. */
  lemma RoundTripWithSnapshot(cfg: Config, rdb: Bytes, es: seq<Entry>)
    requires SnapshotOk(cfg, rdb) && EntriesOk(cfg, es)
    ensures Load(cfg, rdb + File(es)) == Loaded(Effects(es), |rdb + File(es)|)
  {
    hide Command, EntriesOk, Flatten, Effects, Replay, Log, Known;
    var commands, start := Flatten(es), AfterSnapshot(|rdb|);
    LoadsTail(cfg, rdb, File(es));
    FlattenIsKnown(cfg, es);
    ReplayWhole(cfg, commands, start);
    AfterEntries(cfg, start, es);
    assert [] + Effects(es) == Effects(es);
    AfterOffset(cfg, start, commands);
  }

  /** The tail cut after k bytes: the entries that are wholly there are executed, and the file is left as without a
      snapshot, unless the cut keeps nothing of the tail although there was some: then nothing at all is left of the
      file, the snapshot included. */
  lemma RecoveryWithSnapshot(cfg: Config, rdb: Bytes, es: seq<Entry>, k: nat)
    requires SnapshotOk(cfg, rdb) && EntriesOk(cfg, es) && cfg.loadTruncated && cfg.truncates && k <= |File(es)|
    ensures Load(cfg, rdb + File(es)[..k])
            == Loaded(Effects(es[..WholeEntries(es, k)]), if 0 < k && Kept(es, k) == 0 then 0 else |rdb| + Kept(es, k))
  {
    hide Command, Log, Flatten, Effects, EntryOk, Replay, After, Known, WholeEntries, WholeCommands, Printable;
    var tail := File(es)[..k];
    LoadsTail(cfg, rdb, tail);
    var m := WholeEntries(es, k);
    CutEntries(es, k);
    if m == |es| {
      assert es[..m] == es;
      RoundTripWithSnapshot(cfg, rdb, es);
      if k == 0 { NoBytesNoEntries(es); }
    } else {
      var commands, start := Commands(es[m]), AfterSnapshot(|rdb|);
      var r := k - |File(es[..m])|;
      CutCommands(commands, r);
      var n := WholeCommands(commands, r);
      PartIsKnown(cfg, es, m, n);
      LogAppend(Flatten(es[..m]), commands[..n]);
      assert commands[..|commands|] == commands;
      AfterPartOfTail(cfg, es, m, n, |rdb|);
      var done := Log(commands[..n]);
      var x := Log(commands)[|done|..r];
      assert tail == Log(Part(es, m, n)) + x;
      NoCommands(commands, n);
      SomeBytes(es[..m], commands, n);
      if r == |done| {
        assert tail == Log(Part(es, m, n));
        ReplayWhole(cfg, Part(es, m, n), start);
      } else {
        EntryIsKnown(cfg, es[m]);
        KnownIsPrintable(cfg, commands, n);
        ReplayCut(cfg, Part(es, m, n), x, commands[n], start);
      }
    }
  }

  lemma NoBytesNoEntries(es: seq<Entry>)
    ensures File(es) == [] ==> es == []
  {
    EntriesHaveBytes(es);
  }

  lemma SomeBytes(es: seq<Entry>, commands: seq<Argv>, n: nat)
    requires n <= |commands|
    ensures |File(es)| == 0 <==> es == []
    ensures |Log(commands[..n])| == 0 <==> n == 0
  {
    hide Command, Bulks, Decimal;
    EntriesHaveBytes(es);
    if n > 0 {
      NotAPreamble(commands[0], []);
      assert Command(commands[0]) + [] == Command(commands[0]);
    }
  }

  /** The exact condition: the snapshot stays on disk if and only if the cut falls on the end of the snapshot or something
      of the tail is kept. */
  lemma SnapshotSurvives(cfg: Config, rdb: Bytes, es: seq<Entry>, k: nat)
    requires SnapshotOk(cfg, rdb) && EntriesOk(cfg, es) && cfg.loadTruncated && cfg.truncates && k <= |File(es)|
    ensures var o := Load(cfg, rdb + File(es)[..k]); o.Loaded? && (o.size >= |rdb| <==> k == 0 || Keeps(es, k))
  {
    hide Load, File, Effects, WholeEntries, Keeps, HasSnapshot;
    RecoveryWithSnapshot(cfg, rdb, es, k);
    SnapshotIsLong(cfg, rdb);
    if 0 < k { KeepsSome(es, k); }
  }

  lemma SnapshotIsLong(cfg: Config, rdb: Bytes)
    requires SnapshotOk(cfg, rdb)
    ensures 5 <= |rdb|
  {
  }

  /** The first entry is whole, or the cut falls inside one of its commands after the first. */
  predicate Keeps(es: seq<Entry>, k: nat) {
    && es != []
    && var first := Commands(es[0]);
       || |Log(first)| <= k
       || exists n | 0 < n < |first| :: |Log(first[..n])| < k < |Log(first[..n + 1])|
  }

  lemma KeepsSome(es: seq<Entry>, k: nat)
    requires 0 < k <= |File(es)|
    ensures 0 < Kept(es, k) <==> Keeps(es, k)
  {
    hide Log, Flatten, WholeCommands, Command, CutShort;
    if es == [] {
      NoLog();
      assert File(es) == [] by { FlattenIsEmpty(es); }
    } else {
      var first, m := Commands(es[0]), WholeEntries(es, k);
      SomeBytes(es[..m], first, 0);
      if m == 0 {
        CutEntries(es, k);
        assert es[..0] == [];
        KeepsOfFirst(es[0], k);
      } else {
        assert |Log(first)| <= k;
      }
    }
  }

  lemma KeepsOfFirst(e: Entry, k: nat)
    requires 0 < k < |Log(Commands(e))|
    ensures 0 < KeptOfEntry(e, k)
            <==> exists n | 0 < n < |Commands(e)| :: |Log(Commands(e)[..n])| < k < |Log(Commands(e)[..n + 1])|
  {
    hide Log, WholeCommands, Command, Commands;
    var first := Commands(e);
    var n := WholeCommands(first, k);
    CutCommands(first, k);
    SomeBytes([], first, n);
    if |Log(first[..n])| < k {
      LogNext(first, n);
      assert |Log(first[..n])| < k < |Log(first[..n + 1])|;
    }
    forall i | 0 < i < |first| && |Log(first[..i])| < k < |Log(first[..i + 1])| ensures n == i && |Log(first[..n])| < k {
      WholeCommandsBelow(first, i, k);
    }
  }

  // ---------------------------------------------------------------------------------------------------------
  // Files that grow again after a recovery
  // ---------------------------------------------------------------------------------------------------------

  lemma NoSignature(es: seq<Entry>)
    ensures !HasSnapshot(File(es))
  {
    hide Flatten, Log;
    if File(es) != [] {
      StartsWithStar(Flatten(es), |File(es)|);
      assert File(es)[..|File(es)|] == File(es);
    }
  }

  /** What a recovery leaves of a snapshot and k bytes of commands. */
  function LeftFile(rdb: Bytes, es: seq<Entry>, k: nat): Bytes
    requires k <= |File(es)|
  {
    if 0 < k && Kept(es, k) == 0 then [] else rdb + File(es)[..Kept(es, k)]
  }

  lemma LeftFileIs(cfg: Config, rdb: Bytes, es: seq<Entry>, k: nat)
    requires SnapshotOk(cfg, rdb) && EntriesOk(cfg, es) && cfg.loadTruncated && cfg.truncates && k <= |File(es)|
    ensures var o, file := Load(cfg, rdb + File(es)[..k]), rdb + File(es)[..k];
            o.Loaded? && o.size <= |file| && file[..o.size] == LeftFile(rdb, es, k)
  {
    hide Load, File, Effects, WholeEntries, SnapshotOk, EntriesOk;
    RecoveryWithSnapshot(cfg, rdb, es, k);
    var file := rdb + File(es)[..k];
    assert file[..|rdb| + Kept(es, k)] == rdb + File(es)[..k][..Kept(es, k)];
    assert File(es)[..k][..Kept(es, k)] == File(es)[..Kept(es, k)];
  }

  lemma GrownClosed(cfg: Config, rdb: Bytes, es: seq<Entry>, more: seq<Entry>)
    requires SnapshotOk(cfg, rdb) && EntriesOk(cfg, es) && EntriesOk(cfg, more)
    ensures var o := Load(cfg, rdb + File(es) + File(more)); o.Loaded? && o.executed == Effects(es) + Effects(more)
  {
    hide Log, Flatten, Effects, Load, SnapshotOk;
    FlattenAppend(es, more);
    LogAppend(Flatten(es), Flatten(more));
    assert rdb + File(es + more) == rdb + File(es) + File(more);
    RoundTripWithSnapshot(cfg, rdb, es + more);
  }

  lemma GrownOpen(cfg: Config, rdb: Bytes, es: seq<Entry>, m: nat, n: nat, more: seq<Entry>)
    requires SnapshotOk(cfg, rdb) && EntriesOk(cfg, es) && EntriesOk(cfg, more) && cfg.loadTruncated && cfg.truncates
    requires m < |es| && 0 < n < |Commands(es[m])|
    ensures var o := Load(cfg, rdb + Log(Part(es, m, n)) + File(more));
            && o.Loaded?
            && o.executed == if OnlySingles(more) then Effects(es[..m])
                             else Effects(es[..m]) + es[m].body[..n - 1] + Effects(more)
  {
    hide Log, Flatten, Effects, EntryOk, Replay, After, Known, SnapshotOk, Load, OnlySingles;
    var part, start := Part(es, m, n), AfterSnapshot(|rdb|);
    var commands := part + Flatten(more);
    PartIsKnown(cfg, es, m, n);
    FlattenIsKnown(cfg, more);
    KnownAppend(cfg, part, Flatten(more));
    LogAppend(part, Flatten(more));
    assert rdb + Log(part) + File(more) == rdb + Log(commands);
    LoadsTail(cfg, rdb, Log(commands));
    AfterPartOfTail(cfg, es, m, n, |rdb|);
    AfterAppend(cfg, start, part, Flatten(more));
    BodyIsPlain(cfg, es, m, n);
    AfterSwallowed(cfg, After(cfg, start, part), more);
    ReplayWhole(cfg, commands, start);
    AofRecovery.Regroup([], Effects(es[..m]), es[m].body[..n - 1], Effects(more));
  }

  /** After a recovery the server appends to what was left of the file. The next load then finds the snapshot and executes
      exactly the recovered and the appended commands if and only if the snapshot survived the recovery and, as without
      one, no transaction was left open, nothing is appended, or only MULTI was left and a transaction is appended. */
  lemma RecoverThenAppendWithSnapshot(cfg: Config, rdb: Bytes, es: seq<Entry>, k: nat, more: seq<Entry>)
    requires SnapshotOk(cfg, rdb) && EntriesOk(cfg, es) && EntriesOk(cfg, more) && cfg.loadTruncated && cfg.truncates
    requires k <= |File(es)|
    ensures var file := LeftFile(rdb, es, k) + File(more);
            var o := Load(cfg, file);
            (HasSnapshot(file) && o.Loaded? && o.executed == Effects(es[..WholeEntries(es, k)]) + Effects(more))
            <==> (k == 0 || Keeps(es, k))
                 && (!LeftOpen(es, k) || more == [] || (OnlyMultiLeft(es, k) && !OnlySingles(more)))
  {
    hide Log, Flatten, Load, LeftOpen, OnlyMultiLeft, WholeEntries, Kept, Effects, EntryOk, Commands, Keeps;
    if 0 < k { KeepsSome(es, k); }
    var file := LeftFile(rdb, es, k) + File(more);
    if 0 < k && Kept(es, k) == 0 {
      assert file == File(more);
      NoSignature(more);
    } else {
      var left := File(es)[..Kept(es, k)];
      assert file == rdb + left + File(more);
      assert file[..5] == rdb[..5];
      var m, n := KeptIs(es, k);
      if n == 0 {
        GrownClosed(cfg, rdb, es[..m], more);
      } else {
        GrownOpen(cfg, rdb, es, m, n, more);
        SinglesHaveEffects(more);
        NothingFor([]);
        LeftOfBody(cfg, es, m, n);
        NothingBetween(Effects(es[..m]), es[m].body[..n - 1], Effects(more));
      }
    }
  }

  /** One byte of a first command after the snapshot, and all that is left of the file is nothing. */
  lemma SnapshotIsLost()
    ensures SnapshotOk(Defaults(), SIGNATURE) && 1 <= |File(Increments())|
    ensures Load(Defaults(), SIGNATURE + File(Increments())[..1]) == Loaded([], 0)
  {
    hide Log, Flatten, Load, Kept, WholeEntries, Keeps, EntriesOk, Increments;
    IncrementsOk();
    CutIncrements(1);
    RecoveryWithSnapshot(Defaults(), SIGNATURE, Increments(), 1);
    KeepsSome(Increments(), 1);
    FirstByte();
    NothingBefore(Increments());
  }

  lemma FirstByte()
    ensures !Keeps(Increments(), 1) && WholeEntries(Increments(), 1) == 0
  {
    hide Log, Command, Bulks, Decimal;
    var first := Commands(Increments()[0]);
    forall n | 0 < n <= |first| ensures 1 <= |Log(first[..n])| { SomeBytes([], first, n); }
    LogLong(first);
  }

  lemma LogLong(commands: seq<Argv>)
    ensures commands != [] ==> 1 < |Log(commands)|
  {
    hide Command;
    if commands != [] { CommandIsLong(commands[0]); }
  }
}
