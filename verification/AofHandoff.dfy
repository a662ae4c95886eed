/** The background rewrite of the append-only file: the parent executes and feeds commands, the child writes a snapshot
    and collects the difference through a pipe, and the two agree with '!' bytes on when the parent stops sending.
    Every interleaving of the two processes is a run of these steps. */
module AofHandoff {
  import opened Basics
  import opened AofFormat
  import opened AofReplay
  import opened AofRecovery
  import opened AofFeed
  import opened AofPreamble

  datatype AofState = Off | On | WaitRewrite

  datatype Phase =
    | Working    // writing the snapshot, reading the difference from time to time
    | Asked      // sent '!', waiting for the answer
    | Answered   // read '!' from the parent
    | Drained    // read the pipe until nothing was left
    | Succeeded  // snapshot and difference are in the temporary file, exit code 0
    | Failed     // any other exit

  /** The child; it writes an RDB snapshot, or nothing, followed by entries. `start` is the dataset it was forked with, and
      `fed` what the parent has fed since. */
  datatype Child<D> =
    | NoChild
    | Child(phase: Phase, rdb: Bytes, snapshot: seq<Entry>, diff: Bytes, start: D, fed: seq<Entry>)

  /** The server, the child and the three pipes between them. `blocks` is what the rewrite buffer holds, `stop` is
      aof_stop_sending_diff, `listening` whether the handler for the child's '!' is installed; the two counters are the
      '!' bytes in flight. While the AOF is on, the file and aof_buf together are the snapshot `base`, or nothing, followed
      by the entries of `log`. */
  datatype State<D> = State(
    aof: AofState, selected: int, buf: Bytes, file: Bytes, live: D, base: Bytes, log: seq<Entry>,
    blocks: Bytes, stop: bool, listening: bool, child: Child<D>,
    pipe: Bytes, toParent: nat, toChild: nat)

  datatype Step =
    | Write(d: Done)                  // commands are executed and propagated
    | Flush(n: nat)                   // aof_buf is written, wholly or in part
    | Fork(rdb: Bytes, snapshot: seq<Entry>)  // rewriteAppendOnlyFileBackground
    | Send(n: nat)                    // aofChildWriteDiffData: one write
    | ChildRead(n: nat)               // aofReadDiffFromParent while working
    | Ask                             // the child writes '!'
    | Answer(sent: bool)              // aofChildPipeReadable
    | Hear                            // the child reads '!'
    | FinalRead                       // the last aofReadDiffFromParent
    | Finish                          // the difference is written, exit code 0
    | Fail                            // write error, timeout or signal
    | Done(ok: bool)                  // backgroundRewriteDoneHandler; whether open, write, fsync and rename succeed
    | Kill                            // killAppendOnlyChild
    | Enable                          // startAppendOnly, up to its rewriteAppendOnlyFileBackground
    | Disable                         // stopAppendOnly

  // ---------------------------------------------------------------------------------------------------------
  // Steps
  // ---------------------------------------------------------------------------------------------------------

  /** The dataset that the commands of a file start from. */
  function Origin<D(!new)>(env: Env<D>, empty: D, base: Bytes): Replayed<D> {
    Replayed(0, if base == [] then empty else env.restore(base))
  }

  ghost predicate BaseOk<D(!new)>(env: Env<D>, base: Bytes) {
    base == [] || SnapshotOk(env.cfg, base)
  }

  ghost predicate Rebuilds<D(!new)>(env: Env<D>, empty: D, base: Bytes, es: seq<Entry>, data: D) {
    BaseOk(env, base) && EntriesOk(env.cfg, es) && RedoAll(env, Origin(env, empty, base), Effects(es)).data == data
  }

  ghost predicate Enabled<D(!new)>(env: Env<D>, empty: D, s: State<D>, step: Step) {
    match step
    case Write(d) => DoneOk(env, d)
    case Flush(n) => s.aof.On? && n <= |s.buf|
    case Fork(rdb, snapshot) => s.child.NoChild? && Rebuilds(env, empty, rdb, snapshot, s.live)
    case Send(n) => s.child.Child? && !s.stop && n <= |s.blocks|
    case ChildRead(n) => s.child.Child? && s.child.phase.Working? && n <= |s.pipe|
    case Ask => s.child.Child? && s.child.phase.Working?
    case Answer(_) => s.child.Child? && s.listening && 0 < s.toParent
    case Hear => s.child.Child? && s.child.phase.Asked? && 0 < s.toChild
    case FinalRead => s.child.Child? && s.child.phase.Answered?
    case Finish => s.child.Child? && s.child.phase.Drained?
    case Fail => s.child.Child? && !s.child.phase.Succeeded?
    case Done(_) => s.child.Child? && (s.child.phase.Succeeded? || s.child.phase.Failed?)
    case Kill => s.child.Child?
    case Enable => s.aof.Off?
    case Disable => !s.aof.Off?
  }

  /** aofClosePipes and aofRewriteBufferReset. */
  function Cleanup<D>(s: State<D>): State<D> {
    s.(blocks := [], child := NoChild, pipe := [], toParent := 0, toChild := 0, listening := false)
  }

  function Feed<D(!new)>(env: Env<D>, s: State<D>, f: Fed): State<D> {
    var es := FedEntries(env, s.selected, f);
    var bytes := Log(ItemCommands(s.selected, Calls(env, f)));
    var s1 := s.(selected := NewSelected(f));
    var s2 := if s.aof.On? then s1.(buf := s.buf + bytes, log := s.log + es) else s1;
    if s.child.Child? then s2.(blocks := s.blocks + bytes, child := s.child.(fed := s.child.fed + es)) else s2
  }

  /** The new file is what the child wrote and what is left in the rewrite buffer; aof_buf is thrown away. */
  function Install<D>(s: State<D>): State<D>
    requires s.child.Child?
  {
    var file := s.child.rdb + File(s.child.snapshot) + s.child.diff + s.blocks;
    if s.aof.Off? then s.(file := file)
    else s.(file := file, selected := -1, buf := [], aof := On, base := s.child.rdb, log := s.child.snapshot + s.child.fed)
  }

  ghost function Apply<D(!new)>(env: Env<D>, empty: D, s: State<D>, step: Step): State<D>
    requires Enabled(env, empty, s, step)
  {
    match step
    case Write(d) =>
      var s1 := s.(live := RunDone(env, s.live, d));
      if s.aof.Off? then s1 else Feed(env, s1, Wire(env, d))
    case Flush(n) => s.(file := s.file + s.buf[..n], buf := s.buf[n..])
    case Fork(rdb, snapshot) =>
      s.(child := Child(Working, rdb, snapshot, [], s.live, []), selected := -1, stop := false, listening := true)
    case Send(n) => s.(pipe := s.pipe + s.blocks[..n], blocks := s.blocks[n..])
    case ChildRead(n) => s.(child := s.child.(diff := s.child.diff + s.pipe[..n]), pipe := s.pipe[n..])
    case Ask => s.(child := s.child.(phase := Asked), toParent := s.toParent + 1)
    case Answer(sent) =>
      s.(toParent := s.toParent - 1, stop := true, listening := false, toChild := s.toChild + if sent then 1 else 0)
    case Hear => s.(child := s.child.(phase := Answered), toChild := s.toChild - 1)
    case FinalRead => s.(child := s.child.(phase := Drained, diff := s.child.diff + s.pipe), pipe := [])
    case Finish => s.(child := s.child.(phase := Succeeded))
    case Fail => s.(child := s.child.(phase := Failed))
    case Done(ok) => Cleanup(if s.child.phase.Succeeded? && ok then Install(s) else s)
    case Kill => Cleanup(s)
    case Enable => Cleanup(s).(aof := WaitRewrite)
    case Disable => Cleanup(s).(aof := Off, selected := -1, file := s.file + s.buf, buf := [])
  }

  ghost predicate Init<D(!new)>(env: Env<D>, empty: D, s: State<D>) {
    && s.selected == -1 && s.buf == [] && s.child.NoChild? && s == Cleanup(s)
    && !s.aof.WaitRewrite?
    && (s.aof.On? ==> s.file == s.base + File(s.log) && Rebuilds(env, empty, s.base, s.log, s.live))
  }

  ghost predicate IsRun<D(!new)>(env: Env<D>, empty: D, run: seq<State<D>>, steps: seq<Step>) {
    && |run| == |steps| + 1
    && Init(env, empty, run[0])
    && forall i | 0 <= i < |steps| ::
         Enabled(env, empty, run[i], steps[i]) && run[i + 1] == Apply(env, empty, run[i], steps[i])
  }

  // ---------------------------------------------------------------------------------------------------------
  // Nothing is lost or repeated on the way to the child
  // ---------------------------------------------------------------------------------------------------------

  ghost predicate Conserved<D>(s: State<D>) {
    if s.child.NoChild? then s.blocks == [] && s.pipe == [] && s.toParent == 0 && s.toChild == 0
    else s.child.diff + s.pipe + s.blocks == File(s.child.fed)
  }

  /** What each side knows of the other in each phase of the handshake. */
  ghost predicate Agreed<D>(s: State<D>) {
    s.child.Child? ==>
      && (s.listening ==> s.toChild == 0)
      && (s.toChild > 0 ==> s.stop)
      && match s.child.phase
         case Working => s.listening && !s.stop && s.toParent == 0
         case Asked => true
         case Answered => s.stop
         case Drained => s.stop && s.pipe == []
         case Succeeded => s.stop && s.pipe == []
         case Failed => true
  }

  lemma FileAppend(a: seq<Entry>, b: seq<Entry>)
    ensures File(a + b) == File(a) + File(b)
  {
    FlattenAppend(a, b);
    LogAppend(Flatten(a), Flatten(b));
  }

  lemma FedFile<D(!new)>(env: Env<D>, selected: int, f: Fed)
    ensures File(FedEntries(env, selected, f)) == Log(ItemCommands(selected, Calls(env, f)))
  {
    FedBytes(env, selected, f);
  }

  lemma FeedConserves<D(!new)>(env: Env<D>, s: State<D>, f: Fed)
    requires Conserved(s)
    ensures Conserved(Feed(env, s, f))
  {
    hide Log, Flatten, FedEntries, ItemCommands;
    if s.child.Child? {
      var es := FedEntries(env, s.selected, f);
      FileAppend(s.child.fed, es);
      FedFile(env, s.selected, f);
      assert s.child.diff + s.pipe + (s.blocks + File(es)) == s.child.diff + s.pipe + s.blocks + File(es);
    }
  }

  lemma StepAgrees<D(!new)>(env: Env<D>, empty: D, s: State<D>, step: Step)
    requires Enabled(env, empty, s, step) && Agreed(s)
    requires s.child.NoChild? ==> Conserved(s)
    ensures Agreed(Apply(env, empty, s, step))
  {
    hide File, Log, FedEntries, ItemCommands, Calls, Rebuilds, DoneOk, RunDone, Wire;
  }

  lemma StepConserves<D(!new)>(env: Env<D>, empty: D, s: State<D>, step: Step)
    requires Enabled(env, empty, s, step) && Conserved(s)
    ensures Conserved(Apply(env, empty, s, step))
  {
    hide File, Log, Feed, Rebuilds, DoneOk, RunDone, Wire, Install;
    match step
    case Write(d) =>
      var s1 := s.(live := RunDone(env, s.live, d));
      if !s.aof.Off? { FeedConserves(env, s1, Wire(env, d)); }
    case Send(n) => assert s.child.diff + (s.pipe + s.blocks[..n]) + s.blocks[n..] == s.child.diff + s.pipe + s.blocks;
    case ChildRead(n) => assert s.child.diff + s.pipe[..n] + s.pipe[n..] == s.child.diff + s.pipe;
    case FinalRead => assert s.child.diff + s.pipe + [] == s.child.diff + s.pipe;
    case Fork(_, _) => NoFile();
    case _ =>
  }

  lemma NoFile()
    ensures File([]) == []
  {
  }

  // ---------------------------------------------------------------------------------------------------------
  // The file stands for the live dataset
  // ---------------------------------------------------------------------------------------------------------

  /** Replaying the entries from r leads to the live dataset, with the database selected that the server believes. */
  ghost predicate LeadsTo<D(!new)>(env: Env<D>, r: Replayed<D>, es: seq<Entry>, s: State<D>) {
    var q := RedoAll(env, r, Effects(es));
    q.data == s.live && (s.selected != -1 ==> q.db == s.selected)
  }

  /** File and aof_buf hold the log, which rebuilds the live dataset. */
  ghost predicate Current<D(!new)>(env: Env<D>, empty: D, s: State<D>) {
    s.aof.On? ==>
      && s.file + s.buf == s.base + File(s.log) && |s.base| <= |s.file|
      && BaseOk(env, s.base) && EntriesOk(env.cfg, s.log)
      && LeadsTo(env, Origin(env, empty, s.base), s.log, s)
  }

  /** The child's snapshot rebuilds the dataset at the fork, and what was fed since leads on to the live one, whatever
      database is selected when it starts. */
  ghost predicate Bridged<D(!new)>(env: Env<D>, empty: D, s: State<D>) {
    s.child.Child? && !s.aof.Off? ==>
      && Rebuilds(env, empty, s.child.rdb, s.child.snapshot, s.child.start)
      && EntriesOk(env.cfg, s.child.fed)
      && forall db: int :: LeadsTo(env, Replayed(db, s.child.start), s.child.fed, s)
  }

  /** One more feed. */
  lemma FeedLeads<D(!new)>(env: Env<D>, r: Replayed<D>, es: seq<Entry>, s: State<D>, t: State<D>, d: Done)
    requires LeadsTo(env, r, es, s) && EnvOk(env) && DoneOk(env, d)
    requires t.live == RunDone(env, s.live, d) && t.selected == NewSelected(Wire(env, d))
    ensures LeadsTo(env, r, es + FedEntries(env, s.selected, Wire(env, d)), t)
  {
    hide FedEntries, Effects, RedoAll, DoneOk, RunDone, EnvOk, Wire;
    var more := FedEntries(env, s.selected, Wire(env, d));
    FlattenAppend(es, more);
    RedoAppend(env, r, Effects(es), Effects(more));
    DoneEffect(env, s.selected, d, RedoAll(env, r, Effects(es)));
  }

  lemma WriteIsCurrent<D(!new)>(env: Env<D>, empty: D, s: State<D>, d: Done)
    requires EnvOk(env) && DoneOk(env, d) && Current(env, empty, s) && s.aof.On?
    ensures Current(env, empty, Apply(env, empty, s, Write(d)))
  {
    hide FedEntries, LeadsTo, FedOk, EntryOk, File, Log, RunDone, EnvOk, DoneOk, Wire, BaseOk, Origin;
    var f := Wire(env, d);
    var es := FedEntries(env, s.selected, f);
    var t := Apply(env, empty, s, Write(d));
    FeedLeads(env, Origin(env, empty, s.base), s.log, s, t, d);
    WiredEffect(env, s.live, d);
    FedEntriesOk(env, s.selected, f);
    FileAppend(s.log, es);
    FedFile(env, s.selected, f);
    assert s.file + (s.buf + File(es)) == s.file + s.buf + File(es);
    assert s.base + (File(s.log) + File(es)) == s.base + File(s.log) + File(es);
  }

  lemma WriteIsBridged<D(!new)>(env: Env<D>, empty: D, s: State<D>, d: Done)
    requires EnvOk(env) && DoneOk(env, d) && Bridged(env, empty, s) && s.child.Child? && !s.aof.Off?
    ensures Bridged(env, empty, Apply(env, empty, s, Write(d)))
  {
    hide FedEntries, LeadsTo, FedOk, EntryOk, Log, RunDone, EnvOk, DoneOk, Wire, Rebuilds;
    var t := Apply(env, empty, s, Write(d));
    forall db: int ensures LeadsTo(env, Replayed(db, t.child.start), t.child.fed, t) {
      FeedLeads(env, Replayed(db, s.child.start), s.child.fed, s, t, d);
    }
    WiredEffect(env, s.live, d);
    FedEntriesOk(env, s.selected, Wire(env, d));
  }

  /** The difference starts with a SELECT, so it may follow the snapshot. */
  lemma BridgeLeads<D(!new)>(env: Env<D>, start: Replayed<D>, snapshot: seq<Entry>, fed: seq<Entry>, data: D, s: State<D>)
    requires RedoAll(env, start, Effects(snapshot)).data == data
    requires forall db: int :: LeadsTo(env, Replayed(db, data), fed, s)
    ensures LeadsTo(env, start, snapshot + fed, s)
  {
    hide Effects, RedoAll;
    var r := RedoAll(env, start, Effects(snapshot));
    assert LeadsTo(env, Replayed(r.db, data), fed, s);
    FlattenAppend(snapshot, fed);
    RedoAppend(env, start, Effects(snapshot), Effects(fed));
  }

  lemma InstallIsCurrent<D(!new)>(env: Env<D>, empty: D, s: State<D>)
    requires Bridged(env, empty, s) && Conserved(s) && Agreed(s) && s.child.Child? && s.child.phase.Succeeded?
    ensures Current(env, empty, Install(s))
  {
    hide Effects, RedoAll, EntryOk, File, Conserved, Agreed, BaseOk, Origin, LeadsTo;
    if !s.aof.Off? {
      var t := Install(s);
      InstalledFile(s);
      BridgeLeads(env, Origin(env, empty, s.child.rdb), s.child.snapshot, s.child.fed, s.child.start, s);
      SameLeads(env, empty, s, t);
    }
  }

  lemma InstalledFile<D>(s: State<D>)
    requires Conserved(s) && Agreed(s) && s.child.Child? && s.child.phase.Succeeded?
    ensures Install(s).file + [] == s.child.rdb + File(s.child.snapshot + s.child.fed)
    ensures |s.child.rdb| <= |Install(s).file|
  {
    hide File, Conserved, Agreed;
    InstalledBytes(s);
    FileAppend(s.child.snapshot, s.child.fed);
    Associates(s.child.rdb, File(s.child.snapshot), File(s.child.fed));
  }

  lemma Associates(a: Bytes, b: Bytes, c: Bytes)
    ensures a + b + c == a + (b + c)
  {
  }

  lemma InstalledBytes<D>(s: State<D>)
    requires Conserved(s) && Agreed(s) && s.child.Child? && s.child.phase.Succeeded?
    ensures Install(s).file == s.child.rdb + File(s.child.snapshot) + File(s.child.fed)
  {
    hide File;
    var written := s.child.rdb + File(s.child.snapshot);
    assert written + s.child.diff + s.blocks == written + (s.child.diff + [] + s.blocks);
  }

  ghost predicate Inv<D(!new)>(env: Env<D>, empty: D, s: State<D>) {
    Conserved(s) && Agreed(s) && Current(env, empty, s) && Bridged(env, empty, s)
  }

  lemma NothingLeads<D(!new)>(env: Env<D>, r: Replayed<D>, s: State<D>)
    requires s.selected == -1 && r.data == s.live
    ensures LeadsTo(env, r, [], s)
  {
  }

  /** LeadsTo looks only at the live dataset and the selected database. */
  lemma SameLeads<D(!new)>(env: Env<D>, empty: D, s: State<D>, t: State<D>)
    requires s.live == t.live && (t.selected == s.selected || t.selected == -1)
    ensures forall r, es :: LeadsTo(env, r, es, s) ==> LeadsTo(env, r, es, t)
  {
  }

  lemma StepIsCurrent<D(!new)>(env: Env<D>, empty: D, s: State<D>, step: Step)
    requires EnvOk(env) && Enabled(env, empty, s, step) && Inv(env, empty, s)
    ensures Current(env, empty, Apply(env, empty, s, step))
  {
    hide LeadsTo, DoneOk, EntryOk, EnvOk, File, Feed, RunDone, Wire, Rebuilds;
    hide Bridged, Conserved, Agreed, Install, BaseOk, Origin;
    var t := Apply(env, empty, s, step);
    match step
    case Write(d) =>
      if s.aof.On? {
        WriteIsCurrent(env, empty, s, d);
      } else {
        FeedIsNotOn(env, s.(live := RunDone(env, s.live, d)), Wire(env, d));
      }
    case Done(ok) =>
      if s.child.phase.Succeeded? && ok {
        InstallIsCurrent(env, empty, s);
        SameLeads(env, empty, Install(s), t);
      } else {
        SameLeads(env, empty, s, t);
      }
    case Flush(n) =>
      SameLeads(env, empty, s, t);
      assert s.file + s.buf[..n] + s.buf[n..] == s.file + s.buf;
    case _ => SameLeads(env, empty, s, t);
  }

  lemma FeedIsNotOn<D(!new)>(env: Env<D>, s: State<D>, f: Fed)
    ensures Feed(env, s, f).aof == s.aof
  {
  }

  lemma StepIsBridged<D(!new)>(env: Env<D>, empty: D, s: State<D>, step: Step)
    requires EnvOk(env) && Enabled(env, empty, s, step) && Inv(env, empty, s)
    ensures Bridged(env, empty, Apply(env, empty, s, step))
  {
    hide LeadsTo, DoneOk, EntryOk, EnvOk, File, Feed, RunDone, Wire, Rebuilds, Current, Conserved, Agreed, Install;
    var t := Apply(env, empty, s, step);
    match step
    case Write(d) =>
      if s.child.Child? && !s.aof.Off? {
        WriteIsBridged(env, empty, s, d);
      } else {
        FeedKeepsNoChild(env, s.(live := RunDone(env, s.live, d)), Wire(env, d));
      }
    case Fork(_, _) =>
      forall db: int ensures LeadsTo(env, Replayed(db, t.child.start), t.child.fed, t) {
        NothingLeads(env, Replayed(db, t.child.start), t);
      }
    case Done(_) =>
    case _ => SameLeads(env, empty, s, t);
  }

  lemma FeedKeepsNoChild<D(!new)>(env: Env<D>, s: State<D>, f: Fed)
    ensures s.child.NoChild? ==> Feed(env, s, f).child.NoChild?
  {
  }

  lemma InvStep<D(!new)>(env: Env<D>, empty: D, s: State<D>, step: Step)
    requires EnvOk(env) && Enabled(env, empty, s, step) && Inv(env, empty, s)
    ensures Inv(env, empty, Apply(env, empty, s, step))
  {
    hide Conserved, Agreed, Current, Bridged, Apply, EnvOk, Enabled;
    StepConserves(env, empty, s, step);
    StepAgrees(env, empty, s, step);
    StepIsCurrent(env, empty, s, step);
    StepIsBridged(env, empty, s, step);
  }

  lemma InvInit<D(!new)>(env: Env<D>, empty: D, s: State<D>)
    requires Init(env, empty, s)
    ensures Inv(env, empty, s)
  {
    hide RedoAll, Effects, File, EntryOk;
  }

  lemma {:induction false} InvRun<D(!new)>(env: Env<D>, empty: D, run: seq<State<D>>, steps: seq<Step>, i: nat)
    requires EnvOk(env) && IsRun(env, empty, run, steps) && i < |run|
    ensures Inv(env, empty, run[i])
    decreases i
  {
    hide Inv, Apply, Enabled, EnvOk, Init;
    if i == 0 {
      InvInit(env, empty, run[0]);
    } else {
      InvRun(env, empty, run, steps, i - 1);
      InvStep(env, empty, run[i - 1], steps[i - 1]);
    }
  }

  // ---------------------------------------------------------------------------------------------------------
  // Over every run
  // ---------------------------------------------------------------------------------------------------------

  /** In every interleaving, what the child has read, what is in the pipe and what is still in the rewrite buffer are
      together the bytes fed since the fork, in order; and the file a successful rewrite installs is the snapshot
      followed by all of them. */
  lemma NothingIsLost<D(!new)>(env: Env<D>, empty: D, run: seq<State<D>>, steps: seq<Step>, i: nat)
    requires EnvOk(env) && IsRun(env, empty, run, steps) && i < |run| && run[i].child.Child?
    ensures var s := run[i];
            && s.child.diff + s.pipe + s.blocks == File(s.child.fed)
            && (s.child.phase.Succeeded? ==> Install(s).file == s.child.rdb + File(s.child.snapshot) + File(s.child.fed))
  {
    hide IsRun, File, Current, Bridged, EnvOk;
    InvRun(env, empty, run, steps, i);
    if run[i].child.phase.Succeeded? {
      InstalledBytes(run[i]);
    }
  }

  /** The dataset a server ends up with when it loads a file. */
  function LoadedData<D(!new)>(env: Env<D>, empty: D, file: Bytes): (data: Option<D>) {
    var o := Load(env.cfg, file);
    if !o.Loaded? then None
    else
      var base := if HasSnapshot(file) && env.cfg.preamble(file).Snapshot? && env.cfg.preamble(file).size <= |file|
                  then file[..env.cfg.preamble(file).size] else [];
      Some(RedoAll(env, Origin(env, empty, base), o.executed).data)
  }

  lemma LoadsLog<D(!new)>(env: Env<D>, empty: D, base: Bytes, es: seq<Entry>)
    requires BaseOk(env, base) && EntriesOk(env.cfg, es) && base + File(es) != []
    ensures LoadedData(env, empty, base + File(es)) == Some(RedoAll(env, Origin(env, empty, base), Effects(es)).data)
  {
    hide EntriesOk, Load, RedoAll, Effects, Log, Flatten;
    var file := base + File(es);
    if base == [] {
      assert file == File(es);
      RoundTrip(env.cfg, es);
      NoSignature(es);
    } else {
      RoundTripWithSnapshot(env.cfg, base, es);
      assert file[..5] == base[..5] && file[..|base|] == base;
    }
  }

  /** In every reachable state with the AOF on, a server that loads the file and the buffered bytes after it, at any time,
      has the live dataset, although a rewrite throws the buffer away. */
  lemma FileRebuildsDataset<D(!new)>(env: Env<D>, empty: D, run: seq<State<D>>, steps: seq<Step>, i: nat)
    requires EnvOk(env) && IsRun(env, empty, run, steps) && i < |run| && run[i].aof.On?
    requires run[i].file + run[i].buf != []
    ensures LoadedData(env, empty, run[i].file + run[i].buf) == Some(run[i].live)
  {
    hide IsRun, File, Conserved, Agreed, Bridged, EnvOk, EntriesOk, LoadedData, RedoAll, BaseOk, Origin;
    InvRun(env, empty, run, steps, i);
    LoadsLog(env, empty, run[i].base, run[i].log);
  }

  /** The file by itself, which a restart finds if the buffer was not written, loads to whole entries of that log. */
  lemma FlushedFileIsAPrefix<D(!new)>(env: Env<D>, empty: D, run: seq<State<D>>, steps: seq<Step>, i: nat)
    requires EnvOk(env) && IsRun(env, empty, run, steps) && i < |run| && run[i].aof.On? && run[i].file != []
    requires env.cfg.loadTruncated && env.cfg.truncates
    ensures var s := run[i];
            && |s.base| <= |s.file|
            && var o, m := Load(env.cfg, s.file), WholeEntries(s.log, |s.file| - |s.base|);
               o.Loaded? && o.executed == Effects(s.log[..m])
    ensures LeadsTo(env, Origin(env, empty, run[i].base), run[i].log, run[i])
  {
    hide IsRun, File, Conserved, Agreed, Bridged, EnvOk, EntriesOk, Load, RedoAll, LeadsTo, Kept, SnapshotOk, Origin;
    InvRun(env, empty, run, steps, i);
    var s := run[i];
    var k := |s.file| - |s.base|;
    assert (s.file + s.buf)[..|s.file|] == s.file;
    assert (s.base + File(s.log))[..|s.base| + k] == s.base + File(s.log)[..k];
    if s.base == [] {
      assert s.base + File(s.log)[..k] == File(s.log)[..k];
      Recovery(env.cfg, s.log, k);
    } else {
      RecoveryWithSnapshot(env.cfg, s.base, s.log, k);
    }
  }
}
