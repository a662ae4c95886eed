/** When a background rewrite of the append-only file can still succeed, and what it leaves behind when it does not. */
module AofProgress {
  import opened Basics
  import opened AofFormat
  import opened AofReplay
  import opened AofRecovery
  import opened AofFeed
  import opened AofPreamble
  import opened AofHandoff

  // ---------------------------------------------------------------------------------------------------------
  // The handshake
  // ---------------------------------------------------------------------------------------------------------

  /** Where the '!' bytes are: the child's is in flight until the parent reads it, the parent's until the child does. */
  ghost predicate Shaking<D>(s: State<D>) {
    s.child.Child? ==>
      match s.child.phase
      case Working => s.listening && s.toParent == 0 && s.toChild == 0
      case Asked => if s.listening then s.toParent == 1 && s.toChild == 0 else s.toParent == 0 && s.toChild <= 1
      case Failed => true
      case _ => !s.listening && s.toParent == 0 && s.toChild == 0
  }

  lemma StepShakes<D(!new)>(env: Env<D>, empty: D, s: State<D>, step: Step)
    requires Enabled(env, empty, s, step) && Shaking(s) && (s.child.NoChild? ==> s.toParent == 0 && s.toChild == 0)
    ensures Shaking(Apply(env, empty, s, step))
  {
    hide File, Log, FedEntries, ItemCommands, Calls, Rebuilds, DoneOk, RunDone, Wire;
  }

  lemma {:induction false} RunShakes<D(!new)>(env: Env<D>, empty: D, run: seq<State<D>>, steps: seq<Step>, i: nat)
    requires EnvOk(env) && IsRun(env, empty, run, steps) && i < |run|
    ensures Shaking(run[i])
    decreases i
  {
    hide Apply, Enabled, EnvOk, Shaking, Agreed, Current, Bridged;
    if i == 0 {
      NotShaking(run[0]);
    } else {
      RunShakes(env, empty, run, steps, i - 1);
      InvRun(env, empty, run, steps, i - 1);
      assert Enabled(env, empty, run[i - 1], steps[i - 1]) && run[i] == Apply(env, empty, run[i - 1], steps[i - 1]);
      StepShakes(env, empty, run[i - 1], steps[i - 1]);
    }
  }

  lemma NotShaking<D>(s: State<D>)
    requires s.child.NoChild?
    ensures Shaking(s)
  {
  }

  /** The child waits for an answer that was lost. */
  ghost predicate Deaf<D>(s: State<D>) {
    s.child.Child? && s.child.phase.Asked? && !s.listening && s.toChild == 0
  }

  /** The child gave up, or will. */
  ghost predicate Hopeless<D>(s: State<D>) { s.child.Child? && (s.child.phase.Failed? || Deaf(s)) }

  // ---------------------------------------------------------------------------------------------------------
  // Some steps from a state
  // ---------------------------------------------------------------------------------------------------------

  ghost predicate Possible<D(!new)>(env: Env<D>, empty: D, s: State<D>, steps: seq<Step>)
    decreases |steps|
  {
    steps == [] || (Enabled(env, empty, s, steps[0]) && Possible(env, empty, Apply(env, empty, s, steps[0]), steps[1..]))
  }

  ghost function Ends<D(!new)>(env: Env<D>, empty: D, s: State<D>, steps: seq<Step>): State<D>
    requires Possible(env, empty, s, steps)
    decreases |steps|
  {
    if steps == [] then s else Ends(env, empty, Apply(env, empty, s, steps[0]), steps[1..])
  }

  /** A step that does not end the child's life. */
  predicate LeavesChild(step: Step) { !step.Done? && !step.Kill? && !step.Enable? && !step.Disable? }

  /** What is left for the two processes to do. */
  function Rest(phase: Phase): seq<Step> {
    match phase
    case Working => [Ask, Answer(true), Hear, FinalRead, Finish, Done(true)]
    case Asked => [Hear, FinalRead, Finish, Done(true)]
    case Answered => [FinalRead, Finish, Done(true)]
    case Drained => [Finish, Done(true)]
    case Succeeded => [Done(true)]
    case Failed => []
  }

  function Script<D>(s: State<D>): seq<Step>
    requires s.child.Child?
  {
    if s.child.phase.Asked? && s.listening then [Answer(true)] + Rest(Asked) else Rest(s.child.phase)
  }

  lemma Unroll<D(!new)>(env: Env<D>, empty: D, s: State<D>, steps: seq<Step>, rest: seq<Step>)
    requires steps != [] && steps[1..] == rest && Enabled(env, empty, s, steps[0])
    requires Possible(env, empty, Apply(env, empty, s, steps[0]), rest)
    ensures Possible(env, empty, s, steps)
    ensures Ends(env, empty, s, steps) == Ends(env, empty, Apply(env, empty, s, steps[0]), rest)
  {
    hide Enabled, Apply;
  }

  /** The rewrite went through: the AOF is on if it was not off, and the file is the snapshot and all that was fed. */
  ghost predicate WentThrough<D>(s: State<D>, u: State<D>)
    requires s.child.Child?
  {
    && u.child.NoChild? && u.live == s.live && u.aof == (if s.aof.Off? then Off else On)
    && u.file == s.child.rdb + File(s.child.snapshot) + (s.child.diff + s.pipe + s.blocks)
    && (!s.aof.Off? ==> u.buf == [] && u.selected == -1 && u.base == s.child.rdb && u.log == s.child.snapshot + s.child.fed)
  }

  lemma DoneGoesThrough<D(!new)>(env: Env<D>, empty: D, s: State<D>)
    requires s.child.Child? && s.child.phase.Succeeded? && s.pipe == []
    ensures Possible(env, empty, s, [Done(true)]) && WentThrough(s, Ends(env, empty, s, [Done(true)]))
  {
    hide File;
    var u := Apply(env, empty, s, Done(true));
    assert [Done(true)][1..] == [];
    Unroll(env, empty, s, [Done(true)], []);
    assert s.child.rdb + File(s.child.snapshot) + (s.child.diff + [] + s.blocks)
           == s.child.rdb + File(s.child.snapshot) + s.child.diff + s.blocks;
  }

  /** A step of the two processes changes nothing that counts. */
  lemma StepGoesOn<D(!new)>(env: Env<D>, empty: D, s: State<D>, step: Step, rest: seq<Step>)
    requires s.child.Child? && Enabled(env, empty, s, step)
    requires step.Ask? || step.Answer? || step.Hear? || step.FinalRead? || step.Finish?
    requires var t := Apply(env, empty, s, step);
             Possible(env, empty, t, rest) && WentThrough(t, Ends(env, empty, t, rest))
    ensures Possible(env, empty, s, [step] + rest) && WentThrough(s, Ends(env, empty, s, [step] + rest))
  {
    hide File, Possible, Ends;
    assert ([step] + rest)[1..] == rest;
    Unroll(env, empty, s, [step] + rest, rest);
    if step.FinalRead? {
      assert s.child.diff + s.pipe + [] + s.blocks == s.child.diff + s.pipe + s.blocks;
    }
  }

  lemma {:induction false} ScriptGoesThrough<D(!new)>(env: Env<D>, empty: D, s: State<D>)
    requires s.child.Child? && Shaking(s) && Agreed(s) && !Hopeless(s)
    ensures Possible(env, empty, s, Script(s)) && WentThrough(s, Ends(env, empty, s, Script(s)))
    decreases match s.child.phase case Working => 6 case Asked => (if s.listening then 5 else 4) case Answered => 3
                                  case Drained => 2 case _ => 1
  {
    hide File, Possible, Ends, WentThrough;
    match s.child.phase
    case Working => ScriptNext(env, empty, s, Ask);
    case Asked => ScriptNext(env, empty, s, if s.listening then Answer(true) else Hear);
    case Answered => ScriptNext(env, empty, s, FinalRead);
    case Drained => ScriptNext(env, empty, s, Finish);
    case Succeeded => DoneGoesThrough(env, empty, s);
  }

  lemma {:induction false} ScriptNext<D(!new)>(env: Env<D>, empty: D, s: State<D>, step: Step)
    requires s.child.Child? && Shaking(s) && Agreed(s) && !Hopeless(s) && !s.child.phase.Succeeded?
    requires Script(s) != [] && step == Script(s)[0]
    ensures Possible(env, empty, s, Script(s)) && WentThrough(s, Ends(env, empty, s, Script(s)))
    decreases match s.child.phase case Working => 6 case Asked => (if s.listening then 5 else 4) case Answered => 3
                                  case Drained => 2 case _ => 1, 0
  {
    hide File, Possible, Ends, WentThrough;
    assert Enabled(env, empty, s, step);
    var t := Apply(env, empty, s, step);
    assert t.child.Child? && Shaking(t) && Agreed(t) && !Hopeless(t) && Script(s) == [step] + Script(t);
    ScriptGoesThrough(env, empty, t);
    StepGoesOn(env, empty, s, step, Script(t));
  }

  // ---------------------------------------------------------------------------------------------------------
  // Over every run
  // ---------------------------------------------------------------------------------------------------------

  /** As long as this child lives it never succeeds. */
  lemma {:induction false} HopelessStays<D(!new)>(env: Env<D>, empty: D, s: State<D>, steps: seq<Step>)
    requires Hopeless(s) && Possible(env, empty, s, steps) && forall step <- steps :: LeavesChild(step)
    ensures Hopeless(Ends(env, empty, s, steps))
    decreases |steps|
  {
    hide Enabled, Apply, Hopeless;
    if steps != [] {
      assert steps[0] in steps && forall x <- steps[1..] :: x in steps;
      HopelessStep(env, empty, s, steps[0]);
      HopelessStays(env, empty, Apply(env, empty, s, steps[0]), steps[1..]);
    }
  }

  lemma HopelessStep<D(!new)>(env: Env<D>, empty: D, s: State<D>, step: Step)
    requires Hopeless(s) && Enabled(env, empty, s, step) && LeavesChild(step)
    ensures Hopeless(Apply(env, empty, s, step))
  {
    hide File, Log, FedEntries, ItemCommands, Calls, Rebuilds, DoneOk, RunDone, Wire;
  }

  /** This child can bring the rewrite to an end from here. */
  ghost predicate CanSucceed<D(!new)>(env: Env<D>, empty: D, s: State<D>) {
    exists steps :: && Possible(env, empty, s, steps) && (forall step <- steps :: LeavesChild(step))
                    && Ends(env, empty, s, steps).child.Child? && Ends(env, empty, s, steps).child.phase.Succeeded?
  }

  /** In every reachable state a running rewrite can still go through if and only if the child has not failed and the parent's
      answer was not lost; and then, with no more writes, the file it installs is the snapshot followed by everything fed since
      the fork, and the AOF is on. */
  lemma RewriteCanFinish<D(!new)>(env: Env<D>, empty: D, run: seq<State<D>>, steps: seq<Step>, i: nat)
    requires EnvOk(env) && IsRun(env, empty, run, steps) && i < |run| && run[i].child.Child?
    ensures CanSucceed(env, empty, run[i]) <==> !Hopeless(run[i])
    ensures !Hopeless(run[i]) ==>
              var s := run[i];
              && Possible(env, empty, s, Script(s))
              && var u := Ends(env, empty, s, Script(s));
                 && WentThrough(s, u)
                 && u.file == s.child.rdb + File(s.child.snapshot) + File(s.child.fed)
  {
    hide IsRun, EnvOk, File, Possible, Ends, Shaking, Agreed, Current, Bridged, Script, Hopeless;
    var s := run[i];
    RunShakes(env, empty, run, steps, i);
    InvRun(env, empty, run, steps, i);
    if Hopeless(s) {
      forall more | Possible(env, empty, s, more) && (forall step <- more :: LeavesChild(step))
        ensures Hopeless(Ends(env, empty, s, more))
      {
        HopelessStays(env, empty, s, more);
      }
      NeverBoth(env, empty, s);
    } else {
      ScriptGoesThrough(env, empty, s);
      SucceedsFirst(env, empty, s);
    }
  }

  lemma NeverBoth<D(!new)>(env: Env<D>, empty: D, s: State<D>)
    requires forall more | Possible(env, empty, s, more) && (forall step <- more :: LeavesChild(step)) ::
               Hopeless(Ends(env, empty, s, more))
    ensures !CanSucceed(env, empty, s)
  {
    hide Possible, Ends;
  }

  /** The script without its last step. */
  lemma {:induction false} SucceedsFirst<D(!new)>(env: Env<D>, empty: D, s: State<D>)
    requires s.child.Child? && Shaking(s) && Agreed(s) && !Hopeless(s)
    ensures CanSucceed(env, empty, s)
    decreases match s.child.phase case Working => 6 case Asked => (if s.listening then 5 else 4) case Answered => 3
                                  case Drained => 2 case _ => 1
  {
    hide File, Possible, Ends, CanSucceed;
    if s.child.phase.Succeeded? {
      AlreadySucceeded(env, empty, s);
    } else {
      var step := Script(s)[0];
      assert Enabled(env, empty, s, step);
      var t := Apply(env, empty, s, step);
      assert t.child.Child? && Shaking(t) && Agreed(t) && !Hopeless(t);
      SucceedsFirst(env, empty, t);
      SucceedsLater(env, empty, s, step, t);
    }
  }

  lemma AlreadySucceeded<D(!new)>(env: Env<D>, empty: D, s: State<D>)
    requires s.child.Child? && s.child.phase.Succeeded?
    ensures CanSucceed(env, empty, s)
  {
    assert Possible(env, empty, s, []) && Ends(env, empty, s, []) == s;
  }

  lemma SucceedsLater<D(!new)>(env: Env<D>, empty: D, s: State<D>, step: Step, t: State<D>)
    requires Enabled(env, empty, s, step) && t == Apply(env, empty, s, step) && LeavesChild(step) && CanSucceed(env, empty, t)
    ensures CanSucceed(env, empty, s)
  {
    hide Enabled, Apply, Possible, Ends;
    var more :| && Possible(env, empty, t, more) && (forall x <- more :: LeavesChild(x))
                && Ends(env, empty, t, more).child.Child? && Ends(env, empty, t, more).child.phase.Succeeded?;
    assert ([step] + more)[1..] == more;
    Unroll(env, empty, s, [step] + more, more);
    assert Possible(env, empty, s, [step] + more);
  }

  // ---------------------------------------------------------------------------------------------------------
  // Rewrites that do not succeed, and switching the AOF on and off
  // ---------------------------------------------------------------------------------------------------------

  /** What a restart would find, and what the server goes on with. */
  ghost predicate SameLog<D>(s: State<D>, t: State<D>) {
    t.aof == s.aof && t.file == s.file && t.buf == s.buf && t.base == s.base && t.log == s.log && t.live == s.live
  }

  /** A rewrite that fails, is killed or cannot be installed leaves the file, the buffer and the dataset alone, and no child
      and no difference behind. */
  lemma FailureIsHarmless<D(!new)>(env: Env<D>, empty: D, s: State<D>, step: Step)
    requires Enabled(env, empty, s, step)
    requires step.Fail? || step.Kill? || (step.Done? && (s.child.phase.Failed? || !step.ok))
    ensures var t := Apply(env, empty, s, step);
            && SameLog(s, t)
            && (step.Fail? ==> t.child.Child? && t.child.phase.Failed?)
            && (!step.Fail? ==> t.child.NoChild? && t.blocks == [] && t.pipe == [] && !t.listening)
  {
  }

  /** Nothing the two processes do on the way touches the log, but for writing the buffer to the file. */
  lemma RewriteIsInvisible<D(!new)>(env: Env<D>, empty: D, s: State<D>, step: Step)
    requires Enabled(env, empty, s, step) && !step.Write? && !step.Done? && !step.Enable? && !step.Disable?
    ensures var t := Apply(env, empty, s, step);
            && t.aof == s.aof && t.live == s.live && t.base == s.base && t.log == s.log
            && t.file + t.buf == s.file + s.buf && s.file <= t.file
            && (!step.Flush? ==> t.file == s.file)
            && (step.Flush? ==> |t.file| == |s.file| + step.n)
  {
    hide Rebuilds, DoneOk;
    if step.Flush? {
      assert s.file + s.buf[..step.n] + s.buf[step.n..] == s.file + s.buf;
    }
  }

  /** Switching the AOF off writes out the buffer and ends a rewrite; what was on disk and in the buffer is the file then, and
      it loads to the dataset of that moment. */
  lemma DisabledFileIsComplete<D(!new)>(env: Env<D>, empty: D, run: seq<State<D>>, steps: seq<Step>, i: nat)
    requires EnvOk(env) && IsRun(env, empty, run, steps) && i < |steps| && steps[i].Disable?
    ensures var s, t := run[i], run[i + 1];
            && t.aof.Off? && t.buf == [] && t.selected == -1 && t.child.NoChild?
            && t.live == s.live && t.file == s.file + s.buf
            && (s.aof.On? && t.file != [] ==> LoadedData(env, empty, t.file) == Some(t.live))
  {
    hide File, EnvOk, LoadedData, Rebuilds, DoneOk, Init;
    assert Enabled(env, empty, run[i], steps[i]) && run[i + 1] == Apply(env, empty, run[i], steps[i]);
    if run[i].aof.On? && run[i].file + run[i].buf != [] {
      FileRebuildsDataset(env, empty, run, steps, i);
    }
  }

  /** Switching it on: nothing is appended to the old file until a rewrite has replaced it, and it is the only way on. */
  lemma OnlyARewriteSwitchesOn<D(!new)>(env: Env<D>, empty: D, s: State<D>, step: Step)
    requires Enabled(env, empty, s, step) && !s.aof.On?
    ensures var t := Apply(env, empty, s, step);
            && (t.aof.On? <==> s.aof.WaitRewrite? && step == Done(true) && s.child.phase.Succeeded?)
            && (s.aof.Off? && t.aof.WaitRewrite? <==> step.Enable?)
            && (step.Enable? ==> t.child.NoChild?)
            && (!(step == Done(true) && s.child.phase.Succeeded?) && !step.Disable? ==> t.file == s.file && t.buf == s.buf)
  {
    hide Rebuilds, DoneOk, RunDone, Wire, File, Log, FedEntries, ItemCommands;
  }

  /** A file of entries is replayed from an empty dataset, and one that begins with a snapshot from what that restores. */
  lemma LoadedFrom<D(!new)>(env: Env<D>, empty: D, rdb: Bytes, es: seq<Entry>)
    requires EntriesOk(env.cfg, es) && SnapshotOk(env.cfg, rdb)
    ensures File(es) != [] ==>
              LoadedData(env, empty, File(es)) == Some(RedoAll(env, Replayed(0, empty), Effects(es)).data)
    ensures LoadedData(env, empty, rdb + File(es)) == Some(RedoAll(env, Replayed(0, env.restore(rdb)), Effects(es)).data)
  {
    hide EntriesOk, LoadedData, RedoAll, Effects, File;
    assert rdb != [];
    LoadsLog(env, empty, rdb, es);
    assert [] + File(es) == File(es);
    if File(es) != [] { LoadsLog(env, empty, [], es); }
  }
}
