/** What a won election is worth: the slots and the configuration epoch the winner takes, and when that epoch is newer than
    its old master's. */
module ClusterFailover {
  import opened Basics
  import opened ClusterNode
  import opened ClusterRun
  import opened ClusterElection

  // ---------------------------------------------------------------------------------------------------------
  // The slots
  // ---------------------------------------------------------------------------------------------------------

  /** Only a replica wins whose master has slots and failed, or a manual failover is under way. The winner is a master and
      has its own slots and its old master's; nobody else gains or loses one, and what it records of others stays. */
  lemma WinTakesSlots(s: System, step: Step)
    requires Enabled(s, step) && step.Win? && s.nodes[step.id].me == step.id
    ensures var n, id, s' := s.nodes[step.id], step.id, Apply(s, step);
            var n', gone := s'.nodes[id], n.peers[id].slaveOf.value;
            && !n.peers[id].master && (step.manual || n.peers[gone].failed) && SlotsOf(n, gone) != {}
            && id in n'.peers && n'.peers[id].master && n'.peers[id].slaveOf.None?
            && SlotsOf(n', id) == SlotsOf(n, id) + SlotsOf(n, gone)
            && (gone != id ==> SlotsOf(n', gone) == {})
            && (forall p | p != id && p != gone :: SlotsOf(n', p) == SlotsOf(n, p))
            && n'.owner.Keys == n.owner.Keys
            && n'.peers == n.peers[id := n'.peers[id]]
            && s'.nodes == s.nodes[id := n'] && s'.net == s.net
  {
  }

  // ---------------------------------------------------------------------------------------------------------
  // The epoch
  // ---------------------------------------------------------------------------------------------------------

  function Recorded(n: Node, p: NodeId): nat {
    if p in n.peers then n.peers[p].configEpoch else 0
  }

  /** An epoch that is beyond the election: for the node itself a greater one, for another node the same one too. */
  predicate Beyond(n: Node, p: NodeId, epoch: nat) {
    if p == n.me then n.authEpoch < epoch else n.authEpoch <= epoch
  }

  /** The step makes its node record an epoch of p that is beyond its election: a header or an update says so, or the node
      takes an epoch nobody granted. */
  ghost predicate Raises(s: System, step: Step, p: NodeId)
    requires Enabled(s, step)
  {
    var n := s.nodes[step.id];
    match step
    case Deliver(_, m, _) =>
      && m.hdr.src in n.peers
      && (|| (p == m.hdr.src && Beyond(n, p, m.hdr.configEpoch))
          || (m.body.Update? && p == m.body.about && p in n.peers && Beyond(n, p, m.body.epoch))
          || (m.body.Ping? && p == n.me && Collides(ProcessHeader(n, m.hdr), m.hdr)))
    case Bump(_) => p == n.me
    case SetConfigEpoch(_, e) => p == n.me && Beyond(n, p, e)
    case _ => false
  }

  predicate Forgets(step: Step, p: NodeId) { step.Reconfigure? && p !in step.view.peers }

  /** Since node id last started an election, or forgot p, it has recorded an epoch of p beyond that election. */
  ghost predicate Surpassed(s: System, steps: seq<Step>, id: NodeId, p: NodeId, was: bool)
    requires IsRun(s, steps)
    decreases |steps|
  {
    if steps == [] then was
    else Surpassed(Apply(s, steps[0]), steps[1..], id, p, StillSurpassed(s, steps[0], id, p, was))
  }

  ghost predicate StillSurpassed(s: System, step: Step, id: NodeId, p: NodeId, was: bool)
    requires Enabled(s, step)
  {
    if step.id != id then was else !step.Start? && !Forgets(step, p) && (was || Raises(s, step, p))
  }

  /** While an election is running, what is recorded of p is beyond it exactly if p has surpassed the node. */
  ghost predicate Level(n: Node, p: NodeId, surpassed: bool) {
    n.authSent ==> 0 < n.authEpoch && (Beyond(n, p, Recorded(n, p)) <==> surpassed)
  }

  /** What processing a header does to the level. */
  predicate Tells(n: Node, h: Header, p: NodeId) {
    h.src in n.peers && p == h.src && Beyond(n, p, h.configEpoch)
  }

  lemma HeaderLevel(n: Node, h: Header, p: NodeId, was: bool)
    requires NodeEpochs(n) && Level(n, p, was)
    ensures Level(ProcessHeader(n, h), p, was || Tells(n, h, p))
  {
  }

  lemma PingLevel(n: Node, h: Header, p: NodeId, was: bool)
    requires NodeEpochs(n) && Level(n, p, was) && h.configEpoch <= h.currentEpoch
    ensures Level(HandlePing(n, h), p,
                  was || Tells(n, h, p) || (h.src in n.peers && p == n.me && Collides(ProcessHeader(n, h), h)))
  {
    HeaderLevel(n, h, p, was);
    HeaderAdvances(n, h);
  }

  lemma UpdateLevel(n: Node, h: Header, about: NodeId, epoch: nat, p: NodeId, was: bool)
    requires NodeEpochs(n) && Level(n, p, was)
    ensures Level(HandleUpdate(n, h, about, epoch), p,
                  was || Tells(n, h, p) || (h.src in n.peers && p == about && p in n.peers && Beyond(n, p, epoch)))
  {
    HeaderLevel(n, h, p, was);
  }

  /** The level only depends on the epochs. */
  lemma SameLevel(n: Node, m: Node, p: NodeId, was: bool)
    requires Level(n, p, was) && m.me == n.me && m.authSent == n.authSent && m.authEpoch == n.authEpoch
    requires m.peers == n.peers
    ensures Level(m, p, was)
  {
  }

  lemma DeliverLevel(s: System, step: Step, p: NodeId, was: bool)
    requires EpochInv(s) && Enabled(s, step) && step.Deliver? && Level(s.nodes[step.id], p, was)
    ensures step.id in Apply(s, step).nodes && Level(Apply(s, step).nodes[step.id], p, was || Raises(s, step, p))
  {
    hide Grants, CountsAck, BuildHeader, Level, ProcessHeader, HandlePing, HandleUpdate, NodeEpochs, Collides, Beyond;
    var n, m := s.nodes[step.id], step.msg;
    assert NodeEpochs(n) && MsgEpochs(m) && n.me == step.id;
    HandlersAdvance(n, m, step.clockOk);
    HeaderAdvances(n, m.hdr);
    HeaderLevel(n, m.hdr, p, was);
    var n1, n' := ProcessHeader(n, m.hdr), Apply(s, step).nodes[step.id];
    match m.body
    case Ping => PingLevel(n, m.hdr, p, was);
    case Request(_) => SameLevel(n1, n', p, was || Tells(n, m.hdr, p));
    case Ack(_) => SameLevel(n1, n', p, was || Tells(n, m.hdr, p));
    case Update(about, epoch) => UpdateLevel(n, m.hdr, about, epoch, p, was);
  }

  lemma LocalLevel(s: System, step: Step, p: NodeId, was: bool)
    requires EpochInv(s) && Enabled(s, step) && !step.Deliver? && Level(s.nodes[step.id], p, was)
    ensures step.id in Apply(s, step).nodes
    ensures Level(Apply(s, step).nodes[step.id], p, StillSurpassed(s, step, step.id, p, was))
  {
    hide BuildHeader, SlotsOf;
    assert NodeEpochs(s.nodes[step.id]);
  }

  lemma StepLevel(s: System, step: Step, id: NodeId, p: NodeId, was: bool)
    requires EpochInv(s) && Enabled(s, step) && id in s.nodes && Level(s.nodes[id], p, was)
    ensures EpochInv(Apply(s, step)) && id in Apply(s, step).nodes
    ensures Level(Apply(s, step).nodes[id], p, StillSurpassed(s, step, id, p, was))
  {
    hide Level, Raises, Apply, Enabled, NodeEpochs;
    EpochInvStep(s, step);
    if step.id == id {
      if step.Deliver? {
        DeliverLevel(s, step, p, was);
      } else {
        LocalLevel(s, step, p, was);
      }
    }
  }

  lemma {:induction false} RunLevel(s: System, steps: seq<Step>, id: NodeId, p: NodeId, was: bool)
    requires EpochInv(s) && IsRun(s, steps) && id in s.nodes && Level(s.nodes[id], p, was)
    ensures EpochInv(Exec(s, steps)) && id in Exec(s, steps).nodes
    ensures Level(Exec(s, steps).nodes[id], p, Surpassed(s, steps, id, p, was))
    decreases |steps|
  {
    hide Level, StillSurpassed, EpochInv;
    if steps != [] {
      StepLevel(s, steps[0], id, p, was);
      RunLevel(Apply(s, steps[0]), steps[1..], id, p, StillSurpassed(s, steps[0], id, p, was));
    }
  }

  /** Over every run: the winner of epoch e takes e as its configuration epoch if and only if it took or was told no greater
      one of its own since it started the election; e is greater than the epoch of its old master if and only if it was told
      of none of the master's that is as great; and its headers announce that epoch with the slots of both. */
  lemma WinnerLeads(s: System, steps: seq<Step>, id: NodeId, manual: bool)
    requires Init(s) && IsRun(s, steps) && Enabled(Exec(s, steps), Win(id, manual))
    ensures id in Exec(s, steps).nodes
    ensures var n := Exec(s, steps).nodes[id];
            var n', e, gone := Apply(Exec(s, steps), Win(id, manual)).nodes[id], n.authEpoch, n.peers[n.me].slaveOf.value;
            && n.me == id && WellFormed(n') && (id, e) in Apply(Exec(s, steps), Win(id, manual)).wins
            && (n'.peers[id].configEpoch == e <==> !Surpassed(s, steps, id, id, false))
            && (gone != id ==> (n'.peers[gone].configEpoch < e <==> !Surpassed(s, steps, id, gone, false)))
            && BuildHeader(n')
               == Header(id, n.currentEpoch, n'.peers[id].configEpoch, SlotsOf(n, id) + SlotsOf(n, gone))
  {
    hide IsRun, Exec, Surpassed, SlotsOf;
    Starts(s, steps, id);
    RunLevel(s, steps, id, id, false);
    var t := Exec(s, steps);
    var gone := t.nodes[id].peers[id].slaveOf.value;
    RunLevel(s, steps, id, gone, false);
    WinTakesSlots(t, Win(id, manual));
  }

  /** Nobody joins during a run, and nobody has an election running when it begins. */
  lemma Starts(s: System, steps: seq<Step>, id: NodeId)
    requires Init(s) && IsRun(s, steps) && id in Exec(s, steps).nodes
    ensures id in s.nodes && !s.nodes[id].authSent
  {
    hide EpochInv;
    SameMembers(s, steps);
  }

  lemma {:induction false} SameMembers(s: System, steps: seq<Step>)
    requires EpochInv(s) && IsRun(s, steps)
    ensures EpochInv(Exec(s, steps)) && Exec(s, steps).nodes.Keys == s.nodes.Keys && s.wins <= Exec(s, steps).wins
    decreases |steps|
  {
    hide EpochInv, Enabled, Apply;
    if steps != [] {
      EpochInvStep(s, steps[0]);
      WinsStay(s, steps[0]);
      SameMembers(Apply(s, steps[0]), steps[1..]);
    }
  }

  lemma WinsStay(s: System, step: Step)
    requires Enabled(s, step)
    ensures s.wins <= Apply(s, step).wins
  {
    hide Grants, CountsAck, BuildHeader, SlotsOf, ProcessHeader, CanFailover;
  }

  // ---------------------------------------------------------------------------------------------------------
  // Two winners
  // ---------------------------------------------------------------------------------------------------------

  lemma {:induction false} RunAppend(s: System, a: seq<Step>, b: seq<Step>)
    ensures IsRun(s, a + b) <==> IsRun(s, a) && IsRun(Exec(s, a), b)
    ensures IsRun(s, a + b) ==> Exec(s, a + b) == Exec(Exec(s, a), b)
    decreases |a|
  {
    hide Enabled, Apply;
    if a == [] {
      assert a + b == b;
    } else {
      assert (a + b)[1..] == a[1..] + b;
      if Enabled(s, a[0]) { RunAppend(Apply(s, a[0]), a[1..], b); }
    }
  }

  lemma RunOne(s: System, step: Step)
    requires Enabled(s, step)
    ensures IsRun(s, [step]) && Exec(s, [step]) == Apply(s, step)
  {
    hide Enabled, Apply;
    assert [step][1..] == [];
  }

  /** Two replicas that win in one run win different epochs; and neither having taken or been told a greater epoch of its own
      meanwhile, they take different configuration epochs. */
  lemma WinnersDiffer(s: System, a: seq<Step>, w1: Step, b: seq<Step>, w2: Step, voters: set<NodeId>)
    requires Init(s) && w1.Win? && w2.Win? && w1.id != w2.id
    requires IsRun(s, a + [w1] + b + [w2]) && SafeRun(s, a + [w1] + b + [w2], voters)
    ensures IsRun(s, a) && Enabled(Exec(s, a), w1) && IsRun(s, a + [w1] + b) && Enabled(Exec(s, a + [w1] + b), w2)
    ensures var t, u := Exec(s, a), Exec(s, a + [w1] + b);
            && t.nodes[w1.id].authEpoch != u.nodes[w2.id].authEpoch
            && (!Surpassed(s, a, w1.id, w1.id, false) && !Surpassed(s, a + [w1] + b, w2.id, w2.id, false) ==>
                  Recorded(Apply(t, w1).nodes[w1.id], w1.id) != Recorded(Apply(u, w2).nodes[w2.id], w2.id))
  {
    hide IsRun, Exec, Enabled, Apply, SafeRun, Surpassed, Init;
    var before := a + [w1] + b;
    SplitRun(s, a, w1, b, w2);
    var t, u, end := Exec(s, a), Exec(s, before), Exec(s, before + [w2]);
    WinnerLeads(s, a, w1.id, w1.manual);
    WinnerLeads(s, before, w2.id, w2.manual);
    ElectionSafety(s, before + [w2], voters);
    WinsKept(s, a, w1, b, w2);
    var x, y := (w1.id, t.nodes[w1.id].authEpoch), (w2.id, u.nodes[w2.id].authEpoch);
    assert x in end.wins && y in end.wins;
    assert x.1 == y.1 ==> x.0 == y.0;
  }

  lemma SplitRun(s: System, a: seq<Step>, w1: Step, b: seq<Step>, w2: Step)
    requires IsRun(s, a + [w1] + b + [w2])
    ensures IsRun(s, a) && Enabled(Exec(s, a), w1) && IsRun(s, a + [w1] + b) && Enabled(Exec(s, a + [w1] + b), w2)
    ensures IsRun(Apply(Exec(s, a), w1), b) && Exec(s, a + [w1] + b) == Exec(Apply(Exec(s, a), w1), b)
    ensures Exec(s, a + [w1] + b + [w2]) == Apply(Exec(s, a + [w1] + b), w2)
  {
    hide Enabled, Apply;
    RunAppend(s, a + [w1] + b, [w2]);
    RunAppend(s, a + [w1], b);
    RunAppend(s, a, [w1]);
    RunOne(Exec(s, a), w1);
    RunOne(Exec(s, a + [w1] + b), w2);
  }

  lemma WinsKept(s: System, a: seq<Step>, w1: Step, b: seq<Step>, w2: Step)
    requires Init(s) && IsRun(s, a) && Enabled(Exec(s, a), w1) && IsRun(Apply(Exec(s, a), w1), b)
    requires Enabled(Exec(Apply(Exec(s, a), w1), b), w2)
    ensures Apply(Exec(s, a), w1).wins <= Apply(Exec(Apply(Exec(s, a), w1), b), w2).wins
  {
    hide Enabled, Apply, IsRun, Exec, EpochInv;
    SameMembers(s, a);
    var t := Apply(Exec(s, a), w1);
    EpochInvStep(Exec(s, a), w1);
    SameMembers(t, b);
    WinsStay(Exec(t, b), w2);
  }

  // ---------------------------------------------------------------------------------------------------------
  // The votes behind a win
  // ---------------------------------------------------------------------------------------------------------

  /** As node n sees it, n serves slots, the sender is a replica of a master that failed, or a manual failover asks for it,
      and no slot the sender claims has an owner with a newer epoch than the claim. */
  ghost predicate Endorses(n: Node, h: Header, force: bool) {
    && n.me in n.peers && n.peers[n.me].master && (exists j :: j in n.owner && n.owner[j] == n.me)
    && h.src in n.peers && !n.peers[h.src].master
    && (exists m :: n.peers[h.src].slaveOf == Some(m) && m in n.peers && (force || n.peers[m].failed))
    && forall j, p | j in h.slots && j in n.owner && n.owner[j] == p && p in n.peers :: Recorded(n, p) <= h.configEpoch
  }

  /** A master answers a request with its vote if and only if it endorses the sender, has not seen a newer epoch, has not
      voted in this one, and its clock lets it. */
  lemma VoteExactly(n: Node, h: Header, force: bool, clockOk: bool)
    requires NodeEpochs(n) && h.src in n.peers
    ensures var n1 := ProcessHeader(n, h);
            Grants(n1, h, force, clockOk)
            <==> Endorses(n1, h, force) && clockOk && n.currentEpoch <= h.currentEpoch && n.lastVoteEpoch < h.currentEpoch
  {
    var n1 := ProcessHeader(n, h);
    if Endorses(n1, h, force) {
      var j :| j in n1.owner && n1.owner[j] == n1.me;
      assert j in SlotsOf(n1, n1.me);
    }
    if Grants(n1, h, force, clockOk) {
      var j :| j in SlotsOf(n1, n1.me);
      assert j in n1.owner && n1.owner[j] == n1.me;
    }
  }

  /** A candidate counts an ACK if and only if its sender serves slots as a master, as the candidate sees it, and has heard of
      the election. */
  lemma CountsExactly(n: Node, h: Header)
    requires NodeEpochs(n)
    ensures var n' := HandleAck(n, h);
            && n'.authCount == n.authCount + (if n'.authCount == n.authCount then 0 else 1)
            && (n'.authCount != n.authCount <==>
                  && h.src in n.peers && n.peers[h.src].master && (exists j :: j in n.owner && n.owner[j] == h.src)
                  && n.authEpoch <= h.currentEpoch)
  {
    var n1 := ProcessHeader(n, h);
    if j :| j in n.owner && n.owner[j] == h.src {
      assert j in SlotsOf(n1, h.src);
    }
    if SlotsOf(n1, h.src) != {} {
      var j :| j in SlotsOf(n1, h.src);
      assert j in n.owner && n.owner[j] == h.src;
    }
  }

  /** At step i of the run the voter endorsed the candidate's request for this epoch. */
  ghost predicate CastAt(s: System, steps: seq<Step>, v: Vote, i: nat)
    requires i < |steps| && IsRun(s, steps[..i])
  {
    var t, step := Exec(s, steps[..i]), steps[i];
    && step.Deliver? && step.id == v.voter && step.msg.body.Request?
    && step.msg.hdr.src == v.candidate && step.msg.hdr.currentEpoch == v.epoch
    && v.voter in t.nodes && Endorses(ProcessHeader(t.nodes[v.voter], step.msg.hdr), step.msg.hdr, step.msg.body.forceAck)
  }

  ghost predicate Cast(s: System, steps: seq<Step>, v: Vote) {
    exists i: nat :: i < |steps| && IsRun(s, steps[..i]) && CastAt(s, steps, v, i)
  }

  lemma CastStays(s: System, steps: seq<Step>, v: Vote)
    requires steps != [] && Cast(s, steps[..|steps| - 1], v)
    ensures Cast(s, steps, v)
  {
    hide IsRun, Exec, Endorses;
    var before := steps[..|steps| - 1];
    var i: nat :| i < |before| && IsRun(s, before[..i]) && CastAt(s, before, v, i);
    assert before[..i] == steps[..i];
    assert CastAt(s, steps, v, i);
  }

  /** A step adds a vote only by answering a request that the voter endorses. */
  lemma GrantedBy(s: System, step: Step, v: Vote)
    requires EpochInv(s) && Enabled(s, step) && v in Apply(s, step).granted && v !in s.granted
    ensures step.Deliver? && step.id == v.voter && step.msg.body.Request? && v.voter in s.nodes
    ensures step.msg.hdr.src == v.candidate && step.msg.hdr.currentEpoch == v.epoch
    ensures Endorses(ProcessHeader(s.nodes[v.voter], step.msg.hdr), step.msg.hdr, step.msg.body.forceAck)
  {
    hide CountsAck, BuildHeader, SlotsOf, CanFailover, Endorses, ProcessHeader, WinElection, TakeNextEpoch, SetEpoch;
    var n := s.nodes[step.id];
    assert NodeEpochs(n) && n.me == step.id;
    if step.Deliver? && step.msg.body.Request? {
      var h, force := step.msg.hdr, step.msg.body.forceAck;
      assert MsgEpochs(step.msg);
      HeaderAdvances(n, h);
      assert Grants(ProcessHeader(n, h), h, force, step.clockOk);
      KnowsSender(n, h, force, step.clockOk);
      VoteExactly(n, h, force, step.clockOk);
      HeardEpoch(n, h);
    }
  }

  lemma KnowsSender(n: Node, h: Header, force: bool, clockOk: bool)
    requires NodeEpochs(n) && WellFormed(ProcessHeader(n, h)) && Grants(ProcessHeader(n, h), h, force, clockOk)
    ensures h.src in n.peers
  {
    hide SlotsOf;
  }

  lemma HeardEpoch(n: Node, h: Header)
    requires h.src in n.peers && n.currentEpoch <= h.currentEpoch
    ensures ProcessHeader(n, h).currentEpoch == h.currentEpoch
  {
  }

  lemma {:induction false} GrantedIsCast(s: System, steps: seq<Step>, v: Vote)
    requires Init(s) && IsRun(s, steps) && v in Exec(s, steps).granted
    ensures Cast(s, steps, v)
    decreases |steps|
  {
    hide IsRun, Exec, Enabled, Apply, EpochInv, Cast;
    if steps == [] {
      ExecNone(s);
    } else {
      var before, step := steps[..|steps| - 1], steps[|steps| - 1];
      assert steps == before + [step];
      RunAppend(s, before, [step]);
      var t := Exec(s, before);
      OneStep(t, step);
      if v in t.granted {
        GrantedIsCast(s, before, v);
        CastStays(s, steps, v);
      } else {
        SameMembers(s, before);
        GrantedBy(t, step, v);
        CastNow(s, before, step, v);
      }
    }
  }

  lemma ExecNone(s: System)
    ensures IsRun(s, []) && Exec(s, []) == s
  {
  }

  lemma OneStep(s: System, step: Step)
    requires IsRun(s, [step])
    ensures Enabled(s, step) && Exec(s, [step]) == Apply(s, step)
  {
    hide Enabled, Apply;
    assert [step][1..] == [];
  }

  lemma CastNow(s: System, before: seq<Step>, step: Step, v: Vote)
    requires IsRun(s, before)
    requires step.Deliver? && step.id == v.voter && step.msg.body.Request?
    requires step.msg.hdr.src == v.candidate && step.msg.hdr.currentEpoch == v.epoch
    requires v.voter in Exec(s, before).nodes
    requires Endorses(ProcessHeader(Exec(s, before).nodes[v.voter], step.msg.hdr), step.msg.hdr, step.msg.body.forceAck)
    ensures Cast(s, before + [step], v)
  {
    hide IsRun, Exec, Endorses;
    var steps, i := before + [step], |before|;
    assert steps[..i] == before;
    assert CastAt(s, steps, v, i);
  }

  lemma InitInv(s: System, voters: set<NodeId>)
    requires Init(s)
    ensures ElectionInv(s, voters)
  {
  }

  /** Behind every win stands a majority of the voters, each of which endorsed the winner when it voted for it in this
      epoch. */
  lemma WinIsEndorsed(s: System, steps: seq<Step>, voters: set<NodeId>, w: (NodeId, nat)) returns (majority: set<NodeId>)
    requires Init(s) && IsRun(s, steps) && SafeRun(s, steps, voters) && w in Exec(s, steps).wins
    ensures majority <= voters && |voters| / 2 + 1 <= |majority|
    ensures forall x <- majority :: Cast(s, steps, Vote(x, w.0, w.1))
  {
    hide IsRun, Exec, SafeRun, Cast, EpochInv, OneVotePerEpoch, HonestCounts, AcksKnown, RequestsKnown;
    InitInv(s, voters);
    ElectionInvRun(s, steps, voters);
    var t := Exec(s, steps);
    var tally := Tally(t, w.0, w.1);
    VotersOfTally(tally, w.0, w.1, voters);
    majority := set v | v in tally :: v.voter;
    forall x <- majority ensures Cast(s, steps, Vote(x, w.0, w.1)) {
      var v :| v in tally && v.voter == x;
      GrantedIsCast(s, steps, v);
    }
  }
}
