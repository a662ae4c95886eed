/** A cluster of nodes exchanging packets: any node may act at any time, packets may be delayed, reordered or lost
    without bound, and every packet but a vote may arrive more than once.
    The epoch invariant is proved here over every run. */
module ClusterRun {
  import opened Basics
  import opened ClusterNode

  datatype Vote = Vote(voter: NodeId, candidate: NodeId, epoch: nat)

  /** granted, counted and wins record what happened; no handler reads them. */
  datatype System = System(
    nodes: map<NodeId, Node>,
    net: set<Msg>,
    granted: set<Vote>,
    counted: set<Vote>,
    wins: set<(NodeId, nat)>)

  datatype Step =
    | SendPing(id: NodeId)
    | SendUpdate(id: NodeId, about: NodeId)
    | Deliver(id: NodeId, msg: Msg, clockOk: bool)
    | Reconfigure(id: NodeId, view: Node)
    | Schedule(id: NodeId, manual: bool)
    | Start(id: NodeId, manual: bool)
    | Win(id: NodeId, manual: bool)
    | Bump(id: NodeId)
    | SetConfigEpoch(id: NodeId, epoch: nat)

  function VoteOf(m: Msg): Vote
    requires m.body.Ack?
  {
    Vote(m.hdr.src, m.body.dst, m.hdr.currentEpoch)
  }

  /** Gossip, failure reports, role switches, slot rebinding and node removal change a node's view of the others,
      never an epoch it already recorded. New members start at config epoch zero. */
  ghost predicate SameEpochs(n: Node, n': Node) {
    && n' == n.(peers := n'.peers, owner := n'.owner)
    && n.me in n'.peers
    && forall p :: p in n'.peers ==>
         n'.peers[p].configEpoch == if p in n.peers then n.peers[p].configEpoch else 0
  }

  ghost predicate Enabled(s: System, step: Step) {
    && step.id in s.nodes
    && var n := s.nodes[step.id];
    && WellFormed(n)
    && match step
       case SendPing(_) => true
       case SendUpdate(_, about) => about in n.peers
       case Deliver(_, m, _) => m in s.net && m.hdr.src != n.me && (m.body.Ack? ==> m.body.dst == n.me)
       case Reconfigure(_, view) => SameEpochs(n, view)
       case Schedule(_, manual) => CanFailover(n, manual)
       case Start(_, manual) => CanFailover(n, manual) && !n.authSent
       case Win(_, manual) => CanFailover(n, manual) && n.authSent && NeededQuorum(n) <= n.authCount
       case Bump(_) => NeedsBump(n)
       case SetConfigEpoch(_, _) => n.peers.Keys == {n.me} && n.peers[n.me].configEpoch == 0
  }

  function Put(s: System, n: Node): System {
    s.(nodes := s.nodes[n.me := n])
  }

  function ApplyDeliver(s: System, n: Node, m: Msg, clockOk: bool): System
    requires WellFormed(n)
  {
    match m.body
    case Ping => Put(s, HandlePing(n, m.hdr))
    case Update(about, epoch) => Put(s, HandleUpdate(n, m.hdr, about, epoch))
    case Request(force) =>
      var s1 := Put(s, HandleRequest(n, m.hdr, force, clockOk));
      var n1 := ProcessHeader(n, m.hdr);
      if Grants(n1, m.hdr, force, clockOk) then
        s1.(net := s1.net + {Msg(BuildHeader(n1), Ack(m.hdr.src))},
            granted := s1.granted + {Vote(n.me, m.hdr.src, n1.currentEpoch)})
      else s1
    case Ack(_) =>
      var s1 := Put(s, HandleAck(n, m.hdr)).(net := s.net - {m});
      if CountsAck(ProcessHeader(n, m.hdr), m.hdr) then s1.(counted := s1.counted + {VoteOf(m)}) else s1
  }

  ghost function Apply(s: System, step: Step): System
    requires Enabled(s, step)
  {
    var n := s.nodes[step.id];
    match step
    case SendPing(_) => s.(net := s.net + {Msg(BuildHeader(n), Ping)})
    case SendUpdate(_, about) =>
      s.(net := s.net + {Msg(BuildHeader(n), Update(about, n.peers[about].configEpoch))})
    case Deliver(_, m, clockOk) => ApplyDeliver(s, n, m, clockOk)
    case Reconfigure(_, view) => Put(s, view)
    case Schedule(_, _) => Put(s, ScheduleElection(n))
    case Start(_, manual) =>
      var n1 := StartElection(n);
      Put(s, n1).(net := s.net + {Msg(BuildHeader(n1), Request(manual))})
    case Win(_, _) => Put(s, WinElection(n)).(wins := s.wins + {(n.me, n.authEpoch)})
    case Bump(_) => Put(s, TakeNextEpoch(n))
    case SetConfigEpoch(_, e) => Put(s, SetEpoch(n.(currentEpoch := Max(n.currentEpoch, e)), n.me, e))
  }

  /** Every step of the run can be taken where it is taken. */
  ghost predicate IsRun(s: System, steps: seq<Step>)
    decreases |steps|
  {
    steps == [] || (Enabled(s, steps[0]) && IsRun(Apply(s, steps[0]), steps[1..]))
  }

  ghost function Exec(s: System, steps: seq<Step>): System
    requires IsRun(s, steps)
    decreases |steps|
  {
    if steps == [] then s else Exec(Apply(s, steps[0]), steps[1..])
  }

  // ---------------------------------------------------------------------------------------------------------
  // Epoch invariant
  // ---------------------------------------------------------------------------------------------------------

  ghost predicate NodeEpochs(n: Node) {
    && WellFormed(n)
    && n.lastVoteEpoch <= n.currentEpoch
    && n.authEpoch <= n.currentEpoch
    && forall p :: p in n.peers ==> n.peers[p].configEpoch <= n.currentEpoch
  }

  ghost predicate MsgEpochs(m: Msg) {
    && m.hdr.configEpoch <= m.hdr.currentEpoch
    && (m.body.Update? ==> m.body.epoch <= m.hdr.currentEpoch)
  }

  ghost predicate EpochInv(s: System) {
    && (forall id :: id in s.nodes ==> s.nodes[id].me == id && NodeEpochs(s.nodes[id]))
    && (forall m :: m in s.net ==> MsgEpochs(m))
  }

  /** Epochs a node remembers never go back. A peer it forgot and met again is the exception. */
  ghost predicate EpochsGrow(n: Node, n': Node) {
    && n.currentEpoch <= n'.currentEpoch
    && n.lastVoteEpoch <= n'.lastVoteEpoch
    && n.authEpoch <= n'.authEpoch
    && forall p :: p in n.peers && p in n'.peers ==> n.peers[p].configEpoch <= n'.peers[p].configEpoch
  }

  /** n' may take n's place. */
  ghost predicate Advances(n: Node, n': Node) {
    n'.me == n.me && NodeEpochs(n') && EpochsGrow(n, n')
  }

  lemma HeaderAdvances(n: Node, h: Header)
    requires NodeEpochs(n) && h.configEpoch <= h.currentEpoch
    ensures Advances(n, ProcessHeader(n, h))
  {
  }

  lemma HandlersAdvance(n: Node, m: Msg, clockOk: bool)
    requires NodeEpochs(n) && MsgEpochs(m)
    ensures match m.body
            case Ping => Advances(n, HandlePing(n, m.hdr))
            case Request(force) => Advances(n, HandleRequest(n, m.hdr, force, clockOk))
            case Ack(_) => Advances(n, HandleAck(n, m.hdr))
            case Update(about, epoch) => Advances(n, HandleUpdate(n, m.hdr, about, epoch))
  {
    HeaderAdvances(n, m.hdr);
  }

  /** An update from a known node about a known one with a newer epoch makes that one a master of this epoch; any other
      changes nothing beyond what its header does; no other node's record is touched. */
  lemma UpdateExactly(n: Node, h: Header, about: NodeId, epoch: nat)
    requires NodeEpochs(n)
    ensures var n1, n' := ProcessHeader(n, h), HandleUpdate(n, h, about, epoch);
            && n'.peers.Keys == n.peers.Keys
            && n' == n1.(peers := n'.peers)
            && (forall p <- n.peers | p != about :: n'.peers[p] == n1.peers[p])
            && (about in n.peers && h.src in n.peers && n1.peers[about].configEpoch < epoch ==>
                  n'.peers[about] == Peer(true, if n1.peers[about].master then n1.peers[about].slaveOf else None,
                                          n1.peers[about].failed, epoch))
            && (about in n.peers && (h.src !in n.peers || epoch <= n1.peers[about].configEpoch) ==>
                  n'.peers[about] == n1.peers[about])
  {
  }

  /** Only node id moved, its epochs stayed in order and grew, and so are those of the packets it sent. */
  ghost predicate OrderlyStep(s: System, s': System, id: NodeId) {
    && id in s.nodes
    && s'.nodes.Keys == s.nodes.Keys
    && s'.nodes[id].me == id && NodeEpochs(s'.nodes[id]) && EpochsGrow(s.nodes[id], s'.nodes[id])
    && (forall i :: i in s.nodes && i != id ==> s'.nodes[i] == s.nodes[i])
    && (forall m :: m in s'.net && m !in s.net ==> MsgEpochs(m))
  }

  lemma OrderlyStepKeepsInv(s: System, s': System, id: NodeId)
    requires EpochInv(s) && OrderlyStep(s, s', id)
    ensures EpochInv(s')
    ensures forall i :: i in s.nodes ==> EpochsGrow(s.nodes[i], s'.nodes[i])
  {
  }

  lemma PutIsOrderly(s: System, n': Node, s': System)
    requires EpochInv(s) && n'.me in s.nodes && Advances(s.nodes[n'.me], n')
    requires s'.nodes == s.nodes[n'.me := n']
    requires forall m :: m in s'.net && m !in s.net ==> MsgEpochs(m)
    ensures OrderlyStep(s, s', n'.me)
  {
  }

  /** What the steps other than deliveries make of a node. */
  lemma LocalStepsAdvance(n: Node)
    requires NodeEpochs(n)
    ensures Advances(n, ScheduleElection(n)) && Advances(n, StartElection(n)) && Advances(n, TakeNextEpoch(n))
    ensures n.peers[n.me].slaveOf.Some? ==> Advances(n, WinElection(n))
    ensures forall view :: SameEpochs(n, view) ==> Advances(n, view)
  {
  }

  lemma SetEpochAdvances(n: Node, e: nat)
    requires NodeEpochs(n) && n.peers[n.me].configEpoch == 0
    ensures Advances(n, SetEpoch(n.(currentEpoch := Max(n.currentEpoch, e)), n.me, e))
  {
  }

  /** Headers carry epochs in order. */
  lemma HeaderIsOrderly(n: Node)
    requires NodeEpochs(n)
    ensures BuildHeader(n).configEpoch <= BuildHeader(n).currentEpoch == n.currentEpoch
  {
  }

  lemma SendIsOrderly(s: System, id: NodeId, m: Msg)
    requires EpochInv(s) && id in s.nodes && MsgEpochs(m)
    ensures OrderlyStep(s, s.(net := s.net + {m}), id)
  {
  }

  lemma LocalStepIsOrderly(s: System, step: Step)
    requires EpochInv(s) && Enabled(s, step) && !step.Deliver?
    ensures OrderlyStep(s, Apply(s, step), step.id)
  {
    hide OrderlyStep, Advances, NodeEpochs, BuildHeader, WinElection, TakeNextEpoch, SetEpoch, SameEpochs, SlotsOf;
    var n, s' := s.nodes[step.id], Apply(s, step);
    assert n.me == step.id && NodeEpochs(n);
    LocalStepsAdvance(n);
    HeaderIsOrderly(n);
    match step
    case SendPing(_) => SendIsOrderly(s, n.me, Msg(BuildHeader(n), Ping));
    case SendUpdate(_, about) =>
      RecordedIsOrderly(n, about);
      SendIsOrderly(s, n.me, Msg(BuildHeader(n), Update(about, n.peers[about].configEpoch)));
    case Reconfigure(_, view) =>
      SameNode(n, view);
      PutIsOrderly(s, view, s');
    case Schedule(_, _) => PutIsOrderly(s, ScheduleElection(n), s');
    case Start(_, _) =>
      StartedHeader(n);
      PutIsOrderly(s, StartElection(n), s');
    case Win(_, _) =>
      KeepsName(n);
      PutIsOrderly(s, WinElection(n), s');
    case Bump(_) =>
      KeepsName(n);
      PutIsOrderly(s, TakeNextEpoch(n), s');
    case SetConfigEpoch(_, e) =>
      var n1 := n.(currentEpoch := Max(n.currentEpoch, e));
      SetEpochAdvances(n, e);
      SetKeepsName(n1, e);
      PutIsOrderly(s, SetEpoch(n1, n.me, e), s');
  }

  lemma RecordedIsOrderly(n: Node, p: NodeId)
    requires NodeEpochs(n) && p in n.peers
    ensures n.peers[p].configEpoch <= n.currentEpoch
  {
  }

  lemma SameNode(n: Node, view: Node)
    requires SameEpochs(n, view)
    ensures view.me == n.me
  {
  }

  lemma StartedHeader(n: Node)
    requires NodeEpochs(n)
    ensures WellFormed(StartElection(n))
    ensures BuildHeader(StartElection(n)).configEpoch <= BuildHeader(StartElection(n)).currentEpoch
  {
  }

  lemma KeepsName(n: Node)
    requires WellFormed(n)
    ensures TakeNextEpoch(n).me == n.me
    ensures n.peers[n.me].slaveOf.Some? ==> WinElection(n).me == n.me
  {
  }

  lemma SetKeepsName(n: Node, e: nat)
    requires WellFormed(n)
    ensures SetEpoch(n, n.me, e).me == n.me
  {
  }

  lemma DeliverIsOrderly(s: System, n: Node, m: Msg, clockOk: bool)
    requires EpochInv(s) && n.me in s.nodes && s.nodes[n.me] == n && m in s.net
    ensures OrderlyStep(s, ApplyDeliver(s, n, m, clockOk), n.me)
  {
    HandlersAdvance(n, m, clockOk);
    var s' := ApplyDeliver(s, n, m, clockOk);
    match m.body
    case Ping => PutIsOrderly(s, HandlePing(n, m.hdr), s');
    case Update(about, epoch) => PutIsOrderly(s, HandleUpdate(n, m.hdr, about, epoch), s');
    case Ack(_) => PutIsOrderly(s, HandleAck(n, m.hdr), s');
    case Request(force) =>
      HeaderAdvances(n, m.hdr);
      PutIsOrderly(s, HandleRequest(n, m.hdr, force, clockOk), s');
  }

  lemma EpochInvStep(s: System, step: Step)
    requires EpochInv(s) && Enabled(s, step)
    ensures EpochInv(Apply(s, step))
    ensures OrderlyStep(s, Apply(s, step), step.id)
  {
    if step.Deliver? {
      DeliverIsOrderly(s, s.nodes[step.id], step.msg, step.clockOk);
    } else {
      LocalStepIsOrderly(s, step);
    }
    OrderlyStepKeepsInv(s, Apply(s, step), step.id);
  }

  /** No step of the run makes a node forget a peer. */
  ghost predicate NoRemoval(s: System, steps: seq<Step>)
    requires IsRun(s, steps)
    decreases |steps|
  {
    steps == [] ||
    (&& (steps[0].Reconfigure? ==> s.nodes[steps[0].id].peers.Keys <= steps[0].view.peers.Keys)
     && NoRemoval(Apply(s, steps[0]), steps[1..]))
  }

  lemma DeliverKeepsPeers(s: System, n: Node, m: Msg, clockOk: bool)
    requires WellFormed(n)
    ensures n.me in ApplyDeliver(s, n, m, clockOk).nodes
    ensures ApplyDeliver(s, n, m, clockOk).nodes[n.me].peers.Keys == n.peers.Keys
  {
    assert ProcessHeader(n, m.hdr).peers.Keys == n.peers.Keys;
    match m.body
    case Ping =>
    case Update(_, _) =>
    case Ack(_) =>
    case Request(_) =>
  }

  lemma StepKeepsPeers(s: System, step: Step)
    requires EpochInv(s) && Enabled(s, step)
    requires step.Reconfigure? ==> s.nodes[step.id].peers.Keys <= step.view.peers.Keys
    ensures forall id :: id in s.nodes && id in Apply(s, step).nodes ==>
              s.nodes[id].peers.Keys <= Apply(s, step).nodes[id].peers.Keys
  {
    EpochInvStep(s, step);
    if step.Deliver? {
      DeliverKeepsPeers(s, s.nodes[step.id], step.msg, step.clockOk);
    }
  }

  /** Over every run: no node records a config epoch above its own current epoch and no packet in flight carries one
      above the current epoch in its header. */
  lemma {:induction false} EpochInvRun(s: System, steps: seq<Step>)
    requires EpochInv(s) && IsRun(s, steps)
    ensures EpochInv(Exec(s, steps))
    ensures Exec(s, steps).nodes.Keys == s.nodes.Keys
    decreases |steps|
  {
    if steps != [] {
      EpochInvStep(s, steps[0]);
      EpochInvRun(Apply(s, steps[0]), steps[1..]);
    }
  }

  lemma GrowTransitive(a: Node, b: Node, c: Node)
    requires EpochsGrow(a, b) && EpochsGrow(b, c)
    ensures forall p :: p in a.peers && p in b.peers && p in c.peers ==>
              a.peers[p].configEpoch <= c.peers[p].configEpoch
    ensures a.peers.Keys <= b.peers.Keys ==> EpochsGrow(a, c)
  {
  }

  /** Over every run: a node's current epoch and its own config epoch never decrease, and unless nodes are removed
      no epoch any node remembers does. */
  lemma {:induction false} EpochsGrowRun(s: System, steps: seq<Step>, id: NodeId)
    requires EpochInv(s) && IsRun(s, steps) && id in s.nodes
    ensures EpochInv(Exec(s, steps)) && id in Exec(s, steps).nodes
    ensures s.nodes[id].currentEpoch <= Exec(s, steps).nodes[id].currentEpoch
    ensures s.nodes[id].peers[id].configEpoch <= Exec(s, steps).nodes[id].peers[id].configEpoch
    ensures NoRemoval(s, steps) ==>
              && s.nodes[id].peers.Keys <= Exec(s, steps).nodes[id].peers.Keys
              && EpochsGrow(s.nodes[id], Exec(s, steps).nodes[id])
    decreases |steps|
  {
    EpochInvRun(s, steps);
    if steps != [] {
      var s1 := Apply(s, steps[0]);
      EpochInvStep(s, steps[0]);
      assert EpochsGrow(s.nodes[id], s1.nodes[id]);
      EpochsGrowRun(s1, steps[1..], id);
      if NoRemoval(s, steps) {
        StepKeepsPeers(s, steps[0]);
        GrowTransitive(s.nodes[id], s1.nodes[id], Exec(s1, steps[1..]).nodes[id]);
      }
    }
  }
}
