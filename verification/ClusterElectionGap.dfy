/** Why the election theorem asks that no stale ACK is counted: a run with two winners in one epoch.
    It is not enough that no ACK is in flight whenever an attempt is scheduled: a delayed vote request of the earlier
    attempt may still be answered afterwards, and that ACK passes the epoch test until the next attempt starts. */
module ClusterElectionGap {
  import opened Basics
  import opened ClusterNode
  import opened ClusterRun
  import opened ClusterElection

  /** The run meets the fixed-voters environment and finds no ACK in flight at any scheduling of an election. */
  ghost predicate QuietAtSchedule(s: System, steps: seq<Step>, voters: set<NodeId>)
    requires IsRun(s, steps)
    decreases |steps|
  {
    steps == [] ||
    (&& FixedVoters(s, steps[0], voters)
     && (steps[0].Schedule? ==> forall m :: m in s.net ==> !m.body.Ack?)
     && QuietAtSchedule(Apply(s, steps[0]), steps[1..], voters))
  }

  lemma {:induction false} ExtendRun(s: System, steps: seq<Step>, step: Step, voters: set<NodeId>)
    requires IsRun(s, steps) && QuietAtSchedule(s, steps, voters)
    requires Enabled(Exec(s, steps), step) && FixedVoters(Exec(s, steps), step, voters)
    requires step.Schedule? ==> forall m :: m in Exec(s, steps).net ==> !m.body.Ack?
    ensures IsRun(s, steps + [step]) && QuietAtSchedule(s, steps + [step], voters)
    ensures Exec(s, steps + [step]) == Apply(Exec(s, steps), step)
    decreases |steps|
  {
    if steps == [] {
      assert [step][1..] == [];
    } else {
      ExtendRun(Apply(s, steps[0]), steps[1..], step, voters);
      assert (steps + [step])[1..] == steps[1..] + [step];
    }
  }

  // Three masters 0, 1 and 2 with one slot each, a replica 3 of node 0 and a replica 4 of node 1.

  function PeerOf(id: NodeId): Peer {
    if id == 3 then Peer(false, Some(0), false, 0)
    else if id == 4 then Peer(false, Some(1), false, 0)
    else Peer(true, None, false, 0)
  }

  const Peers: map<NodeId, Peer> := map id: NodeId | 0 <= id <= 4 :: PeerOf(id)

  const Owner: map<Slot, NodeId> := map j: Slot | 0 <= j <= 2 :: j

  function N(id: NodeId, current: nat, voted: nat, authEpoch: nat, count: nat, sent: bool): Node {
    Node(id, current, voted, authEpoch, count, sent, Peers, Owner)
  }

  function H(id: NodeId, e: nat): Header {
    Header(id, e, 0, {if id == 3 then 0 else if id == 4 then 1 else id})
  }

  lemma Quorum(n: Node)
    requires n.peers == Peers && n.owner == Owner
    ensures |ServingMasters(n)| == 3
  {
    assert n.owner[0] == 0 && n.owner[1] == 1 && n.owner[2] == 2;
    assert ServingMasters(n) == {0, 1, 2};
  }

  lemma OwnSlots(n: Node, k: NodeId)
    requires n.owner == Owner && k <= 2
    ensures SlotsOf(n, k) == {k}
  {
  }

  lemma Announces(n: Node)
    requires n.peers == Peers && n.owner == Owner && n.me <= 4
    ensures BuildHeader(n) == H(n.me, n.currentEpoch)
  {
    OwnSlots(n, Announced(n));
  }

  lemma Hears(n: Node, h: Header)
    requires n.peers == Peers && h.src <= 4 && h.configEpoch == 0
    ensures ProcessHeader(n, h) == n.(currentEpoch := Max(n.currentEpoch, h.currentEpoch))
  {
    assert Peers[h.src := Peers[h.src].(configEpoch := 0)] == Peers;
  }

  lemma MasterVotes(n: Node, c: NodeId, e: nat)
    requires n.peers == Peers && n.owner == Owner && n.me <= 2 && 3 <= c <= 4
    requires n.currentEpoch <= e && n.lastVoteEpoch < e
    ensures Grants(n.(currentEpoch := e), H(c, e), true, true)
  {
    OwnSlots(n.(currentEpoch := e), n.me);
  }

  lemma ReplicaStays(n: Node, c: NodeId, e: nat)
    requires n.peers == Peers && 3 <= n.me <= 4
    ensures !Grants(n, H(c, e), true, true)
  {
  }

  lemma ReplicaCounts(n: Node, k: NodeId, e: nat)
    requires n.peers == Peers && n.owner == Owner && k <= 2 && n.authEpoch <= e
    ensures CountsAck(n, H(k, e))
  {
    OwnSlots(n, k);
  }

  lemma ReplicaMayFailover(n: Node)
    requires n.peers == Peers && n.owner == Owner && 3 <= n.me <= 4
    ensures CanFailover(n, true)
  {
    OwnSlots(n, n.me - 3);
  }

  const Voters: set<NodeId> := {0, 1, 2}

  function R(c: NodeId, e: nat): Msg { Msg(H(c, e), Request(true)) }

  function A(k: NodeId, c: NodeId, e: nat): Msg { Msg(H(k, e), Ack(c)) }

  ghost predicate Uniform(s: System) {
    && s.nodes.Keys == {0, 1, 2, 3, 4}
    && forall id :: id in s.nodes ==>
         s.nodes[id].me == id && s.nodes[id].peers == Peers && s.nodes[id].owner == Owner
  }

  /** s is reached from s0 by a run that meets the environment and the weaker condition on ACKs. */
  ghost predicate Reached(s0: System, s: System) {
    exists steps :: IsRun(s0, steps) && QuietAtSchedule(s0, steps, Voters) && Exec(s0, steps) == s
  }

  lemma TakeStep(s0: System, s: System, step: Step)
    requires Reached(s0, s) && Enabled(s, step) && FixedVoters(s, step, Voters)
    requires step.Schedule? ==> forall m :: m in s.net ==> !m.body.Ack?
    ensures Reached(s0, Apply(s, step))
  {
    var steps :| IsRun(s0, steps) && QuietAtSchedule(s0, steps, Voters) && Exec(s0, steps) == s;
    ExtendRun(s0, steps, step, Voters);
  }

  lemma Vote(s0: System, s: System, k: NodeId, c: NodeId, e: nat) returns (s': System)
    requires Reached(s0, s) && Uniform(s) && k <= 2 && 3 <= c <= 4 && R(c, e) in s.net
    requires s.nodes[k].currentEpoch <= e && s.nodes[k].lastVoteEpoch < e
    ensures s' == s.(nodes := s.nodes[k := s.nodes[k].(currentEpoch := e, lastVoteEpoch := e)],
                     net := s.net + {A(k, c, e)}, granted := s.granted + {ClusterRun.Vote(k, c, e)})
    ensures Reached(s0, s') && Uniform(s')
  {
    hide Reached;
    var n, step := s.nodes[k], Deliver(k, R(c, e), true);
    Hears(n, H(c, e));
    MasterVotes(n, c, e);
    Announces(n.(currentEpoch := e));
    s' := Apply(s, step);
    TakeStep(s0, s, step);
  }

  lemma Count(s0: System, s: System, c: NodeId, k: NodeId, e: nat) returns (s': System)
    requires Reached(s0, s) && Uniform(s) && k <= 2 && 3 <= c <= 4 && A(k, c, e) in s.net
    requires s.nodes[c].authEpoch <= e && e <= s.nodes[c].currentEpoch
    ensures s' == s.(nodes := s.nodes[c := s.nodes[c].(authCount := s.nodes[c].authCount + 1)],
                     net := s.net - {A(k, c, e)}, counted := s.counted + {ClusterRun.Vote(k, c, e)})
    ensures Reached(s0, s') && Uniform(s')
  {
    hide Reached;
    var n, step := s.nodes[c], Deliver(c, A(k, c, e), true);
    Hears(n, H(k, e));
    ReplicaCounts(n, k, e);
    s' := Apply(s, step);
    TakeStep(s0, s, step);
  }

  lemma Begin(s0: System, s: System, c: NodeId) returns (s': System)
    requires Reached(s0, s) && Uniform(s) && 3 <= c <= 4 && !s.nodes[c].authSent
    ensures s' == s.(nodes := s.nodes[c := StartElection(s.nodes[c])],
                     net := s.net + {R(c, s.nodes[c].currentEpoch + 1)})
    ensures Reached(s0, s') && Uniform(s')
  {
    hide Reached;
    var n, step := s.nodes[c], Start(c, true);
    ReplicaMayFailover(n);
    Announces(StartElection(n));
    s' := Apply(s, step);
    TakeStep(s0, s, step);
  }

  lemma Retry(s0: System, s: System, c: NodeId) returns (s': System)
    requires Reached(s0, s) && Uniform(s) && 3 <= c <= 4
    requires forall m :: m in s.net ==> !m.body.Ack?
    ensures s' == s.(nodes := s.nodes[c := ScheduleElection(s.nodes[c])])
    ensures Reached(s0, s') && Uniform(s')
  {
    hide Reached;
    var step := Schedule(c, true);
    ReplicaMayFailover(s.nodes[c]);
    s' := Apply(s, step);
    TakeStep(s0, s, step);
  }

  lemma Listen(s0: System, s: System, c: NodeId, d: NodeId, e: nat) returns (s': System)
    requires Reached(s0, s) && Uniform(s) && 3 <= c <= 4 && 3 <= d <= 4 && c != d
    requires R(d, e) in s.net && s.nodes[c].currentEpoch <= e
    ensures s' == s.(nodes := s.nodes[c := s.nodes[c].(currentEpoch := e)])
    ensures Reached(s0, s') && Uniform(s')
  {
    hide Reached;
    var n, step := s.nodes[c], Deliver(c, R(d, e), true);
    Hears(n, H(d, e));
    ReplicaStays(n.(currentEpoch := e), d, e);
    s' := Apply(s, step);
    TakeStep(s0, s, step);
  }

  lemma Wins(s0: System, s: System, c: NodeId) returns (s': System)
    requires Reached(s0, s) && c in s.nodes && 3 <= c <= 4
    requires var n := s.nodes[c]; n.me == c && n.peers == Peers && n.owner == Owner && n.authSent && 2 <= n.authCount
    ensures s'.wins == s.wins + {(c, s.nodes[c].authEpoch)}
    ensures forall id :: id in s.nodes && id != c ==> id in s'.nodes && s'.nodes[id] == s.nodes[id]
    ensures Reached(s0, s')
  {
    hide Reached;
    var n, step := s.nodes[c], Win(c, true);
    ReplicaMayFailover(n);
    Quorum(n);
    s' := Apply(s, step);
    TakeStep(s0, s, step);
  }

  function Fresh(): System {
    System(map id: NodeId | 0 <= id <= 4 :: N(id, 0, 0, 0, 0, false), {}, {}, {}, {})
  }

  lemma FreshReached()
    ensures Reached(Fresh(), Fresh()) && Uniform(Fresh()) && Idle(Fresh(), {0, 1, 2, 3, 4})
    ensures Fresh().net == {} && Fresh().wins == {}
  {
    assert IsRun(Fresh(), []) && QuietAtSchedule(Fresh(), [], Voters) && Exec(Fresh(), []) == Fresh();
  }

  lemma FreshIsInit()
    ensures Init(Fresh())
  {
  }

  ghost predicate Idle(s: System, ids: set<NodeId>) {
    forall id :: id in ids ==> id in s.nodes && s.nodes[id] == N(id, 0, 0, 0, 0, false)
  }

  ghost predicate NoAcks(s: System) {
    forall m :: m in s.net ==> !m.body.Ack?
  }

  lemma FirstSchedule() returns (s: System)
    ensures Reached(Fresh(), s) && Uniform(s) && Idle(s, {0, 1, 2, 3, 4}) && s.net == {} && s.wins == {}
  {
    hide Reached, Fresh;
    FreshReached();
    s := Retry(Fresh(), Fresh(), 3);
  }

  lemma FirstStart() returns (s: System)
    ensures Reached(Fresh(), s) && Uniform(s) && Idle(s, {0, 1, 2, 4})
    ensures s.nodes[3] == N(3, 1, 0, 1, 0, true) && s.net == {R(3, 1)} && s.wins == {}
  {
    hide Reached, Fresh;
    s := FirstSchedule();
    s := Begin(Fresh(), s, 3);
  }

  lemma FirstAttempt() returns (s: System)
    ensures Reached(Fresh(), s) && Uniform(s) && Idle(s, {0, 1, 2, 4})
    ensures s.nodes[3] == N(3, 1, 0, 1, 0, false) && s.net == {R(3, 1)} && s.wins == {}
  {
    hide Reached, Fresh;
    s := FirstStart();
    s := Retry(Fresh(), s, 3);
  }

  /** Replica 3 counts master 1's vote of epoch 1 after it cleared its count, and starts epoch 2 with it. */
  lemma StaleCount() returns (s: System)
    ensures Reached(Fresh(), s) && Uniform(s) && Idle(s, {0, 2, 4}) && NoAcks(s)
    ensures s.nodes[3] == N(3, 2, 0, 2, 1, true) && s.nodes[1] == N(1, 1, 1, 0, 0, false)
    ensures R(3, 1) in s.net && R(3, 2) in s.net && s.wins == {}
  {
    hide Reached, Fresh;
    s := FirstAttempt();
    s := Vote(Fresh(), s, 1, 3, 1);
    s := Count(Fresh(), s, 3, 1, 1);
    s := Begin(Fresh(), s, 3);
  }

  /** One real vote completes its quorum, while replica 4 schedules and starts an election for the same epoch. */
  lemma BothCandidates() returns (s: System)
    ensures Reached(Fresh(), s) && Uniform(s)
    ensures s.nodes[3] == N(3, 2, 0, 2, 2, true) && s.nodes[4] == N(4, 2, 0, 2, 0, true)
    ensures s.nodes[1] == N(1, 1, 1, 0, 0, false) && s.nodes[2] == N(2, 0, 0, 0, 0, false)
    ensures R(4, 2) in s.net && s.wins == {}
  {
    hide Reached, Fresh;
    s := StaleCount();
    s := Vote(Fresh(), s, 0, 3, 2);
    s := Count(Fresh(), s, 3, 0, 2);
    s := Retry(Fresh(), s, 4);
    s := Listen(Fresh(), s, 4, 3, 1);
    s := Begin(Fresh(), s, 4);
  }

  lemma BothQuorums() returns (s: System)
    ensures Reached(Fresh(), s) && Uniform(s) && s.wins == {}
    ensures s.nodes[3] == N(3, 2, 0, 2, 2, true) && s.nodes[4] == N(4, 2, 0, 2, 2, true)
  {
    hide Reached, Fresh;
    s := BothCandidates();
    s := Vote(Fresh(), s, 1, 4, 2);
    s := Count(Fresh(), s, 4, 1, 2);
    s := Vote(Fresh(), s, 2, 4, 2);
    s := Count(Fresh(), s, 4, 2, 2);
  }

  lemma BothWin() returns (s: System)
    ensures Reached(Fresh(), s) && (3, 2) in s.wins && (4, 2) in s.wins
  {
    hide Reached, Fresh;
    s := BothQuorums();
    s := Wins(Fresh(), s, 3);
    s := Wins(Fresh(), s, 4);
  }

  /** With the voters fixed and no ACK in flight at any scheduling, two replicas can still win the same epoch. */
  lemma TwoWinners() returns (steps: seq<Step>)
    ensures Init(Fresh()) && IsRun(Fresh(), steps) && QuietAtSchedule(Fresh(), steps, Voters)
    ensures !OneWinnerPerEpoch(Exec(Fresh(), steps))
  {
    hide Fresh, Uniform;
    FreshIsInit();
    var s := BothWin();
    steps :| IsRun(Fresh(), steps) && QuietAtSchedule(Fresh(), steps, Voters) && Exec(Fresh(), steps) == s;
    assert (3, 2).1 == (4, 2).1;
  }
}
