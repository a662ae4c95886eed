/** Why a won election is not enough: runs in the environment of the election theorem whose winners are outranked by their old
    master, or take the same configuration epoch. */
module ClusterFailoverGap {
  import opened Basics
  import opened ClusterNode
  import opened ClusterRun
  import opened ClusterElection
  import opened ClusterFailover

  /** s is reached from s0 with node 0 as the only voter and without a stale ACK. */
  ghost predicate Reached(s0: System, s: System) {
    exists steps :: IsRun(s0, steps) && SafeRun(s0, steps, {0}) && Exec(s0, steps) == s
  }

  lemma {:induction false} SafeAppend(s: System, a: seq<Step>, step: Step, voters: set<NodeId>)
    requires IsRun(s, a) && SafeRun(s, a, voters) && IsRun(s, a + [step])
    requires Enabled(Exec(s, a), step) && FixedVoters(Exec(s, a), step, voters) && !StaleAck(Exec(s, a), step)
    ensures SafeRun(s, a + [step], voters)
    decreases |a|
  {
    hide Enabled, Apply, FixedVoters, StaleAck;
    if a == [] {
      assert [step][1..] == [];
    } else {
      assert (a + [step])[1..] == a[1..] + [step];
      SafeAppend(Apply(s, a[0]), a[1..], step, voters);
    }
  }

  lemma TakeStep(s0: System, s: System, step: Step, t: System)
    requires Reached(s0, s) && Enabled(s, step) && FixedVoters(s, step, {0}) && !StaleAck(s, step) && Apply(s, step) == t
    ensures Reached(s0, t)
  {
    hide Enabled, Apply, FixedVoters, StaleAck, IsRun, SafeRun, Exec;
    var steps :| IsRun(s0, steps) && SafeRun(s0, steps, {0}) && Exec(s0, steps) == s;
    RunOne(s, step);
    RunAppend(s0, steps, [step]);
    SafeAppend(s0, steps, step, {0});
    assert IsRun(s0, steps + [step]);
  }

  lemma StartReached(s: System)
    ensures Reached(s, s)
  {
    assert IsRun(s, []) && SafeRun(s, [], {0}) && Exec(s, []) == s;
  }

  // ---------------------------------------------------------------------------------------------------------
  // A winner that is outranked
  // ---------------------------------------------------------------------------------------------------------

  // Master 0 with one slot and its replica 1.

  function Known(epoch: nat): map<NodeId, Peer> {
    map[0 := Peer(true, None, false, epoch), 1 := Peer(false, Some(0), false, 0)]
  }

  function Master(current: nat, voted: nat, epoch: nat): Node {
    Node(0, current, voted, 0, 0, false, Known(epoch), map[0 := 0])
  }

  function Replica(current: nat, auth: nat, count: nat, sent: bool, epoch: nat): Node {
    Node(1, current, 0, auth, count, sent, Known(epoch), map[0 := 0])
  }

  const ASKS := Msg(Header(1, 1, 0, {0}), Request(true))
  const VOTES := Msg(Header(0, 1, 0, {0}), Ack(1))
  const TELLS := Msg(Header(0, 2, 2, {0}), Ping)

  function Pair(m: Node, r: Node, net: set<Msg>, granted: set<Vote>, counted: set<Vote>): System {
    System(map[0 := m, 1 := r], net, granted, counted, {})
  }

  function Quiet(): System { Pair(Master(0, 0, 0), Replica(0, 0, 0, false, 0), {}, {}, {}) }


  lemma TheSlot(n: Node)
    requires n.owner == map[0 := 0]
    ensures SlotsOf(n, 0) == {0}
  {
  }

  lemma HearsMaster(n: Node, current: nat, epoch: nat)
    requires n.peers == Known(Recorded(n, 0))
    ensures ProcessHeader(n, Header(0, current, epoch, {0}))
            == n.(currentEpoch := Max(n.currentEpoch, current), peers := Known(Max(Recorded(n, 0), epoch)))
  {
    assert n.peers[0 := n.peers[0].(configEpoch := Max(Recorded(n, 0), epoch))] == Known(Max(Recorded(n, 0), epoch));
  }

  lemma Asked()
    ensures Reached(Quiet(), Pair(Master(0, 0, 0), Replica(1, 1, 0, true, 0), {ASKS}, {}, {}))
  {
    hide Reached;
    StartReached(Quiet());
    var n := Replica(0, 0, 0, false, 0);
    TheSlot(n);
    TakeStep(Quiet(), Quiet(), Schedule(1, true), Quiet());
    TheSlot(StartElection(n));
    assert BuildHeader(StartElection(n)) == ASKS.hdr;
    TakeStep(Quiet(), Quiet(), Start(1, true), Pair(Master(0, 0, 0), Replica(1, 1, 0, true, 0), {ASKS}, {}, {}));
  }

  lemma QuietIsInit()
    ensures Init(Quiet())
  {
  }

  const BALLOT := Vote(0, 1, 1)

  lemma Voted()
    ensures Reached(Quiet(), Pair(Master(1, 1, 0), Replica(1, 1, 0, true, 0), {ASKS, VOTES}, {BALLOT}, {}))
  {
    hide Reached;
    Asked();
    var s, m := Pair(Master(0, 0, 0), Replica(1, 1, 0, true, 0), {ASKS}, {}, {}), Master(0, 0, 0);
    var m1 := m.(currentEpoch := 1);
    assert m.peers[1 := m.peers[1].(configEpoch := 0)] == m.peers;
    assert ProcessHeader(m, ASKS.hdr) == m1;
    TheSlot(m1);
    assert Grants(m1, ASKS.hdr, true, true) && BuildHeader(m1) == VOTES.hdr;
    assert {ASKS} + {VOTES} == {ASKS, VOTES} && {} + {BALLOT} == {BALLOT};
    TakeStep(Quiet(), s, Deliver(0, ASKS, true), Pair(Master(1, 1, 0), Replica(1, 1, 0, true, 0), {ASKS, VOTES}, {BALLOT}, {}));
  }

  lemma Bumped()
    ensures Reached(Quiet(), Pair(Master(2, 1, 2), Replica(1, 1, 0, true, 0), {ASKS, VOTES, TELLS}, {BALLOT}, {}))
  {
    hide Reached;
    Voted();
    var r := Replica(1, 1, 0, true, 0);
    var s, t := Pair(Master(1, 1, 0), r, {ASKS, VOTES}, {BALLOT}, {}), Pair(Master(2, 1, 2), r, {ASKS, VOTES}, {BALLOT}, {});
    assert Known(0)[0 := Known(0)[0].(configEpoch := 2)] == Known(2);
    TakeStep(Quiet(), s, Bump(0), t);
    TheSlot(Master(2, 1, 2));
    assert BuildHeader(Master(2, 1, 2)) == TELLS.hdr;
    assert {ASKS, VOTES} + {TELLS} == {ASKS, VOTES, TELLS};
    TakeStep(Quiet(), t, SendPing(0), Pair(Master(2, 1, 2), r, {ASKS, VOTES, TELLS}, {BALLOT}, {}));
  }

  lemma Counted()
    ensures Reached(Quiet(), Pair(Master(2, 1, 2), Replica(2, 1, 1, true, 2), {ASKS, TELLS}, {BALLOT}, {BALLOT}))
  {
    hide Reached, ProcessHeader;
    Bumped();
    var m, r, r1 := Master(2, 1, 2), Replica(1, 1, 0, true, 0), Replica(2, 1, 0, true, 2);
    var s, t := Pair(m, r, {ASKS, VOTES, TELLS}, {BALLOT}, {}), Pair(m, r1, {ASKS, VOTES, TELLS}, {BALLOT}, {});
    HearsMaster(r, 2, 2);
    TakeStep(Quiet(), s, Deliver(1, TELLS, true), t);
    HearsMaster(r1, 1, 0);
    TheSlot(r1);
    assert CountsAck(r1, VOTES.hdr);
    assert {ASKS, VOTES, TELLS} - {VOTES} == {ASKS, TELLS} && {} + {BALLOT} == {BALLOT};
    TakeStep(Quiet(), t, Deliver(1, VOTES, true), Pair(m, Replica(2, 1, 1, true, 2), {ASKS, TELLS}, {BALLOT}, {BALLOT}));
  }

  /** The master takes a new epoch after it voted for its replica in a manual failover and says so: the replica still wins,
      with epoch 1 against 2, and its claim to the slot is outranked. */
  lemma OutrankedWinner() returns (steps: seq<Step>)
    ensures Init(Quiet()) && IsRun(Quiet(), steps) && SafeRun(Quiet(), steps, {0})
    ensures var s := Exec(Quiet(), steps);
            && Enabled(s, Win(1, true)) && FixedVoters(s, Win(1, true), {0})
            && var n := Apply(s, Win(1, true)).nodes[1];
               Recorded(n, 1) == 1 && Recorded(n, 0) == 2 && SlotsOf(n, 1) == {0}
  {
    hide IsRun, SafeRun, Exec, Enabled, Apply, FixedVoters;
    Counted();
    QuietIsInit();
    var s := Pair(Master(2, 1, 2), Replica(2, 1, 1, true, 2), {ASKS, TELLS}, {BALLOT}, {BALLOT});
    steps :| IsRun(Quiet(), steps) && SafeRun(Quiet(), steps, {0}) && Exec(Quiet(), steps) == s;
    WinsNow(s);
  }

  lemma WinsNow(s: System)
    requires s.nodes == map[0 := Master(2, 1, 2), 1 := Replica(2, 1, 1, true, 2)]
    ensures Enabled(s, Win(1, true)) && FixedVoters(s, Win(1, true), {0})
    ensures var n := Apply(s, Win(1, true)).nodes[1]; Recorded(n, 1) == 1 && Recorded(n, 0) == 2 && SlotsOf(n, 1) == {0}
  {
    var r := s.nodes[1];
    TheSlot(r);
    assert r.owner[0] == 0 && ServingMasters(r) == {0};
  }

  // ---------------------------------------------------------------------------------------------------------
  // Two winners with one epoch
  // ---------------------------------------------------------------------------------------------------------

  // Master 0 with one slot and its replicas 1 and 2.

  function Three(own: nat): map<NodeId, Peer> {
    map[0 := Peer(true, None, false, 0), 1 := Peer(false, Some(0), false, own), 2 := Peer(false, Some(0), false, 0)]
  }

  function Voter(e: nat): Node { Node(0, e, e, 0, 0, false, Three(0), map[0 := 0]) }

  function First(current: nat, auth: nat, count: nat, own: nat): Node {
    Node(1, current, 0, auth, count, auth > 0, Three(own), map[0 := 0])
  }

  function Second(current: nat, auth: nat, count: nat): Node {
    Node(2, current, 0, auth, count, auth > 0, Three(0), map[0 := 0])
  }

  function Trio(e: nat, r1: Node, r2: Node, net: set<Msg>, granted: set<Vote>, counted: set<Vote>): System {
    System(map[0 := Voter(e), 1 := r1, 2 := r2], net, granted, counted, {})
  }

  function AskBy(id: NodeId): Msg { Msg(Header(id, id, 0, {0}), Request(true)) }

  function VoteFor(id: NodeId): Msg { Msg(Header(0, id, 0, {0}), Ack(id)) }

  function Ballot(id: NodeId): Vote { Vote(0, id, id) }

  function Idle(): System { Trio(0, First(0, 0, 0, 0), Second(0, 0, 0), {}, {}, {}) }

  lemma IdleIsInit()
    ensures Init(Idle())
  {
    hide NodeEpochs;
    var s := Idle();
    ZeroEpochs(Voter(0));
    ZeroEpochs(First(0, 0, 0, 0));
    ZeroEpochs(Second(0, 0, 0));
    forall id | id in s.nodes ensures s.nodes[id].me == id && NodeEpochs(s.nodes[id]) {
      assert id == 0 || id == 1 || id == 2;
    }
  }

  lemma ZeroEpochs(n: Node)
    requires n.me <= 2 && n.peers == Three(0) && n.lastVoteEpoch == 0 && n.authEpoch == 0
    ensures NodeEpochs(n)
  {
  }

  lemma ThreeStay(n: Node, h: Header, own: nat)
    requires n.peers == Three(own) && h.src <= 2 && h.configEpoch == 0
    ensures ProcessHeader(n, h) == n.(currentEpoch := Max(n.currentEpoch, h.currentEpoch))
  {
    assert n.peers[h.src := n.peers[h.src].(configEpoch := Max(n.peers[h.src].configEpoch, 0))] == n.peers;
  }

  lemma Says(n: Node, own: nat)
    requires n.peers == Three(own) && n.owner == map[0 := 0] && n.me <= 2
    ensures BuildHeader(n) == Header(n.me, n.currentEpoch, 0, {0})
  {
    TheSlot(n);
  }

  lemma FirstAsks()
    ensures Reached(Idle(), Trio(0, First(1, 1, 0, 0), Second(0, 0, 0), {AskBy(1)}, {}, {}))
  {
    hide Reached;
    StartReached(Idle());
    var n := First(0, 0, 0, 0);
    TheSlot(n);
    TakeStep(Idle(), Idle(), Schedule(1, true), Idle());
    Says(StartElection(n), 0);
    TakeStep(Idle(), Idle(), Start(1, true), Trio(0, First(1, 1, 0, 0), Second(0, 0, 0), {AskBy(1)}, {}, {}));
  }

  /** The master votes for whoever asks next. */
  lemma Votes(e: nat, id: NodeId)
    requires 1 <= id <= 2 && e < id
    ensures ProcessHeader(Voter(e), AskBy(id).hdr) == Voter(e).(currentEpoch := id)
    ensures Grants(Voter(e).(currentEpoch := id), AskBy(id).hdr, true, true)
    ensures BuildHeader(Voter(e).(currentEpoch := id)) == VoteFor(id).hdr
  {
    ThreeStay(Voter(e), AskBy(id).hdr, 0);
    TheSlot(Voter(e).(currentEpoch := id));
    Says(Voter(e).(currentEpoch := id), 0);
  }

  lemma FirstIsVoted()
    ensures Reached(Idle(), Trio(1, First(1, 1, 0, 0), Second(0, 0, 0), {AskBy(1), VoteFor(1)}, {Ballot(1)}, {}))
  {
    hide Reached, ProcessHeader, Grants, BuildHeader;
    FirstAsks();
    Votes(0, 1);
    assert {AskBy(1)} + {VoteFor(1)} == {AskBy(1), VoteFor(1)} && {} + {Ballot(1)} == {Ballot(1)};
    TakeStep(Idle(), Trio(0, First(1, 1, 0, 0), Second(0, 0, 0), {AskBy(1)}, {}, {}), Deliver(0, AskBy(1), true),
             Trio(1, First(1, 1, 0, 0), Second(0, 0, 0), {AskBy(1), VoteFor(1)}, {Ballot(1)}, {}));
  }

  lemma CountsVote(n: Node, own: nat, id: NodeId)
    requires n.peers == Three(own) && n.owner == map[0 := 0] && n.authEpoch == n.currentEpoch == id
    ensures ProcessHeader(n, VoteFor(id).hdr) == n && CountsAck(n, VoteFor(id).hdr)
  {
    ThreeStay(n, VoteFor(id).hdr, own);
    TheSlot(n);
  }

  lemma FirstCounts()
    ensures Reached(Idle(), Trio(1, First(1, 1, 1, 0), Second(0, 0, 0), {AskBy(1)}, {Ballot(1)}, {Ballot(1)}))
  {
    hide Reached, ProcessHeader, CountsAck;
    FirstIsVoted();
    CountsVote(First(1, 1, 0, 0), 0, 1);
    assert {AskBy(1), VoteFor(1)} - {VoteFor(1)} == {AskBy(1)} && {} + {Ballot(1)} == {Ballot(1)};
    TakeStep(Idle(), Trio(1, First(1, 1, 0, 0), Second(0, 0, 0), {AskBy(1), VoteFor(1)}, {Ballot(1)}, {}),
             Deliver(1, VoteFor(1), true), Trio(1, First(1, 1, 1, 0), Second(0, 0, 0), {AskBy(1)}, {Ballot(1)}, {Ballot(1)}));
  }

  /** Replica 1 takes epoch 2 by CLUSTER BUMPEPOCH, with its election for epoch 1 won but for the last step; replica 2 hears
      of epoch 1. */
  lemma FirstBumps()
    ensures Reached(Idle(), Trio(1, First(2, 1, 1, 2), Second(1, 0, 0), {AskBy(1)}, {Ballot(1)}, {Ballot(1)}))
  {
    hide Reached, ProcessHeader;
    FirstCounts();
    var s := Trio(1, First(1, 1, 1, 0), Second(0, 0, 0), {AskBy(1)}, {Ballot(1)}, {Ballot(1)});
    var t := Trio(1, First(2, 1, 1, 2), Second(0, 0, 0), {AskBy(1)}, {Ballot(1)}, {Ballot(1)});
    assert Three(0)[1 := Three(0)[1].(configEpoch := 2)] == Three(2);
    TakeStep(Idle(), s, Bump(1), t);
    ThreeStay(Second(0, 0, 0), AskBy(1).hdr, 0);
    TakeStep(Idle(), t, Deliver(2, AskBy(1), true),
             Trio(1, First(2, 1, 1, 2), Second(1, 0, 0), {AskBy(1)}, {Ballot(1)}, {Ballot(1)}));
  }

  lemma SecondAsks()
    ensures Reached(Idle(), Trio(1, First(2, 1, 1, 2), Second(2, 2, 0), {AskBy(1), AskBy(2)}, {Ballot(1)}, {Ballot(1)}))
  {
    hide Reached;
    FirstBumps();
    var s, n := Trio(1, First(2, 1, 1, 2), Second(1, 0, 0), {AskBy(1)}, {Ballot(1)}, {Ballot(1)}), Second(1, 0, 0);
    TheSlot(n);
    TakeStep(Idle(), s, Schedule(2, true), s);
    Says(StartElection(n), 0);
    assert {AskBy(1)} + {AskBy(2)} == {AskBy(1), AskBy(2)};
    TakeStep(Idle(), s, Start(2, true),
             Trio(1, First(2, 1, 1, 2), Second(2, 2, 0), {AskBy(1), AskBy(2)}, {Ballot(1)}, {Ballot(1)}));
  }

  lemma SecondIsVoted()
    ensures Reached(Idle(), Trio(2, First(2, 1, 1, 2), Second(2, 2, 0), {AskBy(1), AskBy(2), VoteFor(2)},
                                 {Ballot(1), Ballot(2)}, {Ballot(1)}))
  {
    hide Reached, ProcessHeader, Grants, BuildHeader;
    SecondAsks();
    Votes(1, 2);
    assert {AskBy(1), AskBy(2)} + {VoteFor(2)} == {AskBy(1), AskBy(2), VoteFor(2)};
    assert {Ballot(1)} + {Ballot(2)} == {Ballot(1), Ballot(2)};
    TakeStep(Idle(), Trio(1, First(2, 1, 1, 2), Second(2, 2, 0), {AskBy(1), AskBy(2)}, {Ballot(1)}, {Ballot(1)}),
             Deliver(0, AskBy(2), true),
             Trio(2, First(2, 1, 1, 2), Second(2, 2, 0), {AskBy(1), AskBy(2), VoteFor(2)}, {Ballot(1), Ballot(2)}, {Ballot(1)}));
  }

  lemma BothElected()
    ensures Reached(Idle(), Trio(2, First(2, 1, 1, 2), Second(2, 2, 1), {AskBy(1), AskBy(2)},
                                 {Ballot(1), Ballot(2)}, {Ballot(1), Ballot(2)}))
  {
    hide Reached, ProcessHeader, CountsAck;
    SecondIsVoted();
    CountsVote(Second(2, 2, 0), 0, 2);
    assert {AskBy(1), AskBy(2), VoteFor(2)} - {VoteFor(2)} == {AskBy(1), AskBy(2)};
    assert {Ballot(1)} + {Ballot(2)} == {Ballot(1), Ballot(2)};
    TakeStep(Idle(), Trio(2, First(2, 1, 1, 2), Second(2, 2, 0), {AskBy(1), AskBy(2), VoteFor(2)}, {Ballot(1), Ballot(2)},
                          {Ballot(1)}), Deliver(2, VoteFor(2), true),
             Trio(2, First(2, 1, 1, 2), Second(2, 2, 1), {AskBy(1), AskBy(2)}, {Ballot(1), Ballot(2)}, {Ballot(1), Ballot(2)}));
  }

  lemma WinsSlot(s: System, id: NodeId, own: nat)
    requires id in s.nodes && 1 <= id <= 2
    requires var n := s.nodes[id];
             && n.me == id && n.peers == Three(own) && n.owner == map[0 := 0] && n.authSent && n.authCount == 1
    ensures Enabled(s, Win(id, true)) && FixedVoters(s, Win(id, true), {0})
    ensures var n := s.nodes[id];
            && Apply(s, Win(id, true)).nodes == s.nodes[id := WinElection(n)]
            && Recorded(WinElection(n), id) == Max(n.peers[id].configEpoch, n.authEpoch)
            && SlotsOf(WinElection(n), id) == {0}
  {
    var n := s.nodes[id];
    TheSlot(n);
    assert n.owner[0] == 0 && ServingMasters(n) == {0};
  }

  /** Replica 1 wins epoch 1 and replica 2 epoch 2, but both take 2 as their configuration epoch and claim the same slot. */
  lemma EqualWinners() returns (steps: seq<Step>)
    ensures Init(Idle()) && IsRun(Idle(), steps) && SafeRun(Idle(), steps, {0})
    ensures var s := Exec(Idle(), steps);
            && Enabled(s, Win(1, true)) && FixedVoters(s, Win(1, true), {0})
            && var t := Apply(s, Win(1, true));
               && Enabled(t, Win(2, true)) && FixedVoters(t, Win(2, true), {0})
               && var u := Apply(t, Win(2, true));
                  && 1 in u.nodes && 2 in u.nodes && Recorded(u.nodes[1], 1) == Recorded(u.nodes[2], 2) == 2
                  && SlotsOf(u.nodes[1], 1) == SlotsOf(u.nodes[2], 2) == {0}
  {
    hide IsRun, SafeRun, Exec, Enabled, Apply, FixedVoters, WinElection, SlotsOf;
    BothElected();
    IdleIsInit();
    var s := Trio(2, First(2, 1, 1, 2), Second(2, 2, 1), {AskBy(1), AskBy(2)}, {Ballot(1), Ballot(2)}, {Ballot(1), Ballot(2)});
    steps :| IsRun(Idle(), steps) && SafeRun(Idle(), steps, {0}) && Exec(Idle(), steps) == s;
    WinsSlot(s, 1, 2);
    WinsSlot(Apply(s, Win(1, true)), 2, 0);
  }
}
