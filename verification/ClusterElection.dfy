/** Election safety: at most one replica wins an epoch, over every run of the cluster in which the voting masters are
    a fixed set and no vote of an earlier attempt is counted between the scheduling and the start of the next one. */
module ClusterElection {
  import opened Basics
  import opened ClusterNode
  import opened ClusterRun

  /** The votes of one election that its candidate counted. */
  ghost function Tally(s: System, c: NodeId, e: nat): set<Vote> {
    set v | v in s.counted && v.candidate == c && v.epoch == e
  }

  /** A vote that would be counted although the attempt it was cast in is over: the count was cleared,
      but the election epoch still names that attempt. */
  ghost predicate StaleAck(s: System, step: Step)
    requires Enabled(s, step)
  {
    && step.Deliver? && step.msg.body.Ack?
    && var n := s.nodes[step.id];
    && CountsAck(ProcessHeader(n, step.msg.hdr), step.msg.hdr)
    && !n.authSent
  }

  /** The stated environment: only the given masters vote, every winner knows how many they are. */
  ghost predicate FixedVoters(s: System, step: Step, voters: set<NodeId>)
    requires Enabled(s, step)
  {
    var n := s.nodes[step.id];
    match step
    case Deliver(_, m, clockOk) =>
      m.body.Request? && Grants(ProcessHeader(n, m.hdr), m.hdr, m.body.forceAck, clockOk) ==> n.me in voters
    case Win(_, _) => |ServingMasters(n)| == |voters|
    case _ => true
  }

  ghost predicate SafeRun(s: System, steps: seq<Step>, voters: set<NodeId>)
    requires IsRun(s, steps)
    decreases |steps|
  {
    steps == [] ||
    (&& FixedVoters(s, steps[0], voters)
     && !StaleAck(s, steps[0])
     && SafeRun(Apply(s, steps[0]), steps[1..], voters))
  }

  ghost predicate Init(s: System) {
    && EpochInv(s)
    && (forall id :: id in s.nodes ==> s.nodes[id].authCount == 0 && !s.nodes[id].authSent)
    && (forall m :: m in s.net ==> !m.body.Request? && !m.body.Ack?)
    && s.granted == {} && s.counted == {} && s.wins == {}
  }

  ghost predicate OneWinnerPerEpoch(s: System) {
    forall w1, w2 :: w1 in s.wins && w2 in s.wins && w1.1 == w2.1 ==> w1.0 == w2.0
  }

  // ---------------------------------------------------------------------------------------------------------
  // Invariant
  // ---------------------------------------------------------------------------------------------------------

  /** A vote request in flight is not newer than the last election its sender started. */
  ghost predicate RequestsKnown(s: System) {
    forall m :: m in s.net && m.body.Request? ==>
      m.hdr.src in s.nodes && m.hdr.currentEpoch <= s.nodes[m.hdr.src].authEpoch
  }

  /** An ACK in flight is a granted vote, not yet counted, and the only copy of it. */
  ghost predicate AcksKnown(s: System) {
    && (forall m :: m in s.net && m.body.Ack? ==> VoteOf(m) in s.granted && VoteOf(m) !in s.counted)
    && (forall m, m' :: m in s.net && m.body.Ack? && m' in s.net && m'.body.Ack? && VoteOf(m) == VoteOf(m') ==>
          m == m')
  }

  ghost predicate VotesKnown(s: System, voters: set<NodeId>) {
    && (forall v :: v in s.granted ==>
          && v.voter in voters && v.voter in s.nodes && v.epoch <= s.nodes[v.voter].lastVoteEpoch
          && v.candidate in s.nodes && v.epoch <= s.nodes[v.candidate].authEpoch)
    && s.counted <= s.granted
  }

  /** A master votes at most once per epoch. */
  ghost predicate OneVotePerEpoch(s: System) {
    forall v, v' :: v in s.granted && v' in s.granted && v.voter == v'.voter && v.epoch == v'.epoch ==> v == v'
  }

  /** A candidate's counter is the number of votes it counted for its current election, zero before it started. */
  ghost predicate HonestCount(s: System, id: NodeId)
    requires id in s.nodes
  {
    var n := s.nodes[id];
    n.authCount == if n.authSent then |Tally(s, id, n.authEpoch)| else 0
  }

  ghost predicate HonestCounts(s: System) {
    forall id :: id in s.nodes ==> HonestCount(s, id)
  }

  ghost predicate WinsBacked(s: System, voters: set<NodeId>) {
    forall w :: w in s.wins ==> |voters| / 2 + 1 <= |Tally(s, w.0, w.1)|
  }

  ghost predicate ElectionInv(s: System, voters: set<NodeId>) {
    && EpochInv(s)
    && RequestsKnown(s)
    && AcksKnown(s)
    && VotesKnown(s, voters)
    && OneVotePerEpoch(s)
    && HonestCounts(s)
    && WinsBacked(s, voters)
  }

  /** A step that casts and counts no vote and neither schedules, starts nor wins an election. */
  ghost predicate QuietStep(s: System, s': System) {
    && s'.granted == s.granted && s'.counted == s.counted && s'.wins == s.wins
    && s'.nodes.Keys == s.nodes.Keys
    && (forall id :: id in s.nodes ==>
          && s'.nodes[id].authEpoch == s.nodes[id].authEpoch
          && s'.nodes[id].authCount == s.nodes[id].authCount
          && s'.nodes[id].authSent == s.nodes[id].authSent
          && s.nodes[id].lastVoteEpoch <= s'.nodes[id].lastVoteEpoch)
    && (forall m :: m in s'.net && (m.body.Request? || m.body.Ack?) ==> m in s.net)
  }

  lemma QuietStepKeepsInv(s: System, s': System, voters: set<NodeId>)
    requires ElectionInv(s, voters) && EpochInv(s') && QuietStep(s, s')
    ensures ElectionInv(s', voters)
  {
    forall c: NodeId, e: nat ensures Tally(s', c, e) == Tally(s, c, e) { }
  }

  /** The vote bookkeeping of everybody but node id is untouched; id only moved its last vote or its count. */
  ghost predicate SameElections(s: System, s': System) {
    && s'.wins == s.wins
    && s'.nodes.Keys == s.nodes.Keys
    && (forall i :: i in s.nodes ==>
          && s'.nodes[i].authEpoch == s.nodes[i].authEpoch
          && s'.nodes[i].authSent == s.nodes[i].authSent
          && s.nodes[i].lastVoteEpoch <= s'.nodes[i].lastVoteEpoch)
  }

  /** A master casts vote v by sending ACK a. */
  ghost predicate CastStep(s: System, s': System, v: Vote, a: Msg, voters: set<NodeId>) {
    && SameElections(s, s')
    && v.voter in voters && v.voter in s.nodes
    && s.nodes[v.voter].lastVoteEpoch < v.epoch == s'.nodes[v.voter].lastVoteEpoch
    && v.candidate in s.nodes && v.epoch <= s.nodes[v.candidate].authEpoch
    && (forall i :: i in s.nodes ==> s'.nodes[i].authCount == s.nodes[i].authCount)
    && a.body.Ack? && VoteOf(a) == v
    && s'.net == s.net + {a} && s'.granted == s.granted + {v} && s'.counted == s.counted
  }

  lemma CastStepVotes(s: System, s': System, v: Vote, a: Msg, voters: set<NodeId>)
    requires ElectionInv(s, voters) && CastStep(s, s', v, a, voters)
    ensures AcksKnown(s') && OneVotePerEpoch(s') && VotesKnown(s', voters)
  {
    assert v !in s.granted;
  }

  lemma CastStepKeepsInv(s: System, s': System, v: Vote, a: Msg, voters: set<NodeId>)
    requires ElectionInv(s, voters) && EpochInv(s') && CastStep(s, s', v, a, voters)
    ensures ElectionInv(s', voters)
  {
    hide AcksKnown, OneVotePerEpoch, VotesKnown;
    CastStepVotes(s, s', v, a, voters);
    forall c: NodeId, e: nat ensures Tally(s', c, e) == Tally(s, c, e) { }
    assert HonestCounts(s') && WinsBacked(s', voters);
  }

  /** A candidate counts ACK a. */
  ghost predicate CountStep(s: System, s': System, a: Msg) {
    && SameElections(s, s')
    && a in s.net && a.body.Ack? && a.body.dst in s.nodes
    && s.nodes[a.body.dst].authEpoch <= a.hdr.currentEpoch
    && (forall i :: i in s.nodes ==>
          s'.nodes[i].authCount == s.nodes[i].authCount + if i == a.body.dst then 1 else 0)
    && s'.net == s.net - {a} && s'.granted == s.granted && s'.counted == s.counted + {VoteOf(a)}
  }

  lemma CountStepTallies(s: System, s': System, a: Msg, voters: set<NodeId>)
    requires ElectionInv(s, voters) && CountStep(s, s', a)
    ensures var v := VoteOf(a);
            && v in s.granted && v !in s.counted && v.epoch == s.nodes[v.candidate].authEpoch
            && (forall c: NodeId, e: nat ::
                  Tally(s', c, e) == if c == v.candidate && e == v.epoch then Tally(s, c, e) + {v} else Tally(s, c, e))
  {
    var v := VoteOf(a);
    forall c: NodeId, e: nat
      ensures Tally(s', c, e) == if c == v.candidate && e == v.epoch then Tally(s, c, e) + {v} else Tally(s, c, e)
    { }
  }

  lemma CountStepCounts(s: System, s': System, a: Msg, voters: set<NodeId>)
    requires ElectionInv(s, voters) && CountStep(s, s', a)
    ensures HonestCounts(s') <==> s.nodes[a.body.dst].authSent
  {
    hide AcksKnown, OneVotePerEpoch, VotesKnown, RequestsKnown, WinsBacked, EpochInv;
    CountStepTallies(s, s', a, voters);
    var v := VoteOf(a);
    assert |Tally(s, v.candidate, v.epoch) + {v}| == |Tally(s, v.candidate, v.epoch)| + 1;
    assert HonestCount(s, a.body.dst);
    assert HonestCount(s', a.body.dst) <==> s.nodes[a.body.dst].authSent;
    forall id | id in s.nodes && id != a.body.dst ensures HonestCount(s', id) {
      assert HonestCount(s, id);
    }
  }

  lemma CountStepWins(s: System, s': System, a: Msg, voters: set<NodeId>)
    requires ElectionInv(s, voters) && CountStep(s, s', a)
    ensures WinsBacked(s', voters)
  {
    hide AcksKnown, OneVotePerEpoch, VotesKnown, RequestsKnown, HonestCounts, EpochInv;
    CountStepTallies(s, s', a, voters);
    var v := VoteOf(a);
    assert |Tally(s, v.candidate, v.epoch) + {v}| == |Tally(s, v.candidate, v.epoch)| + 1;
  }

  /** Counting keeps the invariant exactly when the candidate's election is running. */
  lemma CountStepKeepsInv(s: System, s': System, a: Msg, voters: set<NodeId>)
    requires ElectionInv(s, voters) && EpochInv(s') && CountStep(s, s', a)
    ensures ElectionInv(s', voters) <==> s.nodes[a.body.dst].authSent
  {
    hide HonestCounts, WinsBacked, EpochInv, Tally;
    CountStepCounts(s, s', a, voters);
    CountStepWins(s, s', a, voters);
    assert AcksKnown(s');
    assert VotesKnown(s', voters);
    assert RequestsKnown(s') && OneVotePerEpoch(s');
  }

  lemma RequestStep(s: System, n: Node, m: Msg, clockOk: bool, voters: set<NodeId>)
    requires ElectionInv(s, voters) && n.me in s.nodes && s.nodes[n.me] == n
    requires m in s.net && m.body.Request? && m.hdr.src != n.me
    requires Grants(ProcessHeader(n, m.hdr), m.hdr, m.body.forceAck, clockOk) ==> n.me in voters
    requires EpochInv(ApplyDeliver(s, n, m, clockOk))
    ensures ElectionInv(ApplyDeliver(s, n, m, clockOk), voters)
  {
    hide AcksKnown, OneVotePerEpoch, VotesKnown, HonestCounts, WinsBacked;
    var s' := ApplyDeliver(s, n, m, clockOk);
    var n1 := ProcessHeader(n, m.hdr);
    if Grants(n1, m.hdr, m.body.forceAck, clockOk) {
      var v, a := Vote(n.me, m.hdr.src, n1.currentEpoch), Msg(BuildHeader(n1), Ack(m.hdr.src));
      assert v.epoch == m.hdr.currentEpoch && n.lastVoteEpoch < v.epoch;
      assert CastStep(s, s', v, a, voters);
      CastStepKeepsInv(s, s', v, a, voters);
    } else {
      QuietPut(s, n1, s');
      QuietStepKeepsInv(s, s', voters);
    }
  }

  /** An ACK that passes the tests is counted, any other is only read. */
  lemma AckIs(s: System, step: Step)
    requires EpochInv(s) && Enabled(s, step) && step.Deliver? && step.msg.body.Ack?
    ensures var counts := CountsAck(ProcessHeader(s.nodes[step.id], step.msg.hdr), step.msg.hdr);
            if counts then CountStep(s, Apply(s, step), step.msg) else QuietStep(s, Apply(s, step))
  {
  }

  lemma AckStep(s: System, step: Step, voters: set<NodeId>)
    requires ElectionInv(s, voters) && Enabled(s, step) && step.Deliver? && step.msg.body.Ack?
    requires EpochInv(Apply(s, step))
    ensures ElectionInv(Apply(s, step), voters) <==> !StaleAck(s, step)
  {
    hide AcksKnown, OneVotePerEpoch, VotesKnown, RequestsKnown, HonestCounts, WinsBacked, QuietStep;
    var s', n, m := Apply(s, step), s.nodes[step.id], step.msg;
    AckIs(s, step);
    if CountsAck(ProcessHeader(n, m.hdr), m.hdr) {
      CountStepKeepsInv(s, s', m, voters);
    } else {
      QuietStepKeepsInv(s, s', voters);
    }
  }

  lemma QuietPut(s: System, n': Node, s': System)
    requires EpochInv(s) && n'.me in s.nodes
    requires var n := s.nodes[n'.me];
             && n'.authEpoch == n.authEpoch && n'.authCount == n.authCount && n'.authSent == n.authSent
             && n.lastVoteEpoch <= n'.lastVoteEpoch
    requires s' == Put(s, n')
    ensures QuietStep(s, s')
  {
  }

  lemma OtherStepsAreQuiet(s: System, step: Step)
    requires EpochInv(s) && Enabled(s, step)
    requires !step.Schedule? && !step.Start? && !step.Win?
    requires step.Deliver? ==> step.msg.body.Ping? || step.msg.body.Update?
    ensures QuietStep(s, Apply(s, step))
  {
    var n, s' := s.nodes[step.id], Apply(s, step);
    match step
    case SendPing(_) =>
    case SendUpdate(_, _) =>
    case Reconfigure(_, view) => QuietPut(s, view, s');
    case Bump(_) => QuietPut(s, TakeNextEpoch(n), s');
    case SetConfigEpoch(_, e) => QuietPut(s, SetEpoch(n.(currentEpoch := Max(n.currentEpoch, e)), n.me, e), s');
    case Deliver(_, m, _) =>
      if m.body.Ping? {
        QuietPut(s, HandlePing(n, m.hdr), s');
      } else {
        QuietPut(s, HandleUpdate(n, m.hdr, m.body.about, m.body.epoch), s');
      }
  }

  lemma StartStep(s: System, step: Step, voters: set<NodeId>)
    requires ElectionInv(s, voters) && Enabled(s, step) && step.Start? && EpochInv(Apply(s, step))
    ensures ElectionInv(Apply(s, step), voters)
  {
    var s' := Apply(s, step);
    var n := s.nodes[step.id];
    forall c: NodeId, e: nat ensures Tally(s', c, e) == Tally(s, c, e) { }
    assert Tally(s, n.me, n.currentEpoch + 1) == {};
  }

  lemma WinStep(s: System, step: Step, voters: set<NodeId>)
    requires ElectionInv(s, voters) && Enabled(s, step) && step.Win? && FixedVoters(s, step, voters)
    requires EpochInv(Apply(s, step))
    ensures ElectionInv(Apply(s, step), voters)
  {
    hide AcksKnown, OneVotePerEpoch, VotesKnown, RequestsKnown;
    var s' := Apply(s, step);
    SameVotes(s, s', voters);
    forall c: NodeId, e: nat ensures Tally(s', c, e) == Tally(s, c, e) { }
  }

  /** What the votes are about does not change when nobody's epochs do and no packet is sent. */
  lemma SameVotes(s: System, s': System, voters: set<NodeId>)
    requires RequestsKnown(s) && AcksKnown(s) && VotesKnown(s, voters) && OneVotePerEpoch(s)
    requires s'.net == s.net && s'.granted == s.granted && s'.counted == s.counted && s'.nodes.Keys == s.nodes.Keys
    requires forall i :: i in s.nodes ==>
               && s'.nodes[i].authEpoch == s.nodes[i].authEpoch && s'.nodes[i].lastVoteEpoch == s.nodes[i].lastVoteEpoch
    ensures RequestsKnown(s') && AcksKnown(s') && VotesKnown(s', voters) && OneVotePerEpoch(s')
  {
  }

  lemma ScheduleStep(s: System, step: Step, voters: set<NodeId>)
    requires ElectionInv(s, voters) && Enabled(s, step) && step.Schedule? && EpochInv(Apply(s, step))
    ensures ElectionInv(Apply(s, step), voters)
  {
    hide AcksKnown, OneVotePerEpoch, VotesKnown, RequestsKnown;
    var s' := Apply(s, step);
    SameVotes(s, s', voters);
    forall c: NodeId, e: nat ensures Tally(s', c, e) == Tally(s, c, e) { }
  }

  /** In the stated environment a step keeps the invariant exactly when it does not count a stale ACK. */
  lemma ElectionInvStep(s: System, step: Step, voters: set<NodeId>)
    requires ElectionInv(s, voters) && Enabled(s, step) && FixedVoters(s, step, voters)
    ensures ElectionInv(Apply(s, step), voters) <==> !StaleAck(s, step)
  {
    EpochInvStep(s, step);
    if step.Start? {
      StartStep(s, step, voters);
    } else if step.Win? {
      WinStep(s, step, voters);
    } else if step.Schedule? {
      ScheduleStep(s, step, voters);
    } else if step.Deliver? && step.msg.body.Request? {
      RequestStep(s, s.nodes[step.id], step.msg, step.clockOk, voters);
    } else if step.Deliver? && step.msg.body.Ack? {
      AckStep(s, step, voters);
    } else {
      OtherStepsAreQuiet(s, step);
      QuietStepKeepsInv(s, Apply(s, step), voters);
    }
  }

  lemma {:induction false} ElectionInvRun(s: System, steps: seq<Step>, voters: set<NodeId>)
    requires ElectionInv(s, voters) && IsRun(s, steps) && SafeRun(s, steps, voters)
    ensures ElectionInv(Exec(s, steps), voters)
    decreases |steps|
  {
    if steps != [] {
      ElectionInvStep(s, steps[0], voters);
      ElectionInvRun(Apply(s, steps[0]), steps[1..], voters);
    }
  }

  // ---------------------------------------------------------------------------------------------------------
  // Two quorums share a voter
  // ---------------------------------------------------------------------------------------------------------

  lemma {:induction false} VotersOfTally(t: set<Vote>, c: NodeId, e: nat, voters: set<NodeId>)
    requires forall v :: v in t ==> v.candidate == c && v.epoch == e && v.voter in voters
    ensures |set v | v in t :: v.voter| == |t|
    ensures (set v | v in t :: v.voter) <= voters
    decreases |t|
  {
    if t != {} {
      var v :| v in t;
      VotersOfTally(t - {v}, c, e, voters);
      assert (set x | x in t :: x.voter) == (set x | x in t - {v} :: x.voter) + {v.voter};
    }
  }

  lemma QuorumsMeet(a: set<NodeId>, b: set<NodeId>, all: set<NodeId>)
    requires a <= all && b <= all
    requires |all| / 2 + 1 <= |a| && |all| / 2 + 1 <= |b|
    ensures a * b != {}
  {
    if a * b == {} {
      SubsetSize(a + b, all);
    }
  }

  lemma InvGivesOneWinner(s: System, voters: set<NodeId>)
    requires ElectionInv(s, voters)
    ensures OneWinnerPerEpoch(s)
  {
    forall w1, w2 | w1 in s.wins && w2 in s.wins && w1.1 == w2.1
      ensures w1.0 == w2.0
    {
      var t1, t2 := Tally(s, w1.0, w1.1), Tally(s, w2.0, w2.1);
      VotersOfTally(t1, w1.0, w1.1, voters);
      VotersOfTally(t2, w2.0, w2.1, voters);
      QuorumsMeet(set v | v in t1 :: v.voter, set v | v in t2 :: v.voter, voters);
      var x :| x in (set v | v in t1 :: v.voter) * (set v | v in t2 :: v.voter);
      var v1 :| v1 in t1 && v1.voter == x;
      var v2 :| v2 in t2 && v2.voter == x;
      assert v1 == v2;
    }
  }

  /** At most one replica wins an epoch, whatever is delayed, lost or interleaved. */
  lemma ElectionSafety(s: System, steps: seq<Step>, voters: set<NodeId>)
    requires Init(s) && IsRun(s, steps) && SafeRun(s, steps, voters)
    ensures OneWinnerPerEpoch(Exec(s, steps))
    ensures OneVotePerEpoch(Exec(s, steps))
  {
    ElectionInvRun(s, steps, voters);
    InvGivesOneWinner(Exec(s, steps), voters);
  }
}
