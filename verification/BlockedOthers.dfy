/** Serving the clients blocked on a sorted set or a stream. */
module BlockedOthers {
  import opened Basics
  import opened Blocked
  import opened BlockedServing

  // ---------------------------------------------------------------------------------------------------------
  // Sorted sets
  // ---------------------------------------------------------------------------------------------------------

  /** unblockClient and the pop; the last element takes the key with it. */
  ghost function ServeScored(s: State, key: Key, c: Client, zcard: nat): State
    requires Counted(s) && c in s.info && 0 < zcard
  {
    var t := Unblock(s, c);
    t.(db := if zcard == 1 then t.db - {key} else t.db[key := SortedSetValue(zcard - 1)],
       replies := t.replies + [Scored(c, key)])
  }

  /** The loop of serveClientsBlockedOnSortedSetKey with n clients and zcard elements to go. */
  ghost function ScoredLoop(s: State, key: Key, n: nat, zcard: nat): State
    requires Consistent(s) && n <= |WaitersOf(s, key)|
    decreases n
  {
    if n == 0 || zcard == 0 then s
    else
      var c := WaitersOf(s, key)[0].client;
      WaiterIsBlocked(s, key);
      if s.info[c].kind != SortedSets then
        RotateKeeps(s, key);
        ScoredLoop(Rotated(s, key), key, n - 1, zcard)
      else
        ServeScoredKeeps(s, key, zcard);
        ScoredLoop(ServeScored(s, key, c, zcard), key, n - 1, zcard - 1)
  }

  lemma ServeScoredKeeps(s: State, key: Key, zcard: nat)
    requires Consistent(s) && WaitersOf(s, key) != [] && 0 < zcard
    ensures WaitersOf(s, key)[0].client in s.info && Counted(s)
    ensures var list := WaitersOf(s, key);
            var c := list[0].client;
            var t := ServeScored(s, key, c, zcard);
            && Consistent(t) && WaitersOf(t, key) == list[1..] && t.info == s.info - {c}
            && t.ready == s.ready && t.readySet == s.readySet && t.replies == s.replies + [Scored(c, key)]
  {
    hide Consistent, Counted, Unblock;
    WaiterIsBlocked(s, key);
    var c := WaitersOf(s, key)[0].client;
    UnblockKeeps(s, c);
    UnblockRest(s, key);
    OtherFields(Unblock(s, c), ServeScored(s, key, c, zcard));
  }

  lemma {:induction false} ScoredLoopKeeps(s: State, key: Key, n: nat, zcard: nat)
    requires Consistent(s) && n <= |WaitersOf(s, key)|
    ensures var t := ScoredLoop(s, key, n, zcard);
            Consistent(t) && t.info.Keys <= s.info.Keys && t.ready == s.ready && t.readySet == s.readySet
    decreases n
  {
    hide Indexed, NodesDistinct, Counted, ServeScored;
    if n > 0 && zcard > 0 {
      var c := WaitersOf(s, key)[0].client;
      WaiterIsBlocked(s, key);
      if s.info[c].kind != SortedSets {
        RotateKeeps(s, key);
        ScoredLoopKeeps(Rotated(s, key), key, n - 1, zcard);
      } else {
        ServeScoredKeeps(s, key, zcard);
        ScoredLoopKeeps(ServeScored(s, key, c, zcard), key, n - 1, zcard - 1);
      }
    }
  }

  /** The replies while elements last; clients that wait for something else are passed over. */
  function ScoredReplies(key: Key, jobs: seq<Job>, zcard: nat): seq<Reply> {
    if jobs == [] || zcard == 0 then []
    else if jobs[0].op.kind != SortedSets then ScoredReplies(key, jobs[1..], zcard)
    else [Scored(jobs[0].waiter.client, key)] + ScoredReplies(key, jobs[1..], zcard - 1)
  }

  /** Who still waits: those not looked at, then those passed over. */
  function ScoredStaying(jobs: seq<Job>, passed: seq<Waiter>, zcard: nat): seq<Waiter>
    decreases |jobs|
  {
    if jobs == [] || zcard == 0 then Waiters(jobs) + passed
    else if jobs[0].op.kind != SortedSets then ScoredStaying(jobs[1..], passed + [jobs[0].waiter], zcard)
    else ScoredStaying(jobs[1..], passed, zcard - 1)
  }

  /** From s to u, the first n clients of the list were dealt with in order. */
  ghost predicate ScoredThrough(s: State, key: Key, n: nat, zcard: nat, u: State) {
    && n <= |WaitersOf(s, key)| && (forall w <- WaitersOf(s, key)[..n] :: w.client in s.info)
    && var list := WaitersOf(s, key);
       var jobs := Jobs(s.info, list[..n]);
       && u.replies == s.replies + ScoredReplies(key, jobs, zcard)
       && WaitersOf(u, key) == ScoredStaying(jobs, list[n..], zcard)
  }

  lemma ScoredNone(s: State, key: Key, n: nat, zcard: nat)
    requires n <= |WaitersOf(s, key)| && (forall w <- WaitersOf(s, key)[..n] :: w.client in s.info) && (n == 0 || zcard == 0)
    ensures ScoredThrough(s, key, n, zcard, s)
  {
    hide WaitersOf;
    var list := WaitersOf(s, key);
    WaitersOfJobs(s.info, list[..n]);
    assert list[..n] + list[n..] == list && s.replies + [] == s.replies;
  }

  lemma ScoredTurns(s: State, key: Key, n: nat, zcard: nat)
    requires Consistent(s) && 0 < n <= |WaitersOf(s, key)| && 0 < zcard
    ensures WaitersOf(s, key)[0].client in s.info && Counted(s)
    ensures var list := WaitersOf(s, key);
            var c := list[0].client;
            if s.info[c].kind != SortedSets then
              && key in s.blocking && Consistent(Rotated(s, key))
              && ScoredLoop(s, key, n, zcard) == ScoredLoop(Rotated(s, key), key, n - 1, zcard)
            else
              var t := ServeScored(s, key, c, zcard);
              && Consistent(t) && WaitersOf(t, key) == list[1..] && t.info == s.info - {c}
              && t.replies == s.replies + [Scored(c, key)]
              && ScoredLoop(s, key, n, zcard) == ScoredLoop(t, key, n - 1, zcard - 1)
  {
    hide Consistent, Counted, ServeScored, Rotated;
    WaiterIsBlocked(s, key);
    if s.info[WaitersOf(s, key)[0].client].kind != SortedSets {
      RotateKeeps(s, key);
    } else {
      ServeScoredKeeps(s, key, zcard);
    }
  }

  lemma ScoredPassed(s: State, key: Key, n: nat, zcard: nat, u: State)
    requires key in s.blocking && 0 < n <= |s.blocking[key]| && 0 < zcard
    requires forall w <- s.blocking[key][..n] :: w.client in s.info
    requires s.blocking[key][0].client in s.info && s.info[s.blocking[key][0].client].kind != SortedSets
    requires ScoredThrough(Rotated(s, key), key, n - 1, zcard, u)
    ensures ScoredThrough(s, key, n, zcard, u)
  {
    hide ScoredReplies, ScoredStaying, Jobs;
    var list, t := s.blocking[key], Rotated(s, key);
    FirstJob(s.info, list, n);
    var after := t.blocking[key];
    assert after == list[1..] + [list[0]];
    assert after[..n - 1] == list[1..][..n - 1] && after[n - 1..] == list[n..] + [list[0]];
    var jobs := Jobs(s.info, list[..n]);
    assert jobs[1..] == Jobs(s.info, list[1..][..n - 1]);
    ScoredNext(key, jobs, list[n..], zcard);
  }

  lemma ScoredNext(key: Key, jobs: seq<Job>, passed: seq<Waiter>, zcard: nat)
    requires jobs != [] && 0 < zcard
    ensures jobs[0].op.kind != SortedSets ==>
              && ScoredReplies(key, jobs, zcard) == ScoredReplies(key, jobs[1..], zcard)
              && ScoredStaying(jobs, passed, zcard) == ScoredStaying(jobs[1..], passed + [jobs[0].waiter], zcard)
    ensures jobs[0].op.kind == SortedSets ==>
              && ScoredReplies(key, jobs, zcard)
                 == [Scored(jobs[0].waiter.client, key)] + ScoredReplies(key, jobs[1..], zcard - 1)
              && ScoredStaying(jobs, passed, zcard) == ScoredStaying(jobs[1..], passed, zcard - 1)
  {
  }

  lemma ScoredServed(s: State, key: Key, n: nat, zcard: nat, t: State, u: State)
    requires 0 < n <= |WaitersOf(s, key)| && 0 < zcard && OneEach(WaitersOf(s, key))
    requires forall w <- WaitersOf(s, key)[..n] :: w.client in s.info
    requires WaitersOf(s, key)[0].client in s.info && s.info[WaitersOf(s, key)[0].client].kind == SortedSets
    requires var list := WaitersOf(s, key);
             && WaitersOf(t, key) == list[1..] && t.info == s.info - {list[0].client}
             && t.replies == s.replies + [Scored(list[0].client, key)]
    requires ScoredThrough(t, key, n - 1, zcard - 1, u)
    ensures ScoredThrough(s, key, n, zcard, u)
  {
    hide WaitersOf, ScoredReplies, ScoredStaying, Jobs;
    var list := WaitersOf(s, key);
    FirstJob(s.info, list, n);
    var jobs, rest := Jobs(s.info, list[..n]), list[1..][..n - 1];
    OthersRemain(s.info, list, n);
    SameJobs(s.info, t.info, rest);
    assert jobs[1..] == Jobs(t.info, rest) && list[1..][n - 1..] == list[n..];
    ScoredNext(key, jobs, list[n..], zcard);
  }

  lemma {:induction false} ScoredLoopIs(s: State, key: Key, n: nat, zcard: nat)
    requires Consistent(s) && n <= |WaitersOf(s, key)|
    ensures ScoredThrough(s, key, n, zcard, ScoredLoop(s, key, n, zcard))
    decreases n
  {
    hide Consistent, Counted, ServeScored, Rotated, ScoredThrough, ScoredLoop;
    var list := WaitersOf(s, key);
    AllWaitersBlocked(s, key);
    assert forall w <- list[..n] :: w in list;
    if n == 0 || zcard == 0 {
      ScoredNone(s, key, n, zcard);
      ScoredStops(s, key, n, zcard);
    } else {
      WaitersDistinct(s, key);
      ScoredTurns(s, key, n, zcard);
      var c := list[0].client;
      if s.info[c].kind != SortedSets {
        RotatedIs(s, key);
        ScoredLoopIs(Rotated(s, key), key, n - 1, zcard);
        ScoredPassed(s, key, n, zcard, ScoredLoop(Rotated(s, key), key, n - 1, zcard));
      } else {
        var t := ServeScored(s, key, c, zcard);
        ScoredLoopIs(t, key, n - 1, zcard - 1);
        ScoredServed(s, key, n, zcard, t, ScoredLoop(t, key, n - 1, zcard - 1));
      }
    }
  }

  lemma ScoredStops(s: State, key: Key, n: nat, zcard: nat)
    requires Consistent(s) && n <= |WaitersOf(s, key)| && (n == 0 || zcard == 0)
    ensures ScoredLoop(s, key, n, zcard) == s
  {
    hide Consistent;
  }

  /** Those who wait for a sorted set. */
  function Scorers(jobs: seq<Job>): seq<Job> {
    if jobs == [] then []
    else (if jobs[0].op.kind == SortedSets then [jobs[0]] else []) + Scorers(jobs[1..])
  }

  /** Exactly as many are served as there are elements, or all if they are fewer, in order. */
  lemma {:induction false} ScoredCount(key: Key, jobs: seq<Job>, zcard: nat)
    ensures var r, p := ScoredReplies(key, jobs, zcard), Scorers(jobs);
            && |r| == (if |p| < zcard then |p| else zcard)
            && forall i | 0 <= i < |r| :: r[i] == Scored(p[i].waiter.client, key)
  {
    if jobs != [] && 0 < zcard {
      ScoredCount(key, jobs[1..], if jobs[0].op.kind == SortedSets then zcard - 1 else zcard);
    }
  }

  /** Whoever waits for the key, and whatever for: those who wait for a sorted set are served in the order they blocked while
      elements last, and the others wait on. */
  lemma ScoredInOrder(s: State, key: Key, zcard: nat)
    requires Consistent(s)
    ensures forall w <- WaitersOf(s, key) :: w.client in s.info
    ensures var list := WaitersOf(s, key);
            var jobs, u := Jobs(s.info, list), ScoredLoop(s, key, |list|, zcard);
            && u.replies == s.replies + ScoredReplies(key, jobs, zcard)
            && WaitersOf(u, key) == ScoredStaying(jobs, [], zcard)
  {
    hide Consistent, ScoredLoop, WaitersOf, ScoredReplies, ScoredStaying, Jobs;
    var list := WaitersOf(s, key);
    AllWaitersBlocked(s, key);
    ScoredLoopIs(s, key, |list|, zcard);
    assert list[..|list|] == list && list[|list|..] == [];
  }

  // ---------------------------------------------------------------------------------------------------------
  // Streams
  // ---------------------------------------------------------------------------------------------------------

  /** The entries after an ID. */
  function Newer(ids: seq<nat>, after: nat): seq<nat> {
    if ids == [] then [] else (if ids[0] > after then [ids[0]] else []) + Newer(ids[1..], after)
  }

  /** XREAD's COUNT, where 0 means all. */
  function Limit(ids: seq<nat>, count: nat): seq<nat> {
    if count == 0 || |ids| <= count then ids else ids[..count]
  }

  /** Where a client reads on: after its group's last ID, or after the last ID it has seen itself. */
  function ReadsAfter(op: Info, key: Key, groups: map<string, nat>): nat
    requires op.group.Some? ==> op.group.value in groups
  {
    if op.group.Some? then groups[op.group.value] else if key in op.seen then op.seen[key] else 0
  }

  datatype Wakeup = Sleeps | GroupGone | Reads(ids: seq<nat>)

  /** Whether a client has something to read from a stream. */
  function WakesFor(op: Info, key: Key, stream: Value): Wakeup
    requires stream.StreamValue?
  {
    if op.kind != Streams then Sleeps
    else if op.group.Some? && op.group.value !in stream.groups then GroupGone
    else
      var gt := ReadsAfter(op, key, stream.groups);
      if stream.lastId <= gt then Sleeps else Reads(Limit(Newer(stream.entries, gt), op.count))
  }

  /** streamReplyWithRange moves the group on to the last entry it sends. */
  function ReadBy(op: Info, stream: Value, ids: seq<nat>): (v: Value)
    requires stream.StreamValue?
    ensures v.StreamValue?
  {
    if op.group.Some? && ids != [] then stream.(groups := stream.groups[op.group.value := ids[|ids| - 1]]) else stream
  }

  /** One client of the loop of serveClientsBlockedOnStreamKey. */
  ghost function StreamStep(s: State, key: Key, c: Client): State
    requires Counted(s) && c in s.info && key in s.db && s.db[key].StreamValue?
  {
    var op, stream := s.info[c], s.db[key];
    match WakesFor(op, key, stream)
    case Sleeps => s
    case GroupGone => var t := Unblock(s, c); t.(replies := t.replies + [NoGroup(c)])
    case Reads(ids) =>
      var t := Unblock(s, c);
      t.(db := t.db[key := ReadBy(op, stream, ids)], replies := t.replies + [Streamed(c, key, ids)])
  }

  lemma StreamStepKeeps(s: State, key: Key, c: Client)
    requires Consistent(s) && c in s.info && key in s.db && s.db[key].StreamValue?
    ensures Counted(s)
    ensures var t, wakeup := StreamStep(s, key, c), WakesFor(s.info[c], key, s.db[key]);
            && Consistent(t) && t.info == (if wakeup.Sleeps? then s.info else s.info - {c})
            && t.ready == s.ready && t.readySet == s.readySet
            && key in t.db && t.db[key] == (if wakeup.Reads? then ReadBy(s.info[c], s.db[key], wakeup.ids) else s.db[key])
            && t.replies == s.replies + (match wakeup case Sleeps => [] case GroupGone => [NoGroup(c)]
                                                      case Reads(ids) => [Streamed(c, key, ids)])
  {
    hide Indexed, NodesDistinct, Counted, Remaining, WakesFor, ReadBy;
    UnblockKeeps(s, c);
    OtherFields(Unblock(s, c), Unblock(s, c).(db := StreamStep(s, key, c).db, replies := StreamStep(s, key, c).replies));
  }

  /** The loop, over the list as it was when it began. */
  ghost function StreamLoop(s: State, key: Key, list: seq<Waiter>): State
    requires Consistent(s) && key in s.db && s.db[key].StreamValue?
    requires OneEach(list) && forall w <- list :: w.client in s.info
    decreases |list|
  {
    if list == [] then s
    else
      assert list[0] in list;
      StreamStepKeeps(s, key, list[0].client);
      OthersStay(list);
      StreamLoop(StreamStep(s, key, list[0].client), key, list[1..])
  }

  lemma OthersStay(list: seq<Waiter>)
    requires list != [] && OneEach(list)
    ensures OneEach(list[1..]) && forall w <- list[1..] :: w in list && w.client != list[0].client
  {
  }

  lemma {:induction false} StreamLoopKeeps(s: State, key: Key, list: seq<Waiter>)
    requires Consistent(s) && key in s.db && s.db[key].StreamValue?
    requires OneEach(list) && forall w <- list :: w.client in s.info
    ensures var t := StreamLoop(s, key, list);
            && Consistent(t) && t.info.Keys <= s.info.Keys && t.ready == s.ready && t.readySet == s.readySet
            && key in t.db && t.db[key].StreamValue? && t.db[key].entries == s.db[key].entries
    decreases |list|
  {
    hide Consistent, Counted, StreamStep, WakesFor;
    if list != [] {
      assert list[0] in list;
      StreamStepKeeps(s, key, list[0].client);
      OthersStay(list);
      StreamLoopKeeps(StreamStep(s, key, list[0].client), key, list[1..]);
    }
  }

  // ---------------------------------------------------------------------------------------------------------
  // Groups share a stream
  // ---------------------------------------------------------------------------------------------------------

  predicate Increasing(ids: seq<nat>) {
    forall i, j | 0 <= i < j < |ids| :: ids[i] < ids[j]
  }

  /** The entries after one ID, up to another. */
  function Between(ids: seq<nat>, after: nat, last: nat): seq<nat> {
    if ids == [] then [] else (if after < ids[0] <= last then [ids[0]] else []) + Between(ids[1..], after, last)
  }

  lemma {:induction false} NothingBetween(ids: seq<nat>, after: nat)
    ensures Between(ids, after, after) == []
  {
    if ids != [] { NothingBetween(ids[1..], after); }
  }

  lemma IncreasingTail(ids: seq<nat>)
    requires Increasing(ids) && ids != []
    ensures Increasing(ids[1..]) && AllAbove(ids[1..], ids[0])
  {
  }

  predicate AllAbove(ids: seq<nat>, b: nat) {
    forall i | 0 <= i < |ids| :: ids[i] > b
  }

  lemma BetweenNext(ids: seq<nat>, after: nat, last: nat)
    requires ids != []
    ensures Between(ids, after, last) == (if after < ids[0] <= last then [ids[0]] else []) + Between(ids[1..], after, last)
  {
  }

  lemma {:induction false} BetweenJoins(ids: seq<nat>, a: nat, b: nat, c: nat)
    requires Increasing(ids) && a <= b <= c
    ensures Between(ids, a, b) + Between(ids, b, c) == Between(ids, a, c)
  {
    if ids != [] {
      hide Increasing, Between, AllAbove;
      var x, rest := ids[0], ids[1..];
      IncreasingTail(ids);
      BetweenJoins(rest, a, b, c);
      BetweenNext(ids, a, b);
      BetweenNext(ids, b, c);
      BetweenNext(ids, a, c);
      if a < x <= b {
        assert [x] + Between(rest, a, b) + Between(rest, b, c) == [x] + (Between(rest, a, b) + Between(rest, b, c));
      } else if b < x {
        NoneBelow(rest, a, b, x);
      }
    }
  }

  lemma {:induction false} NoneBelow(ids: seq<nat>, a: nat, b: nat, x: nat)
    requires AllAbove(ids, x) && b <= x
    ensures Between(ids, a, b) == []
  {
    if ids != [] {
      assert ids[0] > x;
      NoneBelow(ids[1..], a, b, x);
    }
  }

  /** The first n entries after an ID are those up to the last of them. */
  lemma {:induction false} FirstAreBetween(ids: seq<nat>, after: nat, n: nat)
    requires Increasing(ids) && 0 < n <= |Newer(ids, after)|
    ensures var last := Newer(ids, after)[n - 1];
            after < last && last in ids && Newer(ids, after)[..n] == Between(ids, after, last)
  {
    hide Increasing, Between;
    var newer, rest := Newer(ids, after), ids[1..];
    IncreasingTail(ids);
    var last := newer[n - 1];
    BetweenNext(ids, after, last);
    if ids[0] <= after {
      FirstAreBetween(rest, after, n);
    } else if n == 1 {
      NoneBelow(rest, after, ids[0], ids[0]);
    } else {
      assert newer == [ids[0]] + Newer(rest, after);
      FirstAreBetween(rest, after, n - 1);
      assert newer[..n] == [ids[0]] + Newer(rest, after)[..n - 1];
    }
  }

  lemma LimitIsBetween(ids: seq<nat>, after: nat, count: nat)
    requires Increasing(ids) && Limit(Newer(ids, after), count) != []
    ensures var sent := Limit(Newer(ids, after), count);
            after < sent[|sent| - 1] && sent == Between(ids, after, sent[|sent| - 1])
  {
    var newer := Newer(ids, after);
    var sent := Limit(newer, count);
    FirstAreBetween(ids, after, |sent|);
    assert newer[..|sent|] == sent;
  }

  /** What the clients of a group were sent, in order. */
  function SentTo(infos: map<Client, Info>, group: string, replies: seq<Reply>): seq<nat> {
    if replies == [] then []
    else
      var r := replies[0];
      (if r.Streamed? && r.client in infos && infos[r.client].group == Some(group) then r.ids else [])
      + SentTo(infos, group, replies[1..])
  }

  /** One client: what its group was sent and how far the group moved on agree. */
  lemma StepShares(op: Info, key: Key, stream: Value, group: string)
    requires stream.StreamValue? && Increasing(stream.entries) && group in stream.groups
    ensures var wakeup := WakesFor(op, key, stream);
            var now := if wakeup.Reads? then ReadBy(op, stream, wakeup.ids) else stream;
            && now.entries == stream.entries && group in now.groups && stream.groups[group] <= now.groups[group]
            && (if wakeup.Reads? && op.group == Some(group) then wakeup.ids else [])
               == Between(stream.entries, stream.groups[group], now.groups[group])
  {
    hide Between, Newer, Limit, Increasing;
    NothingBetween(stream.entries, stream.groups[group]);
    var wakeup := WakesFor(op, key, stream);
    if wakeup.Reads? && op.group == Some(group) && wakeup.ids != [] {
      LimitIsBetween(stream.entries, stream.groups[group], op.count);
    }
  }

  lemma StreamLoopNext(s: State, key: Key, list: seq<Waiter>)
    requires Consistent(s) && key in s.db && s.db[key].StreamValue? && list != []
    requires OneEach(list) && forall w <- list :: w.client in s.info
    ensures list[0].client in s.info && Counted(s)
    ensures var t := StreamStep(s, key, list[0].client);
            && Consistent(t) && key in t.db && t.db[key].StreamValue?
            && OneEach(list[1..]) && (forall w <- list[1..] :: w.client in t.info && t.info[w.client] == s.info[w.client])
            && StreamLoop(s, key, list) == StreamLoop(t, key, list[1..])
  {
    hide Consistent, Counted, StreamStep, WakesFor, OneEach;
    assert list[0] in list;
    StreamStepKeeps(s, key, list[0].client);
    OthersStay(list);
  }

  lemma SentByStep(s: State, infos: map<Client, Info>, key: Key, c: Client, group: string) returns (first: seq<Reply>)
    requires Consistent(s) && key in s.db && s.db[key].StreamValue? && c in s.info && c in infos && infos[c] == s.info[c]
    requires Increasing(s.db[key].entries) && group in s.db[key].groups
    ensures Counted(s) && |first| <= 1
    ensures var t := StreamStep(s, key, c);
            && t.replies == s.replies + first && key in t.db && t.db[key].StreamValue? && group in t.db[key].groups
            && t.db[key].entries == s.db[key].entries && s.db[key].groups[group] <= t.db[key].groups[group]
            && SentTo(infos, group, first) == Between(s.db[key].entries, s.db[key].groups[group], t.db[key].groups[group])
  {
    hide Consistent, Counted, StreamStep, Increasing, WakesFor, ReadBy, Between;
    StreamStepKeeps(s, key, c);
    StepShares(s.info[c], key, s.db[key], group);
    match WakesFor(s.info[c], key, s.db[key])
    case Sleeps => first := [];
    case GroupGone =>
      first := [NoGroup(c)];
      assert first[1..] == [];
    case Reads(ids) =>
      first := [Streamed(c, key, ids)];
      assert first[1..] == [] && ids + [] == ids;
  }

  lemma NothingSent(s: State, infos: map<Client, Info>, key: Key, group: string)
    requires Consistent(s) && key in s.db && s.db[key].StreamValue? && group in s.db[key].groups
    ensures StreamLoop(s, key, []) == s && SentTo(infos, group, []) == []
    ensures Between(s.db[key].entries, s.db[key].groups[group], s.db[key].groups[group]) == []
  {
    hide Consistent;
    NothingBetween(s.db[key].entries, s.db[key].groups[group]);
  }

  /** The clients wait, and their operations are known. */
  predicate KnownIn(s: State, infos: map<Client, Info>, list: seq<Waiter>) {
    forall w <- list :: w.client in s.info && w.client in infos && infos[w.client] == s.info[w.client]
  }

  lemma KnownNext(s: State, t: State, infos: map<Client, Info>, list: seq<Waiter>)
    requires list != [] && KnownIn(s, infos, list)
    requires forall w <- list[1..] :: w.client in t.info && t.info[w.client] == s.info[w.client]
    ensures list[0].client in infos && list[0].client in s.info && infos[list[0].client] == s.info[list[0].client]
    ensures KnownIn(t, infos, list[1..])
  {
    assert list[0] in list && forall w <- list[1..] :: w in list;
  }

  /** The clients of a group share a stream: together they are sent, in order and without repetition, exactly the entries
      between where the group stood and where it stands after the loop. */
  lemma {:induction false} GroupShares(s: State, infos: map<Client, Info>, key: Key, list: seq<Waiter>, group: string)
    returns (more: seq<Reply>)
    requires Consistent(s) && key in s.db && s.db[key].StreamValue? && OneEach(list) && KnownIn(s, infos, list)
    requires Increasing(s.db[key].entries) && group in s.db[key].groups
    ensures var t := StreamLoop(s, key, list);
            && t.replies == s.replies + more && key in t.db && t.db[key].StreamValue? && group in t.db[key].groups
            && s.db[key].groups[group] <= t.db[key].groups[group]
            && SentTo(infos, group, more) == Between(s.db[key].entries, s.db[key].groups[group], t.db[key].groups[group])
    decreases |list|
  {
    hide Consistent, Counted, StreamStep, StreamLoop, Increasing, Between, OneEach, SentTo;
    if list == [] {
      more := [];
      NothingSent(s, infos, key, group);
    } else {
      StreamLoopNext(s, key, list);
      var c := list[0].client;
      var t := StreamStep(s, key, c);
      KnownNext(s, t, infos, list);
      var first := SentByStep(s, infos, key, c, group);
      var rest := GroupShares(t, infos, key, list[1..], group);
      var u := StreamLoop(t, key, list[1..]);
      more := first + rest;
      SentFirst(infos, group, first, rest);
      BetweenJoins(s.db[key].entries, s.db[key].groups[group], t.db[key].groups[group], u.db[key].groups[group]);
    }
  }

  lemma SentFirst(infos: map<Client, Info>, group: string, first: seq<Reply>, rest: seq<Reply>)
    requires |first| <= 1
    ensures SentTo(infos, group, first + rest) == SentTo(infos, group, first) + SentTo(infos, group, rest)
  {
    if first == [] {
      assert first + rest == rest;
    } else {
      assert (first + rest)[1..] == rest && first[1..] == [];
    }
  }

  // ---------------------------------------------------------------------------------------------------------
  // Frame
  // ---------------------------------------------------------------------------------------------------------

  /** The index and the counters do not depend on the database, the replies or the queue. */
  lemma OtherFields(s: State, t: State)
    requires Consistent(s) && t == s.(db := t.db, replies := t.replies, ready := t.ready, readySet := t.readySet)
    ensures Consistent(t)
  {
    hide Indexed, NodesDistinct, Counted;
    SameCounted(s, t);
    SameIndex(s, t);
  }
}
