/** No client is overlooked: nobody waits for a key that could serve it unless the key is queued. */
module BlockedWaking {
  import opened Basics
  import opened Blocked
  import opened BlockedServing
  import opened BlockedOthers
  import opened BlockedMoves

  /** Somebody waits for a value of this kind at the key. */
  predicate Waiting(s: State, k: Key, kind: Kind) {
    exists w <- WaitersOf(s, k) :: w.client in s.info && s.info[w.client].kind == kind
  }

  /** The key holds a list or a sorted set, and somebody waits for just that. */
  predicate Due(s: State, k: Key) {
    && k in s.db
    && ((s.db[k].ListValue? && Waiting(s, k, Lists)) || (s.db[k].SortedSetValue? && Waiting(s, k, SortedSets)))
  }

  /** Every key that could serve somebody, this one apart, is queued. */
  ghost predicate AwakeBut(s: State, key: Option<Key>) {
    forall k | Due(s, k) && key != Some(k) :: k in s.readySet
  }

  ghost predicate Awake(s: State) { AwakeBut(s, None) }

  /** Lists and sorted sets are never empty: the last element takes the key with it. */
  predicate Solid(db: map<Key, Value>) {
    forall k <- db :: db[k] != ListValue([]) && db[k] != SortedSetValue(0)
  }

  /** What a type of value can serve. */
  function KindOf(v: Value): Option<Kind> {
    match v
    case ListValue(_) => Some(Lists)
    case SortedSetValue(_) => Some(SortedSets)
    case StreamValue(_, _, _) => Some(Streams)
    case OtherValue => None
  }

  /** From s to t clients only left. */
  ghost predicate Leaving(s: State, t: State) {
    && (forall c <- t.info :: c in s.info && t.info[c] == s.info[c])
    && (forall k <- t.blocking, w <- t.blocking[k] :: k in s.blocking && w in s.blocking[k])
  }

  lemma LeavingWaits(s: State, t: State, k: Key, kind: Kind)
    requires Leaving(s, t) && Waiting(t, k, kind)
    ensures Waiting(s, k, kind)
  {
    var w :| w in WaitersOf(t, k) && w.client in t.info && t.info[w.client].kind == kind;
    assert w in t.blocking[k];
    assert w in WaitersOf(s, k);
  }

  lemma WaitingCounts(s: State, k: Key, kind: Kind)
    requires Consistent(s) && Waiting(s, k, kind)
    ensures k in s.blocking && kind in s.byKind && s.byKind[kind] != 0
  {
    hide Indexed, NodesDistinct;
    var w :| w in WaitersOf(s, k) && w.client in s.info && s.info[w.client].kind == kind;
    assert KindCounted(s, kind) && w.client in OfKind(s.info, kind);
  }

  // ---------------------------------------------------------------------------------------------------------
  // Lists
  // ---------------------------------------------------------------------------------------------------------

  /** Whoever still waits for a list when the loop ends with elements left was not there when it began. */
  lemma {:induction false} NoneStays(key: Key, wrong: set<Key>, jobs: seq<Job>, passed: seq<Waiter>, items: seq<Elem>,
                                     w: Waiter)
    requires LeftOver(key, wrong, jobs, items) != [] && w in Staying(key, wrong, jobs, passed, items)
    ensures w in passed || exists j <- jobs :: j.waiter == w && j.op.kind != Lists
    decreases |jobs|
  {
    hide Turned, TakesAway, Fails;
    if jobs != [] {
      var j := jobs[0];
      assert j in jobs && forall x <- jobs[1..] :: x in jobs;
      if items == [] {
        assert false;
      } else if j.op.kind != Lists {
        NoneStays(key, wrong, jobs[1..], passed + [j.waiter], items, w);
      } else {
        NoneStays(key, wrong, jobs[1..], passed, Turned(j.op, key, wrong, items), w);
      }
    }
  }

  lemma {:induction false} JobsKnown(infos: map<Client, Info>, list: seq<Waiter>)
    requires forall w <- list :: w.client in infos
    ensures forall j <- Jobs(infos, list) :: j.waiter in list && j.waiter.client in infos && j.op == infos[j.waiter.client]
  {
    if list != [] { JobsKnown(infos, list[1..]); }
  }

  /** After the loop over a list the key is not due: the list is empty, or nobody waits for it any more. */
  lemma ListIsSettled(s: State, key: Key)
    requires Consistent(s) && key in s.db && s.db[key].ListValue?
    ensures var u := ServeLoop(s, key, |WaitersOf(s, key)|);
            key in u.db && u.db[key].ListValue? && (u.db[key].items == [] || !Waiting(u, key, Lists))
  {
    hide Consistent, ServeLoop, WaitersOf, LeftOver, Staying, Jobs, Deliveries, MovedThrough;
    var list, items, wrong := WaitersOf(s, key), s.db[key].items, Wrong(s.db);
    FirstComeFirstServed(s, key);
    ServeLoopLeaves(s, key);
    var jobs, u := Jobs(s.info, list), ServeLoop(s, key, |list|);
    if u.db[key].items != [] && Waiting(u, key, Lists) {
      var w :| w in WaitersOf(u, key) && w.client in u.info && u.info[w.client].kind == Lists;
      NoneStays(key, wrong, jobs, [], items, w);
      JobsKnown(s.info, list);
      assert false;
    }
  }

  lemma ServeLoopLeaves(s: State, key: Key)
    requires Consistent(s) && key in s.db && s.db[key].ListValue?
    ensures var u := ServeLoop(s, key, |WaitersOf(s, key)|);
            && Leaving(s, u) && s.readySet <= u.readySet && s.db.Keys <= u.db.Keys && Lists in u.byKind
            && forall k <- u.db | k !in s.db && k in u.blocking && u.byKind[Lists] != 0 :: k in u.readySet
  {
    hide Consistent, ServeLoop, WaitersOf, Jobs, Moves, Handed, Total, KeyAfter;
    ServeLoopMoves(s, key, |WaitersOf(s, key)|);
  }

  /** A key is a list after the loop if it was one, or is new; nothing else changed its type. */
  lemma SameTypes(s: State, key: Key, k: Key)
    requires Consistent(s) && key in s.db && s.db[key].ListValue? && k != key
    ensures var u := ServeLoop(s, key, |WaitersOf(s, key)|);
            && (k in s.db ==> k in u.db && KindOf(u.db[k]) == KindOf(s.db[k]))
            && (k in u.db && k !in s.db ==> u.db[k].ListValue?)
  {
    hide Consistent, ServeLoop, WaitersOf, Jobs, Moves, Handed, Total, Arrived, Targeted;
    ElementsAreConserved(s, key);
    var jobs, u := Jobs(s.info, WaitersOf(s, key)), ServeLoop(s, key, |WaitersOf(s, key)|);
    assert KeyAfter(s.db, u.db, Moves(key, Wrong(s.db), jobs, s.db[key].items), k);
  }

  /** Serving a list leaves nobody overlooked, however the elements were moved on. */
  lemma ListAwake(s: State, key: Key)
    requires Consistent(s) && key in s.db && s.db[key].ListValue? && AwakeBut(s, Some(key))
    ensures var u := ServeLoop(s, key, |WaitersOf(s, key)|);
            key in u.db && u.db[key].ListValue? && Awake(if u.db[key].items == [] then u.(db := u.db - {key}) else u)
  {
    hide Consistent, ServeLoop, WaitersOf, Leaving, KindOf, Waiting;
    var u := ServeLoop(s, key, |WaitersOf(s, key)|);
    ListIsSettled(s, key);
    ServeLoopLeaves(s, key);
    ServeLoopKeeps(s, key, |WaitersOf(s, key)|);
    var v := if u.db[key].items == [] then u.(db := u.db - {key}) else u;
    forall k | Due(v, k) ensures k in v.readySet {
      SameWaiting(u, v, k, Lists);
      SameWaiting(u, v, k, SortedSets);
      assert k != key;
      SameTypes(s, key, k);
      StillDue(s, u, key, k);
    }
  }

  lemma SameWaiting(s: State, t: State, k: Key, kind: Kind)
    requires t.blocking == s.blocking && t.info == s.info
    ensures Waiting(t, k, kind) == Waiting(s, k, kind)
  {
  }

  lemma StillDue(s: State, u: State, key: Key, k: Key)
    requires AwakeBut(s, Some(key)) && Consistent(u) && Leaving(s, u) && s.readySet <= u.readySet && k != key && Due(u, k)
    requires k in s.db ==> KindOf(u.db[k]) == KindOf(s.db[k])
    requires k !in s.db ==> u.db[k].ListValue?
    requires Lists in u.byKind
    requires forall l <- u.db | l !in s.db && l in u.blocking && u.byKind[Lists] != 0 :: l in u.readySet
    ensures k in u.readySet
  {
    hide Consistent, Leaving, Waiting;
    var kind := if u.db[k].ListValue? then Lists else SortedSets;
    WaitingCounts(u, k, kind);
    LeavingWaits(s, u, k, kind);
    if k in s.db { assert Due(s, k); }
  }

  lemma {:induction false} ArrivedSolid(moves: seq<Move>, k: Key, items: seq<Elem>)
    requires Targeted(moves, k) || items != []
    ensures Arrived(moves, k, items) != []
  {
    if moves != [] {
      assert moves == [moves[0]] + moves[1..];
      TargetedFirst(moves[0], moves[1..], k);
      ArrivedSolid(moves[1..], k, if moves[0].dst == k then Push(items, moves[0].elem, moves[0].to) else items);
    }
  }

  lemma ListSolid(s: State, key: Key)
    requires Consistent(s) && key in s.db && s.db[key].ListValue? && Solid(s.db)
    ensures var u := ServeLoop(s, key, |WaitersOf(s, key)|);
            key in u.db && u.db[key].ListValue? && Solid(if u.db[key].items == [] then u.db - {key} else u.db)
  {
    hide Consistent, ServeLoop, WaitersOf, Jobs, Moves, Handed, Total, Arrived, Targeted, Deliveries, LeftOver, Staying;
    ElementsAreConserved(s, key);
    FirstComeFirstServed(s, key);
    var jobs, u := Jobs(s.info, WaitersOf(s, key)), ServeLoop(s, key, |WaitersOf(s, key)|);
    var moves := Moves(key, Wrong(s.db), jobs, s.db[key].items);
    forall k <- u.db | k != key ensures u.db[k] != ListValue([]) && u.db[k] != SortedSetValue(0) {
      assert KeyAfter(s.db, u.db, moves, k);
      if Targeted(moves, k) { ArrivedSolid(moves, k, ItemsAt(s.db, k)); }
    }
  }

  // ---------------------------------------------------------------------------------------------------------
  // Sorted sets
  // ---------------------------------------------------------------------------------------------------------

  /** The database after a sorted set lost some of its elements. */
  function Shrunk(db: map<Key, Value>, key: Key, zcard: nat, served: nat): map<Key, Value>
    requires served <= zcard
  {
    if served == 0 then db else if served == zcard then db - {key} else db[key := SortedSetValue(zcard - served)]
  }

  /** From s to u, `served` elements were popped; clients only left. */
  ghost predicate PoppedThrough(s: State, key: Key, zcard: nat, served: nat, u: State) {
    && served <= zcard && u.db == Shrunk(s.db, key, zcard, served)
    && Leaving(s, u) && u.readySet == s.readySet
  }

  lemma LeavingTwice(s: State, t: State, u: State)
    requires Leaving(s, t) && Leaving(t, u)
    ensures Leaving(s, u)
  {
  }

  lemma LeavingRotated(s: State, key: Key)
    requires key in s.blocking && s.blocking[key] != []
    ensures Leaving(s, Rotated(s, key)) && Rotated(s, key).db == s.db && Rotated(s, key).readySet == s.readySet
  {
    RotateMembers(s.blocking[key]);
  }

  lemma LeavingUnblock(s: State, c: Client)
    requires Counted(s) && c in s.info
    ensures var t := Unblock(s, c); Leaving(s, t) && t.db == s.db && t.readySet == s.readySet
  {
    hide Counted;
  }

  lemma ScoredOne(s: State, key: Key, c: Client, zcard: nat)
    requires Counted(s) && c in s.info && 0 < zcard
    ensures PoppedThrough(s, key, zcard, 1, ServeScored(s, key, c, zcard))
  {
    hide Counted, Unblock;
    LeavingUnblock(s, c);
  }

  lemma PoppedTwice(s: State, key: Key, zcard: nat, t: State, served: nat, u: State)
    requires 0 < zcard && PoppedThrough(s, key, zcard, 1, t) && PoppedThrough(t, key, zcard - 1, served, u)
    ensures PoppedThrough(s, key, zcard, served + 1, u)
  {
    hide Leaving;
    LeavingTwice(s, t, u);
    if served == 0 {
    } else if served == zcard - 1 {
      assert s.db[key := SortedSetValue(zcard - 1)] - {key} == s.db - {key};
    } else {
      assert s.db[key := SortedSetValue(zcard - 1)][key := SortedSetValue(zcard - 1 - served)]
             == s.db[key := SortedSetValue(zcard - 1 - served)];
    }
  }

  /** The loop pops one element for every client it serves. */
  lemma {:induction false} ScoredLoopPops(s: State, key: Key, n: nat, zcard: nat)
    requires Consistent(s) && n <= |WaitersOf(s, key)|
    ensures forall w <- WaitersOf(s, key)[..n] :: w.client in s.info
    ensures var jobs := Jobs(s.info, WaitersOf(s, key)[..n]);
            PoppedThrough(s, key, zcard, |ScoredReplies(key, jobs, zcard)|, ScoredLoop(s, key, n, zcard))
    decreases n
  {
    hide Consistent, Counted, ServeScored, Rotated, ScoredLoop, PoppedThrough, ScoredReplies, Jobs;
    var list := WaitersOf(s, key);
    AllWaitersBlocked(s, key);
    assert forall w <- list[..n] :: w in list;
    var jobs := Jobs(s.info, list[..n]);
    if n == 0 || zcard == 0 {
      ScoredStops(s, key, n, zcard);
      NoneScored(key, jobs, zcard);
      PoppedNone(s, key, zcard);
    } else {
      WaitersDistinct(s, key);
      ScoredTurns(s, key, n, zcard);
      FirstJob(s.info, list, n);
      ScoredNext(key, jobs, [], zcard);
      assert jobs[1..] == Jobs(s.info, list[1..][..n - 1]);
      var c := list[0].client;
      if s.info[c].kind != SortedSets {
        RotatedIs(s, key);
        var t := Rotated(s, key);
        RotatedWaiters(s, key, n);
        ScoredLoopPops(t, key, n - 1, zcard);
        PoppedAfter(s, key, t, zcard, |ScoredReplies(key, jobs, zcard)|, ScoredLoop(t, key, n - 1, zcard));
      } else {
        var t := ServeScored(s, key, c, zcard);
        OthersRemain(s.info, list, n);
        SameJobs(s.info, t.info, list[1..][..n - 1]);
        ScoredOne(s, key, c, zcard);
        ScoredLoopPops(t, key, n - 1, zcard - 1);
        PoppedTwice(s, key, zcard, t, |ScoredReplies(key, jobs[1..], zcard - 1)|, ScoredLoop(t, key, n - 1, zcard - 1));
      }
    }
  }

  lemma NoneScored(key: Key, jobs: seq<Job>, zcard: nat)
    requires jobs == [] || zcard == 0
    ensures ScoredReplies(key, jobs, zcard) == []
  {
  }

  lemma PoppedNone(s: State, key: Key, zcard: nat)
    ensures PoppedThrough(s, key, zcard, 0, s)
  {
  }

  lemma RotatedWaiters(s: State, key: Key, n: nat)
    requires key in s.blocking && 0 < n <= |s.blocking[key]|
    ensures WaitersOf(Rotated(s, key), key)[..n - 1] == WaitersOf(s, key)[1..][..n - 1]
    ensures Rotated(s, key).info == s.info
  {
  }

  lemma PoppedAfter(s: State, key: Key, t: State, zcard: nat, served: nat, u: State)
    requires key in s.blocking && s.blocking[key] != [] && t == Rotated(s, key) && PoppedThrough(t, key, zcard, served, u)
    ensures PoppedThrough(s, key, zcard, served, u)
  {
    hide Leaving, Rotated;
    LeavingRotated(s, key);
    LeavingTwice(s, t, u);
  }

  /** The sorted set loses exactly as many elements as clients are served, and no other key changes. */
  lemma ScoredPops(s: State, key: Key, zcard: nat)
    requires Consistent(s)
    ensures forall w <- WaitersOf(s, key) :: w.client in s.info
    ensures var list := WaitersOf(s, key);
            var u, served := ScoredLoop(s, key, |list|, zcard), |ScoredReplies(key, Jobs(s.info, list), zcard)|;
            PoppedThrough(s, key, zcard, served, u)
  {
    hide Consistent, ScoredLoop, PoppedThrough, ScoredReplies, Jobs;
    AllWaitersBlocked(s, key);
    ScoredLoopPops(s, key, |WaitersOf(s, key)|, zcard);
    assert WaitersOf(s, key)[..|WaitersOf(s, key)|] == WaitersOf(s, key);
  }

  lemma {:induction false} NoScorerStays(key: Key, jobs: seq<Job>, passed: seq<Waiter>, zcard: nat, w: Waiter)
    requires |ScoredReplies(key, jobs, zcard)| < zcard && w in ScoredStaying(jobs, passed, zcard)
    ensures w in passed || exists j <- jobs :: j.waiter == w && j.op.kind != SortedSets
    decreases |jobs|
  {
    if jobs != [] {
      var j := jobs[0];
      assert j in jobs && forall x <- jobs[1..] :: x in jobs;
      if j.op.kind != SortedSets {
        NoScorerStays(key, jobs[1..], passed + [j.waiter], zcard, w);
      } else {
        NoScorerStays(key, jobs[1..], passed, zcard - 1, w);
      }
    }
  }

  /** Serving a sorted set leaves nobody overlooked. */
  lemma ScoredAwake(s: State, key: Key)
    requires Consistent(s) && key in s.db && s.db[key].SortedSetValue? && AwakeBut(s, Some(key)) && Solid(s.db)
    ensures var u := ScoredLoop(s, key, |WaitersOf(s, key)|, s.db[key].card); Awake(u) && Solid(u.db)
  {
    hide Consistent, ScoredLoop, WaitersOf, ScoredReplies, ScoredStaying, Jobs, Leaving, Waiting;
    var list, zcard := WaitersOf(s, key), s.db[key].card;
    var u := ScoredLoop(s, key, |list|, zcard);
    ScoredPops(s, key, zcard);
    ScoredInOrder(s, key, zcard);
    var served := |ScoredReplies(key, Jobs(s.info, list), zcard)|;
    forall k | Due(u, k) ensures k in u.readySet {
      if k == key {
        ScorersGone(s, key, u);
        assert false;
      } else {
        if u.db[k].ListValue? {
          LeavingWaits(s, u, k, Lists);
        } else {
          LeavingWaits(s, u, k, SortedSets);
        }
        assert Due(s, k);
      }
    }
  }

  lemma ScorersGone(s: State, key: Key, u: State)
    requires key in s.db && s.db[key].SortedSetValue? && s.db[key].card != 0
    requires forall w <- WaitersOf(s, key) :: w.client in s.info
    requires var zcard, jobs := s.db[key].card, Jobs(s.info, WaitersOf(s, key));
             PoppedThrough(s, key, zcard, |ScoredReplies(key, jobs, zcard)|, u)
             && WaitersOf(u, key) == ScoredStaying(jobs, [], zcard)
    ensures !Due(u, key)
  {
    hide WaitersOf, ScoredReplies, ScoredStaying, Jobs;
    var zcard, jobs := s.db[key].card, Jobs(s.info, WaitersOf(s, key));
    if Due(u, key) {
      var w :| w in WaitersOf(u, key) && w.client in u.info && u.info[w.client].kind == SortedSets;
      NoScorerStays(key, jobs, [], zcard, w);
      JobsKnown(s.info, WaitersOf(s, key));
      assert false;
    }
  }

  // ---------------------------------------------------------------------------------------------------------
  // Streams
  // ---------------------------------------------------------------------------------------------------------

  lemma StreamStepLeaves(s: State, key: Key, c: Client)
    requires Counted(s) && c in s.info && key in s.db && s.db[key].StreamValue?
    ensures var t := StreamStep(s, key, c);
            && Leaving(s, t) && t.readySet == s.readySet
            && key in t.db && t.db[key].StreamValue? && t.db == s.db[key := t.db[key]]
  {
    hide Counted, Unblock, WakesFor, ReadBy, Leaving;
    LeavingUnblock(s, c);
    LeavingNone(s);
    OnlyAnswered(s, Unblock(s, c), StreamStep(s, key, c));
  }

  lemma OnlyAnswered(s: State, t: State, u: State)
    requires Leaving(s, t)
    ensures u.info == t.info && u.blocking == t.blocking ==> Leaving(s, u)
  {
  }

  lemma {:induction false} StreamLoopLeaves(s: State, key: Key, list: seq<Waiter>)
    requires Consistent(s) && key in s.db && s.db[key].StreamValue?
    requires OneEach(list) && forall w <- list :: w.client in s.info
    ensures var t := StreamLoop(s, key, list);
            && Leaving(s, t) && t.readySet == s.readySet
            && key in t.db && t.db[key].StreamValue? && t.db == s.db[key := t.db[key]]
    decreases |list|
  {
    hide Consistent, Counted, StreamStep, StreamLoop, OneEach, Leaving;
    if list == [] {
      StreamStops(s, key, list);
      LeavingNone(s);
    } else {
      StreamLoopNext(s, key, list);
      var t := StreamStep(s, key, list[0].client);
      StreamStepLeaves(s, key, list[0].client);
      StreamLoopLeaves(t, key, list[1..]);
      LeavingTwice(s, t, StreamLoop(t, key, list[1..]));
    }
  }

  lemma LeavingNone(s: State)
    ensures Leaving(s, s)
  {
  }

  lemma StreamStops(s: State, key: Key, list: seq<Waiter>)
    requires Consistent(s) && key in s.db && s.db[key].StreamValue? && list == []
    ensures StreamLoop(s, key, list) == s
  {
    hide Consistent;
  }

  /** Serving a stream changes nothing for the clients that wait for something else. */
  lemma StreamAwake(s: State, key: Key)
    requires Consistent(s) && key in s.db && s.db[key].StreamValue? && AwakeBut(s, Some(key)) && Solid(s.db)
    ensures OneEach(WaitersOf(s, key)) && forall w <- WaitersOf(s, key) :: w.client in s.info
    ensures var u := StreamLoop(s, key, WaitersOf(s, key)); Awake(u) && Solid(u.db)
  {
    hide Consistent, StreamLoop, WaitersOf, Leaving, Waiting, OneEach;
    WaitersDistinct(s, key);
    AllWaitersBlocked(s, key);
    StreamLoopLeaves(s, key, WaitersOf(s, key));
    var u := StreamLoop(s, key, WaitersOf(s, key));
    forall k | Due(u, k) ensures k in u.readySet {
      LeavingWaits(s, u, k, if u.db[k].ListValue? then Lists else SortedSets);
      assert Due(s, k);
    }
  }

  /** A reader that waits on after the loop has nothing to read: its group, or itself, has everything. */
  lemma {:induction false} ReadersAreSettled(s: State, key: Key, list: seq<Waiter>, w: Waiter)
    requires Consistent(s) && key in s.db && s.db[key].StreamValue?
    requires OneEach(list) && (forall x <- list :: x.client in s.info) && w in list
    ensures var u := StreamLoop(s, key, list);
            && key in u.db && u.db[key].StreamValue?
            && (w.client in u.info ==>
                  u.info[w.client] == s.info[w.client] && WakesFor(u.info[w.client], key, u.db[key]).Sleeps?)
    decreases |list|
  {
    hide Consistent, Counted, StreamStep, StreamLoop, OneEach, WakesFor, Leaving;
    StreamLoopNext(s, key, list);
    var c := list[0].client;
    var t := StreamStep(s, key, c);
    var u := StreamLoop(t, key, list[1..]);
    StreamLoopLeaves(t, key, list[1..]);
    if w in list[1..] {
      ReadersAreSettled(t, key, list[1..], w);
    } else {
      assert w == list[0] by { assert list == [list[0]] + list[1..]; }
      LeavesInfo(t, u, c);
      StreamStepKeeps(s, key, c);
      if c in u.info { StaysSettled(t, key, list[1..], s.info[c]); }
    }
  }

  lemma LeavesInfo(s: State, t: State, c: Client)
    requires Leaving(s, t)
    ensures c in t.info ==> c in s.info && t.info[c] == s.info[c]
  {
  }

  /** Serving others gives nobody something to read. */
  lemma {:induction false} StaysSettled(s: State, key: Key, list: seq<Waiter>, op: Info)
    requires Consistent(s) && key in s.db && s.db[key].StreamValue? && WakesFor(op, key, s.db[key]).Sleeps?
    requires OneEach(list) && forall x <- list :: x.client in s.info
    ensures var u := StreamLoop(s, key, list);
            key in u.db && u.db[key].StreamValue? && WakesFor(op, key, u.db[key]).Sleeps?
    decreases |list|
  {
    hide Consistent, Counted, StreamStep, StreamLoop, OneEach, WakesFor;
    if list == [] {
      StreamStops(s, key, list);
    } else {
      StreamLoopNext(s, key, list);
      StreamStepKeeps(s, key, list[0].client);
      StepSettled(s.info[list[0].client], key, s.db[key], op);
      StaysSettled(StreamStep(s, key, list[0].client), key, list[1..], op);
    }
  }

  lemma {:induction false} NewerIsNewer(ids: seq<nat>, after: nat)
    ensures forall id <- Newer(ids, after) :: id > after
  {
    if ids != [] { NewerIsNewer(ids[1..], after); }
  }

  lemma StepSettled(reader: Info, key: Key, stream: Value, op: Info)
    requires stream.StreamValue? && WakesFor(op, key, stream).Sleeps?
    ensures var wakeup := WakesFor(reader, key, stream);
            WakesFor(op, key, if wakeup.Reads? then ReadBy(reader, stream, wakeup.ids) else stream).Sleeps?
  {
    hide Newer;
    var wakeup := WakesFor(reader, key, stream);
    if wakeup.Reads? && reader.group.Some? && wakeup.ids != [] {
      var gt := ReadsAfter(reader, key, stream.groups);
      NewerIsNewer(stream.entries, gt);
      assert wakeup.ids[|wakeup.ids| - 1] in Newer(stream.entries, gt);
    }
  }

  /** How many of the IDs are not after this one. */
  function UpTo(ids: seq<nat>, after: nat): (n: nat)
    ensures n <= |ids|
  {
    if ids == [] || after < ids[0] then 0 else 1 + UpTo(ids[1..], after)
  }

  /** The first entries after an ID, at most `count` of them, or all if that is zero. */
  function Following(ids: seq<nat>, after: nat, count: nat): seq<nat> {
    var n := UpTo(ids, after);
    if count == 0 || |ids| - n < count then ids[n..] else ids[n..n + count]
  }

  lemma {:induction false} NewerIsTail(ids: seq<nat>, after: nat)
    requires Increasing(ids)
    ensures Newer(ids, after) == ids[UpTo(ids, after)..]
  {
    if ids != [] {
      IncreasingTail(ids);
      NewerIsTail(ids[1..], after);
      if after < ids[0] { AllNewer(ids, after); }
    }
  }

  lemma {:induction false} AllNewer(ids: seq<nat>, after: nat)
    requires forall id <- ids :: after < id
    ensures Newer(ids, after) == ids
  {
    if ids != [] {
      assert ids[0] in ids && forall x <- ids[1..] :: x in ids;
      AllNewer(ids[1..], after);
    }
  }

  lemma SentIsFollowing(ids: seq<nat>, after: nat, count: nat)
    requires Increasing(ids)
    ensures Limit(Newer(ids, after), count) == Following(ids, after, count)
  {
    NewerIsTail(ids, after);
  }

  /** What serving one client says to another. */
  lemma StreamStepReplies(s: State, key: Key, c: Client, r: Reply)
    requires Consistent(s) && c in s.info && key in s.db && s.db[key].StreamValue? && r in s.replies
    ensures Counted(s) && r in StreamStep(s, key, c).replies
  {
    hide Consistent, Counted, StreamStep, WakesFor, ReadBy;
    StreamStepKeeps(s, key, c);
  }

  lemma {:induction false} RepliesStay(s: State, key: Key, list: seq<Waiter>, r: Reply)
    requires Consistent(s) && key in s.db && s.db[key].StreamValue? && r in s.replies
    requires OneEach(list) && forall x <- list :: x.client in s.info
    ensures r in StreamLoop(s, key, list).replies
    decreases |list|
  {
    hide Consistent, Counted, StreamStep, StreamLoop, OneEach;
    if list == [] {
      StreamStops(s, key, list);
    } else {
      StreamLoopNext(s, key, list);
      StreamStepReplies(s, key, list[0].client, r);
      RepliesStay(StreamStep(s, key, list[0].client), key, list[1..], r);
    }
  }

  /** Clients that are not in the list stay. */
  lemma {:induction false} OthersWaitOn(s: State, key: Key, list: seq<Waiter>, c: Client)
    requires Consistent(s) && key in s.db && s.db[key].StreamValue? && c in s.info
    requires OneEach(list) && (forall x <- list :: x.client in s.info && x.client != c)
    ensures c in StreamLoop(s, key, list).info
    decreases |list|
  {
    hide Consistent, Counted, StreamStep, StreamLoop, OneEach, WakesFor;
    if list == [] {
      StreamStops(s, key, list);
    } else {
      StreamLoopNext(s, key, list);
      StreamStepKeeps(s, key, list[0].client);
      assert list[0] in list && forall x <- list[1..] :: x in list;
      OthersWaitOn(StreamStep(s, key, list[0].client), key, list[1..], c);
    }
  }

  /** What becomes of a client whose answer does not depend on what others read. */
  ghost predicate Answered(u: State, c: Client, answer: Option<Reply>) {
    match answer
    case None => c in u.info
    case Some(r) => c !in u.info && r in u.replies
  }

  /** A client that waits for something else stays; one whose group is gone is told so; one that reads for itself stays if the
      stream has nothing after what it has seen, and else is sent the entries that follow. */
  function ReaderAnswer(op: Info, key: Key, stream: Value, c: Client): Option<Reply>
    requires stream.StreamValue?
  {
    if op.kind != Streams then None
    else if op.group.Some? then Some(NoGroup(c))
    else
      var seen := if key in op.seen then op.seen[key] else 0;
      if stream.lastId <= seen then None else Some(Streamed(c, key, Following(stream.entries, seen, op.count)))
  }

  lemma StepAnswers(s: State, key: Key, c: Client)
    requires Consistent(s) && c in s.info && key in s.db && s.db[key].StreamValue? && Increasing(s.db[key].entries)
    requires s.info[c].kind == Streams && s.info[c].group.Some? ==> s.info[c].group.value !in s.db[key].groups
    ensures Counted(s) && Answered(StreamStep(s, key, c), c, ReaderAnswer(s.info[c], key, s.db[key], c))
  {
    hide Consistent, Counted, StreamStep, Newer, Limit, Following, Increasing;
    StreamStepKeeps(s, key, c);
    var op := s.info[c];
    if op.group.None? { SentIsFollowing(s.db[key].entries, if key in op.seen then op.seen[key] else 0, op.count); }
  }

  lemma StepKeepsEntries(s: State, key: Key, c: Client)
    requires Consistent(s) && c in s.info && key in s.db && s.db[key].StreamValue?
    ensures Counted(s)
    ensures var t := StreamStep(s, key, c);
            && key in t.db && t.db[key].StreamValue? && t.db[key].entries == s.db[key].entries
            && t.db[key].lastId == s.db[key].lastId && t.db[key].groups.Keys == s.db[key].groups.Keys
  {
    hide Consistent, Counted, StreamStep, Newer, Limit;
    StreamStepKeeps(s, key, c);
  }

  /** Every client of the loop is answered as if it were alone, unless it reads for a group. */
  lemma {:induction false} ReadersAreAnswered(s: State, key: Key, list: seq<Waiter>, w: Waiter)
    requires Consistent(s) && key in s.db && s.db[key].StreamValue? && Increasing(s.db[key].entries)
    requires OneEach(list) && (forall x <- list :: x.client in s.info) && w in list
    requires var op := s.info[w.client];
             op.kind == Streams && op.group.Some? ==> op.group.value !in s.db[key].groups
    ensures Answered(StreamLoop(s, key, list), w.client, ReaderAnswer(s.info[w.client], key, s.db[key], w.client))
    decreases |list|
  {
    hide Consistent, Counted, StreamStep, StreamLoop, OneEach, WakesFor, Increasing, Following, Leaving;
    StreamLoopNext(s, key, list);
    var c := list[0].client;
    var t := StreamStep(s, key, c);
    StepKeepsEntries(s, key, c);
    if w in list[1..] {
      ReadersAreAnswered(t, key, list[1..], w);
    } else {
      assert w == list[0] by { assert list == [list[0]] + list[1..]; }
      StepAnswers(s, key, c);
      OthersStay(list);
      var answer := ReaderAnswer(s.info[c], key, s.db[key], c);
      if answer.Some? {
        RepliesStay(t, key, list[1..], answer.value);
        StreamLoopLeaves(t, key, list[1..]);
        LeavesInfo(t, StreamLoop(t, key, list[1..]), c);
      } else {
        OthersWaitOn(t, key, list[1..], c);
      }
    }
  }

  /** Serving anybody moves no group back. */
  lemma StepMovesOn(s: State, key: Key, c: Client, group: string)
    requires Consistent(s) && c in s.info && key in s.db && s.db[key].StreamValue? && Increasing(s.db[key].entries)
    requires group in s.db[key].groups
    ensures Counted(s)
    ensures var t := StreamStep(s, key, c);
            && key in t.db && t.db[key].StreamValue? && group in t.db[key].groups
            && s.db[key].groups[group] <= t.db[key].groups[group]
  {
    hide Consistent, Counted, StreamStep, Increasing, WakesFor, ReadBy, Between;
    StreamStepKeeps(s, key, c);
    StepShares(s.info[c], key, s.db[key], group);
  }

  lemma GroupStep(s: State, key: Key, c: Client)
    requires Consistent(s) && c in s.info && key in s.db && s.db[key].StreamValue?
    requires s.info[c].kind == Streams && s.info[c].group.Some? && s.info[c].group.value in s.db[key].groups
    ensures Counted(s)
    ensures c in StreamStep(s, key, c).info <==> s.db[key].lastId <= s.db[key].groups[s.info[c].group.value]
  {
    hide Consistent, Counted, StreamStep, Newer, Limit;
    StreamStepKeeps(s, key, c);
  }

  /** A client that reads for a group is served only if the stream has something the group has not read, and waits on only if
      the group has read everything. */
  lemma {:induction false} GroupReadersServed(s: State, key: Key, list: seq<Waiter>, w: Waiter)
    requires Consistent(s) && key in s.db && s.db[key].StreamValue? && Increasing(s.db[key].entries)
    requires OneEach(list) && (forall x <- list :: x.client in s.info) && w in list
    requires var op := s.info[w.client]; op.kind == Streams && op.group.Some? && op.group.value in s.db[key].groups
    ensures var u, group := StreamLoop(s, key, list), s.info[w.client].group.value;
            && key in u.db && u.db[key].StreamValue? && group in u.db[key].groups
            && (w.client !in u.info ==> s.db[key].groups[group] < s.db[key].lastId)
            && (w.client in u.info ==> s.db[key].lastId <= u.db[key].groups[group])
    decreases |list|
  {
    hide Consistent, Counted, StreamStep, StreamLoop, OneEach, WakesFor, Increasing, Leaving, SentTo, Between;
    StreamLoopNext(s, key, list);
    var c, group := list[0].client, s.info[w.client].group.value;
    var t := StreamStep(s, key, c);
    StepKeepsEntries(s, key, c);
    StepMovesOn(s, key, c, group);
    if w in list[1..] {
      GroupReadersServed(t, key, list[1..], w);
    } else {
      assert w == list[0] by { assert list == [list[0]] + list[1..]; }
      GroupStep(s, key, c);
      assert forall x <- list[1..] :: x.client in t.info;
      assert KnownIn(t, t.info, list[1..]);
      var more := GroupShares(t, t.info, key, list[1..], group);
      StreamLoopLeaves(t, key, list[1..]);
      LeavesInfo(t, StreamLoop(t, key, list[1..]), c);
      if c in t.info {
        OthersStay(list);
        OthersWaitOn(t, key, list[1..], c);
      }
    }
  }

  // ---------------------------------------------------------------------------------------------------------
  // Blocking, leaving and writing
  // ---------------------------------------------------------------------------------------------------------

  /** A blocking pop blocks only when none of its keys has anything for it; XREAD looks at the streams itself. */
  predicate Blockable(db: map<Key, Value>, kind: Kind, keys: seq<Key>) {
    match kind
    case Lists => forall k <- keys :: k !in db || db[k] == ListValue([])
    case SortedSets => forall k <- keys :: k !in db || db[k] == SortedSetValue(0)
    case Streams => true
  }

  lemma {:induction false} AddedWaiters(s: State, c: Client, keys: seq<Key>, k: Key, w: Waiter)
    requires w in WaitersOf(AddKeys(s, c, keys), k)
    ensures w in WaitersOf(s, k) || (w.client == c && k in keys)
  {
    if keys != [] {
      var t, last := AddKeys(s, c, keys[..|keys| - 1]), keys[|keys| - 1];
      assert last in keys && forall x <- keys[..|keys| - 1] :: x in keys;
      if w in WaitersOf(t, k) { AddedWaiters(s, c, keys[..|keys| - 1], k, w); }
    }
  }

  lemma {:induction false} AddedSame(s: State, c: Client, keys: seq<Key>)
    ensures var t := AddKeys(s, c, keys);
            t.info == s.info && t.db == s.db && t.readySet == s.readySet && t.byKind == s.byKind
  {
    if keys != [] { AddedSame(s, c, keys[..|keys| - 1]); }
  }

  lemma BlockAwake(s: State, c: Client, op: Info, keys: seq<Key>)
    requires Consistent(s) && c !in s.info && Awake(s) && Solid(s.db) && Blockable(s.db, op.kind, keys)
    requires op.kind in AddKeys(s, c, keys).byKind
    ensures var t := Enter(AddKeys(s, c, keys), c, op); Awake(t) && t.db == s.db
  {
    hide Consistent, AddKeys;
    AddedSame(s, c, keys);
    var t := Enter(AddKeys(s, c, keys), c, op);
    forall k | Due(t, k) ensures k in t.readySet {
      var kind := if t.db[k].ListValue? then Lists else SortedSets;
      var w :| w in WaitersOf(t, k) && w.client in t.info && t.info[w.client].kind == kind;
      assert w in WaitersOf(AddKeys(s, c, keys), k);
      AddedWaiters(s, c, keys, k, w);
      AllWaitersBlocked(s, k);
      if w in WaitersOf(s, k) {
        assert Waiting(s, k, kind) && Due(s, k);
      }
    }
  }

  /** Fewer clients, more queued keys and the same database. */
  lemma StaysAwake(s: State, t: State)
    requires Awake(s) && Leaving(s, t) && t.db == s.db && s.readySet <= t.readySet
    ensures Awake(t)
  {
    hide Waiting, Leaving;
    forall k | Due(t, k) ensures k in t.readySet {
      LeavingWaits(s, t, k, if t.db[k].ListValue? then Lists else SortedSets);
      assert Due(s, k);
    }
  }

  /** dbAdd, dbOverwrite, a change in place or dbDelete: only a key that comes into being is signalled. */
  function Written(s: State, k: Key, value: Option<Value>): State {
    match value
    case None => s.(db := s.db - {k})
    case Some(v) =>
      var t := s.(db := s.db[k := v]);
      if k in s.db || KindOf(v).None? then t else Signal(t, k, KindOf(v).value)
  }

  predicate Firm(v: Value) { v != ListValue([]) && v != SortedSetValue(0) }

  /** The write turns something else into what a client of this key waits for. */
  predicate Overlooks(s: State, k: Key, v: Value) {
    && k in s.db && (v.ListValue? || v.SortedSetValue?) && KindOf(s.db[k]) != KindOf(v)
    && Waiting(s, k, KindOf(v).value) && k !in s.readySet
  }

  /** A write leaves nobody overlooked if and only if it does not turn another value into what a client waits for. */
  lemma WrittenAwake(s: State, k: Key, value: Option<Value>)
    requires Consistent(s) && Awake(s) && Solid(s.db) && (value.Some? ==> Firm(value.value))
    ensures var t := Written(s, k, value);
            && Solid(t.db)
            && (Awake(t) <==> value.None? || !Overlooks(s, k, value.value))
  {
    hide Consistent, Waiting, Written;
    var t := Written(s, k, value);
    WrittenIs(s, k, value);
    if value.Some? && k !in s.db && KindOf(value.value).Some? { WrittenSignals(s, k, value.value); }
    forall j | j != k && Due(t, j) ensures j in t.readySet { assert Due(s, j); }
    if Due(t, k) && k in s.db && KindOf(s.db[k]) == KindOf(t.db[k]) { assert Due(s, k); }
  }

  lemma WrittenIs(s: State, k: Key, value: Option<Value>)
    ensures var t := Written(s, k, value);
            && t.db == (if value.Some? then s.db[k := value.value] else s.db - {k})
            && s.readySet <= t.readySet && (k in s.db ==> t.readySet == s.readySet)
            && t.info == s.info && t.blocking == s.blocking
            && forall j, kind :: Waiting(t, j, kind) == Waiting(s, j, kind)
  {
    hide Waiting;
    var t := Written(s, k, value);
    forall j, kind ensures Waiting(t, j, kind) == Waiting(s, j, kind) { SameWaiting(s, t, j, kind); }
  }

  lemma WrittenSignals(s: State, k: Key, v: Value)
    requires Consistent(s) && k !in s.db && KindOf(v).Some?
    ensures var t := Written(s, k, Some(v));
            && t == s.(db := s.db[k := v], ready := t.ready, readySet := t.readySet) && s.readySet <= t.readySet
            && (Waiting(s, k, KindOf(v).value) ==> k in t.readySet)
  {
    hide Consistent, Waiting;
    if Waiting(s, k, KindOf(v).value) { WaitingCounts(s, k, KindOf(v).value); }
  }

  /** BLPOP k, and k holds a string. */
  function OnePops(): State {
    OneRotates().(info := map[1 := POP], db := map["k" := OtherValue])
  }

  const POP := Info(Lists, None, Head, Tail, None, 0, map[])

  lemma OnePopsBlocked()
    ensures Consistent(OnePops())
  {
    hide Consistent, AddKeys;
    var s := NoneBlocked().(db := map["k" := OtherValue]);
    EmptyConsistent(s);
    AddOneKey(s, 1, "k");
    assert WaitersOf(s, "k") + [Waiter(0, 1)] == [Waiter(0, 1)];
    BlockKeeps(s, 1, POP, ["k"]);
    assert Enter(AddKeys(s, 1, ["k"]), 1, POP) == OnePops();
  }

  /** SORT ... STORE k then makes k a list, and the client is not served. */
  lemma StoredListIsOverlooked()
    ensures Consistent(OnePops()) && Awake(OnePops()) && Solid(OnePops().db) && Overlooks(OnePops(), "k", ListValue(["a"]))
    ensures var t := Written(OnePops(), "k", Some(ListValue(["a"]))); Due(t, "k") && t.ready == [] && t.readySet == {}
  {
    hide Consistent;
    OnePopsBlocked();
    var s := OnePops();
    assert Waiter(0, 1) in WaitersOf(s, "k");
    assert Waiting(s, "k", Lists);
    var t := Written(s, "k", Some(ListValue(["a"])));
    SameWaiting(s, t, "k", Lists);
  }
}
