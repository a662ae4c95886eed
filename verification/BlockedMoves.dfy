/** Where the elements go when the clients blocked on a list are served, and which keys are signalled on the way. */
module BlockedMoves {
  import opened Basics
  import opened Blocked
  import opened BlockedServing

  // ---------------------------------------------------------------------------------------------------------
  // All elements of the database
  // ---------------------------------------------------------------------------------------------------------

  function Elems(v: Value): multiset<Elem> {
    if v.ListValue? then multiset(v.items) else multiset{}
  }

  /** The elements of all lists. */
  ghost function Total(db: map<Key, Value>): multiset<Elem>
    decreases |db|
  {
    if db == map[] then multiset{}
    else
      var k :| k in db;
      Fewer(db, k);
      Elems(db[k]) + Total(db - {k})
  }

  lemma Fewer(db: map<Key, Value>, k: Key)
    requires k in db
    ensures |db - {k}| < |db|
  {
    assert (db - {k}).Keys == db.Keys - {k};
  }

  lemma TotalUnfolds(db: map<Key, Value>) returns (k: Key)
    requires db != map[]
    ensures k in db && Total(db) == Elems(db[k]) + Total(db - {k})
  {
    hide Elems;
    assert exists j :: j in db by {
      assert db.Keys != {};
    }
    k :| k in db && Total(db) == Elems(db[k]) + Total(db - {k});
  }

  /** It does not matter in which order the keys are visited. */
  lemma {:induction false} TotalWithout(db: map<Key, Value>, k: Key)
    requires k in db
    ensures Total(db) == Elems(db[k]) + Total(db - {k})
    decreases |db|
  {
    hide Elems, Total;
    var j := TotalUnfolds(db);
    if j != k {
      Fewer(db, j);
      Fewer(db, k);
      TotalWithout(db - {j}, k);
      TotalWithout(db - {k}, j);
      assert db - {j} - {k} == db - {k} - {j};
    }
  }

  /** Writing one key changes the total by what that key held. */
  lemma TotalPut(db: map<Key, Value>, k: Key, v: Value)
    ensures Total(db[k := v]) + (if k in db then Elems(db[k]) else multiset{}) == Total(db) + Elems(v)
  {
    hide Elems, Total;
    var after := db[k := v];
    TotalWithout(after, k);
    if k in db {
      TotalWithout(db, k);
      assert after - {k} == db - {k};
    } else {
      assert after - {k} == db;
    }
  }

  // ---------------------------------------------------------------------------------------------------------
  // What is moved, and to whom
  // ---------------------------------------------------------------------------------------------------------

  /** An element pushed to another key. */
  datatype Move = Move(elem: Elem, dst: Key, to: End)

  /** The client has the element moved on to another key. */
  predicate MovesOn(op: Info, key: Key, wrong: set<Key>) {
    op.target.Some? && op.target.value != key && op.target.value !in wrong
  }

  /** What is pushed to other keys, in the order the clients are served. */
  function Moves(key: Key, wrong: set<Key>, jobs: seq<Job>, items: seq<Elem>): seq<Move>
    decreases |jobs|
  {
    if jobs == [] || items == [] then []
    else
      var op := jobs[0].op;
      if op.kind != Lists then Moves(key, wrong, jobs[1..], items)
      else
        (if MovesOn(op, key, wrong) then [Move(First(items, op.from), op.target.value, op.to)] else [])
        + Moves(key, wrong, jobs[1..], Turned(op, key, wrong, items))
  }

  /** What the clients without a destination are handed. */
  function Handed(key: Key, wrong: set<Key>, jobs: seq<Job>, items: seq<Elem>): multiset<Elem>
    decreases |jobs|
  {
    if jobs == [] || items == [] then multiset{}
    else
      var op := jobs[0].op;
      if op.kind != Lists then Handed(key, wrong, jobs[1..], items)
      else
        (if op.target.None? then multiset{First(items, op.from)} else multiset{})
        + Handed(key, wrong, jobs[1..], Turned(op, key, wrong, items))
  }

  /** A list after the moves to it. */
  function Arrived(moves: seq<Move>, k: Key, items: seq<Elem>): seq<Elem>
    decreases |moves|
  {
    if moves == [] then items
    else
      var m := moves[0];
      Arrived(moves[1..], k, if m.dst == k then Push(items, m.elem, m.to) else items)
  }

  predicate Targeted(moves: seq<Move>, k: Key) {
    exists i | 0 <= i < |moves| :: moves[i].dst == k
  }

  function ItemsAt(db: map<Key, Value>, k: Key): seq<Elem> {
    if k in db && db[k].ListValue? then db[k].items else []
  }

  /** A key that nothing is moved to is as it was; any other is a list that gained what was moved to it, at the ends asked
      for and in order. */
  predicate KeyAfter(before: map<Key, Value>, after: map<Key, Value>, moves: seq<Move>, k: Key) {
    if Targeted(moves, k) then
      k in after && after[k] == ListValue(Arrived(moves, k, ItemsAt(before, k))) && (k in before ==> before[k].ListValue?)
    else (k in before <==> k in after) && (k in before ==> before[k] == after[k])
  }

  lemma TargetedFirst(m: Move, moves: seq<Move>, k: Key)
    ensures Targeted([m] + moves, k) <==> m.dst == k || Targeted(moves, k)
  {
    var all := [m] + moves;
    assert all[0] == m && forall i | 0 <= i < |moves| :: all[i + 1] == moves[i];
    if Targeted(moves, k) {
      var i :| 0 <= i < |moves| && moves[i].dst == k;
      assert all[i + 1].dst == k;
    }
  }

  lemma ArrivedFirst(m: Move, moves: seq<Move>, k: Key, items: seq<Elem>)
    ensures Arrived([m] + moves, k, items) == Arrived(moves, k, if m.dst == k then Push(items, m.elem, m.to) else items)
  {
    assert ([m] + moves)[1..] == moves;
  }

  lemma {:induction false} NoneArrived(moves: seq<Move>, k: Key, items: seq<Elem>)
    requires !Targeted(moves, k)
    ensures Arrived(moves, k, items) == items
  {
    if moves != [] {
      assert moves == [moves[0]] + moves[1..];
      TargetedFirst(moves[0], moves[1..], k);
      NoneArrived(moves[1..], k, items);
    }
  }

  /** One move, then the others. */
  lemma KeyAfterBoth(a: map<Key, Value>, b: map<Key, Value>, c: map<Key, Value>, m: Move, moves: seq<Move>, k: Key)
    requires KeyAfter(a, b, [m], k) && KeyAfter(b, c, moves, k)
    ensures KeyAfter(a, c, [m] + moves, k)
  {
    hide Push, Targeted, Arrived;
    assert [m] + [] == [m];
    TargetedFirst(m, moves, k);
    TargetedFirst(m, [], k);
    NotTargeted(k);
    ArrivedFirst(m, moves, k, ItemsAt(a, k));
    ArrivedFirst(m, [], k, ItemsAt(a, k));
    NoneArrived([], k, Push(ItemsAt(a, k), m.elem, m.to));
    if !Targeted(moves, k) { NoneArrived(moves, k, Push(ItemsAt(a, k), m.elem, m.to)); }
  }

  lemma NotTargeted(k: Key)
    ensures !Targeted([], k)
  {
  }

  lemma KeyAfterNothing(a: map<Key, Value>, b: map<Key, Value>, c: map<Key, Value>, moves: seq<Move>, k: Key)
    requires KeyAfter(a, b, [], k) && KeyAfter(b, c, moves, k)
    ensures KeyAfter(a, c, moves, k)
  {
    hide Targeted, Arrived;
    NotTargeted(k);
  }

  // ---------------------------------------------------------------------------------------------------------
  // Waking
  // ---------------------------------------------------------------------------------------------------------

  /** From s to t clients only leave, keys are only queued, and no key goes away; a list that came into being is queued if
      somebody waits for it still. */
  ghost predicate Onward(s: State, t: State) {
    && (forall c <- t.info :: c in s.info && t.info[c] == s.info[c])
    && (forall k <- t.blocking, w <- t.blocking[k] :: k in s.blocking && w in s.blocking[k])
    && t.blocking.Keys <= s.blocking.Keys
    && Lists in s.byKind && Lists in t.byKind && t.byKind[Lists] <= s.byKind[Lists]
    && s.readySet <= t.readySet && s.db.Keys <= t.db.Keys
    && (forall k <- t.db | k !in s.db && k in t.blocking && t.byKind[Lists] != 0 :: k in t.readySet)
  }

  lemma OnwardTwice(s: State, t: State, u: State)
    requires Onward(s, t) && Onward(t, u)
    ensures Onward(s, u)
  {
  }

  lemma OnwardSame(s: State)
    requires Lists in s.byKind
    ensures Onward(s, s)
  {
  }

  lemma OnwardRotated(s: State, key: Key)
    requires Lists in s.byKind && key in s.blocking && s.blocking[key] != []
    ensures Onward(s, Rotated(s, key)) && Rotated(s, key).db == s.db && Rotated(s, key).info == s.info
  {
    RotateMembers(s.blocking[key]);
  }

  lemma OnwardUnblock(s: State, c: Client)
    requires Counted(s) && c in s.info
    ensures Onward(s, Unblock(s, c))
  {
    hide Counted;
    LeaveCounted(s, c);
    AllKinds(s);
  }

  lemma AllKinds(s: State)
    requires Counted(s)
    ensures Lists in s.byKind
  {
    assert KindCounted(s, Lists);
  }

  // ---------------------------------------------------------------------------------------------------------
  // One client
  // ---------------------------------------------------------------------------------------------------------

  /** What one client moves, if anything. */
  function MovedBy(op: Info, key: Key, wrong: set<Key>, elem: Elem): seq<Move> {
    if MovesOn(op, key, wrong) then [Move(elem, op.target.value, op.to)] else []
  }

  /** Signalling a key that is awaited leaves it queued. */
  lemma SignalQueues(s: State, k: Key)
    requires Lists in s.byKind
    ensures var t := Signal(s, k, Lists);
            && t == s.(ready := t.ready, readySet := t.readySet) && s.readySet <= t.readySet
            && (k in s.blocking && s.byKind[Lists] != 0 ==> k in t.readySet)
  {
  }

  lemma GiveOnward(s: State, key: Key, c: Client, op: Info, elem: Elem)
    requires key in s.db && s.db[key].ListValue? && Lists in s.byKind
    ensures Onward(s, Give(s, key, c, op, elem, op.from))
  {
    hide Signal, Push;
    if op.target.Some? && op.target.value !in s.db {
      var dst := op.target.value;
      var s1 := s.(db := s.db[dst := ListValue([elem])], replies := s.replies + [Popped(c, key, elem)]);
      SignalQueues(s1, dst);
    }
  }

  lemma GiveMoves(s: State, key: Key, c: Client, op: Info, elem: Elem, k: Key)
    requires key in s.db && s.db[key].ListValue? && k != key && Lists in s.byKind
    ensures KeyAfter(s.db, Give(s, key, c, op, elem, op.from).db, MovedBy(op, key, Wrong(s.db), elem), k)
  {
    hide Signal, Arrived, Targeted;
    NotTargeted(k);
    if op.target.Some? {
      var m := Move(elem, op.target.value, op.to);
      assert [m] + [] == [m];
      TargetedFirst(m, [], k);
      ArrivedFirst(m, [], k, ItemsAt(s.db, k));
      NoneArrived([], k, Push(ItemsAt(s.db, k), elem, op.to));
      if op.target.value !in s.db {
        var s1 := s.(db := s.db[m.dst := ListValue([elem])], replies := s.replies + [Popped(c, key, elem)]);
        SignalQueues(s1, m.dst);
        assert Push([], elem, op.to) == [elem];
      }
    }
  }

  /** The popped element is handed to the client, or is in the database again. */
  lemma GiveConserves(s: State, key: Key, c: Client, op: Info, elem: Elem)
    requires key in s.db && s.db[key].ListValue? && Lists in s.byKind
    ensures Total(Give(s, key, c, op, elem, op.from).db) + (if op.target.None? then multiset{elem} else multiset{})
            == Total(s.db) + multiset{elem}
  {
    hide Signal, Push, Total;
    if op.target.Some? {
      var dst := op.target.value;
      if dst !in s.db {
        var s1 := s.(db := s.db[dst := ListValue([elem])], replies := s.replies + [Popped(c, key, elem)]);
        SignalQueues(s1, dst);
        TotalPut(s.db, dst, ListValue([elem]));
      } else {
        var k, to := if s.db[dst].ListValue? then dst else key, if s.db[dst].ListValue? then op.to else op.from;
        TotalPut(s.db, k, ListValue(Push(s.db[k].items, elem, to)));
        PushedElems(s.db[k].items, elem, to);
        Cancels(Total(Give(s, key, c, op, elem, op.from).db), Total(s.db) + multiset{elem}, Elems(s.db[k]));
      }
    }
  }

  lemma Cancels(a: multiset<Elem>, b: multiset<Elem>, c: multiset<Elem>)
    requires a + c == b + c
    ensures a == b
  {
    forall e: Elem ensures a[e] == b[e] {
      assert (a + c)[e] == (b + c)[e];
    }
  }

  lemma PushedElems(items: seq<Elem>, elem: Elem, to: End)
    ensures multiset(Push(items, elem, to)) == multiset(items) + multiset{elem}
  {
  }

  lemma PoppedElems(items: seq<Elem>, from: End)
    requires items != []
    ensures multiset(items) == multiset(Rest(items, from)) + multiset{First(items, from)}
  {
    if from == Head {
      assert items == [items[0]] + items[1..];
    } else {
      assert items == items[..|items| - 1] + [items[|items| - 1]];
    }
  }

  /** What serving the client at the head of the list does to the rest of the server. */
  lemma ServeOneMoves(s: State, key: Key)
    requires Consistent(s) && WaitersOf(s, key) != []
    requires key in s.db && s.db[key].ListValue? && s.db[key].items != []
    ensures WaitersOf(s, key)[0].client in s.info && Counted(s)
    ensures var c := WaitersOf(s, key)[0].client;
            var t, op, items := ServeOne(s, key, c), s.info[c], s.db[key].items;
            && Onward(s, t)
            && (forall k | k != key :: KeyAfter(s.db, t.db, MovedBy(op, key, Wrong(s.db), First(items, op.from)), k))
            && Total(t.db) + (if op.target.None? then multiset{First(items, op.from)} else multiset{}) == Total(s.db)
  {
    hide Consistent, Counted, Unblock, Give, First, Rest, Total, Onward, KeyAfter, MovedBy;
    WaiterIsBlocked(s, key);
    var c, items := WaitersOf(s, key)[0].client, s.db[key].items;
    var op := s.info[c];
    var elem := First(items, op.from);
    var s1 := s.(db := s.db[key := ListValue(Rest(items, op.from))]);
    AllKinds(s);
    SameCounted(s, s1);
    var s2 := Unblock(s1, c);
    UnblockedDb(s1, c);
    var t := Give(s2, key, c, op, elem, op.from);
    AllKinds(s1);
    PopOnward(s, key, s1);
    OnwardUnblock(s1, c);
    OnwardKinds(s1, s2);
    GiveOnward(s2, key, c, op, elem);
    OnwardTwice(s1, s2, t);
    OnwardTwice(s, s1, t);
    SameWrong(s, key, s1);
    forall k | k != key ensures KeyAfter(s.db, t.db, MovedBy(op, key, Wrong(s.db), elem), k) {
      GiveMoves(s2, key, c, op, elem, k);
      PopElsewhere(s.db, s1.db, key, k, t.db, MovedBy(op, key, Wrong(s.db), elem));
    }
    GiveConserves(s2, key, c, op, elem);
    TotalPut(s.db, key, ListValue(Rest(items, op.from)));
    PoppedElems(items, op.from);
    Cancels(Total(s1.db) + multiset{elem}, Total(s.db), Elems(s1.db[key]));
  }

  lemma OnwardKinds(s: State, t: State)
    requires Onward(s, t)
    ensures Lists in t.byKind
  {
  }

  lemma UnblockedDb(s: State, c: Client)
    requires Counted(s) && c in s.info
    ensures Unblock(s, c).db == s.db
  {
    hide Remaining, Counted;
  }

  lemma PopOnward(s: State, key: Key, s1: State)
    requires Lists in s.byKind && key in s.db && s1 == s.(db := s1.db) && s1.db.Keys == s.db.Keys
    ensures Onward(s, s1)
  {
  }

  lemma SameWrong(s: State, key: Key, s1: State)
    requires key in s.db && s.db[key].ListValue? && key in s1.db && s1.db[key].ListValue?
    requires s1.db == s.db[key := s1.db[key]]
    ensures Wrong(s1.db) == Wrong(s.db)
  {
  }

  lemma PopElsewhere(a: map<Key, Value>, b: map<Key, Value>, key: Key, k: Key, c: map<Key, Value>, moves: seq<Move>)
    requires key in a && key in b && b == a[key := b[key]] && k != key && KeyAfter(b, c, moves, k)
    ensures KeyAfter(a, c, moves, k)
  {
    hide Targeted, Arrived;
  }

  // ---------------------------------------------------------------------------------------------------------
  // The whole loop
  // ---------------------------------------------------------------------------------------------------------

  /** From s to u, the first n clients of the list were dealt with in order. */
  ghost predicate MovedThrough(s: State, key: Key, n: nat, u: State) {
    && key in s.db && s.db[key].ListValue? && n <= |WaitersOf(s, key)|
    && (forall w <- WaitersOf(s, key)[..n] :: w.client in s.info)
    && Onward(s, u)
    && var items, wrong := s.db[key].items, Wrong(s.db);
       var jobs := Jobs(s.info, WaitersOf(s, key)[..n]);
       && (forall k | k != key :: KeyAfter(s.db, u.db, Moves(key, wrong, jobs, items), k))
       && Total(u.db) + Handed(key, wrong, jobs, items) == Total(s.db)
  }

  lemma MovesNext(key: Key, wrong: set<Key>, jobs: seq<Job>, items: seq<Elem>)
    requires jobs != []
    ensures jobs[0].op.kind != Lists ==>
              && Moves(key, wrong, jobs, items) == Moves(key, wrong, jobs[1..], items)
              && Handed(key, wrong, jobs, items) == Handed(key, wrong, jobs[1..], items)
    ensures items == [] ==> Moves(key, wrong, jobs, items) == [] && Handed(key, wrong, jobs, items) == multiset{}
    ensures jobs[0].op.kind == Lists && items != [] ==>
              var op := jobs[0].op;
              var now, elem := Turned(op, key, wrong, items), First(items, op.from);
              && Moves(key, wrong, jobs, items) == MovedBy(op, key, wrong, elem) + Moves(key, wrong, jobs[1..], now)
              && Handed(key, wrong, jobs, items)
                 == (if op.target.None? then multiset{elem} else multiset{}) + Handed(key, wrong, jobs[1..], now)
  {
    hide Turned, First, MovesOn;
  }

  lemma NoMoves(key: Key, wrong: set<Key>, items: seq<Elem>)
    ensures Moves(key, wrong, [], items) == [] && Handed(key, wrong, [], items) == multiset{}
  {
  }

  lemma NothingMoved(s: State, key: Key, n: nat)
    requires Lists in s.byKind && key in s.db && s.db[key].ListValue? && n <= |WaitersOf(s, key)|
    requires (forall w <- WaitersOf(s, key)[..n] :: w.client in s.info) && (n == 0 || s.db[key].items == [])
    ensures MovedThrough(s, key, n, s)
  {
    hide WaitersOf, Jobs, Moves, Handed, Total, Onward, Targeted, Arrived;
    OnwardSame(s);
    var jobs, wrong := Jobs(s.info, WaitersOf(s, key)[..n]), Wrong(s.db);
    if n == 0 {
      assert jobs == [];
      NoMoves(key, wrong, s.db[key].items);
    } else {
      MovesNext(key, wrong, jobs, s.db[key].items);
    }
    forall k | k != key ensures KeyAfter(s.db, s.db, [], k) { NotTargeted(k); }
  }

  lemma MovedPast(s: State, key: Key, n: nat, u: State)
    requires Lists in s.byKind && key in s.blocking && key in s.db && s.db[key].ListValue? && 0 < n <= |s.blocking[key]|
    requires forall w <- s.blocking[key][..n] :: w.client in s.info
    requires s.blocking[key][0].client in s.info && s.info[s.blocking[key][0].client].kind != Lists
    requires MovedThrough(Rotated(s, key), key, n - 1, u)
    ensures MovedThrough(s, key, n, u)
  {
    hide Moves, Handed, Jobs, Total, Onward, KeyAfter;
    var list, t := s.blocking[key], Rotated(s, key);
    OnwardRotated(s, key);
    OnwardTwice(s, t, u);
    FirstJob(s.info, list, n);
    assert t.blocking[key] == list[1..] + [list[0]];
    assert t.blocking[key][..n - 1] == list[1..][..n - 1];
    var jobs := Jobs(s.info, list[..n]);
    assert jobs[1..] == Jobs(s.info, list[1..][..n - 1]);
    MovesNext(key, Wrong(s.db), jobs, s.db[key].items);
  }

  lemma MovedOne(s: State, key: Key, n: nat, t: State, u: State)
    requires key in s.db && s.db[key].ListValue? && s.db[key].items != [] && 0 < n <= |WaitersOf(s, key)|
    requires OneEach(WaitersOf(s, key)) && forall w <- WaitersOf(s, key)[..n] :: w.client in s.info
    requires WaitersOf(s, key)[0].client in s.info && s.info[WaitersOf(s, key)[0].client].kind == Lists
    requires var list, items := WaitersOf(s, key), s.db[key].items;
             var c := list[0].client;
             var op := s.info[c];
             && WaitersOf(t, key) == list[1..] && t.info == s.info - {c} && Wrong(t.db) == Wrong(s.db)
             && key in t.db && t.db[key] == ListValue(Turned(op, key, Wrong(s.db), items))
             && Onward(s, t)
             && (forall k | k != key :: KeyAfter(s.db, t.db, MovedBy(op, key, Wrong(s.db), First(items, op.from)), k))
             && Total(t.db) + (if op.target.None? then multiset{First(items, op.from)} else multiset{}) == Total(s.db)
    requires MovedThrough(t, key, n - 1, u)
    ensures MovedThrough(s, key, n, u)
  {
    hide WaitersOf, Moves, Handed, Jobs, Turned, First, Wrong, Total, Onward, KeyAfter;
    var list, items, wrong := WaitersOf(s, key), s.db[key].items, Wrong(s.db);
    OnwardTwice(s, t, u);
    FirstJob(s.info, list, n);
    var jobs, rest := Jobs(s.info, list[..n]), list[1..][..n - 1];
    OthersRemain(s.info, list, n);
    SameJobs(s.info, t.info, rest);
    assert jobs[1..] == Jobs(t.info, rest);
    MovesNext(key, wrong, jobs, items);
    var op := s.info[list[0].client];
    assert jobs[0].op == op;
    var elem, more := First(items, op.from), Moves(key, wrong, jobs[1..], Turned(op, key, wrong, items));
    forall k | k != key ensures KeyAfter(s.db, u.db, Moves(key, wrong, jobs, items), k) {
      assert KeyAfter(s.db, t.db, MovedBy(op, key, wrong, elem), k) && KeyAfter(t.db, u.db, more, k);
      if MovesOn(op, key, wrong) {
        KeyAfterBoth(s.db, t.db, u.db, Move(elem, op.target.value, op.to), more, k);
      } else {
        assert [] + more == more;
        KeyAfterNothing(s.db, t.db, u.db, more, k);
      }
    }
  }

  lemma {:induction false} ServeLoopMoves(s: State, key: Key, n: nat)
    requires Consistent(s) && key in s.db && s.db[key].ListValue? && n <= |WaitersOf(s, key)|
    ensures MovedThrough(s, key, n, ServeLoop(s, key, n))
    decreases n
  {
    hide Consistent, Counted, ServeOne, Rotated, MovedThrough, ServeLoop, Onward, KeyAfter, Total;
    var list := WaitersOf(s, key);
    AllWaitersBlocked(s, key);
    assert forall w <- list[..n] :: w in list;
    CountsLists(s);
    if n == 0 {
      NothingMoved(s, key, n);
      NoTurns(s, key);
    } else {
      WaitersDistinct(s, key);
      ServeLoopTurns(s, key, n);
      var c := list[0].client;
      if s.info[c].kind != Lists {
        RotateKeeps(s, key);
        RotatedIs(s, key);
        ServeLoopMoves(Rotated(s, key), key, n - 1);
        MovedPast(s, key, n, ServeLoop(Rotated(s, key), key, n - 1));
      } else if s.db[key].items == [] {
        NothingMoved(s, key, n);
      } else {
        ServeOneIs(s, key);
        ServeOneMoves(s, key);
        var t := ServeOne(s, key, c);
        ServeLoopMoves(t, key, n - 1);
        MovedOne(s, key, n, t, ServeLoop(t, key, n - 1));
      }
    }
  }

  lemma CountsLists(s: State)
    requires Consistent(s)
    ensures Lists in s.byKind
  {
    hide Indexed, NodesDistinct, Counted;
    AllKinds(s);
  }

  /** Whoever waits for the key: no element is lost or made up, those handed to clients are gone from the lists and those
      moved are where they were moved to, at the end asked for and in the order of serving; every other key is as it was;
      and a destination that came into being is queued if somebody waits for it and any client waits for a list. */
  lemma ElementsAreConserved(s: State, key: Key)
    requires Consistent(s) && key in s.db && s.db[key].ListValue?
    ensures forall w <- WaitersOf(s, key) :: w.client in s.info
    ensures var list, items, wrong := WaitersOf(s, key), s.db[key].items, Wrong(s.db);
            var jobs, u := Jobs(s.info, list), ServeLoop(s, key, |list|);
            && Total(u.db) + Handed(key, wrong, jobs, items) == Total(s.db)
            && (forall k | k != key :: KeyAfter(s.db, u.db, Moves(key, wrong, jobs, items), k))
            && Lists in u.byKind
            && forall k <- u.db | k !in s.db && k in u.blocking && u.byKind[Lists] != 0 :: k in u.readySet
  {
    hide Consistent, ServeLoop, WaitersOf, Jobs, Moves, Handed, Total, KeyAfter;
    var list := WaitersOf(s, key);
    AllWaitersBlocked(s, key);
    ServeLoopMoves(s, key, |list|);
    assert list[..|list|] == list;
  }

  // ---------------------------------------------------------------------------------------------------------
  // Queues
  // ---------------------------------------------------------------------------------------------------------

  function Reverse(items: seq<Elem>): seq<Elem> {
    if items == [] then [] else Reverse(items[1..]) + [items[0]]
  }

  /** A list read from its head, or from its tail. */
  function ReadFrom(items: seq<Elem>, end: End): seq<Elem> {
    if end == Head then items else Reverse(items)
  }

  lemma {:induction false} ReverseLast(items: seq<Elem>)
    requires items != []
    ensures Reverse(items) == [items[|items| - 1]] + Reverse(items[..|items| - 1])
  {
    if |items| > 1 {
      ReverseLast(items[1..]);
      assert items[..|items| - 1][1..] == items[1..][..|items| - 2];
    }
  }

  lemma PopReads(items: seq<Elem>, from: End)
    requires items != []
    ensures ReadFrom(items, from) == [First(items, from)] + ReadFrom(Rest(items, from), from)
  {
    hide Reverse;
    if from == Tail { ReverseLast(items); }
  }

  lemma PushReads(items: seq<Elem>, elem: Elem, to: End)
    ensures ReadFrom(Push(items, elem, to), if to == Tail then Head else Tail)
            == ReadFrom(items, if to == Tail then Head else Tail) + [elem]
  {
    assert ([elem] + items)[1..] == items;
  }

  /** Each client is handed the next element. */
  function Answers(key: Key, jobs: seq<Job>, elems: seq<Elem>): seq<Reply> {
    if jobs == [] || elems == [] then []
    else [Popped(jobs[0].waiter.client, key, elems[0])] + Answers(key, jobs[1..], elems[1..])
  }

  /** What is left when everybody took one. */
  function Untaken(jobs: seq<Job>, elems: seq<Elem>): seq<Elem> {
    if jobs == [] || elems == [] then elems else Untaken(jobs[1..], elems[1..])
  }

  /** Clients that all pop at one end are handed the elements in their order from that end. */
  lemma {:induction false} PoppedInOrder(key: Key, wrong: set<Key>, jobs: seq<Job>, items: seq<Elem>, from: End)
    requires forall j <- jobs :: j.op.kind == Lists && j.op.target == None && j.op.from == from
    ensures Deliveries(key, wrong, jobs, items) == Answers(key, jobs, ReadFrom(items, from))
    ensures ReadFrom(LeftOver(key, wrong, jobs, items), from) == Untaken(jobs, ReadFrom(items, from))
    decreases |jobs|
  {
    hide First, Rest, ReadFrom;
    ReadNothing(items, from);
    if jobs != [] && items != [] {
      var j, rest := jobs[0], Rest(items, from);
      assert j in jobs && forall x <- jobs[1..] :: x in jobs;
      PopReads(items, from);
      PoppedInOrder(key, wrong, jobs[1..], rest, from);
      assert ReadFrom(items, from)[1..] == ReadFrom(rest, from);
      ServedJob(key, wrong, jobs, [], items);
    }
  }

  lemma ReadNothing(items: seq<Elem>, from: End)
    ensures ReadFrom(items, from) == [] <==> items == []
  {
  }

  function Pushed(moves: seq<Move>): seq<Elem> {
    if moves == [] then [] else [moves[0].elem] + Pushed(moves[1..])
  }

  /** Elements moved to one end of a list stand there in order, the last outermost. */
  lemma {:induction false} ArrivedInOrder(moves: seq<Move>, k: Key, items: seq<Elem>, to: End)
    requires forall m <- moves :: m.dst == k && m.to == to
    ensures var far := if to == Tail then Head else Tail;
            ReadFrom(Arrived(moves, k, items), far) == ReadFrom(items, far) + Pushed(moves)
    decreases |moves|
  {
    hide Push, ReadFrom;
    var far := if to == Tail then Head else Tail;
    if moves == [] {
      assert ReadFrom(items, far) + [] == ReadFrom(items, far);
    } else {
      var m := moves[0];
      assert m in moves && forall x <- moves[1..] :: x in moves;
      ArrivedInOrder(moves[1..], k, Push(items, m.elem, to), to);
      PushReads(items, m.elem, to);
    }
  }
}
