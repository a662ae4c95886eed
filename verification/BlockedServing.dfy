/** Serving the clients blocked on a list: serveClientsBlockedOnListKey, with BLMOVE pushing on to other keys. */
module BlockedServing {
  import opened Basics
  import opened Blocked

  /** listTypePop and listTypePush. */
  function First(items: seq<Elem>, from: End): Elem
    requires items != []
  {
    if from == Head then items[0] else items[|items| - 1]
  }

  function Rest(items: seq<Elem>, from: End): seq<Elem>
    requires items != []
  {
    if from == Head then items[1..] else items[..|items| - 1]
  }

  function Push(items: seq<Elem>, elem: Elem, to: End): seq<Elem> {
    if to == Head then [elem] + items else items + [elem]
  }

  /** signalKeyAsReady: only a key somebody waits for, with somebody waiting for its type, is queued, and only once. */
  function Signal(s: State, k: Key, kind: Kind): State {
    if (kind in s.byKind && s.byKind[kind] == 0) || k !in s.blocking || k in s.readySet then s
    else s.(ready := s.ready + [k], readySet := s.readySet + {k})
  }

  /** serveClientBlockedOnList, the popped element in hand; on a destination of the wrong type the pop is undone. */
  function Give(s: State, key: Key, c: Client, info: Info, elem: Elem, from: End): State
    requires key in s.db && s.db[key].ListValue?
  {
    match info.target
    case None => s.(replies := s.replies + [Popped(c, key, elem)])
    case Some(dst) =>
      if dst !in s.db then
        Signal(s.(db := s.db[dst := ListValue([elem])], replies := s.replies + [Popped(c, key, elem)]), dst, Lists)
      else if s.db[dst].ListValue? then
        s.(db := s.db[dst := ListValue(Push(s.db[dst].items, elem, info.to))], replies := s.replies + [Popped(c, key, elem)])
      else s.(db := s.db[key := ListValue(Push(s.db[key].items, elem, from))], replies := s.replies + [WrongType(c)])
  }

  /** One client is served: the pop, unblockClient, the reply. */
  ghost function ServeOne(s: State, key: Key, c: Client): State
    requires Counted(s) && c in s.info && key in s.db && s.db[key].ListValue? && s.db[key].items != []
  {
    var info, items := s.info[c], s.db[key].items;
    var s1 := s.(db := s.db[key := ListValue(Rest(items, info.from))]);
    SameCounted(s, s1);
    Give(Unblock(s1, c), key, c, info, First(items, info.from), info.from)
  }

  function Rotate(list: seq<Waiter>): seq<Waiter>
    requires list != []
  {
    list[1..] + [list[0]]
  }

  /** The loop over the clients that were waiting when it began: n of them are still to be looked at. */
  ghost function ServeLoop(s: State, key: Key, n: nat): State
    requires Consistent(s) && key in s.db && s.db[key].ListValue? && n <= |WaitersOf(s, key)|
    decreases n
  {
    if n == 0 then s
    else
      var c := WaitersOf(s, key)[0].client;
      WaiterIsBlocked(s, key);
      if s.info[c].kind != Lists then
        RotateKeeps(s, key);
        ServeLoop(Rotated(s, key), key, n - 1)
      else if s.db[key].items == [] then s
      else
        ServeOneKeeps(s, key);
        ServeLoop(ServeOne(s, key, c), key, n - 1)
  }

  lemma WaiterIsBlocked(s: State, key: Key)
    requires Consistent(s) && WaitersOf(s, key) != []
    ensures WaitersOf(s, key)[0].client in s.info && Counted(s)
  {
    hide Listed, NoneEmpty, NodesDistinct, Counted;
    assert IsNode(s, s.blocking[key][0].client, key, s.blocking[key][0].node);
  }

  // ---------------------------------------------------------------------------------------------------------
  // What serving keeps
  // ---------------------------------------------------------------------------------------------------------

  function Rotated(s: State, key: Key): State
    requires key in s.blocking && s.blocking[key] != []
  {
    s.(blocking := s.blocking[key := Rotate(s.blocking[key])])
  }

  lemma RotateBacked(s: State, key: Key)
    requires Backed(s) && key in s.blocking && s.blocking[key] != []
    ensures Backed(Rotated(s, key))
  {
    var t := Rotated(s, key);
    var list := s.blocking[key];
    forall k <- t.blocking, i: nat | i < |t.blocking[k]|
      ensures IsNode(t, t.blocking[k][i].client, k, t.blocking[k][i].node)
    {
      if k == key {
        var j := if i < |list| - 1 then i + 1 else 0;
        assert IsNode(s, s.blocking[k][j].client, k, s.blocking[k][j].node);
      } else {
        assert IsNode(s, s.blocking[k][i].client, k, s.blocking[k][i].node);
      }
    }
  }

  lemma RotateListed(s: State, key: Key)
    requires Listed(s) && key in s.blocking && s.blocking[key] != []
    ensures Listed(Rotated(s, key))
  {
    var t := Rotated(s, key);
    RotateMembers(s.blocking[key]);
    forall c, k | Holds(t, c, k) ensures k in t.blocking && Waiter(t.keysOf[c][k], c) in t.blocking[k] {
      assert Holds(s, c, k);
    }
  }

  lemma RotateNoneEmpty(s: State, key: Key)
    requires NoneEmpty(s) && key in s.blocking && s.blocking[key] != []
    ensures NoneEmpty(Rotated(s, key))
  {
    RotateOneEach(s.blocking[key]);
  }

  lemma RotateOneEach(list: seq<Waiter>)
    requires list != [] && OneEach(list)
    ensures OneEach(Rotate(list))
  {
    assert forall i | 1 <= i < |list| :: list[0].client != list[i].client;
  }

  lemma SameDistinct(s: State, t: State)
    requires NodesDistinct(s) && t.keysOf == s.keysOf && t.nextNode == s.nextNode
    ensures NodesDistinct(t)
  {
    assert forall c, k :: Holds(t, c, k) ==> Holds(s, c, k);
  }

  lemma RotateKeeps(s: State, key: Key)
    requires Consistent(s) && key in s.blocking && s.blocking[key] != []
    ensures var t := Rotated(s, key);
            Consistent(t) && |WaitersOf(t, key)| == |WaitersOf(s, key)|
  {
    hide Counted, Backed, Listed, NoneEmpty, NodesDistinct;
    var t := Rotated(s, key);
    SameCounted(s, t);
    RotateBacked(s, key);
    RotateListed(s, key);
    RotateNoneEmpty(s, key);
    SameDistinct(s, t);
  }

  lemma RotateMembers(list: seq<Waiter>)
    requires list != []
    ensures forall w :: w in Rotate(list) <==> w in list
  {
    assert list == [list[0]] + list[1..];
  }

  lemma {:induction false} LeftAbsent(list: seq<Waiter>, c: Client)
    requires forall w <- list :: w.client != c
    ensures Left(list, c) == list
  {
    if list != [] {
      LeftAbsent(list[1..], c);
    }
  }

  lemma LeftHead(list: seq<Waiter>)
    requires list != [] && OneEach(list)
    ensures Left(list, list[0].client) == list[1..]
  {
    LeftAbsent(list[1..], list[0].client);
  }

  lemma SignalKeeps(s: State, k: Key, kind: Kind)
    ensures var t := Signal(s, k, kind);
            t == s.(ready := t.ready, readySet := t.readySet) && ReadyGrows(s, t)
  {
  }

  /** At most one key is queued, and none twice. */
  ghost predicate ReadyGrows(s: State, t: State) {
    || (t.ready == s.ready && t.readySet == s.readySet)
    || exists k :: k !in s.readySet && t.ready == s.ready + [k] && t.readySet == s.readySet + {k}
  }

  /** Giving touches neither the index nor the counters. */
  lemma GiveKeeps(s: State, key: Key, c: Client, info: Info, elem: Elem, from: End)
    requires key in s.db && s.db[key].ListValue?
    ensures var t := Give(s, key, c, info, elem, from);
            && t.blocking == s.blocking && t.keysOf == s.keysOf && t.info == s.info && t.nextNode == s.nextNode
            && t.count == s.count && t.byKind == s.byKind
            && key in t.db && t.db[key].ListValue?
            && |t.replies| == |s.replies| + 1
            && ReadyGrows(s, t)
  {
    hide Signal, ReadyGrows, Push;
    SameReady(s, Give(s, key, c, info, elem, from));
    if info.target.Some? && info.target.value !in s.db {
      var dst := info.target.value;
      var s1 := s.(db := s.db[dst := ListValue([elem])], replies := s.replies + [Popped(c, key, elem)]);
      SignalKeeps(s1, dst, Lists);
      ReadyFrom(s, s1, Signal(s1, dst, Lists));
    }
  }

  lemma SameReady(s: State, t: State)
    ensures t.ready == s.ready && t.readySet == s.readySet ==> ReadyGrows(s, t)
  {
  }

  lemma ReadyFrom(s: State, s1: State, t: State)
    requires s1.ready == s.ready && s1.readySet == s.readySet && ReadyGrows(s1, t)
    ensures ReadyGrows(s, t)
  {
  }

  lemma ServeOneKeeps(s: State, key: Key)
    requires Consistent(s) && WaitersOf(s, key) != [] && key in s.db && s.db[key].ListValue? && s.db[key].items != []
    ensures WaitersOf(s, key)[0].client in s.info && Counted(s)
    ensures var list := WaitersOf(s, key);
            var c := list[0].client;
            var t := ServeOne(s, key, c);
            && Consistent(t) && WaitersOf(t, key) == list[1..]
            && t.info == s.info - {c}
            && key in t.db && t.db[key].ListValue? && ReadyGrows(s, t)
  {
    hide Indexed, NodesDistinct, Counted, Unblock, Give;
    WaiterIsBlocked(s, key);
    var list := WaitersOf(s, key);
    var c, items := list[0].client, s.db[key].items;
    var info := s.info[c];
    var s1 := s.(db := s.db[key := ListValue(Rest(items, info.from))]);
    SameCounted(s, s1);
    SameIndex(s, s1);
    UnblockKeeps(s1, c);
    UnblockRest(s1, key);
    var s2 := Unblock(s1, c);
    GiveKeeps(s2, key, c, info, First(items, info.from), info.from);
    var t := ServeOne(s, key, c);
    SameCounted(s2, t);
    SameIndex(s2, t);
  }

  lemma UnblockRest(s: State, key: Key)
    requires Consistent(s) && WaitersOf(s, key) != []
    ensures WaitersOf(s, key)[0].client in s.info && Counted(s)
    ensures var list := WaitersOf(s, key);
            var t := Unblock(s, list[0].client);
            && WaitersOf(t, key) == list[1..] && t.info == s.info - {list[0].client} && t.db == s.db
            && t.replies == s.replies && t.ready == s.ready && t.readySet == s.readySet
  {
    hide Backed, Listed, NodesDistinct, Counted;
    WaiterIsBlocked(s, key);
    LeftHead(s.blocking[key]);
  }

  /** The queued keys, those being worked through and those signalled meanwhile, are what the dictionary holds, each once. */
  ghost predicate Queued(s: State, working: seq<Key>) {
    && (forall k :: k in s.readySet <==> k in working || k in s.ready)
    && Once(working + s.ready)
  }

  predicate Once(keys: seq<Key>) {
    forall i, j | 0 <= i < j < |keys| :: keys[i] != keys[j]
  }

  lemma StillQueued(s: State, t: State, working: seq<Key>)
    requires Queued(s, working) && ReadyGrows(s, t)
    ensures Queued(t, working)
  {
    if t.ready != s.ready {
      var k :| k !in s.readySet && t.ready == s.ready + [k] && t.readySet == s.readySet + {k};
      var before := working + s.ready;
      assert working + t.ready == before + [k];
      assert forall i | 0 <= i < |before| :: before[i] in working || before[i] in s.ready;
    }
  }

  lemma SameQueued(s: State, t: State, working: seq<Key>)
    requires Queued(s, working) && t.ready == s.ready && t.readySet == s.readySet
    ensures Queued(t, working)
  {
  }

  /** The next key leaves the dictionary and then the queue. */
  lemma NextQueued(s: State, t: State, working: seq<Key>)
    requires Queued(s, working) && working != [] && t.ready == s.ready && t.readySet == s.readySet - {working[0]}
    ensures Queued(t, working[1..])
  {
    var all := working + s.ready;
    assert working[1..] + t.ready == all[1..];
    assert forall k :: k in working <==> k == working[0] || k in working[1..] by {
      assert working == [working[0]] + working[1..];
    }
    assert working[0] !in working[1..] && working[0] !in s.ready by {
      assert forall i | 1 <= i < |all| :: all[i] != all[0];
      assert forall i | 0 <= i < |working[1..]| :: working[1..][i] == all[i + 1];
      assert forall i | 0 <= i < |s.ready| :: s.ready[i] == all[|working| + i];
    }
  }

  /** Every client served leaves; the index and the counters stay right, and the list is never empty while a client of it
      is still to be looked at. */
  lemma {:induction false} ServeLoopKeeps(s: State, key: Key, n: nat)
    requires Consistent(s) && key in s.db && s.db[key].ListValue? && n <= |WaitersOf(s, key)|
    ensures var t := ServeLoop(s, key, n);
            && Consistent(t) && key in t.db && t.db[key].ListValue?
            && t.info.Keys <= s.info.Keys
            && (t.info.Keys == s.info.Keys ==> t.ready == s.ready && t.readySet == s.readySet)
            && forall working :: Queued(s, working) ==> Queued(t, working)
    decreases n
  {
    hide Indexed, NodesDistinct, Counted, ServeOne, Queued;
    if n > 0 {
      var c := WaitersOf(s, key)[0].client;
      WaiterIsBlocked(s, key);
      if s.info[c].kind != Lists {
        RotateKeeps(s, key);
        var t := Rotated(s, key);
        forall working | Queued(s, working) ensures Queued(t, working) {
          SameQueued(s, t, working);
        }
        ServeLoopKeeps(t, key, n - 1);
      } else if s.db[key].items != [] {
        ServeOneKeeps(s, key);
        var t := ServeOne(s, key, c);
        forall working | Queued(s, working) ensures Queued(t, working) {
          StillQueued(s, t, working);
        }
        ServeLoopKeeps(t, key, n - 1);
      }
    }
  }

  // ---------------------------------------------------------------------------------------------------------
  // First come, first served
  // ---------------------------------------------------------------------------------------------------------

  /** A waiting client with its operation. */
  datatype Job = Job(waiter: Waiter, op: Info)

  function Jobs(infos: map<Client, Info>, list: seq<Waiter>): (jobs: seq<Job>)
    requires forall w <- list :: w.client in infos
    ensures |jobs| == |list|
  {
    if list == [] then [] else [Job(list[0], infos[list[0].client])] + Jobs(infos, list[1..])
  }

  /** The keys that hold something else than a list. */
  function Wrong(db: map<Key, Value>): set<Key> {
    set k | k in db && !db[k].ListValue?
  }

  predicate Fails(op: Info, wrong: set<Key>) {
    op.target.Some? && op.target.value in wrong
  }

  /** Serving the client leaves the key with one element less: it neither fails nor moves the element to the key itself. */
  predicate TakesAway(op: Info, key: Key, wrong: set<Key>) {
    !Fails(op, wrong) && op.target != Some(key)
  }

  /** What the key holds after a client was served. */
  function Turned(op: Info, key: Key, wrong: set<Key>, items: seq<Elem>): (r: seq<Elem>)
    requires items != []
    ensures |r| == |items| - if TakesAway(op, key, wrong) then 1 else 0
  {
    if Fails(op, wrong) then items
    else if op.target == Some(key) then Push(Rest(items, op.from), First(items, op.from), op.to)
    else Rest(items, op.from)
  }

  function Told(c: Client, op: Info, key: Key, wrong: set<Key>, items: seq<Elem>): Reply
    requires items != []
  {
    if Fails(op, wrong) then WrongType(c) else Popped(c, key, First(items, op.from))
  }

  /** The replies when the clients are looked at one after the other: those that wait for something else than a list are
      passed over, and nobody is served once the list is empty. */
  function Deliveries(key: Key, wrong: set<Key>, jobs: seq<Job>, items: seq<Elem>): seq<Reply>
    decreases |jobs|
  {
    if jobs == [] || items == [] then []
    else
      var c, op := jobs[0].waiter.client, jobs[0].op;
      if op.kind != Lists then Deliveries(key, wrong, jobs[1..], items)
      else [Told(c, op, key, wrong, items)] + Deliveries(key, wrong, jobs[1..], Turned(op, key, wrong, items))
  }

  function LeftOver(key: Key, wrong: set<Key>, jobs: seq<Job>, items: seq<Elem>): seq<Elem>
    decreases |jobs|
  {
    if jobs == [] || items == [] then items
    else
      var op := jobs[0].op;
      LeftOver(key, wrong, jobs[1..], if op.kind != Lists then items else Turned(op, key, wrong, items))
  }

  /** Who still waits, and in what order; `passed` are those passed over, which go to the end of the list. An empty list is
      noticed only when a client wants to pop. */
  function Staying(key: Key, wrong: set<Key>, jobs: seq<Job>, passed: seq<Waiter>, items: seq<Elem>): seq<Waiter>
    decreases |jobs|
  {
    if jobs == [] then passed
    else
      var w, op := jobs[0].waiter, jobs[0].op;
      if op.kind != Lists then Staying(key, wrong, jobs[1..], passed + [w], items)
      else if items == [] then Waiters(jobs) + passed
      else Staying(key, wrong, jobs[1..], passed, Turned(op, key, wrong, items))
  }

  function Waiters(jobs: seq<Job>): seq<Waiter> {
    if jobs == [] then [] else [jobs[0].waiter] + Waiters(jobs[1..])
  }

  lemma {:induction false} WaitersOfJobs(infos: map<Client, Info>, list: seq<Waiter>)
    requires forall w <- list :: w.client in infos
    ensures Waiters(Jobs(infos, list)) == list
  {
    if list != [] { WaitersOfJobs(infos, list[1..]); }
  }

  /** The jobs do not depend on clients that are not in the list. */
  lemma {:induction false} SameJobs(a: map<Client, Info>, b: map<Client, Info>, list: seq<Waiter>)
    requires forall w <- list :: w.client in a && w.client in b && a[w.client] == b[w.client]
    ensures Jobs(a, list) == Jobs(b, list)
  {
    if list != [] {
      assert list[0] in list && forall w <- list[1..] :: w in list;
      SameJobs(a, b, list[1..]);
    }
  }

  lemma NothingDelivered(key: Key, wrong: set<Key>, jobs: seq<Job>)
    ensures Deliveries(key, wrong, jobs, []) == [] && LeftOver(key, wrong, jobs, []) == []
  {
  }

  // ---------------------------------------------------------------------------------------------------------
  // One turn
  // ---------------------------------------------------------------------------------------------------------

  /** Popping and pushing back at the same end. */
  lemma Undone(items: seq<Elem>, from: End)
    requires items != []
    ensures Push(Rest(items, from), First(items, from), from) == items
  {
  }

  lemma GivesElem(s: State, key: Key, c: Client, op: Info, items: seq<Elem>)
    requires key in s.db && items != [] && s.db[key] == ListValue(Rest(items, op.from))
    ensures var t := Give(s, key, c, op, First(items, op.from), op.from);
            && key in t.db && t.db[key] == ListValue(Turned(op, key, Wrong(s.db), items))
            && t.replies == s.replies + [Told(c, op, key, Wrong(s.db), items)]
            && Wrong(t.db) == Wrong(s.db)
  {
    hide Signal, Push, First, Rest;
    Undone(items, op.from);
    if op.target.Some? && op.target.value !in s.db {
      var dst := op.target.value;
      var s1 := s.(db := s.db[dst := ListValue([First(items, op.from)])],
                   replies := s.replies + [Popped(c, key, First(items, op.from))]);
      SignalKeeps(s1, dst, Lists);
    }
  }

  /** What serving the head of the list does to the key, the replies and the list. */
  lemma ServeOneIs(s: State, key: Key)
    requires Consistent(s) && WaitersOf(s, key) != []
    requires key in s.db && s.db[key].ListValue? && s.db[key].items != []
    ensures WaitersOf(s, key)[0].client in s.info && Counted(s)
    ensures var list, items := WaitersOf(s, key), s.db[key].items;
            var c := list[0].client;
            var t := ServeOne(s, key, c);
            && Consistent(t) && WaitersOf(t, key) == list[1..] && t.info == s.info - {c}
            && key in t.db && t.db[key] == ListValue(Turned(s.info[c], key, Wrong(s.db), items))
            && t.replies == s.replies + [Told(c, s.info[c], key, Wrong(s.db), items)]
            && Wrong(t.db) == Wrong(s.db)
  {
    hide Indexed, NodesDistinct, Counted, Unblock, Give, Turned, Told, First, Rest;
    ServeOneKeeps(s, key);
    var c, items := WaitersOf(s, key)[0].client, s.db[key].items;
    var op := s.info[c];
    var s1 := s.(db := s.db[key := ListValue(Rest(items, op.from))]);
    assert Wrong(s1.db) == Wrong(s.db);
    SameCounted(s, s1);
    SameIndex(s, s1);
    UnblockRest(s1, key);
    GivesElem(Unblock(s1, c), key, c, op, items);
  }

  /** The turns of the loop, by the client at the head of the list. */
  lemma ServeLoopTurns(s: State, key: Key, n: nat)
    requires Consistent(s) && key in s.db && s.db[key].ListValue? && 0 < n <= |WaitersOf(s, key)|
    ensures WaitersOf(s, key)[0].client in s.info && Counted(s)
    ensures var c := WaitersOf(s, key)[0].client;
            if s.info[c].kind != Lists then
              && key in s.blocking && Consistent(Rotated(s, key))
              && ServeLoop(s, key, n) == ServeLoop(Rotated(s, key), key, n - 1)
            else if s.db[key].items == [] then ServeLoop(s, key, n) == s
            else
              var t := ServeOne(s, key, c);
              && Consistent(t) && key in t.db && t.db[key].ListValue? && n - 1 <= |WaitersOf(t, key)|
              && ServeLoop(s, key, n) == ServeLoop(t, key, n - 1)
  {
    hide Indexed, NodesDistinct, Counted, ServeOne, Rotated;
    WaiterIsBlocked(s, key);
    var c := WaitersOf(s, key)[0].client;
    if s.info[c].kind != Lists {
      RotateKeeps(s, key);
    } else if s.db[key].items != [] {
      ServeOneKeeps(s, key);
    }
  }

  lemma AllWaitersBlocked(s: State, key: Key)
    requires Consistent(s)
    ensures forall w <- WaitersOf(s, key) :: w.client in s.info
  {
    hide Listed, NoneEmpty, NodesDistinct, Counted;
    forall w <- WaitersOf(s, key) ensures w.client in s.info {
      var i :| 0 <= i < |s.blocking[key]| && s.blocking[key][i] == w;
      assert IsNode(s, s.blocking[key][i].client, key, s.blocking[key][i].node);
    }
  }

  lemma WaitersDistinct(s: State, key: Key)
    requires Consistent(s)
    ensures OneEach(WaitersOf(s, key))
  {
    hide Backed, Listed, NodesDistinct, Counted;
  }

  // ---------------------------------------------------------------------------------------------------------
  // The whole loop
  // ---------------------------------------------------------------------------------------------------------

  /** From s to u, the first n clients of the list were dealt with in order. */
  ghost predicate DealtWith(s: State, key: Key, n: nat, u: State) {
    && key in s.db && s.db[key].ListValue? && n <= |WaitersOf(s, key)|
    && (forall w <- WaitersOf(s, key)[..n] :: w.client in s.info)
    && var list, items, wrong := WaitersOf(s, key), s.db[key].items, Wrong(s.db);
       var jobs := Jobs(s.info, list[..n]);
       && u.replies == s.replies + Deliveries(key, wrong, jobs, items)
       && key in u.db && u.db[key] == ListValue(LeftOver(key, wrong, jobs, items))
       && WaitersOf(u, key) == Staying(key, wrong, jobs, list[n..], items)
  }

  lemma DealtWithNone(s: State, key: Key)
    requires key in s.db && s.db[key].ListValue?
    ensures DealtWith(s, key, 0, s)
  {
    assert s.replies + [] == s.replies;
  }

  lemma FirstJob(infos: map<Client, Info>, list: seq<Waiter>, n: nat)
    requires 0 < n <= |list| && forall w <- list[..n] :: w.client in infos
    ensures list[0].client in infos && (forall w <- list[1..][..n - 1] :: w.client in infos)
    ensures Jobs(infos, list[..n]) == [Job(list[0], infos[list[0].client])] + Jobs(infos, list[1..][..n - 1])
  {
    assert list[0] in list[..n] && list[..n][1..] == list[1..][..n - 1];
  }

  /** A client that waits for something else goes to the end. */
  lemma PassedOver(s: State, key: Key, n: nat, u: State)
    requires key in s.blocking && key in s.db && s.db[key].ListValue? && 0 < n <= |s.blocking[key]|
    requires forall w <- s.blocking[key][..n] :: w.client in s.info
    requires s.blocking[key][0].client in s.info && s.info[s.blocking[key][0].client].kind != Lists
    requires DealtWith(Rotated(s, key), key, n - 1, u)
    ensures DealtWith(s, key, n, u)
  {
    hide Deliveries, LeftOver, Staying, Jobs;
    var list, t, items, wrong := s.blocking[key], Rotated(s, key), s.db[key].items, Wrong(s.db);
    FirstJob(s.info, list, n);
    var after := t.blocking[key];
    assert after == list[1..] + [list[0]];
    assert after[..n - 1] == list[1..][..n - 1] && after[n - 1..] == list[n..] + [list[0]];
    PassedJob(key, wrong, Jobs(s.info, list[..n]), list[n..], items);
    assert Jobs(s.info, list[..n])[1..] == Jobs(s.info, list[1..][..n - 1]);
  }

  lemma PassedJob(key: Key, wrong: set<Key>, jobs: seq<Job>, passed: seq<Waiter>, items: seq<Elem>)
    requires jobs != [] && jobs[0].op.kind != Lists
    ensures Deliveries(key, wrong, jobs, items) == Deliveries(key, wrong, jobs[1..], items)
    ensures LeftOver(key, wrong, jobs, items) == LeftOver(key, wrong, jobs[1..], items)
    ensures Staying(key, wrong, jobs, passed, items) == Staying(key, wrong, jobs[1..], passed + [jobs[0].waiter], items)
  {
    if items == [] { NothingDelivered(key, wrong, jobs[1..]); }
  }

  lemma StoppedJob(key: Key, wrong: set<Key>, jobs: seq<Job>, passed: seq<Waiter>)
    requires jobs != [] && jobs[0].op.kind == Lists
    ensures Staying(key, wrong, jobs, passed, []) == Waiters(jobs) + passed
  {
  }

  lemma ServedJob(key: Key, wrong: set<Key>, jobs: seq<Job>, passed: seq<Waiter>, items: seq<Elem>)
    requires jobs != [] && jobs[0].op.kind == Lists && items != []
    ensures var c, op := jobs[0].waiter.client, jobs[0].op;
            var now := Turned(op, key, wrong, items);
            && Deliveries(key, wrong, jobs, items)
               == [Told(c, op, key, wrong, items)] + Deliveries(key, wrong, jobs[1..], now)
            && LeftOver(key, wrong, jobs, items) == LeftOver(key, wrong, jobs[1..], now)
            && Staying(key, wrong, jobs, passed, items) == Staying(key, wrong, jobs[1..], passed, now)
  {
    hide Turned, Told;
  }

  lemma Stopped(s: State, key: Key, n: nat)
    requires key in s.db && s.db[key] == ListValue([]) && 0 < n <= |WaitersOf(s, key)|
    requires forall w <- WaitersOf(s, key)[..n] :: w.client in s.info
    requires WaitersOf(s, key)[0].client in s.info && s.info[WaitersOf(s, key)[0].client].kind == Lists
    ensures DealtWith(s, key, n, s)
  {
    hide Deliveries, LeftOver, Staying, Jobs, Waiters;
    var list, wrong := WaitersOf(s, key), Wrong(s.db);
    FirstJob(s.info, list, n);
    var jobs := Jobs(s.info, list[..n]);
    NothingDelivered(key, wrong, jobs);
    StoppedJob(key, wrong, jobs, list[n..]);
    WaitersOfJobs(s.info, list[..n]);
    assert list[..n] + list[n..] == list && s.replies + [] == s.replies;
  }

  lemma OneServed(s: State, key: Key, n: nat, t: State, u: State)
    requires key in s.db && s.db[key].ListValue? && s.db[key].items != [] && 0 < n <= |WaitersOf(s, key)|
    requires OneEach(WaitersOf(s, key)) && forall w <- WaitersOf(s, key)[..n] :: w.client in s.info
    requires WaitersOf(s, key)[0].client in s.info && s.info[WaitersOf(s, key)[0].client].kind == Lists
    requires var list, items := WaitersOf(s, key), s.db[key].items;
             var c := list[0].client;
             && WaitersOf(t, key) == list[1..] && t.info == s.info - {c}
             && key in t.db && t.db[key] == ListValue(Turned(s.info[c], key, Wrong(s.db), items))
             && t.replies == s.replies + [Told(c, s.info[c], key, Wrong(s.db), items)] && Wrong(t.db) == Wrong(s.db)
    requires DealtWith(t, key, n - 1, u)
    ensures DealtWith(s, key, n, u)
  {
    hide WaitersOf, Deliveries, LeftOver, Staying, Jobs, Turned, Told, Wrong;
    var list, items, wrong := WaitersOf(s, key), s.db[key].items, Wrong(s.db);
    FirstJob(s.info, list, n);
    var jobs, rest := Jobs(s.info, list[..n]), list[1..][..n - 1];
    OthersRemain(s.info, list, n);
    SameJobs(s.info, t.info, rest);
    assert jobs[1..] == Jobs(t.info, rest) && list[1..][n - 1..] == list[n..];
    ServedJob(key, wrong, jobs, list[n..], items);
  }

  lemma OthersRemain(infos: map<Client, Info>, list: seq<Waiter>, n: nat)
    requires 0 < n <= |list| && OneEach(list) && forall w <- list[..n] :: w.client in infos
    ensures forall w <- list[1..][..n - 1] :: w.client in infos && w.client in infos - {list[0].client}
  {
    assert list[..n][1..] == list[1..][..n - 1];
    forall w <- list[1..][..n - 1] ensures w.client in infos && w.client != list[0].client {
      var i :| 0 <= i < n - 1 && list[1..][i] == w;
      assert list[i + 1] == w && w in list[..n];
    }
  }

  lemma {:induction false} ServeLoopIs(s: State, key: Key, n: nat)
    requires Consistent(s) && key in s.db && s.db[key].ListValue? && n <= |WaitersOf(s, key)|
    ensures DealtWith(s, key, n, ServeLoop(s, key, n))
    decreases n
  {
    hide Consistent, Counted, ServeOne, Rotated, DealtWith, ServeLoop;
    if n == 0 {
      DealtWithNone(s, key);
      NoTurns(s, key);
    } else {
      var list := WaitersOf(s, key);
      AllWaitersBlocked(s, key);
      WaitersDistinct(s, key);
      ServeLoopTurns(s, key, n);
      var c := list[0].client;
      assert forall w <- list[..n] :: w in list;
      if s.info[c].kind != Lists {
        RotateKeeps(s, key);
        RotatedIs(s, key);
        ServeLoopIs(Rotated(s, key), key, n - 1);
        PassedOver(s, key, n, ServeLoop(Rotated(s, key), key, n - 1));
      } else if s.db[key].items == [] {
        Stopped(s, key, n);
      } else {
        ServeOneIs(s, key);
        var t := ServeOne(s, key, c);
        ServeLoopIs(t, key, n - 1);
        OneServed(s, key, n, t, ServeLoop(t, key, n - 1));
      }
    }
  }

  lemma NoTurns(s: State, key: Key)
    requires Consistent(s) && key in s.db && s.db[key].ListValue?
    ensures ServeLoop(s, key, 0) == s
  {
    hide Consistent;
  }

  lemma RotatedIs(s: State, key: Key)
    requires key in s.blocking && s.blocking[key] != []
    ensures Rotated(s, key).db == s.db && key in Rotated(s, key).blocking
    ensures |WaitersOf(Rotated(s, key), key)| == |WaitersOf(s, key)|
  {
  }

  /** Whoever waits for the key, and whatever for: the clients that wait for a list are served in the order they blocked,
      each with the element at the end it asked for, until the list is empty; the key holds what is left, and the others
      wait on. */
  lemma FirstComeFirstServed(s: State, key: Key)
    requires Consistent(s) && key in s.db && s.db[key].ListValue?
    ensures forall w <- WaitersOf(s, key) :: w.client in s.info
    ensures var list, items, wrong := WaitersOf(s, key), s.db[key].items, Wrong(s.db);
            var jobs, u := Jobs(s.info, list), ServeLoop(s, key, |list|);
            && u.replies == s.replies + Deliveries(key, wrong, jobs, items)
            && key in u.db && u.db[key] == ListValue(LeftOver(key, wrong, jobs, items))
            && WaitersOf(u, key) == Staying(key, wrong, jobs, [], items)
  {
    hide Consistent, ServeLoop, WaitersOf, Deliveries, LeftOver, Staying, Jobs;
    var list := WaitersOf(s, key);
    AllWaitersBlocked(s, key);
    ServeLoopIs(s, key, |list|);
    assert list[..|list|] == list && list[|list|..] == [];
  }

  // ---------------------------------------------------------------------------------------------------------
  // How many are served
  // ---------------------------------------------------------------------------------------------------------

  /** Those who wait for a list. */
  function Poppers(jobs: seq<Job>): (r: seq<Job>)
    ensures forall j <- r :: j.op.kind == Lists
  {
    if jobs == [] then []
    else (if jobs[0].op.kind == Lists then [jobs[0]] else []) + Poppers(jobs[1..])
  }

  /** How many of them take an element away. */
  function Takers(key: Key, wrong: set<Key>, jobs: seq<Job>): (n: nat)
    ensures n <= |jobs|
  {
    if jobs == [] then 0 else (if TakesAway(jobs[0].op, key, wrong) then 1 else 0) + Takers(key, wrong, jobs[1..])
  }

  /** The replies r go to the first of the clients p, one each, in order. Only those who take an element away use one up: a
      client is served exactly as long as the takers before it are fewer than the n elements. */
  ghost predicate CountedOut(key: Key, wrong: set<Key>, p: seq<Job>, r: seq<Reply>, left: nat, n: nat) {
    && |r| <= |p| && (forall i | 0 <= i < |r| :: r[i].client == p[i].waiter.client)
    && Takers(key, wrong, p[..|r|]) + left == n
    && (|r| == |p| || left == 0)
    && (forall i | 0 <= i < |r| :: Takers(key, wrong, p[..i]) < n)
  }

  lemma CountedOutNext(key: Key, wrong: set<Key>, p: seq<Job>, r: seq<Reply>, left: nat, n: nat, told: Reply, j: Job, m: nat)
    requires CountedOut(key, wrong, p, r, left, m) && told.client == j.waiter.client && 0 < n
    requires n == m + if TakesAway(j.op, key, wrong) then 1 else 0
    ensures CountedOut(key, wrong, [j] + p, [told] + r, left, n)
  {
    hide TakesAway, Takers;
    var q, s := [j] + p, [told] + r;
    assert q[1..] == p;
    TakersNext(key, wrong, q, |s|);
    forall i | 0 <= i < |s| ensures s[i].client == q[i].waiter.client && Takers(key, wrong, q[..i]) < n {
      if i == 0 {
        NoTakers(key, wrong, q[..0]);
      } else {
        TakersNext(key, wrong, q, i);
        assert Takers(key, wrong, p[..i - 1]) < m && r[i - 1].client == p[i - 1].waiter.client;
      }
    }
  }

  lemma NoTakers(key: Key, wrong: set<Key>, jobs: seq<Job>)
    requires jobs == []
    ensures Takers(key, wrong, jobs) == 0
  {
  }

  lemma {:induction false} ServedExactly(key: Key, wrong: set<Key>, jobs: seq<Job>, items: seq<Elem>)
    ensures CountedOut(key, wrong, Poppers(jobs), Deliveries(key, wrong, jobs, items),
                       |LeftOver(key, wrong, jobs, items)|, |items|)
    decreases |jobs|
  {
    hide TakesAway, Turned, Told, CountedOut;
    if jobs == [] || items == [] {
      NobodyServed(key, wrong, Poppers(jobs), |items|);
    } else if jobs[0].op.kind != Lists {
      assert Poppers(jobs) == Poppers(jobs[1..]);
      ServedExactly(key, wrong, jobs[1..], items);
    } else {
      var j, op := jobs[0], jobs[0].op;
      var now := Turned(op, key, wrong, items);
      ServedExactly(key, wrong, jobs[1..], now);
      var told := Told(j.waiter.client, op, key, wrong, items);
      ToldClient(j.waiter.client, op, key, wrong, items);
      CountedOutNext(key, wrong, Poppers(jobs[1..]), Deliveries(key, wrong, jobs[1..], now),
                     |LeftOver(key, wrong, jobs[1..], now)|, |items|, told, j, |now|);
    }
  }

  lemma NobodyServed(key: Key, wrong: set<Key>, p: seq<Job>, n: nat)
    requires p == [] || n == 0
    ensures CountedOut(key, wrong, p, [], n, n)
  {
    NoTakers(key, wrong, p[..0]);
  }

  lemma TakersNext(key: Key, wrong: set<Key>, p: seq<Job>, i: nat)
    requires 0 < i <= |p|
    ensures Takers(key, wrong, p[..i])
            == (if TakesAway(p[0].op, key, wrong) then 1 else 0) + Takers(key, wrong, p[1..][..i - 1])
  {
    assert p[..i][1..] == p[1..][..i - 1];
  }

  lemma ToldClient(c: Client, op: Info, key: Key, wrong: set<Key>, items: seq<Elem>)
    requires items != []
    ensures Told(c, op, key, wrong, items).client == c
  {
  }

  lemma {:induction false} AllTake(key: Key, wrong: set<Key>, jobs: seq<Job>)
    ensures Takers(key, wrong, jobs) == |jobs| <==> forall i | 0 <= i < |jobs| :: TakesAway(jobs[i].op, key, wrong)
  {
    hide TakesAway;
    if jobs != [] {
      AllTake(key, wrong, jobs[1..]);
      assert forall i | 1 <= i < |jobs| :: jobs[i] == jobs[1..][i - 1];
    }
  }

  lemma {:induction false} TakersGrow(key: Key, wrong: set<Key>, jobs: seq<Job>, i: nat, j: nat)
    requires i <= j <= |jobs|
    ensures Takers(key, wrong, jobs[..i]) <= Takers(key, wrong, jobs[..j])
  {
    hide TakesAway;
    if i > 0 {
      TakersNext(key, wrong, jobs, i);
      TakersNext(key, wrong, jobs, j);
      TakersGrow(key, wrong, jobs[1..], i - 1, j - 1);
    }
  }

  /** As many as there are elements are served, or all if they are fewer, if and only if there are elements enough for all
      or each of the first clients, as many as there are elements, takes one away. */
  lemma MinimumExactly(key: Key, wrong: set<Key>, jobs: seq<Job>, items: seq<Elem>)
    ensures var served, p := |Deliveries(key, wrong, jobs, items)|, Poppers(jobs);
            served == (if |p| < |items| then |p| else |items|)
            <==> |p| <= |items| || forall i | 0 <= i < |items| :: TakesAway(p[i].op, key, wrong)
  {
    hide Deliveries, LeftOver, Poppers, Takers, TakesAway;
    var r, p, n := Deliveries(key, wrong, jobs, items), Poppers(jobs), |items|;
    ServedExactly(key, wrong, jobs, items);
    if |r| < |p| {
      assert Takers(key, wrong, p[..|r|]) == n;
    }
    if n < |p| {
      AllTake(key, wrong, p[..n]);
      assert forall i | 0 <= i < n :: p[..n][i] == p[i];
      if |r| > n {
        assert Takers(key, wrong, p[..n]) < n;
      }
    }
  }

  // ---------------------------------------------------------------------------------------------------------
  // Two clients, one element
  // ---------------------------------------------------------------------------------------------------------

  const ROTATE := Info(Lists, Some("k"), Head, Tail, None, 0, map[])

  /** Clients 1 and 2 block with BLMOVE k k LEFT RIGHT, then k becomes a list of one element. */
  function TwoRotate(): State {
    State(map["k" := [Waiter(0, 1), Waiter(1, 2)]], map[1 := map["k" := 0], 2 := map["k" := 1]],
          map[1 := ROTATE, 2 := ROTATE],
          2, map[Lists := 2, SortedSets := 0, Streams := 0], 2, [], {}, map["k" := ListValue(["a"])], [])
  }

  function NoneBlocked(): State {
    State(map[], map[], map[], 0, map[Lists := 0, SortedSets := 0, Streams := 0], 0, [], {},
          map["k" := ListValue(["a"])], [])
  }

  function OneRotates(): State {
    State(map["k" := [Waiter(0, 1)]], map[1 := map["k" := 0]], map[1 := ROTATE],
          1, map[Lists := 1, SortedSets := 0, Streams := 0], 1, [], {}, map["k" := ListValue(["a"])], [])
  }

  lemma FirstBlocks()
    ensures Lists in AddKeys(NoneBlocked(), 1, ["k"]).byKind
    ensures Enter(AddKeys(NoneBlocked(), 1, ["k"]), 1, ROTATE) == OneRotates()
  {
    AddOneKey(NoneBlocked(), 1, "k");
    assert WaitersOf(NoneBlocked(), "k") + [Waiter(0, 1)] == [Waiter(0, 1)];
  }

  lemma SecondBlocks()
    ensures Lists in AddKeys(OneRotates(), 2, ["k"]).byKind
    ensures Enter(AddKeys(OneRotates(), 2, ["k"]), 2, ROTATE) == TwoRotate()
  {
    AddOneKey(OneRotates(), 2, "k");
    assert WaitersOf(OneRotates(), "k") + [Waiter(1, 2)] == [Waiter(0, 1), Waiter(1, 2)];
  }

  lemma TwoRotateBlocked()
    ensures Consistent(TwoRotate())
  {
    hide Consistent, AddKeys, Enter, OneRotates, TwoRotate;
    EmptyConsistent(NoneBlocked());
    FirstBlocks();
    BlockKeeps(NoneBlocked(), 1, ROTATE, ["k"]);
    SecondBlocks();
    OnlyOne();
    BlockKeeps(OneRotates(), 2, ROTATE, ["k"]);
  }

  lemma OnlyOne()
    ensures 2 !in OneRotates().info
  {
  }

  lemma AddOneKey(s: State, c: Client, k: Key)
    ensures AddKeys(s, c, [k]) == AddKey(s, c, k)
  {
    assert [k][..0] == [];
    assert AddKeys(s, c, []) == s;
  }

  /** Both are served although there is only one element, which stays. */
  lemma OneElementServesTwo()
    ensures Consistent(TwoRotate()) && WaitersOf(TwoRotate(), "k") == [Waiter(0, 1), Waiter(1, 2)]
    ensures var u := ServeLoop(TwoRotate(), "k", 2);
            u.replies == [Popped(1, "k", "a"), Popped(2, "k", "a")] && "k" in u.db && u.db["k"] == ListValue(["a"])
  {
    hide Consistent, ServeLoop;
    var s := TwoRotate();
    TwoRotateBlocked();
    FirstComeFirstServed(s, "k");
    var list := WaitersOf(s, "k");
    assert list[1..] == [Waiter(1, 2)] && list[1..][1..] == [];
    var jobs := Jobs(s.info, list);
    assert jobs == [Job(Waiter(0, 1), ROTATE), Job(Waiter(1, 2), ROTATE)];
    assert Wrong(s.db) == {};
    assert jobs[1..] == [Job(Waiter(1, 2), ROTATE)] && jobs[1..][1..] == [];
    assert Turned(ROTATE, "k", {}, ["a"]) == ["a"];
    assert Deliveries("k", {}, jobs[1..][1..], ["a"]) == [];
    assert Deliveries("k", {}, jobs[1..], ["a"]) == [Popped(2, "k", "a")];
    assert Deliveries("k", {}, jobs, ["a"]) == [Popped(1, "k", "a"), Popped(2, "k", "a")];
    assert LeftOver("k", {}, jobs[1..], ["a"]) == ["a"];
  }
}
