/** blocked.c as the server runs it: dictionaries, counters and queues updated in place. */
module BlockedServer {
  import opened Basics
  import opened Blocked
  import opened BlockedServing
  import opened BlockedOthers
  import opened BlockedWaking

  /** listDelNode: the node leaves the list. */
  function WithoutNode(list: seq<Waiter>, node: nat): seq<Waiter> {
    if list == [] then []
    else (if list[0].node == node then [] else [list[0]]) + WithoutNode(list[1..], node)
  }

  lemma {:induction false} NodeIsClient(list: seq<Waiter>, c: Client, node: nat)
    requires forall w <- list :: w.node == node <==> w.client == c
    ensures WithoutNode(list, node) == Left(list, c)
  {
    if list != [] {
      assert list[0] in list;
      NodeIsClient(list[1..], c, node);
    }
  }

  /** The node a client keeps for a key is its node in that key's list, and nobody else's. */
  lemma NodeInList(s: State, c: Client, k: Key)
    requires Consistent(s) && Holds(s, c, k)
    ensures k in s.blocking && WithoutNode(s.blocking[k], s.keysOf[c][k]) == Left(s.blocking[k], c)
  {
    hide Counted, WithoutNode, NoneEmpty;
    var list, node := s.blocking[k], s.keysOf[c][k];
    forall w <- list ensures w.node == node <==> w.client == c {
      var i :| 0 <= i < |list| && list[i] == w;
      assert IsNode(s, s.blocking[k][i].client, k, s.blocking[k][i].node);
    }
    NodeIsClient(list, c, node);
  }

  /** The lists when the client has been taken out of those of some keys. */
  function RemainingFor(blocking: map<Key, seq<Waiter>>, c: Client, done: set<Key>): map<Key, seq<Waiter>> {
    map k | k in blocking && (k in done ==> Left(blocking[k], c) != []) ::
      if k in done then Left(blocking[k], c) else blocking[k]
  }

  lemma AllDone(s: State, c: Client)
    requires Consistent(s) && c in s.keysOf
    ensures RemainingFor(s.blocking, c, s.keysOf[c].Keys) == Remaining(s.blocking, c)
  {
    hide Counted, Listed, NodesDistinct;
    forall k <- s.blocking | k !in s.keysOf[c] ensures Left(s.blocking[k], c) == s.blocking[k] {
      forall w <- s.blocking[k] ensures w.client != c {
        var i :| 0 <= i < |s.blocking[k]| && s.blocking[k][i] == w;
        assert IsNode(s, s.blocking[k][i].client, k, s.blocking[k][i].node);
      }
      LeftAbsent(s.blocking[k], c);
    }
  }

  lemma NoneDone(blocking: map<Key, seq<Waiter>>, c: Client)
    ensures RemainingFor(blocking, c, {}) == blocking
  {
  }

  lemma OneDone(blocking: map<Key, seq<Waiter>>, c: Client, done: set<Key>, k: Key)
    requires k in blocking && k !in done
    ensures var now, list := RemainingFor(blocking, c, done), Left(blocking[k], c);
            && k in now && now[k] == blocking[k]
            && RemainingFor(blocking, c, done + {k}) == if list == [] then now - {k} else now[k := list]
  {
    hide Left;
  }

  datatype Event =
    | Blocks(client: Client, op: Info, keys: seq<Key>)
    | Leaves(client: Client)
    | Signals(key: Key, kind: Kind)
    | Adds(key: Key, value: Value)        // dbAdd, if there is no such key
    | Changes(key: Key, value: Value)     // a change in place, if there is a value of the same type
    | Overwrites(key: Key, value: Value)  // dbOverwrite, if there is any value
    | Deletes(key: Key)
    | Serves

  /** An event that can turn another value into what a client waits for. */
  predicate Replaces(e: Event) { e.Overwrites? && (e.value.ListValue? || e.value.SortedSetValue?) }

  class Server {
    var blocking: map<Key, seq<Waiter>>
    var keysOf: map<Client, map<Key, nat>>
    var info: map<Client, Info>
    var count: nat
    var byKind: map<Kind, nat>
    var nextNode: nat
    var ready: seq<Key>
    var readySet: set<Key>
    var db: map<Key, Value>
    var replies: seq<Reply>

    ghost function S(): State
      reads this
    {
      State(blocking, keysOf, info, count, byKind, nextNode, ready, readySet, db, replies)
    }

    /** What holds between events: the index and the counters agree, and the queued keys are those of the dictionary, each
        once. */
    ghost predicate Valid()
      reads this
    {
      Consistent(S()) && Queued(S(), [])
    }

    /** Nobody waits for a key that could serve it, unless the key is queued; and no list or sorted set is empty. */
    ghost predicate Attentive()
      reads this
    {
      Awake(S()) && Solid(db)
    }

    constructor ()
      ensures Valid() && Attentive() && info == map[] && ready == []
    {
      blocking, keysOf, info := map[], map[], map[];
      count, byKind, nextNode := 0, map[Lists := 0, SortedSets := 0, Streams := 0], 0;
      ready, readySet, db, replies := [], {}, map[], [];
      new;
      EmptyConsistent(S());
    }

    /** The loop body of blockForKeys. */
    method BlockForKey(c: Client, k: Key)
      modifies this
      ensures S() == AddKey(old(S()), c, k)
    {
      var mine := if c in keysOf then keysOf[c] else map[];
      if k in mine { return; }
      var list := if k in blocking then blocking[k] else [];
      blocking := blocking[k := list + [Waiter(nextNode, c)]];
      keysOf := keysOf[c := mine[k := nextNode]];
      nextNode := nextNode + 1;
    }

    /** blockForKeys and blockClient. */
    method BlockForKeys(c: Client, op: Info, keys: seq<Key>)
      requires Valid() && c !in info && keys != []
      modifies this
      ensures old(op.kind in AddKeys(S(), c, keys).byKind) && S() == old(Enter(AddKeys(S(), c, keys), c, op))
      ensures Valid()
      ensures old(Attentive() && Blockable(db, op.kind, keys)) ==> Attentive()
    {
      hide Consistent, AddKey, Queued, Awake, Solid, Blockable;
      ghost var s0 := S();
      AddKeysQueue(s0, c, keys);
      BlockKeeps(s0, c, op, keys);
      for j := 0 to |keys|
        invariant S() == AddKeys(s0, c, keys[..j])
      {
        assert keys[..j + 1][..j] == keys[..j];
        BlockForKey(c, keys[j]);
      }
      assert keys[..|keys|] == keys;
      info := info[c := op];
      count := count + 1;
      byKind := byKind[op.kind := byKind[op.kind] + 1];
      SameQueued(s0, S(), []);
      if Awake(s0) && Solid(s0.db) && Blockable(s0.db, op.kind, keys) { BlockAwake(s0, c, op, keys); }
    }

    /** The loop body of unblockClientWaitingData. */
    method LeaveList(k: Key, node: nat)
      requires k in blocking
      modifies `blocking
      ensures var list := WithoutNode(old(blocking)[k], node);
              blocking == if list == [] then old(blocking) - {k} else old(blocking)[k := list]
    {
      hide WithoutNode;
      var list := WithoutNode(blocking[k], node);
      blocking := if list == [] then blocking - {k} else blocking[k := list];
    }

    /** unblockClientWaitingData. */
    method LeaveLists(c: Client)
      requires Consistent(S()) && c in info && c in keysOf
      modifies `blocking
      ensures S() == old(S()).(blocking := Remaining(old(blocking), c))
    {
      hide Consistent, WithoutNode, Left, Remaining, RemainingFor;
      ghost var s0 := S();
      ConsistentParts(s0, c);
      var rest := keysOf[c].Keys;
      NoneDone(blocking, c);
      assert s0.keysOf[c].Keys - rest == {};
      while rest != {}
        invariant rest <= s0.keysOf[c].Keys
        invariant blocking == RemainingFor(s0.blocking, c, s0.keysOf[c].Keys - rest)
      {
        var k :| k in rest;
        ghost var done := s0.keysOf[c].Keys - rest;
        NodeInList(s0, c, k);
        OneDone(s0.blocking, c, done, k);
        assert done + {k} == s0.keysOf[c].Keys - (rest - {k});
        LeaveList(k, keysOf[c][k]);
        rest := rest - {k};
      }
      assert s0.keysOf[c].Keys - rest == s0.keysOf[c].Keys;
      AllDone(s0, c);
    }

    /** unblockClient. */
    method UnblockClient(c: Client)
      requires Consistent(S()) && c in info
      modifies this
      ensures old(Counted(S())) && S() == old(Unblock(S(), c)) && Consistent(S())
      ensures ready == old(ready) && readySet == old(readySet) && (old(Valid()) ==> Valid())
      ensures old(Attentive()) ==> Attentive()
    {
      hide Consistent, Counted, Remaining, Queued, Awake, Solid;
      ghost var s0 := S();
      UnblockKeeps(s0, c);
      ConsistentParts(s0, c);
      LeaveCounted(s0, c);
      LeaveLists(c);
      keysOf := keysOf - {c};
      byKind := byKind[info[c].kind := byKind[info[c].kind] - 1];
      count := count - 1;
      info := info - {c};
      if Queued(s0, []) { SameQueued(s0, S(), []); }
      LeavingUnblock(s0, c);
      if Awake(s0) { StaysAwake(s0, S()); }
    }

    /** signalKeyAsReady. */
    method SignalKeyAsReady(k: Key, kind: Kind)
      modifies `ready, `readySet
      ensures S() == Signal(old(S()), k, kind)
      ensures old(Consistent(S())) ==> Consistent(S())
      ensures forall working :: Queued(old(S()), working) ==> Queued(S(), working)
      ensures old(Valid()) ==> Valid()
      ensures old(Attentive()) ==> Attentive()
    {
      hide Consistent, Queued, Awake, Solid, Leaving;
      ghost var s0 := S();
      SignalQueue(s0, k, kind);
      if Awake(s0) {
        LeavingSignal(s0, k, kind);
        StaysAwake(s0, Signal(s0, k, kind));
      }
      if kind in byKind && byKind[kind] == 0 { return; }
      if k !in blocking { return; }
      if k in readySet { return; }
      ready := ready + [k];
      readySet := readySet + {k};
    }

    /** serveClientBlockedOnList, with the undo of the pop when it fails. */
    method GiveTo(key: Key, c: Client, op: Info, elem: Elem)
      requires key in db && db[key].ListValue?
      modifies this
      ensures S() == Give(old(S()), key, c, op, elem, op.from)
    {
      hide Signal;
      match op.target {
        case None => replies := replies + [Popped(c, key, elem)];
        case Some(dst) =>
          if dst in db && !db[dst].ListValue? {
            replies := replies + [WrongType(c)];
            db := db[key := ListValue(Push(db[key].items, elem, op.from))];
          } else if dst !in db {
            db := db[dst := ListValue([elem])];
            replies := replies + [Popped(c, key, elem)];
            SignalKeyAsReady(dst, Lists);
          } else {
            db := db[dst := ListValue(Push(db[dst].items, elem, op.to))];
            replies := replies + [Popped(c, key, elem)];
          }
      }
    }

    /** The part of the loop that serves the client at the head of the list. */
    method ServeHead(key: Key)
      requires Consistent(S()) && key in blocking && key in db && db[key].ListValue? && db[key].items != []
      requires blocking[key] != [] && blocking[key][0].client in info && Counted(S())
      modifies this
      ensures Consistent(S()) && S() == ServeOne(old(S()), key, old(blocking)[key][0].client)
    {
      hide Consistent, Counted, Unblock, Give;
      ghost var s0 := S();
      ServeOneKeeps(s0, key);
      var c := blocking[key][0].client;
      var op, items := info[c], db[key].items;
      var elem := First(items, op.from);
      db := db[key := ListValue(Rest(items, op.from))];
      OtherFields(s0, S());
      ghost var s1 := S();
      UnblockClient(c);
      UnblockSameDb(s1, c);
      GiveTo(key, c, op, elem);
    }

    /** serveClientsBlockedOnListKey. The head of the list is only looked at while the list exists. */
    method ServeListKey(key: Key)
      requires Consistent(S()) && key in db && db[key].ListValue?
      modifies this
      ensures Consistent(S())
      ensures var t := ServeLoop(old(S()), key, |WaitersOf(old(S()), key)|);
              && key in t.db && t.db[key].ListValue?
              && S() == if t.db[key].items == [] then t.(db := t.db - {key}) else t
      ensures info.Keys <= old(info).Keys
      ensures info.Keys == old(info).Keys ==> ready == old(ready) && readySet == old(readySet)
      ensures forall working :: Queued(old(S()), working) ==> Queued(S(), working)
    {
      hide Consistent, Counted, ServeOne, Rotated, Queued;
      ghost var s0 := S();
      ghost var n0 := |WaitersOf(s0, key)|;
      ServeLoopKeeps(s0, key, n0);
      if key in blocking {
        var numclients: nat := |blocking[key]|;
        while numclients > 0
          invariant Consistent(S()) && key in db && db[key].ListValue? && numclients <= |WaitersOf(S(), key)|
          invariant ServeLoop(s0, key, n0) == ServeLoop(S(), key, numclients)
        {
          ghost var s1 := S();
          WaitersBlocked(s1, key);
          var c := blocking[key][0].client;
          if info[c].kind != Lists {
            RotateKeeps(s1, key);
            RotateHead(key);
          } else if db[key].items == [] {
            assert ServeLoop(s1, key, numclients) == s1;
            break;
          } else {
            ServeOneKeeps(s1, key);
            ServeHead(key);
          }
          numclients := numclients - 1;
        }
      }
      assert S() == ServeLoop(s0, key, n0);
      ghost var s2 := S();
      DropEmpty(key);
      forall working | Queued(s0, working) ensures Queued(S(), working) {
        SameQueued(s2, S(), working);
      }
    }

    /** listRotateHeadToTail. */
    method RotateHead(key: Key)
      requires key in blocking && blocking[key] != []
      modifies `blocking
      ensures S() == Rotated(old(S()), key)
    {
      blocking := blocking[key := blocking[key][1..] + [blocking[key][0]]];
    }

    /** An empty list leaves the database. */
    method DropEmpty(key: Key)
      requires Consistent(S()) && key in db && db[key].ListValue?
      modifies `db
      ensures Consistent(S())
      ensures S() == if old(db)[key].items == [] then old(S()).(db := old(db) - {key}) else old(S())
    {
      hide Consistent;
      ghost var s0 := S();
      if db[key].items == [] { db := db - {key}; }
      OtherFields(s0, S());
    }

    /** serveClientsBlockedOnSortedSetKey. */
    method ServeSortedSetKey(key: Key)
      requires Consistent(S()) && key in db && db[key].SortedSetValue?
      modifies this
      ensures Consistent(S())
      ensures S() == ScoredLoop(old(S()), key, |WaitersOf(old(S()), key)|, old(db)[key].card)
      ensures info.Keys <= old(info).Keys && ready == old(ready) && readySet == old(readySet)
    {
      hide Consistent, Counted, ServeScored, Rotated;
      ghost var s0 := S();
      ghost var n0, z0 := |WaitersOf(s0, key)|, db[key].card;
      ScoredLoopKeeps(s0, key, n0, z0);
      if key in blocking {
        var numclients: nat, zcard := |blocking[key]|, db[key].card;
        while numclients > 0 && zcard > 0
          invariant Consistent(S()) && numclients <= |WaitersOf(S(), key)|
          invariant ScoredLoop(s0, key, n0, z0) == ScoredLoop(S(), key, numclients, zcard)
        {
          ghost var s1 := S();
          WaitersBlocked(s1, key);
          var c := blocking[key][0].client;
          if info[c].kind != SortedSets {
            RotateKeeps(s1, key);
            RotateHead(key);
          } else {
            ServeScoredKeeps(s1, key, zcard);
            PopScored(key, c, zcard);
            zcard := zcard - 1;
          }
          numclients := numclients - 1;
        }
      }
    }

    /** unblockClient and genericZpopCommand. */
    method PopScored(key: Key, c: Client, zcard: nat)
      requires Consistent(S()) && c in info && 0 < zcard
      modifies this
      ensures old(Counted(S())) && S() == old(ServeScored(S(), key, c, zcard))
    {
      hide Consistent, Counted, Unblock;
      UnblockClient(c);
      db := if zcard == 1 then db - {key} else db[key := SortedSetValue(zcard - 1)];
      replies := replies + [Scored(c, key)];
    }

    /** serveClientsBlockedOnStreamKey. */
    method ServeStreamKey(key: Key)
      requires Consistent(S()) && key in db && db[key].StreamValue?
      modifies this
      ensures Consistent(S()) && ready == old(ready) && readySet == old(readySet) && info.Keys <= old(info).Keys
      ensures old(OneEach(WaitersOf(S(), key)) && (forall w <- WaitersOf(S(), key) :: w.client in info))
      ensures S() == old(StreamLoop(S(), key, WaitersOf(S(), key)))
    {
      hide Consistent, Counted, StreamStep, OneEach, WakesFor;
      ghost var s0 := S();
      WaitersDistinct(s0, key);
      AllWaitersBlocked(s0, key);
      StreamLoopKeeps(s0, key, WaitersOf(s0, key));
      if key in blocking {
        var list := blocking[key];
        assert list[0..] == list;
        for i := 0 to |list|
          invariant Consistent(S()) && key in db && db[key].StreamValue? && OneEach(list[i..])
          invariant forall w <- list[i..] :: w.client in info
          invariant StreamLoop(s0, key, list) == StreamLoop(S(), key, list[i..])
        {
          ghost var s1 := S();
          StreamLoopNext(s1, key, list[i..]);
          assert list[i..][1..] == list[i + 1..];
          ServeReader(key, list[i].client);
        }
        NoneLeft(S(), key, list[|list|..]);
      }
    }

    /** The body of that loop. */
    method ServeReader(key: Key, c: Client)
      requires Consistent(S()) && c in info && key in db && db[key].StreamValue?
      modifies this
      ensures old(Counted(S())) && S() == old(StreamStep(S(), key, c))
    {
      hide Consistent, Counted, Unblock, Newer, Limit;
      ghost var s0 := S();
      var op, stream := info[c], db[key];
      if op.kind != Streams {
        CountedPart(s0);
        return;
      }
      if op.group.Some? && op.group.value !in stream.groups {
        replies := replies + [NoGroup(c)];
      } else {
        var gt := ReadsAfter(op, key, stream.groups);
        if stream.lastId <= gt {
          CountedPart(s0);
          return;
        }
        var ids := Limit(Newer(stream.entries, gt), op.count);
        db := db[key := ReadBy(op, stream, ids)];
        replies := replies + [Streamed(c, key, ids)];
      }
      ghost var s1 := S();
      OtherFields(s0, s1);
      UnblockLater(s0, s1, c);
      UnblockClient(c);
    }

    /** handleClientsBlockedOnKeys. Serving may signal further keys, but only after a client has been unblocked: the blocked
        clients, then the queued keys, bound the work. Afterwards nobody waits for a key that could serve it. */
    method HandleClientsBlockedOnKeys()
      requires Valid()
      modifies this
      ensures Valid() && ready == [] && readySet == {} && info.Keys <= old(info).Keys
      ensures old(Attentive()) ==> Attentive() && forall k :: !Due(S(), k)
    {
      hide Consistent, Queued, AwakeBut, Solid;
      ghost var attentive := Attentive();
      while ready != []
        invariant Consistent(S()) && Queued(S(), []) && info.Keys <= old(info).Keys
        invariant attentive ==> Attentive()
        decreases |info.Keys|, |ready|
      {
        var working := ready;
        ghost var infoBefore := info;
        ghost var s0 := S();
        ready := TakeReady();
        if attentive { SameAwake(s0, S()); }
        while working != []
          invariant Consistent(S()) && Queued(S(), working) && info.Keys <= infoBefore.Keys
          invariant info.Keys == infoBefore.Keys ==> ready == []
          invariant attentive ==> Attentive()
          decreases |info.Keys|, |working| + |ready|
        {
          var key := working[0];
          ghost var s1 := S();
          readySet := readySet - {key};
          OtherFields(s1, S());
          NextQueued(s1, S(), working);
          if attentive { AwakeButFirst(s1, S(), key); }
          ghost var infoNow := info;
          ServeKey(key, working[1..], attentive);
          Fewer(info.Keys, infoNow.Keys);
          working := working[1..];
        }
        Fewer(info.Keys, infoBefore.Keys);
      }
      NoneQueued(S());
      if attentive { NobodyDue(S()); }
    }

    /** The clients that wait for one key, by the type of its value. */
    method ServeKey(key: Key, ghost working: seq<Key>, ghost attentive: bool)
      requires Consistent(S()) && Queued(S(), working)
      requires attentive ==> AwakeBut(S(), Some(key)) && Solid(db)
      modifies this
      ensures Consistent(S()) && Queued(S(), working) && info.Keys <= old(info).Keys
      ensures info.Keys == old(info).Keys ==> ready == old(ready) && readySet == old(readySet)
      ensures attentive ==> Attentive()
    {
      hide Consistent, Queued, AwakeBut, Solid;
      ghost var s0 := S();
      if key in db && db[key].ListValue? {
        if attentive {
          ListAwake(s0, key);
          ListSolid(s0, key);
        }
        ServeListKey(key);
      } else if key in db && db[key].SortedSetValue? {
        if attentive { ScoredAwake(s0, key); }
        ServeSortedSetKey(key);
        SameQueued(s0, S(), working);
      } else if key in db && db[key].StreamValue? {
        if attentive { StreamAwake(s0, key); }
        ServeStreamKey(key);
        SameQueued(s0, S(), working);
      } else {
        if attentive { NotDue(s0, key); }
      }
    }

    /** Any sequence of events: clients block, time out or disconnect, keys are written and signalled, clients are served.
        Whoever is blocked cannot block again, and only whoever is blocked can be unblocked. If no list or sorted set takes
        the place of another value, no client is ever overlooked. */
    method Run(events: seq<Event>)
      requires Valid()
      modifies this
      ensures Valid()
      ensures old(Attentive()) && (forall e <- events :: !Replaces(e)) ==> Attentive()
    {
      hide Consistent, Queued, Counted, Awake, Solid, Written, Waiting;
      ghost var attentive := Attentive() && forall e <- events :: !Replaces(e);
      for i := 0 to |events|
        invariant Valid()
        invariant attentive ==> Attentive()
      {
        assert events[i] in events;
        match events[i] {
          case Blocks(c, op, keys) =>
            if c !in info && keys != [] && Blockable(db, op.kind, keys) { BlockForKeys(c, op, keys); }
          case Leaves(c) => if c in info { UnblockClient(c); }
          case Signals(k, kind) => SignalKeyAsReady(k, kind);
          case Adds(k, v) => if k !in db && Firm(v) { Write(k, Some(v)); }
          case Changes(k, v) => if k in db && KindOf(db[k]) == KindOf(v) && Firm(v) { Write(k, Some(v)); }
          case Overwrites(k, v) => if k in db && Firm(v) { Write(k, Some(v)); }
          case Deletes(k) => Write(k, None);
          case Serves => HandleClientsBlockedOnKeys();
        }
      }
    }

    /** Other commands change the database. */
    method Write(k: Key, value: Option<Value>)
      requires Valid()
      modifies `db, `ready, `readySet
      ensures Valid() && S() == Written(old(S()), k, value)
      ensures old(Attentive()) && (value.Some? ==> Firm(value.value)) ==>
                (Attentive() <==> value.None? || !Overlooks(old(S()), k, value.value))
    {
      hide Consistent, Queued, Awake, Solid, Overlooks, Signal;
      ghost var s0 := S();
      var isNew := k !in db;
      db := if value.Some? then db[k := value.value] else db - {k};
      OtherFields(s0, S());
      SameQueued(s0, S(), []);
      if isNew && value.Some? && KindOf(value.value).Some? { SignalKeyAsReady(k, KindOf(value.value).value); }
      if Awake(s0) && Solid(s0.db) && (value.Some? ==> Firm(value.value)) { WrittenAwake(s0, k, value); }
    }

    /** server.ready_keys is replaced by an empty list. */
    method TakeReady() returns (none: seq<Key>)
      requires Consistent(S()) && Queued(S(), [])
      ensures none == [] && Consistent(S().(ready := [])) && Queued(S().(ready := []), ready)
    {
      hide Consistent;
      OtherFields(S(), S().(ready := []));
      assert [] + ready == ready + [];
      none := [];
    }
  }

  lemma SameAwake(s: State, t: State)
    requires Awake(s) && t == s.(ready := t.ready)
    ensures Awake(t)
  {
    hide Waiting;
    forall k | Due(t, k) ensures k in t.readySet {
      SameWaiting(s, t, k, Lists);
      SameWaiting(s, t, k, SortedSets);
      assert Due(s, k);
    }
  }

  /** The key that is served next is no longer queued. */
  lemma AwakeButFirst(s: State, t: State, key: Key)
    requires Awake(s) && t == s.(readySet := s.readySet - {key})
    ensures AwakeBut(t, Some(key))
  {
    hide Waiting;
    forall k | Due(t, k) && k != key ensures k in t.readySet {
      SameWaiting(s, t, k, Lists);
      SameWaiting(s, t, k, SortedSets);
      assert Due(s, k);
    }
  }

  lemma NotDue(s: State, key: Key)
    requires AwakeBut(s, Some(key)) && (key in s.db ==> !s.db[key].ListValue? && !s.db[key].SortedSetValue?)
    ensures Awake(s)
  {
    hide Waiting;
  }

  lemma NobodyDue(s: State)
    requires Awake(s) && s.readySet == {}
    ensures forall k :: !Due(s, k)
  {
    hide Due;
    assert forall k :: Due(s, k) ==> k in s.readySet;
  }

  lemma LeavingSignal(s: State, k: Key, kind: Kind)
    ensures var t := Signal(s, k, kind); Leaving(s, t) && t.db == s.db && s.readySet <= t.readySet
  {
  }

  lemma Fewer(a: set<Client>, b: set<Client>)
    requires a <= b
    ensures a == b || |a| < |b|
  {
    if a != b {
      assert b == a + (b - a);
    }
  }

  lemma NoneQueued(s: State)
    requires Queued(s, []) && s.ready == []
    ensures s.readySet == {}
  {
  }

  lemma UnblockSameDb(s: State, c: Client)
    requires Counted(s) && c in s.info
    ensures Unblock(s, c).db == s.db
  {
    hide Remaining, Counted;
  }

  lemma AddKeysQueue(s: State, c: Client, keys: seq<Key>)
    requires Consistent(s)
    ensures AddKeys(s, c, keys).ready == s.ready && AddKeys(s, c, keys).readySet == s.readySet
  {
    hide Indexed, NodesDistinct, Counted, AddKeys;
    AddKeysIndexed(s, c, keys);
  }

  lemma SignalQueue(s: State, k: Key, kind: Kind)
    ensures Consistent(s) ==> Consistent(Signal(s, k, kind))
    ensures forall working :: Queued(s, working) ==> Queued(Signal(s, k, kind), working)
  {
    hide Consistent, Queued, Signal;
    var t := Signal(s, k, kind);
    SignalKeeps(s, k, kind);
    if Consistent(s) { OtherFields(s, t); }
    forall working | Queued(s, working) ensures Queued(t, working) {
      StillQueued(s, t, working);
    }
  }

  lemma NoneLeft(s: State, key: Key, list: seq<Waiter>)
    requires Consistent(s) && key in s.db && s.db[key].StreamValue? && list == []
    ensures StreamLoop(s, key, list) == s
  {
    hide Consistent;
  }

  lemma CountedPart(s: State)
    requires Consistent(s)
    ensures Counted(s)
  {
    hide Counted, Indexed, NodesDistinct;
  }

  /** Writing the reply and the stream before unblocking makes no difference. */
  lemma UnblockLater(s: State, t: State, c: Client)
    requires Consistent(s) && Consistent(t) && c in s.info && t == s.(db := t.db, replies := t.replies)
    ensures Counted(s) && Counted(t) && Unblock(t, c) == Unblock(s, c).(db := t.db, replies := t.replies)
    ensures Unblock(s, c).db == s.db && Unblock(s, c).replies == s.replies
  {
    hide Counted, Indexed, NodesDistinct, Remaining;
  }

  lemma WaitersBlocked(s: State, key: Key)
    requires Consistent(s) && key in s.blocking
    ensures s.blocking[key] != [] && s.blocking[key][0].client in s.info && Counted(s)
  {
    hide Backed, Listed, NodesDistinct, Counted;
    WaiterIsBlocked(s, key);
  }

  lemma ConsistentParts(s: State, c: Client)
    requires Consistent(s) && c in s.info
    ensures Counted(s) && c in s.keysOf && s.keysOf[c] != map[] && forall k <- s.keysOf[c] :: Holds(s, c, k)
  {
    hide Counted, Backed, Listed, NodesDistinct;
  }
}
