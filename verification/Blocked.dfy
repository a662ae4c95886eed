/** Clients blocked on keys: the two-way index between clients and keys, the counters, the queue of ready keys, and the
    serving of lists, as values. */
module Blocked {
  import opened Basics

  type Client = nat
  type Key = string
  type Elem = string

  /** What a client waits for: BLOCKED_LIST, BLOCKED_ZSET or BLOCKED_STREAM. */
  datatype Kind = Lists | SortedSets | Streams

  datatype End = Head | Tail

  /** A node of a list in db->blocking_keys; `node` stands for its address. */
  datatype Waiter = Waiter(node: nat, client: Client)

  /** The blocking operation of a client: target and ends are those of BLMOVE; group, count and the last ID seen of each key
      those of XREAD and XREADGROUP. */
  datatype Info = Info(kind: Kind, target: Option<Key>, from: End, to: End,
                       group: Option<string>, count: nat, seen: map<Key, nat>)

  /** A sorted set only by its size; a stream by the IDs of its entries, its last ID and the last ID of each group. */
  datatype Value =
    | ListValue(items: seq<Elem>)
    | SortedSetValue(card: nat)
    | StreamValue(entries: seq<nat>, lastId: nat, groups: map<string, nat>)
    | OtherValue

  datatype Reply =
    | Popped(client: Client, key: Key, elem: Elem) | WrongType(client: Client)
    | Scored(client: Client, key: Key) | Streamed(client: Client, key: Key, ids: seq<nat>) | NoGroup(client: Client)

  /** `blocking` is db->blocking_keys, `keysOf` every client's bpop.keys with the list node of each key, `info` the clients
      with CLIENT_BLOCKED set; `ready` is server.ready_keys and `readySet` db->ready_keys. */
  datatype State = State(
    blocking: map<Key, seq<Waiter>>, keysOf: map<Client, map<Key, nat>>, info: map<Client, Info>,
    count: nat, byKind: map<Kind, nat>, nextNode: nat,
    ready: seq<Key>, readySet: set<Key>,
    db: map<Key, Value>, replies: seq<Reply>)

  // ---------------------------------------------------------------------------------------------------------
  // The index
  // ---------------------------------------------------------------------------------------------------------

  /** Both directions agree, with one live node for every pair, no empty list and no client without keys. */
  ghost predicate Indexed(s: State) {
    NoneEmpty(s) && Backed(s) && Listed(s)
  }

  ghost predicate NoneEmpty(s: State) {
    && (forall k <- s.blocking :: s.blocking[k] != [] && OneEach(s.blocking[k]))
    && (forall c <- s.keysOf :: s.keysOf[c] != map[])
  }

  /** Every node in a list is the one its client has for that key. */
  ghost predicate Backed(s: State) {
    forall k <- s.blocking, i: nat | i < |s.blocking[k]| :: IsNode(s, s.blocking[k][i].client, k, s.blocking[k][i].node)
  }

  /** Every key of a client lists it, under the node it has for it. */
  ghost predicate Listed(s: State) {
    forall c, k | Holds(s, c, k) :: k in s.blocking && Waiter(s.keysOf[c][k], c) in s.blocking[k]
  }

  predicate IsNode(s: State, c: Client, k: Key, node: nat) {
    Holds(s, c, k) && s.keysOf[c][k] == node
  }

  predicate Holds(s: State, c: Client, k: Key) {
    c in s.keysOf && k in s.keysOf[c]
  }

  predicate OneEach(list: seq<Waiter>) {
    forall i, j | 0 <= i < j < |list| :: list[i].client != list[j].client
  }

  /** No address is used twice. */
  ghost predicate NodesDistinct(s: State) {
    && (forall c, k | Holds(s, c, k) :: s.keysOf[c][k] < s.nextNode)
    && (forall c, k, d, l | Holds(s, c, k) && Holds(s, d, l) && s.keysOf[c][k] == s.keysOf[d][l] :: c == d && k == l)
  }

  function OfKind(info: map<Client, Info>, kind: Kind): set<Client> {
    set c | c in info && info[c].kind == kind
  }

  /** blocked_clients and blocked_clients_by_type. */
  ghost predicate Counted(s: State) {
    s.count == |s.info| && forall kind: Kind :: KindCounted(s, kind)
  }

  ghost predicate KindCounted(s: State, kind: Kind) {
    kind in s.byKind && s.byKind[kind] == |OfKind(s.info, kind)|
  }

  ghost predicate Consistent(s: State) {
    Indexed(s) && NodesDistinct(s) && Counted(s) && s.keysOf.Keys == s.info.Keys
  }

  lemma EmptyConsistent(s: State)
    requires s.blocking == map[] && s.keysOf == map[] && s.info == map[] && s.count == 0
    requires s.byKind == map[Lists := 0, SortedSets := 0, Streams := 0]
    ensures Consistent(s)
  {
    forall kind: Kind ensures KindCounted(s, kind) {
      assert OfKind(s.info, kind) == {} && (kind == Lists || kind == SortedSets || kind == Streams);
    }
  }

  // ---------------------------------------------------------------------------------------------------------
  // Blocking
  // ---------------------------------------------------------------------------------------------------------

  function KeysOf(s: State, c: Client): map<Key, nat> {
    if c in s.keysOf then s.keysOf[c] else map[]
  }

  function WaitersOf(s: State, k: Key): seq<Waiter> {
    if k in s.blocking then s.blocking[k] else []
  }

  /** One key of blockForKeys; a key given twice is ignored. */
  function AddKey(s: State, c: Client, k: Key): State {
    if k in KeysOf(s, c) then s
    else s.(blocking := s.blocking[k := WaitersOf(s, k) + [Waiter(s.nextNode, c)]],
            keysOf := s.keysOf[c := KeysOf(s, c)[k := s.nextNode]],
            nextNode := s.nextNode + 1)
  }

  function AddKeys(s: State, c: Client, keys: seq<Key>): State {
    if keys == [] then s else AddKey(AddKeys(s, c, keys[..|keys| - 1]), c, keys[|keys| - 1])
  }

  /** blockClient. */
  function Enter(s: State, c: Client, info: Info): State
    requires info.kind in s.byKind
  {
    s.(info := s.info[c := info], count := s.count + 1, byKind := s.byKind[info.kind := s.byKind[info.kind] + 1])
  }

  lemma AddKeyHolds(s: State, c: Client, k: Key, d: Client, l: Key)
    requires k !in KeysOf(s, c)
    ensures var t := AddKey(s, c, k);
            && (Holds(t, d, l) <==> (d == c && l == k) || Holds(s, d, l))
            && (Holds(t, d, l) ==> t.keysOf[d][l] == if d == c && l == k then s.nextNode else s.keysOf[d][l])
  {
  }

  lemma AddKeyNoneEmpty(s: State, c: Client, k: Key)
    requires Indexed(s) && k !in KeysOf(s, c)
    ensures NoneEmpty(AddKey(s, c, k))
  {
    hide Listed;
    var t := AddKey(s, c, k);
    var list := WaitersOf(s, k);
    forall i: nat | i < |list| ensures list[i].client != c {
      assert IsNode(s, s.blocking[k][i].client, k, s.blocking[k][i].node);
    }
    assert OneEach(list + [Waiter(s.nextNode, c)]);
  }

  lemma AddKeyBacked(s: State, c: Client, k: Key)
    requires Indexed(s) && k !in KeysOf(s, c)
    ensures Backed(AddKey(s, c, k))
  {
    hide Listed, NoneEmpty;
    var t := AddKey(s, c, k);
    forall l <- t.blocking, i: nat | i < |t.blocking[l]|
      ensures IsNode(t, t.blocking[l][i].client, l, t.blocking[l][i].node)
    {
      var w := t.blocking[l][i];
      AddKeyHolds(s, c, k, w.client, l);
      if l in s.blocking && i < |s.blocking[l]| {
        assert IsNode(s, s.blocking[l][i].client, l, s.blocking[l][i].node);
      }
    }
  }

  lemma AddKeyListed(s: State, c: Client, k: Key)
    requires Indexed(s) && k !in KeysOf(s, c)
    ensures Listed(AddKey(s, c, k))
  {
    hide Backed, NoneEmpty;
    var t := AddKey(s, c, k);
    forall d, l | Holds(t, d, l) ensures l in t.blocking && Waiter(t.keysOf[d][l], d) in t.blocking[l] {
      AddKeyHolds(s, c, k, d, l);
    }
  }

  lemma AddKeyDistinct(s: State, c: Client, k: Key)
    requires NodesDistinct(s) && k !in KeysOf(s, c)
    ensures NodesDistinct(AddKey(s, c, k))
  {
    var t := AddKey(s, c, k);
    forall d, l | Holds(t, d, l) ensures t.keysOf[d][l] < t.nextNode {
      AddKeyHolds(s, c, k, d, l);
    }
    forall d, l, e, m | Holds(t, d, l) && Holds(t, e, m) && t.keysOf[d][l] == t.keysOf[e][m] ensures d == e && l == m {
      AddKeyHolds(s, c, k, d, l);
      AddKeyHolds(s, c, k, e, m);
    }
  }

  lemma AddKeyIndexed(s: State, c: Client, k: Key)
    requires Indexed(s) && NodesDistinct(s)
    ensures Indexed(AddKey(s, c, k)) && NodesDistinct(AddKey(s, c, k))
  {
    hide NoneEmpty, Backed, Listed, NodesDistinct;
    if k !in KeysOf(s, c) {
      AddKeyNoneEmpty(s, c, k);
      AddKeyBacked(s, c, k);
      AddKeyListed(s, c, k);
      AddKeyDistinct(s, c, k);
    }
  }

  lemma {:induction false} AddKeysIndexed(s: State, c: Client, keys: seq<Key>)
    requires Indexed(s) && NodesDistinct(s)
    ensures var t := AddKeys(s, c, keys);
            && Indexed(t) && NodesDistinct(t)
            && t == s.(blocking := t.blocking, keysOf := t.keysOf, nextNode := t.nextNode)
            && t.keysOf.Keys == s.keysOf.Keys + (if keys == [] then {} else {c})
  {
    hide Indexed, NodesDistinct;
    if keys != [] {
      AddKeysIndexed(s, c, keys[..|keys| - 1]);
      AddKeyIndexed(AddKeys(s, c, keys[..|keys| - 1]), c, keys[|keys| - 1]);
    }
  }

  lemma EnterCounted(s: State, c: Client, info: Info)
    requires Counted(s) && c !in s.info && info.kind in s.byKind
    ensures Counted(Enter(s, c, info))
  {
    hide OfKind;
    var t := Enter(s, c, info);
    OneMore(s.info, c, info);
    forall kind: Kind ensures KindCounted(t, kind) {
      assert KindCounted(s, kind) && KindCounted(s, info.kind);
      EnterKind(s.info, c, info, kind);
    }
  }

  lemma OneMore(infos: map<Client, Info>, c: Client, info: Info)
    requires c !in infos
    ensures |infos[c := info]| == |infos| + 1
  {
    assert infos[c := info].Keys == infos.Keys + {c};
  }

  lemma EnterKind(infos: map<Client, Info>, c: Client, info: Info, kind: Kind)
    requires c !in infos
    ensures |OfKind(infos[c := info], kind)| == |OfKind(infos, kind)| + if kind == info.kind then 1 else 0
  {
    assert OfKind(infos[c := info], kind) == OfKind(infos, kind) + if kind == info.kind then {c} else {};
  }

  /** blockForKeys: a client that was not blocked enters every list of its keys at the end. */
  lemma BlockKeeps(s: State, c: Client, info: Info, keys: seq<Key>)
    requires Consistent(s) && c !in s.info && keys != []
    ensures info.kind in AddKeys(s, c, keys).byKind && Consistent(Enter(AddKeys(s, c, keys), c, info))
  {
    hide Indexed, NodesDistinct, AddKeys, Counted;
    AddKeysIndexed(s, c, keys);
    var t := AddKeys(s, c, keys);
    SameCounted(s, t);
    EnterCounted(t, c, info);
    SameIndex(t, Enter(t, c, info));
  }

  lemma SameCounted(s: State, t: State)
    requires Counted(s) && t.info == s.info && t.count == s.count && t.byKind == s.byKind
    ensures Counted(t) && forall kind: Kind :: kind in t.byKind
  {
    hide OfKind;
    assert forall kind: Kind :: KindCounted(s, kind) ==> KindCounted(t, kind);
    forall kind: Kind ensures kind in t.byKind { assert KindCounted(s, kind); }
  }

  lemma SameIndex(s: State, t: State)
    requires t.blocking == s.blocking && t.keysOf == s.keysOf && t.nextNode == s.nextNode
    ensures Indexed(s) ==> Indexed(t)
    ensures NodesDistinct(s) ==> NodesDistinct(t)
  {
    assert forall c, k :: Holds(t, c, k) ==> Holds(s, c, k);
    assert forall c, k, n :: IsNode(s, c, k, n) ==> IsNode(t, c, k, n);
  }

  // ---------------------------------------------------------------------------------------------------------
  // Unblocking
  // ---------------------------------------------------------------------------------------------------------

  /** A list of waiters without one client. */
  function Left(list: seq<Waiter>, c: Client): (r: seq<Waiter>)
    ensures forall w :: w in r <==> w in list && w.client != c
  {
    if list == [] then []
    else
      assert list == [list[0]] + list[1..];
      (if list[0].client == c then [] else [list[0]]) + Left(list[1..], c)
  }

  lemma {:induction false} LeftOneEach(list: seq<Waiter>, c: Client)
    requires OneEach(list)
    ensures OneEach(Left(list, c))
  {
    if list != [] {
      LeftOneEach(list[1..], c);
      assert forall w <- Left(list[1..], c) :: w.client != list[0].client;
    }
  }

  /** The client is gone from every list, and lists left empty are gone too. */
  function Remaining(blocking: map<Key, seq<Waiter>>, c: Client): map<Key, seq<Waiter>> {
    map k | k in blocking && Left(blocking[k], c) != [] :: Left(blocking[k], c)
  }

  /** unblockClient. */
  ghost function Unblock(s: State, c: Client): State
    requires Counted(s) && c in s.info
  {
    LeaveCounted(s, c);
    var kind := s.info[c].kind;
    s.(blocking := Remaining(s.blocking, c), keysOf := s.keysOf - {c}, info := s.info - {c},
       count := s.count - 1, byKind := s.byKind[kind := s.byKind[kind] - 1])
  }

  lemma OneLess(infos: map<Client, Info>, c: Client)
    requires c in infos
    ensures |infos| == |infos - {c}| + 1
    ensures forall kind: Kind ::
              |OfKind(infos, kind)| == |OfKind(infos - {c}, kind)| + if kind == infos[c].kind then 1 else 0
  {
    hide OfKind;
    var rest := infos - {c};
    assert rest[c := infos[c]] == infos;
    OneMore(rest, c, infos[c]);
    forall kind: Kind
      ensures |OfKind(infos, kind)| == |OfKind(rest, kind)| + if kind == infos[c].kind then 1 else 0
    {
      EnterKind(rest, c, infos[c], kind);
    }
  }

  lemma LeaveCounted(s: State, c: Client)
    requires Counted(s) && c in s.info
    ensures var kind := s.info[c].kind;
            && 0 < s.count && kind in s.byKind && 0 < s.byKind[kind]
            && Counted(s.(info := s.info - {c}, count := s.count - 1, byKind := s.byKind[kind := s.byKind[kind] - 1]))
  {
    hide OfKind;
    OneLess(s.info, c);
    var kind := s.info[c].kind;
    assert KindCounted(s, kind);
    var t := s.(info := s.info - {c}, count := s.count - 1, byKind := s.byKind[kind := s.byKind[kind] - 1]);
    forall other: Kind ensures KindCounted(t, other) {
      assert KindCounted(s, other);
    }
  }

  lemma UnblockHolds(s: State, c: Client, d: Client, k: Key)
    requires Counted(s) && c in s.info
    ensures var t := Unblock(s, c);
            && (Holds(t, d, k) <==> d != c && Holds(s, d, k))
            && (Holds(t, d, k) ==> t.keysOf[d][k] == s.keysOf[d][k])
  {
  }

  lemma UnblockIndexed(s: State, c: Client)
    requires Counted(s) && c in s.info && Indexed(s)
    ensures Indexed(Unblock(s, c))
  {
    hide Counted;
    var t := Unblock(s, c);
    forall k <- t.blocking ensures t.blocking[k] != [] && OneEach(t.blocking[k]) {
      LeftOneEach(s.blocking[k], c);
    }
    forall k <- t.blocking, i: nat | i < |t.blocking[k]|
      ensures IsNode(t, t.blocking[k][i].client, k, t.blocking[k][i].node)
    {
      var w := t.blocking[k][i];
      assert w in Left(s.blocking[k], c);
      var j :| 0 <= j < |s.blocking[k]| && s.blocking[k][j] == w;
      assert IsNode(s, s.blocking[k][j].client, k, s.blocking[k][j].node);
      UnblockHolds(s, c, w.client, k);
    }
    forall d, k | Holds(t, d, k) ensures k in t.blocking && Waiter(t.keysOf[d][k], d) in t.blocking[k] {
      UnblockHolds(s, c, d, k);
      assert Waiter(s.keysOf[d][k], d) in Left(s.blocking[k], c);
    }
  }

  lemma UnblockDistinct(s: State, c: Client)
    requires Counted(s) && c in s.info && NodesDistinct(s)
    ensures NodesDistinct(Unblock(s, c))
  {
    hide Counted;
    var t := Unblock(s, c);
    assert forall d, k :: Holds(t, d, k) ==> Holds(s, d, k) && t.keysOf[d][k] == s.keysOf[d][k] by {
      forall d, k ensures Holds(t, d, k) ==> Holds(s, d, k) && t.keysOf[d][k] == s.keysOf[d][k] {
        UnblockHolds(s, c, d, k);
      }
    }
  }

  lemma UnblockKeeps(s: State, c: Client)
    requires Consistent(s) && c in s.info
    ensures Consistent(Unblock(s, c))
  {
    hide Indexed, NodesDistinct, Counted;
    var t := Unblock(s, c);
    LeaveCounted(s, c);
    UnblockIndexed(s, c);
    UnblockDistinct(s, c);
    var kind := s.info[c].kind;
    SameCounted(s.(info := s.info - {c}, count := s.count - 1, byKind := s.byKind[kind := s.byKind[kind] - 1]), t);
  }
}
