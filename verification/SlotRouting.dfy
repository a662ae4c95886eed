/** getNodeByQuery: which node a request is to be served by, as one node sees it. */
module SlotRouting {
  import opened Basics

  type Node = nat
  type Key = string

  /** What the node knows: who serves each slot, which of its slots are being moved, and the keys it holds. */
  datatype View = View(
    myself: Node, hash: Key -> nat, owners: map<nat, Node>,
    migratingTo: map<nat, Node>, importingFrom: map<nat, Node>,
    keys: set<Key>, clusterOk: bool, readsWhenDown: bool, masterIs: Option<Node>)

  /** The request: the keys of its commands (one command, or the queued ones of EXEC) and the flags that matter. */
  datatype Request = Request(
    commands: seq<seq<Key>>, isExec: bool, inMulti: bool, isMigrate: bool, isEval: bool,
    commandWrites: bool, writes: bool, asking: bool, readOnlyClient: bool)

  datatype Answer =
    | Serve | Ask(node: Node) | Moved(node: Node)
    | CrossSlot | TryAgain | DownUnbound | DownState | DownReadOnly

  // ---------------------------------------------------------------------------------------------------------
  // What the answer should be
  // ---------------------------------------------------------------------------------------------------------

  function AllKeys(commands: seq<seq<Key>>): seq<Key> {
    if commands == [] then [] else AllKeys(commands[..|commands| - 1]) + commands[|commands| - 1]
  }

  predicate Migrating(v: View, slot: nat) {
    slot in v.owners && v.owners[slot] == v.myself && slot in v.migratingTo
  }

  predicate Importing(v: View, slot: nat) {
    !Migrating(v, slot) && slot in v.importingFrom
  }

  predicate Missing(v: View, keys: seq<Key>) {
    exists i | 0 <= i < |keys| :: keys[i] !in v.keys
  }

  predicate SeveralKeys(keys: seq<Key>) {
    exists i | 0 <= i < |keys| :: keys[i] != keys[0]
  }

  predicate OneSlot(v: View, keys: seq<Key>) {
    forall i | 0 <= i < |keys| :: v.hash(keys[i]) == v.hash(keys[0])
  }

  function Route(v: View, r: Request): Answer {
    var keys := AllKeys(r.commands);
    if (r.isExec && !r.inMulti) || keys == [] then Serve
    else if v.hash(keys[0]) !in v.owners then DownUnbound
    else if !OneSlot(v, keys) then CrossSlot
    else RouteSlot(v, r, v.hash(keys[0]), SeveralKeys(keys), Missing(v, keys))
  }

  /** With all keys in one slot that has an owner. */
  function RouteSlot(v: View, r: Request, slot: nat, several: bool, missing: bool): Answer
    requires slot in v.owners
  {
    var n := v.owners[slot];
    if !v.clusterOk && !v.readsWhenDown then DownState
    else if !v.clusterOk && r.commandWrites && !r.isEval then DownReadOnly
    else if (Migrating(v, slot) || Importing(v, slot)) && r.isMigrate then Serve
    else if Migrating(v, slot) && missing then Ask(v.migratingTo[slot])
    else if Importing(v, slot) && r.asking then (if several && missing then TryAgain else Serve)
    else if r.readOnlyClient && (!r.writes || r.isEval) && v.masterIs == Some(n) then Serve
    else if n != v.myself then Moved(n)
    else Serve
  }

  // ---------------------------------------------------------------------------------------------------------
  // What the answers promise
  // ---------------------------------------------------------------------------------------------------------

  /** A request that names keys; EXEC outside a transaction is only an error reply. */
  predicate HasKeys(r: Request) { AllKeys(r.commands) != [] && !(r.isExec && !r.inMulti) }

  function KeySlot(v: View, r: Request): nat
    requires HasKeys(r)
  {
    v.hash(AllKeys(r.commands)[0])
  }

  predicate Owns(v: View, r: Request)
    requires HasKeys(r)
  {
    KeySlot(v, r) in v.owners && v.owners[KeySlot(v, r)] == v.myself
  }

  predicate IsOpen(v: View, slot: nat) { Migrating(v, slot) || Importing(v, slot) }

  /** The client was sent here by the slot's owner. */
  predicate LetIn(v: View, r: Request)
    requires HasKeys(r)
  {
    Importing(v, KeySlot(v, r)) && r.asking
  }

  /** A client in READONLY mode that does not write, or runs a script. */
  predicate MayRead(r: Request) { r.readOnlyClient && (!r.writes || r.isEval) }

  /** A node serves keys of a slot that is another's only as the target of MIGRATE, for a client that was sent to it, or as
      the owner's replica for a client that reads. */
  lemma ServedForAnother(v: View, r: Request)
    requires HasKeys(r) && Route(v, r) == Serve && !Owns(v, r)
    ensures KeySlot(v, r) in v.owners
    ensures || (r.isMigrate && IsOpen(v, KeySlot(v, r)))
            || LetIn(v, r)
            || (MayRead(r) && v.masterIs == Some(v.owners[KeySlot(v, r)]))
  {
  }

  /** And in these cases it does, unless the cluster is down, the keys lie in several slots, or the client that was sent
      wants several keys some of which have not arrived. */
  lemma ServesForAnother(v: View, r: Request)
    requires HasKeys(r) && !Owns(v, r) && KeySlot(v, r) in v.owners
    requires OneSlot(v, AllKeys(r.commands)) && Lives(v, r)
    ensures Route(v, r) == Serve
            <==> if r.isMigrate && IsOpen(v, KeySlot(v, r)) then true
                 else if LetIn(v, r) then !SeveralKeys(AllKeys(r.commands)) || !Missing(v, AllKeys(r.commands))
                 else MayRead(r) && v.masterIs == Some(v.owners[KeySlot(v, r)])
  {
  }

  /** The owner serves its slot, unless the slot is migrating and a key is gone, or it is importing it all the same. */
  lemma OwnerServes(v: View, r: Request)
    requires HasKeys(r) && Owns(v, r) && OneSlot(v, AllKeys(r.commands)) && Lives(v, r)
    ensures var keys := AllKeys(r.commands);
            Route(v, r) == Serve
            <==> || (r.isMigrate && IsOpen(v, KeySlot(v, r)))
                 || (!(Migrating(v, KeySlot(v, r)) && Missing(v, keys))
                     && !(LetIn(v, r) && SeveralKeys(keys) && Missing(v, keys)))
  {
  }

  /** The cluster is up, or down with reads allowed and the command no writing one. */
  predicate Lives(v: View, r: Request) { v.clusterOk || (v.readsWhenDown && (!r.commandWrites || r.isEval)) }

  predicate SeveralSlots(v: View, keys: seq<Key>) {
    exists i, j | 0 <= i < j < |keys| :: v.hash(keys[i]) != v.hash(keys[j])
  }

  /** With the cluster down no key is served or redirected unless reads are allowed, and then for no writing command but
      EVAL; keys of several slots and of an unbound slot never are. */
  lemma RefusedExactly(v: View, r: Request)
    requires HasKeys(r)
    ensures var a, keys := Route(v, r), AllKeys(r.commands);
            && (a == DownUnbound <==> KeySlot(v, r) !in v.owners)
            && (a == CrossSlot <==> KeySlot(v, r) in v.owners && SeveralSlots(v, keys))
            && (a == DownState || a == DownReadOnly <==> KeySlot(v, r) in v.owners && OneSlot(v, keys) && !Lives(v, r))
            && (a == DownState ==> !v.readsWhenDown) && (a == DownReadOnly ==> v.readsWhenDown)
  {
    hide SeveralKeys, Missing, Migrating, Importing, AllKeys;
    SlotsDiffer(v, AllKeys(r.commands));
  }

  lemma SlotsDiffer(v: View, keys: seq<Key>)
    requires keys != []
    ensures OneSlot(v, keys) <==> !SeveralSlots(v, keys)
  {
  }

  /** A redirection names another node: the owner, or the node the owner is moving the slot to, and that only from the owner
      and for a key it no longer has. */
  lemma RedirectsAway(v: View, r: Request, n: Node)
    requires HasKeys(r)
    ensures Route(v, r) == Moved(n) ==> KeySlot(v, r) in v.owners && v.owners[KeySlot(v, r)] == n != v.myself
    ensures Route(v, r) == Ask(n) ==>
              && Owns(v, r) && Migrating(v, KeySlot(v, r)) && v.migratingTo[KeySlot(v, r)] == n
              && exists k <- AllKeys(r.commands) :: k !in v.keys
    ensures Route(v, r) == TryAgain ==>
              LetIn(v, r) && SeveralKeys(AllKeys(r.commands)) && exists k <- AllKeys(r.commands) :: k !in v.keys
  {
    var keys := AllKeys(r.commands);
    if Missing(v, keys) {
      var i :| 0 <= i < |keys| && keys[i] !in v.keys;
      assert keys[i] in keys;
    }
  }

  /** The request can change keys, and no rule lets a node take it for another. */
  predicate OwnersOnly(v: View, r: Request)
    requires HasKeys(r)
  {
    r.writes && !r.isEval && !r.isMigrate && !LetIn(v, r)
  }

  lemma WritesAtOwner(v: View, r: Request)
    requires HasKeys(r) && Route(v, r) == Serve && OwnersOnly(v, r)
    ensures Owns(v, r)
  {
    if !Owns(v, r) { ServedForAnother(v, r); }
  }

  /** Of two nodes that agree on who owns what, at most one serves a write. */
  lemma OneWriter(v: View, w: View, r: Request)
    requires HasKeys(r) && v.hash == w.hash && v.owners == w.owners && OwnersOnly(v, r) && OwnersOnly(w, r)
    requires Route(v, r) == Serve && Route(w, r) == Serve
    ensures v.myself == w.myself && v.owners[KeySlot(v, r)] == v.myself
  {
    WritesAtOwner(v, r);
    WritesAtOwner(w, r);
  }

  /** A client that follows MOVED is served, if the node it is sent to agrees on the owner, has the slot closed and is up. */
  lemma MovedIsServed(v: View, w: View, r: Request, n: Node)
    requires HasKeys(r) && Route(v, r) == Moved(n)
    requires w.hash == v.hash && w.owners == v.owners && w.myself == n && !IsOpen(w, KeySlot(w, r)) && Lives(w, r)
    ensures Route(w, r) == Serve
  {
    hide IsOpen;
    RedirectsAway(v, r, n);
    assert OneSlot(v, AllKeys(r.commands));
    OwnerServes(w, r);
    ClosedSlot(w, KeySlot(w, r));
  }

  lemma ClosedSlot(v: View, slot: nat)
    requires !IsOpen(v, slot)
    ensures !Migrating(v, slot) && !Importing(v, slot)
  {
  }

  /** `writes` is the flag of the command, or of a queued command of EXEC, which itself has none. */
  predicate FlagsAgree(r: Request) {
    (r.commandWrites ==> r.writes) && (r.writes && !r.isExec ==> r.commandWrites)
  }

  /** With the cluster down and reads allowed a writing request is refused if and only if it is neither a script nor a
      transaction, whose EXEC is no writing command. */
  lemma DownRefusesWrites(v: View, r: Request)
    requires HasKeys(r) && FlagsAgree(r) && r.writes && !v.clusterOk && v.readsWhenDown
    requires KeySlot(v, r) in v.owners && OneSlot(v, AllKeys(r.commands))
    ensures Route(v, r) == DownReadOnly <==> r.commandWrites && !r.isEval
    ensures Route(v, r) != DownReadOnly ==> r.isEval || r.isExec
  {
  }

  /** Such a transaction: it writes a key of slot 0 at its owner, while the cluster is down. */
  lemma TransactionWritesWhileDown()
    ensures var v := View(1, k => 0, map[0 := 1], map[], map[], {}, false, true, None);
            var r := Request([["a"]], true, true, false, false, false, true, false, false);
            HasKeys(r) && FlagsAgree(r) && r.writes && !v.clusterOk && Route(v, r) == Serve
  {
    assert [["a"]][..0] == [];
    assert AllKeys([["a"]]) == ["a"];
  }

  // ---------------------------------------------------------------------------------------------------------
  // The loops
  // ---------------------------------------------------------------------------------------------------------

  /** What the loops over commands and keys have found in the keys seen so far. */
  ghost predicate Scanned(v: View, seen: seq<Key>, first: Option<Key>, slot: nat, migrating: bool, importing: bool,
                          several: bool, missing: nat) {
    if seen == [] then first.None? && !migrating && !importing && !several && missing == 0
    else
      && first == Some(seen[0]) && slot == v.hash(seen[0]) && slot in v.owners && OneSlot(v, seen)
      && migrating == Migrating(v, slot) && importing == Importing(v, slot)
      && several == SeveralKeys(seen)
      && (migrating || importing ==> (missing > 0) == Missing(v, seen))
  }

  lemma ScannedMore(v: View, seen: seq<Key>, key: Key, slot: nat, migrating: bool, importing: bool, several: bool, missing: nat)
    requires seen != [] && Scanned(v, seen, Some(seen[0]), slot, migrating, importing, several, missing)
    requires v.hash(key) == slot
    ensures Scanned(v, seen + [key], Some(seen[0]), slot, migrating, importing, several || key != seen[0],
                    if (migrating || importing) && key !in v.keys then missing + 1 else missing)
  {
    var more := seen + [key];
    assert more[|seen|] == key && forall i | 0 <= i < |seen| :: more[i] == seen[i];
    assert SeveralKeys(seen) ==> SeveralKeys(more);
    assert Missing(v, seen) ==> Missing(v, more);
  }

  lemma ScannedFirst(v: View, key: Key)
    requires v.hash(key) in v.owners
    ensures var slot := v.hash(key);
            var open := Migrating(v, slot) || Importing(v, slot);
            Scanned(v, [key], Some(key), slot, Migrating(v, slot), Importing(v, slot), false,
                    if open && key !in v.keys then 1 else 0)
  {
    assert [key][0] == key;
  }

  lemma {:induction false} KeysAppear(commands: seq<seq<Key>>, i: nat)
    requires i < |commands|
    ensures var before := AllKeys(commands[..i]) + commands[i];
            |before| <= |AllKeys(commands)| && AllKeys(commands)[..|before|] == before
  {
    var n := |commands| - 1;
    if i == n {
      assert commands[..i] == commands[..n];
    } else {
      KeysAppear(commands[..n], i);
      assert commands[..n][..i] == commands[..i];
    }
  }

  lemma NothingScanned(v: View)
    ensures AllKeys([]) == [] && Scanned(v, [], None, 0, false, false, false, 0)
  {
  }

  /** What the flags say about the request when the next key is looked at. */
  lemma SeenSoFar(v: View, all: seq<Key>, seen: seq<Key>, key: Key, first: Option<Key>, slot: nat,
                  migrating: bool, importing: bool, several: bool, missing: nat)
    requires Scanned(v, seen, first, slot, migrating, importing, several, missing)
    requires |seen| < |all| && all[..|seen| + 1] == seen + [key]
    ensures first.None? <==> seen == []
    ensures first.None? ==> all[0] == key && !migrating && !importing && !several && missing == 0
    ensures first.Some? ==> first == Some(seen[0]) && all[0] == seen[0] && slot == v.hash(all[0]) && slot in v.owners
    ensures first.Some? && v.hash(key) != slot ==> !OneSlot(v, all)
  {
    hide Migrating, Importing;
    assert all[0] == all[..|seen| + 1][0];
    assert all[|seen|] == all[..|seen| + 1][|seen|] == key;
  }

  lemma ScannedAll(v: View, all: seq<Key>, first: Option<Key>, slot: nat,
                   migrating: bool, importing: bool, several: bool, missing: nat)
    requires Scanned(v, all, first, slot, migrating, importing, several, missing)
    ensures first.None? <==> all == []
    ensures all != [] ==>
              && slot == v.hash(all[0]) && slot in v.owners && OneSlot(v, all) && several == SeveralKeys(all)
              && migrating == Migrating(v, slot) && importing == Importing(v, slot)
              && (Migrating(v, slot) || Importing(v, slot) ==> (missing > 0) == Missing(v, all))
  {
  }

  /** Keys that are not there only matter while the slot is moving. */
  lemma IgnoredMissing(v: View, r: Request, slot: nat, several: bool, a: bool, b: bool)
    requires slot in v.owners && (Migrating(v, slot) || Importing(v, slot) ==> a == b)
    ensures RouteSlot(v, r, slot, several, a) == RouteSlot(v, r, slot, several, b)
  {
  }

  /** The local variables of getNodeByQuery. */
  datatype Scan = Scan(first: Option<Key>, slot: nat, migrating: bool, importing: bool, several: bool, missing: nat)

  ghost predicate HasScanned(v: View, seen: seq<Key>, s: Scan) {
    Scanned(v, seen, s.first, s.slot, s.migrating, s.importing, s.several, s.missing)
  }

  lemma NextKey(before: seq<Key>, keys: seq<Key>, all: seq<Key>, j: nat)
    requires j < |keys| && |before + keys| <= |all| && all[..|before + keys|] == before + keys
    ensures var seen := before + keys[..j];
            && before + keys[..j + 1] == seen + [keys[j]]
            && |seen| < |all| && all[..|seen| + 1] == seen + [keys[j]]
  {
    var seen := before + keys[..j];
    assert (before + keys)[..|seen| + 1] == seen + [keys[j]];
    assert all[..|before + keys|][..|seen| + 1] == all[..|seen| + 1];
  }

  /** The first key decides the slot and whether it is moving. */
  method FirstKey(v: View, key: Key) returns (s: Scan)
    ensures v.hash(key) in v.owners ==> HasScanned(v, [key], s)
    ensures s.slot == v.hash(key)
  {
    hide Scanned;
    var slot := v.hash(key);
    var migrating, importing := false, false;
    if slot in v.owners && v.owners[slot] == v.myself && slot in v.migratingTo {
      migrating := true;
    } else if slot in v.importingFrom {
      importing := true;
    }
    s := Scan(Some(key), slot, migrating, importing, false, if (migrating || importing) && key !in v.keys then 1 else 0);
    if slot in v.owners { ScannedFirst(v, key); }
  }

  /** The loop over the keys of one command; `stop` is the answer when the loop returns. */
  method ScanCommand(v: View, keys: seq<Key>, before: Scan, ghost seen: seq<Key>, ghost all: seq<Key>)
    returns (s: Scan, stop: Option<Answer>)
    requires HasScanned(v, seen, before) && |seen + keys| <= |all| && all[..|seen + keys|] == seen + keys
    ensures stop.None? ==> HasScanned(v, seen + keys, s)
    ensures stop.Some? ==> all != []
    ensures stop.Some? ==> if v.hash(all[0]) !in v.owners then stop == Some(DownUnbound)
                           else !OneSlot(v, all) && stop == Some(CrossSlot)
  {
    hide Scanned, OneSlot;
    s := before;
    assert seen + keys[..0] == seen;
    for j := 0 to |keys|
      invariant HasScanned(v, seen + keys[..j], s)
    {
      var key := keys[j];
      ghost var done := seen + keys[..j];
      NextKey(seen, keys, all, j);
      SeenSoFar(v, all, done, key, s.first, s.slot, s.migrating, s.importing, s.several, s.missing);
      if s.first.None? {
        s := FirstKey(v, key);
        if s.slot !in v.owners { return s, Some(DownUnbound); }
        assert done + [key] == [key];
      } else {
        if key != s.first.value && v.hash(key) != s.slot { return s, Some(CrossSlot); }
        ScannedMore(v, done, key, s.slot, s.migrating, s.importing, s.several, s.missing);
        s := s.(several := s.several || key != s.first.value,
                missing := if (s.migrating || s.importing) && key !in v.keys then s.missing + 1 else s.missing);
      }
    }
    assert keys[..|keys|] == keys;
    return s, None;
  }

  /** The decisions after the loops. */
  method Decide(v: View, r: Request, s: Scan) returns (a: Answer)
    requires s.slot in v.owners && s.migrating == Migrating(v, s.slot) && s.importing == Importing(v, s.slot)
    ensures a == RouteSlot(v, r, s.slot, s.several, s.missing > 0)
  {
    var n := v.owners[s.slot];
    if !v.clusterOk {
      if !v.readsWhenDown { return DownState; }
      if r.commandWrites && !r.isEval { return DownReadOnly; }
    }
    if (s.migrating || s.importing) && r.isMigrate { return Serve; }
    if s.migrating && s.missing > 0 { return Ask(v.migratingTo[s.slot]); }
    if s.importing && r.asking {
      if s.several && s.missing > 0 { return TryAgain; }
      return Serve;
    }
    if r.readOnlyClient && (!r.writes || r.isEval) && v.masterIs == Some(n) { return Serve; }
    if n != v.myself { return Moved(n); }
    return Serve;
  }

  /** getNodeByQuery. */
  method GetNodeByQuery(v: View, r: Request) returns (a: Answer)
    ensures a == Route(v, r)
  {
    hide Scanned, Migrating, Importing, RouteSlot, OneSlot;
    if r.isExec && !r.inMulti { return Serve; }
    var s := Scan(None, 0, false, false, false, 0);
    ghost var all := AllKeys(r.commands);
    NothingScanned(v);
    for i := 0 to |r.commands|
      invariant HasScanned(v, AllKeys(r.commands[..i]), s)
    {
      KeysAppear(r.commands, i);
      assert r.commands[..i + 1][..i] == r.commands[..i];
      var stop: Option<Answer>;
      s, stop := ScanCommand(v, r.commands[i], s, AllKeys(r.commands[..i]), all);
      if stop.Some? { return stop.value; }
    }
    assert r.commands[..|r.commands|] == r.commands;
    ScannedAll(v, all, s.first, s.slot, s.migrating, s.importing, s.several, s.missing);
    if s.first.None? { return Serve; }
    a := Decide(v, r, s);
    IgnoredMissing(v, r, s.slot, s.several, s.missing > 0, Missing(v, all));
  }
}
