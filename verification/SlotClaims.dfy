/** How slot claims settle: every master keeps claiming the same slots under its own configuration epoch, and the claims
    reach a node in any order, any number of times. */
module SlotClaims {
  import opened Basics
  import ST = SlotTable

  type Id = nat

  datatype Claim = Claim(epoch: nat, slots: set<nat>)

  /** One node's table: the owner of each slot and the epoch recorded for each master. */
  datatype View = View(owners: seq<Option<Id>>, epochs: map<Id, nat>)

  /** Every master has one claim, no two under the same epoch; the table knows them all, with epochs no newer than their
      claims, and binds slots only to them. */
  ghost predicate Setting(claims: map<Id, Claim>, v: View) {
    && |v.owners| == SLOTS && v.epochs.Keys == claims.Keys
    && (forall n <- claims :: v.epochs[n] <= claims[n].epoch)
    && (forall n, m | n in claims && m in claims && claims[n].epoch == claims[m].epoch :: n == m)
    && (forall j | 0 <= j < SLOTS :: v.owners[j].None? || v.owners[j].value in claims)
  }

  /** A slot is unassigned, bound to one of its claimants, or bound to a master that has given it up and is outranked by
      a claimant. */
  ghost predicate Contestable(claims: map<Id, Claim>, v: View, j: nat) {
    && j < |v.owners|
    && (v.owners[j].None?
        || Claims(claims, v.owners[j].value, j)
        || (&& v.owners[j].value in claims
            && exists m :: Claims(claims, m, j) && claims[v.owners[j].value].epoch < claims[m].epoch))
  }

  predicate Claims(claims: map<Id, Claim>, n: Id, j: nat) {
    n in claims && j in claims[n].slots
  }

  /** The test of clusterUpdateSlotsConfigWith, no slot being imported. */
  predicate Wins(v: View, n: Id, epoch: nat, j: nat)
    requires j < |v.owners|
  {
    var owner := v.owners[j];
    owner != Some(n) && (owner.None? || (owner.value in v.epochs && v.epochs[owner.value] < epoch))
  }

  function SlotsOf(v: View, n: Id): set<nat> {
    set j: nat | j < |v.owners| && v.owners[j] == Some(n)
  }

  /** A header of master n arrives: its epoch is recorded if newer, and its slots are looked at if they are not what the
      table says; a node ignores claims about itself. */
  ghost function Deliver(claims: map<Id, Claim>, myself: Id, v: View, n: Id): (w: View)
    requires n in claims && n in v.epochs
    ensures |w.owners| == |v.owners|
  {
    var c := claims[n];
    var v1 := if c.epoch > v.epochs[n] then v.(epochs := v.epochs[n := c.epoch]) else v;
    if n == myself || SlotsOf(v1, n) == c.slots then v1
    else v1.(owners := seq(|v1.owners|, j requires 0 <= j < |v1.owners| =>
                             if j in c.slots && Wins(v1, n, c.epoch, j) then Some(n) else v1.owners[j]))
  }

  ghost function DeliverAll(claims: map<Id, Claim>, myself: Id, v: View, order: seq<Id>): (w: View)
    requires forall n <- order :: n in claims
    requires v.epochs.Keys == claims.Keys
    ensures |w.owners| == |v.owners| && w.epochs.Keys == claims.Keys
    decreases |order|
  {
    if order == [] then v
    else
      var v1 := Deliver(claims, myself, v, order[0]);
      assert v1.epochs.Keys == claims.Keys;
      DeliverAll(claims, myself, v1, order[1..])
  }

  /** Comparing the bitmaps first changes nothing but the time it takes. */
  lemma DeliverSlot(claims: map<Id, Claim>, myself: Id, v: View, n: Id, j: nat)
    requires Setting(claims, v) && n in claims && j < SLOTS
    ensures var w := Deliver(claims, myself, v, n);
            && w.epochs == v.epochs[n := claims[n].epoch]
            && w.owners[j] == if n != myself && j in claims[n].slots && Wins(v, n, claims[n].epoch, j)
                              then Some(n) else v.owners[j]
  {
    var w := Deliver(claims, myself, v, n);
    var c := claims[n];
    var v1 := if c.epoch > v.epochs[n] then v.(epochs := v.epochs[n := c.epoch]) else v;
    assert Wins(v1, n, c.epoch, j) == Wins(v, n, c.epoch, j);
    if SlotsOf(v1, n) == c.slots && j in c.slots {
      assert j in SlotsOf(v1, n);
    }
    assert w.epochs == v.epochs[n := c.epoch];
  }

  lemma DeliverKeeps(claims: map<Id, Claim>, myself: Id, v: View, n: Id)
    requires Setting(claims, v) && n in claims
    ensures Setting(claims, Deliver(claims, myself, v, n))
  {
    hide Deliver, Wins;
    var w := Deliver(claims, myself, v, n);
    DeliverSlot(claims, myself, v, n, 0);
    assert w.epochs.Keys == claims.Keys;
    forall j | 0 <= j < SLOTS ensures w.owners[j].None? || w.owners[j].value in claims {
      DeliverSlot(claims, myself, v, n, j);
    }
  }

  lemma DeliverKeepsContestable(claims: map<Id, Claim>, myself: Id, v: View, n: Id, j: nat)
    requires Setting(claims, v) && n in claims && Contestable(claims, v, j)
    ensures Contestable(claims, Deliver(claims, myself, v, n), j)
  {
    hide Deliver, Wins;
    DeliverSlot(claims, myself, v, n, j);
  }

  /** The claimant of a slot with the greatest epoch. */
  ghost predicate Greatest(claims: map<Id, Claim>, j: nat, g: Id) {
    Claims(claims, g, j) && forall n | Claims(claims, n, j) :: claims[n].epoch <= claims[g].epoch
  }

  /** Bound to g, whose epoch is recorded in full. */
  ghost predicate Settled(claims: map<Id, Claim>, v: View, j: nat, g: Id) {
    j < |v.owners| && v.owners[j] == Some(g) && g in claims && g in v.epochs && v.epochs[g] == claims[g].epoch
  }

  lemma DeliverStays(claims: map<Id, Claim>, myself: Id, v: View, n: Id, j: nat, g: Id)
    requires Setting(claims, v) && n in claims && j < SLOTS && Greatest(claims, j, g) && Settled(claims, v, j, g)
    ensures Settled(claims, Deliver(claims, myself, v, n), j, g)
  {
    hide Deliver;
    DeliverSlot(claims, myself, v, n, j);
    assert Claims(claims, n, j) ==> claims[n].epoch <= claims[g].epoch;
  }

  lemma {:induction false} DeliverAllStays(claims: map<Id, Claim>, myself: Id, v: View, order: seq<Id>, j: nat, g: Id)
    requires Setting(claims, v) && (forall n <- order :: n in claims) && j < SLOTS
    requires Greatest(claims, j, g) && Settled(claims, v, j, g)
    ensures Settled(claims, DeliverAll(claims, myself, v, order), j, g)
    decreases |order|
  {
    hide Deliver, Settled, Greatest;
    if order != [] {
      DeliverKeeps(claims, myself, v, order[0]);
      DeliverStays(claims, myself, v, order[0], j, g);
      DeliverAllStays(claims, myself, Deliver(claims, myself, v, order[0]), order[1..], j, g);
    }
  }

  /** The greatest claimant takes the slot the first time it is heard. */
  lemma DeliverSettles(claims: map<Id, Claim>, myself: Id, v: View, j: nat, g: Id)
    requires Setting(claims, v) && Contestable(claims, v, j) && Greatest(claims, j, g) && g != myself
    ensures Settled(claims, Deliver(claims, myself, v, g), j, g)
  {
    hide Deliver;
    DeliverSlot(claims, myself, v, g, j);
    var owner := v.owners[j];
    if owner.Some? && owner.value != g {
      assert v.epochs[owner.value] <= claims[owner.value].epoch < claims[g].epoch;
    }
  }

  /** Whatever the order and the repetitions, once the greatest claimant of a slot has been heard, or is this node itself
      and holds the slot, the slot is bound to it for good. */
  lemma {:induction false} ClaimsConverge(claims: map<Id, Claim>, myself: Id, v: View, order: seq<Id>, j: nat, g: Id)
    requires Setting(claims, v) && (forall n <- order :: n in claims) && Contestable(claims, v, j) && Greatest(claims, j, g)
    requires if g == myself then Settled(claims, v, j, g) else g in order
    ensures DeliverAll(claims, myself, v, order).owners[j] == Some(g)
    decreases |order|
  {
    hide Deliver, Greatest, Contestable;
    InRange(claims, v, j);
    if g == myself {
      DeliverAllStays(claims, myself, v, order, j, g);
    } else {
      var v1 := Deliver(claims, myself, v, order[0]);
      DeliverKeeps(claims, myself, v, order[0]);
      if order[0] == g {
        DeliverSettles(claims, myself, v, j, g);
        DeliverAllStays(claims, myself, v1, order[1..], j, g);
      } else {
        DeliverKeepsContestable(claims, myself, v, order[0], j);
        ClaimsConverge(claims, myself, v1, order[1..], j, g);
      }
    }
  }

  lemma InRange(claims: map<Id, Claim>, v: View, j: nat)
    requires Setting(claims, v) && Contestable(claims, v, j)
    ensures j < SLOTS
  {
  }

  /** A slot nobody claims keeps its owner, or its lack of one. */
  lemma {:induction false} UnclaimedStays(claims: map<Id, Claim>, myself: Id, v: View, order: seq<Id>, j: nat)
    requires Setting(claims, v) && (forall n <- order :: n in claims) && j < SLOTS
    requires forall n :: !Claims(claims, n, j)
    ensures DeliverAll(claims, myself, v, order).owners[j] == v.owners[j]
    decreases |order|
  {
    hide Deliver;
    if order != [] {
      assert !Claims(claims, order[0], j);
      DeliverKeeps(claims, myself, v, order[0]);
      DeliverSlot(claims, myself, v, order[0], j);
      UnclaimedStays(claims, myself, Deliver(claims, myself, v, order[0]), order[1..], j);
    }
  }

  // ---------------------------------------------------------------------------------------------------------
  // Owners that no longer claim
  // ---------------------------------------------------------------------------------------------------------

  /** Bound to o, which does not claim the slot but whose epoch, recorded in full, outranks all who do. */
  ghost predicate Stuck(claims: map<Id, Claim>, v: View, j: nat, o: Id) {
    && Settled(claims, v, j, o) && !Claims(claims, o, j)
    && forall n | Claims(claims, n, j) :: claims[n].epoch < claims[o].epoch
  }

  lemma {:induction false} StuckStays(claims: map<Id, Claim>, myself: Id, v: View, order: seq<Id>, j: nat, o: Id)
    requires Setting(claims, v) && (forall n <- order :: n in claims) && j < SLOTS && Stuck(claims, v, j, o)
    ensures DeliverAll(claims, myself, v, order).owners[j] == Some(o)
    decreases |order|
  {
    hide Deliver;
    if order != [] {
      DeliverKeeps(claims, myself, v, order[0]);
      DeliverSlot(claims, myself, v, order[0], j);
      assert Claims(claims, order[0], j) ==> claims[order[0]].epoch < claims[o].epoch;
      StuckStays(claims, myself, Deliver(claims, myself, v, order[0]), order[1..], j, o);
    }
  }

  /** Every master but this node itself is heard at least once. */
  ghost predicate Complete(claims: map<Id, Claim>, myself: Id, order: seq<Id>) {
    && (forall n <- order :: n in claims)
    && (forall n <- claims :: n == myself || n in order)
  }

  lemma {:induction false} SomeOrder(ids: set<Id>) returns (order: seq<Id>)
    ensures forall n :: n in order <==> n in ids
    decreases |ids|
  {
    order := [];
    if ids != {} {
      var n :| n in ids;
      var rest := SomeOrder(ids - {n});
      order := [n] + rest;
    }
  }

  /** With an owner that no longer claims the slot and outranks all claimants, hearing that owner first leaves the slot
      where it is. */
  lemma StaleOwnerKeeps(claims: map<Id, Claim>, myself: Id, v: View, j: nat, g: Id) returns (order: seq<Id>)
    requires Setting(claims, v) && j < SLOTS && Greatest(claims, j, g) && !Contestable(claims, v, j)
    requires myself in claims ==> v.epochs[myself] == claims[myself].epoch
    ensures Complete(claims, myself, order) && DeliverAll(claims, myself, v, order).owners[j] == v.owners[j] != Some(g)
  {
    hide Deliver;
    var o := v.owners[j].value;
    var rest := SomeOrder(claims.Keys);
    assert claims[g].epoch != claims[o].epoch;
    forall n | Claims(claims, n, j) ensures claims[n].epoch < claims[o].epoch {
      assert n != o && !(claims[o].epoch < claims[n].epoch);
    }
    if o == myself {
      order := rest;
      StuckStays(claims, myself, v, order, j, o);
    } else {
      order := [o] + rest;
      DeliverKeeps(claims, myself, v, o);
      DeliverSlot(claims, myself, v, o, j);
      StuckStays(claims, myself, Deliver(claims, myself, v, o), rest, j, o);
      assert order[1..] == rest;
    }
  }

  /** A slot goes to its greatest claimant under every complete schedule if and only if it is contestable. */
  lemma ConvergesExactly(claims: map<Id, Claim>, myself: Id, v: View, j: nat, g: Id)
    requires Setting(claims, v) && j < SLOTS && Greatest(claims, j, g)
    requires myself in claims ==> v.epochs[myself] == claims[myself].epoch
    requires g == myself ==> Settled(claims, v, j, g)
    ensures (forall order | Complete(claims, myself, order) :: DeliverAll(claims, myself, v, order).owners[j] == Some(g))
            <==> Contestable(claims, v, j)
  {
    hide DeliverAll, Greatest, Contestable;
    if Contestable(claims, v, j) {
      forall order | Complete(claims, myself, order) ensures DeliverAll(claims, myself, v, order).owners[j] == Some(g) {
        GreatestIsKnown(claims, j, g);
        ClaimsConverge(claims, myself, v, order, j, g);
      }
    } else {
      var order := StaleOwnerKeeps(claims, myself, v, j, g);
    }
  }

  lemma GreatestIsKnown(claims: map<Id, Claim>, j: nat, g: Id)
    requires Greatest(claims, j, g)
    ensures g in claims
  {
  }

  /** If besides the table has not yet heard how new that owner is, the other order gives the slot away: the outcome
      depends on the order. */
  lemma OrderDecides(claims: map<Id, Claim>, myself: Id, v: View, j: nat, g: Id)
    requires Setting(claims, v) && j < SLOTS && Greatest(claims, j, g) && !Contestable(claims, v, j) && g != myself
    requires v.epochs[v.owners[j].value] < claims[g].epoch
    ensures DeliverAll(claims, myself, v, [g, v.owners[j].value]).owners[j] == Some(g)
    ensures DeliverAll(claims, myself, v, [v.owners[j].value, g]).owners[j] == v.owners[j] != Some(g)
  {
    hide Deliver;
    var o := v.owners[j].value;
    var v1, w1 := Deliver(claims, myself, v, g), Deliver(claims, myself, v, o);
    DeliverSlot(claims, myself, v, g, j);
    DeliverKeeps(claims, myself, v, g);
    DeliverSlot(claims, myself, v1, o, j);
    DeliverSlot(claims, myself, v, o, j);
    DeliverKeeps(claims, myself, v, o);
    DeliverSlot(claims, myself, w1, g, j);
    assert [g, o][1..] == [o] && [o, g][1..] == [g] && [o][1..] == [] && [g][1..] == [];
    assert claims[g].epoch != claims[o].epoch && !(claims[o].epoch < claims[g].epoch);
    DeliverTwo(claims, myself, v, g, o);
    DeliverTwo(claims, myself, v, o, g);
  }

  lemma DeliverTwo(claims: map<Id, Claim>, myself: Id, v: View, a: Id, b: Id)
    requires a in claims && b in claims && v.epochs.Keys == claims.Keys
    ensures Deliver(claims, myself, v, a).epochs.Keys == claims.Keys
    ensures DeliverAll(claims, myself, v, [a, b]) == Deliver(claims, myself, Deliver(claims, myself, v, a), b)
  {
    var v1 := Deliver(claims, myself, v, a);
    var v2 := Deliver(claims, myself, v1, b);
    assert v1.epochs.Keys == claims.Keys && v2.epochs.Keys == claims.Keys;
    assert [a, b][1..] == [b] && [b][1..] == [];
    assert DeliverAll(claims, myself, v2, []) == v2;
    assert DeliverAll(claims, myself, v1, [b]) == v2;
  }

  /** Node 0 once held slot 0 under epoch 1, has given it up and is at epoch 5 now; node 1 claims it under epoch 3. */
  function GivenUp(): (map<Id, Claim>, View) {
    (map[0 := Claim(5, {}), 1 := Claim(3, {0})],
     View(seq(SLOTS, j => if j == 0 then Some(0) else None), map[0 := 1, 1 := 3]))
  }

  /** At node 2 slot 0 goes to node 1 if its claim comes first, and stays with node 0 if the news of node 0 does. */
  lemma OrderDecidesHere()
    ensures var (claims, v) := GivenUp();
            && Setting(claims, v) && Greatest(claims, 0, 1) && !Contestable(claims, v, 0)
            && DeliverAll(claims, 2, v, [1, 0]).owners[0] == Some(1)
            && DeliverAll(claims, 2, v, [0, 1]).owners[0] == Some(0)
  {
    hide DeliverAll;
    var (claims, v) := GivenUp();
    assert v.owners[0] == Some(0);
    OrderDecides(claims, 2, v, 0, 1);
  }

  // ---------------------------------------------------------------------------------------------------------
  // All slots
  // ---------------------------------------------------------------------------------------------------------

  lemma {:induction false} SomeGreatest(claims: map<Id, Claim>, ids: set<Id>) returns (g: Id)
    requires ids != {} && forall n <- ids :: n in claims
    ensures g in ids && forall n <- ids :: claims[n].epoch <= claims[g].epoch
    decreases |ids|
  {
    var n :| n in ids;
    var rest := ids - {n};
    if rest == {} {
      g := n;
      assert ids == {n};
    } else {
      g := SomeGreatest(claims, rest);
      if claims[n].epoch > claims[g].epoch { g := n; }
    }
  }

  /** All that this node holds of its own claim is in its table. */
  ghost predicate HoldsOwn(claims: map<Id, Claim>, myself: Id, v: View) {
    myself in claims ==> forall j <- claims[myself].slots :: j < SLOTS ==> Settled(claims, v, j, myself)
  }

  /** Where a slot ends up: with its greatest claimant g, or unassigned if nobody claims it. */
  lemma SlotEnds(claims: map<Id, Claim>, me: Id, v: View, order: seq<Id>, j: nat, g: Option<Id>)
    requires Setting(claims, v) && HoldsOwn(claims, me, v) && Contestable(claims, v, j) && Complete(claims, me, order)
    requires if g.None? then forall n :: !Claims(claims, n, j) else Greatest(claims, j, g.value)
    ensures j < |v.owners| && DeliverAll(claims, me, v, order).owners[j] == g
  {
    hide DeliverAll, Settled;
    if g.None? {
      UnclaimedStays(claims, me, v, order, j);
    } else {
      ClaimsConverge(claims, me, v, order, j, g.value);
    }
  }

  lemma SlotWinner(claims: map<Id, Claim>, j: nat) returns (g: Option<Id>)
    ensures if g.None? then forall n :: !Claims(claims, n, j) else Greatest(claims, j, g.value)
  {
    var ids := set n | n in claims && Claims(claims, n, j);
    assert forall n :: Claims(claims, n, j) ==> n in ids;
    if ids == {} {
      g := None;
    } else {
      var w := SomeGreatest(claims, ids);
      g := Some(w);
    }
  }

  /** Two nodes' tables, or one node's under two schedules, end up the same once every claim has arrived somewhere in each,
      each slot with its greatest-epoch claimant. */
  lemma TablesAgree(claims: map<Id, Claim>, me1: Id, v1: View, order1: seq<Id>, me2: Id, v2: View, order2: seq<Id>)
    requires Setting(claims, v1) && Setting(claims, v2) && HoldsOwn(claims, me1, v1) && HoldsOwn(claims, me2, v2)
    requires forall j: nat | j < SLOTS :: Contestable(claims, v1, j) && Contestable(claims, v2, j)
    requires Complete(claims, me1, order1) && Complete(claims, me2, order2)
    ensures DeliverAll(claims, me1, v1, order1).owners == DeliverAll(claims, me2, v2, order2).owners
  {
    hide DeliverAll, HoldsOwn, Contestable, Greatest, Claims;
    forall j: nat | j < SLOTS
      ensures DeliverAll(claims, me1, v1, order1).owners[j] == DeliverAll(claims, me2, v2, order2).owners[j]
    {
      var g := SlotWinner(claims, j);
      SlotEnds(claims, me1, v1, order1, j, g);
      SlotEnds(claims, me2, v2, order2, j, g);
    }
  }

  // ---------------------------------------------------------------------------------------------------------
  // Deliver is what the slot table does
  // ---------------------------------------------------------------------------------------------------------

  /** No two nodes have the same name. */
  ghost predicate Naming(names: map<ST.Node, Id>) {
    forall n, m | n in names && m in names && names[n] == names[m] :: n == m
  }

  ghost function NameOf(names: map<ST.Node, Id>, n: ST.Node?): Option<Id>
    requires n != null ==> n in names
  {
    if n == null then None else Some(names[n])
  }

  /** v is the table with these owners and recorded epochs, nodes replaced by their names. */
  ghost predicate Pictures(names: map<ST.Node, Id>, owners: seq<ST.Node?>, epochs: map<ST.Node, nat>, v: View) {
    && |owners| == SLOTS == |v.owners|
    && (forall j | 0 <= j < SLOTS :: owners[j] != null ==> owners[j] in names)
    && (forall j | 0 <= j < SLOTS :: v.owners[j] == NameOf(names, owners[j]))
    && names.Keys == epochs.Keys
    && (forall n <- names :: names[n] in v.epochs && v.epochs[names[n]] == epochs[n])
  }

  lemma WinsIsTakes(names: map<ST.Node, Id>, owners: seq<ST.Node?>, epochs: map<ST.Node, nat>, v: View,
                    sender: ST.Node, epoch: nat, j: nat)
    requires Naming(names) && Pictures(names, owners, epochs, v) && sender in names && j < SLOTS
    ensures Wins(v, names[sender], epoch, j) <==> ST.Table.Takes(owners[j], null, epochs, sender, epoch)
  {
    if owners[j] != null {
      assert v.owners[j] == Some(names[owners[j]]);
    }
  }

  /** With the sender's epoch recorded and nothing being imported, the owners that SlotTable's UpdateSlotsConfigWith leaves
      are those of Deliver. */
  lemma DeliverIsUpdate(claims: map<Id, Claim>, myself: Id, names: map<ST.Node, Id>, owners: seq<ST.Node?>,
                        epochs: map<ST.Node, nat>, v: View, sender: ST.Node, claim: seq<bv8>, importing: seq<ST.Node?>,
                        after: seq<ST.Node?>)
    requires Naming(names) && Pictures(names, owners, epochs, v) && sender in names && names[sender] != myself
    requires Setting(claims, v) && names[sender] in claims && epochs[sender] == claims[names[sender]].epoch
    requires |claim| == SLOTS / 8 && forall j: nat | j < SLOTS :: ST.TestBit(claim, j) <==> j in claims[names[sender]].slots
    requires |importing| == SLOTS && forall j | 0 <= j < SLOTS :: importing[j] == null
    requires var taken := ST.Table.Taken(owners, importing, epochs, sender, epochs[sender], claim);
             |after| == SLOTS && forall j: nat | j < SLOTS :: after[j] == if j in taken then sender else owners[j]
    ensures Pictures(names, after, epochs, Deliver(claims, myself, v, names[sender]))
  {
    hide Deliver, Wins, ST.TestBit, ST.Table.Takes;
    var n := names[sender];
    var w := Deliver(claims, myself, v, n);
    forall j: nat | j < SLOTS ensures (after[j] != null ==> after[j] in names) && w.owners[j] == NameOf(names, after[j]) {
      DeliverSlot(claims, myself, v, n, j);
      WinsIsTakes(names, owners, epochs, v, sender, epochs[sender], j);
    }
    DeliverSlot(claims, myself, v, n, 0);
  }
}
