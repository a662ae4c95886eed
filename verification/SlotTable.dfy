/** The slot table of one cluster node: for every slot the node that serves it, and for every known node a bitmap of its
    slots and their number. */
module SlotTable {
  import opened Basics
  import opened ByteBits

  // ---------------------------------------------------------------------------------------------------------
  // Bitmaps
  // ---------------------------------------------------------------------------------------------------------

  /** bitmapTestBit. */
  predicate TestBit(bitmap: seq<bv8>, pos: nat)
    requires |bitmap| == SLOTS / 8 && pos < SLOTS
  {
    Has(bitmap[pos / 8], pos % 8)
  }

  /** bitmapSetBit. */
  method SetBit(bitmap: array<bv8>, pos: nat)
    requires bitmap.Length == SLOTS / 8 && pos < SLOTS
    modifies bitmap
    ensures forall j: nat | j < SLOTS :: TestBit(bitmap[..], j) <==> j == pos || TestBit(old(bitmap[..]), j)
  {
    hide Has, Mask;
    bitmap[pos / 8] := bitmap[pos / 8] | Mask(pos % 8);
    forall j: nat | j < SLOTS ensures TestBit(bitmap[..], j) <==> j == pos || TestBit(old(bitmap[..]), j) {
      if j / 8 == pos / 8 { MaskSet(old(bitmap[pos / 8]), pos % 8, j % 8); }
    }
  }

  /** bitmapClearBit. */
  method ClearBit(bitmap: array<bv8>, pos: nat)
    requires bitmap.Length == SLOTS / 8 && pos < SLOTS
    modifies bitmap
    ensures forall j: nat | j < SLOTS :: TestBit(bitmap[..], j) <==> j != pos && TestBit(old(bitmap[..]), j)
  {
    hide Has, Mask;
    bitmap[pos / 8] := bitmap[pos / 8] & !Mask(pos % 8);
    forall j: nat | j < SLOTS ensures TestBit(bitmap[..], j) <==> j != pos && TestBit(old(bitmap[..]), j) {
      if j / 8 == pos / 8 { MaskClear(old(bitmap[pos / 8]), pos % 8, j % 8); }
    }
  }

  // ---------------------------------------------------------------------------------------------------------
  // Nodes
  // ---------------------------------------------------------------------------------------------------------

  /** A known node; `mine` is the set of slots its bitmap stands for. */
  class Node {
    const bitmap: array<bv8>
    var numslots: int
    var configEpoch: nat
    ghost var mine: set<nat>

    ghost predicate Valid()
      reads this, bitmap
    {
      && bitmap.Length == SLOTS / 8
      && (forall j <- mine :: j < SLOTS)
      && (forall j: nat | j < SLOTS :: TestBit(bitmap[..], j) <==> j in mine)
      && numslots == |mine|
    }

    constructor (epoch: nat)
      ensures Valid() && mine == {} && configEpoch == epoch && fresh(bitmap)
    {
      bitmap := new bv8[SLOTS / 8](_ => 0);
      numslots, configEpoch, mine := 0, epoch, {};
    }

    /** clusterNodeSetSlotBit. */
    method SetSlotBit(slot: nat) returns (was: bool)
      requires Valid() && slot < SLOTS
      modifies `numslots, `mine, bitmap
      ensures Valid() && mine == old(mine) + {slot} && was == (slot in old(mine))
    {
      hide TestBit;
      was := TestBit(bitmap[..], slot);
      SetBit(bitmap, slot);
      if !was { numslots := numslots + 1; }
      mine := mine + {slot};
    }

    /** clusterNodeClearSlotBit. */
    method ClearSlotBit(slot: nat) returns (was: bool)
      requires Valid() && slot < SLOTS
      modifies `numslots, `mine, bitmap
      ensures Valid() && mine == old(mine) - {slot} && was == (slot in old(mine))
    {
      hide TestBit;
      was := TestBit(bitmap[..], slot);
      ClearBit(bitmap, slot);
      if was { numslots := numslots - 1; }
      mine := mine - {slot};
    }

    /** clusterNodeGetSlotBit. */
    method GetSlotBit(slot: nat) returns (b: bool)
      requires Valid() && slot < SLOTS
      ensures b == (slot in mine)
    {
      hide TestBit;
      b := TestBit(bitmap[..], slot);
    }
  }

  // ---------------------------------------------------------------------------------------------------------
  // The table
  // ---------------------------------------------------------------------------------------------------------

  class Table {
    const slots: array<Node?>
    var nodes: set<Node>
    const importing: array<Node?>
    const migrating: array<Node?>

    ghost predicate Valid()
      reads this, slots, nodes, set n | n in nodes :: n.bitmap
    {
      && slots.Length == SLOTS && importing.Length == SLOTS && migrating.Length == SLOTS
      && slots != importing && slots != migrating && importing != migrating
      && (forall n <- nodes :: n.Valid())
      && (forall n, m | n in nodes && m in nodes && n != m :: n.bitmap != m.bitmap)
      && (forall j | 0 <= j < SLOTS :: slots[j] != null ==> slots[j] in nodes)
      && (forall n <- nodes, j: nat | j < SLOTS :: j in n.mine <==> slots[j] == n)
    }

    constructor ()
      ensures Valid() && nodes == {} && fresh(slots) && fresh(importing) && fresh(migrating)
      ensures forall j | 0 <= j < SLOTS :: slots[j] == null && importing[j] == null && migrating[j] == null
    {
      slots := new Node?[SLOTS](_ => null);
      importing := new Node?[SLOTS](_ => null);
      migrating := new Node?[SLOTS](_ => null);
      nodes := {};
    }

    /** clusterAddNode. */
    method AddNode(n: Node)
      requires Valid() && n.Valid() && n.mine == {} && n !in nodes && forall m <- nodes :: m.bitmap != n.bitmap
      modifies `nodes
      ensures Valid() && nodes == old(nodes) + {n}
    {
      forall j | 0 <= j < SLOTS ensures slots[j] != n {
        if slots[j] != null { assert slots[j] in nodes; }
      }
      nodes := nodes + {n};
    }

    /** clusterAddSlot. */
    method AddSlot(n: Node, slot: nat) returns (ok: bool)
      requires Valid() && n in nodes && slot < SLOTS
      modifies slots, n`numslots, n`mine, n.bitmap
      ensures Valid() && ok == (old(slots[slot]) == null)
      ensures slots[..] == if ok then old(slots[..])[slot := n] else old(slots[..])
    {
      if slots[slot] != null { return false; }
      var was := n.SetSlotBit(slot);
      slots[slot] := n;
      return true;
    }

    /** clusterDelSlot; `bit` is what its assertion tests. */
    method DelSlot(slot: nat) returns (ok: bool, bit: bool)
      requires Valid() && slot < SLOTS
      modifies slots, nodes, set n | n in nodes :: n.bitmap
      ensures Valid() && ok == (old(slots[slot]) != null) && bit
      ensures slots[..] == old(slots[..])[slot := null]
      ensures forall n <- nodes :: n.configEpoch == old(n.configEpoch) && n.mine == old(n.mine) - {slot}
    {
      var n := slots[slot];
      assert forall m <- nodes | m != n :: slot !in m.mine;
      if n == null { return false, true; }
      bit := n.ClearSlotBit(slot);
      slots[slot] := null;
      return true, bit;
    }
  
    lemma Shape()
      requires Valid()
      ensures slots.Length == SLOTS && importing.Length == SLOTS && migrating.Length == SLOTS
      ensures slots != importing && slots != migrating && importing != migrating
      ensures forall n <- nodes :: n.bitmap.Length == SLOTS / 8
    {
    }

    lemma NodeHas(n: Node)
      requires Valid() && n in nodes
      ensures slots.Length == SLOTS && n.Valid() && forall j: nat | j < SLOTS :: j in n.mine <==> slots[j] == n
    {
    }

    lemma NodeHasNone(n: Node)
      requires Valid() && n in nodes && slots.Length == SLOTS && forall j | 0 <= j < SLOTS :: slots[j] != n
      ensures n.mine == {}
    {
      assert forall j <- n.mine :: j < SLOTS && slots[j] == n;
    }

    /** A slot changes hands: clusterDelSlot, then clusterAddSlot. */
    method Rebind(slot: nat, n: Node)
      requires Valid() && slot < SLOTS && n in nodes
      modifies slots, nodes, set n | n in nodes :: n.bitmap
      ensures Valid() && slots[..] == old(slots[..])[slot := n]
      ensures forall m <- nodes :: m.configEpoch == old(m.configEpoch)
    {
      hide Valid;
      Shape();
      var ok, bit := DelSlot(slot);
      ok := AddSlot(n, slot);
    }

    /** clusterDelNodeSlots. */
    method DelNodeSlots(n: Node) returns (deleted: nat)
      requires Valid() && n in nodes
      modifies slots, nodes, set n | n in nodes :: n.bitmap
      ensures Valid() && deleted == |old(n.mine)| && n.mine == {}
      ensures slots.Length == SLOTS
      ensures forall j | 0 <= j < SLOTS :: slots[j] == if old(slots[j]) == n then null else old(slots[j])
    {
      hide Valid;
      Shape();
      deleted := 0;
      for j := 0 to SLOTS
        invariant Valid()
        invariant forall i | 0 <= i < j :: slots[i] == if old(slots[i]) == n then null else old(slots[i])
        invariant forall i | j <= i < SLOTS :: slots[i] == old(slots[i])
        invariant deleted + |n.mine| == |old(n.mine)|
      {
        NodeHas(n);
        var bit := n.GetSlotBit(j);
        if bit {
          var ok, was := DelSlot(j);
          deleted := deleted + 1;
        }
      }
      NodeHasNone(n);
    }

    /** The body of the first loop of clusterDelNode. */
    method ForgetSlot(n: Node, j: nat)
      requires Valid() && n in nodes && j < SLOTS
      modifies slots, importing, migrating, nodes, set n | n in nodes :: n.bitmap
      ensures Valid()
      ensures slots[..] == old(slots[..])[j := if old(slots[j]) == n then null else old(slots[j])]
      ensures importing[..] == old(importing[..])[j := if old(importing[j]) == n then null else old(importing[j])]
      ensures migrating[..] == old(migrating[..])[j := if old(migrating[j]) == n then null else old(migrating[j])]
    {
      hide Valid;
      Shape();
      if importing[j] == n { importing[j] := null; }
      if migrating[j] == n { migrating[j] := null; }
      if slots[j] == n {
        var ok, bit := DelSlot(j);
      }
    }

    method RemoveNode(n: Node)
      requires Valid() && n in nodes && slots.Length == SLOTS && forall j | 0 <= j < SLOTS :: slots[j] != n
      modifies `nodes
      ensures Valid() && nodes == old(nodes) - {n}
    {
      nodes := nodes - {n};
    }

    /** What a reference becomes when node n is forgotten. */
    static function Without(m: Node?, n: Node): Node? { if m == n then null else m }

    /** clusterDelNode: its slots become unassigned and nothing is migrating to it or importing from it any more. */
    method DelNode(n: Node)
      requires Valid() && n in nodes
      modifies `nodes, slots, importing, migrating, nodes, set n | n in nodes :: n.bitmap
      ensures Valid() && nodes == old(nodes) - {n}
      ensures slots.Length == SLOTS && importing.Length == SLOTS && migrating.Length == SLOTS
      ensures forall j | 0 <= j < SLOTS :: slots[j] != n && (old(slots[j]) != n ==> slots[j] == old(slots[j]))
      ensures forall j | 0 <= j < SLOTS :: importing[j] != n && (old(importing[j]) != n ==> importing[j] == old(importing[j]))
      ensures forall j | 0 <= j < SLOTS :: migrating[j] != n && (old(migrating[j]) != n ==> migrating[j] == old(migrating[j]))
      ensures forall j | 0 <= j < SLOTS ::
                && (old(slots[j]) == n ==> slots[j] == null) && (old(importing[j]) == n ==> importing[j] == null)
                && (old(migrating[j]) == n ==> migrating[j] == null)
    {
      hide Valid;
      Shape();
      for j := 0 to SLOTS
        invariant Valid() && nodes == old(nodes)
        invariant forall i | 0 <= i < j :: slots[i] == Without(old(slots[i]), n)
        invariant forall i | 0 <= i < j :: importing[i] == Without(old(importing[i]), n)
        invariant forall i | 0 <= i < j :: migrating[i] == Without(old(migrating[i]), n)
        invariant slots[j..] == old(slots[j..]) && importing[j..] == old(importing[j..])
        invariant migrating[j..] == old(migrating[j..])
      {
        assert slots[j] == slots[j..][0] && importing[j] == importing[j..][0] && migrating[j] == migrating[j..][0];
        ForgetSlot(n, j);
      }
      RemoveNode(n);
    }

    /** The loop of clusterFailoverReplaceYourMaster: every slot of the old master, and no other, is taken over. */
    method ReplaceMaster(myself: Node, oldmaster: Node)
      requires Valid() && myself in nodes && oldmaster in nodes && myself != oldmaster
      modifies slots, nodes, set n | n in nodes :: n.bitmap
      ensures Valid() && slots.Length == SLOTS
      ensures forall j | 0 <= j < SLOTS :: slots[j] == if old(slots[j]) == oldmaster then myself else old(slots[j])
    {
      hide Valid;
      Shape();
      for j := 0 to SLOTS
        invariant Valid()
        invariant forall i | 0 <= i < j :: slots[i] == if old(slots[i]) == oldmaster then myself else old(slots[i])
        invariant forall i | j <= i < SLOTS :: slots[i] == old(slots[i])
      {
        NodeHas(oldmaster);
        var bit := oldmaster.GetSlotBit(j);
        if bit { Rebind(j, myself); }
      }
    }

    /** clusterCloseAllSlots. */
    method CloseAllSlots()
      requires Valid()
      modifies importing, migrating
      ensures Valid() && importing.Length == SLOTS && migrating.Length == SLOTS
      ensures forall j | 0 <= j < SLOTS :: importing[j] == null && migrating[j] == null
    {
      forall j | 0 <= j < SLOTS { migrating[j] := null; }
      forall j | 0 <= j < SLOTS { importing[j] := null; }
    }

    /** clusterReset: no slot is assigned or open and only myself is known. */
    method Reset(myself: Node)
      requires Valid() && myself in nodes
      modifies `nodes, slots, importing, migrating, nodes, set n | n in nodes :: n.bitmap
      ensures Valid() && nodes == {myself} && myself.mine == {}
      ensures slots.Length == SLOTS && importing.Length == SLOTS && migrating.Length == SLOTS
      ensures forall j | 0 <= j < SLOTS :: slots[j] == null && importing[j] == null && migrating[j] == null
    {
      hide Valid;
      Shape();
      CloseAllSlots();
      for j := 0 to SLOTS
        invariant Valid() && nodes == old(nodes)
        invariant forall i | 0 <= i < j :: slots[i] == null
        invariant forall i | 0 <= i < SLOTS :: importing[i] == null && migrating[i] == null
      {
        var ok, bit := DelSlot(j);
      }
      ForgetOthers(myself);
      NodeHasNone(myself);
    }

    /** The second loop of clusterReset. */
    method ForgetOthers(myself: Node)
      requires Valid() && myself in nodes && slots.Length == importing.Length == migrating.Length == SLOTS
      requires forall j | 0 <= j < SLOTS :: slots[j] == null && importing[j] == null && migrating[j] == null
      modifies `nodes, slots, importing, migrating, nodes, set n | n in nodes :: n.bitmap
      ensures Valid() && nodes == {myself}
      ensures forall j | 0 <= j < SLOTS :: slots[j] == null && importing[j] == null && migrating[j] == null
    {
      hide Valid;
      var rest := nodes - {myself};
      while rest != {}
        invariant Valid() && nodes == rest + {myself} && myself !in rest && rest <= old(nodes)
        invariant forall i | 0 <= i < SLOTS :: slots[i] == null && importing[i] == null && migrating[i] == null
      {
        var n :| n in rest;
        DelNode(n);
        rest := rest - {n};
      }
    }

    ghost function Epochs(): map<Node, nat>
      reads this, nodes
    {
      map n | n in nodes :: n.configEpoch
    }

    /** Whether a claim with this epoch takes a slot from its present owner. */
    static ghost predicate Takes(owner: Node?, importing: Node?, epochs: map<Node, nat>, sender: Node, epoch: nat) {
      owner != sender && importing == null && (owner == null || (owner in epochs && epochs[owner] < epoch))
    }

    /** The slots a claim takes. */
    static ghost function Taken(owners: seq<Node?>, importing: seq<Node?>, epochs: map<Node, nat>,
                                sender: Node, epoch: nat, claim: seq<bv8>): set<nat>
      requires |owners| == |importing| == SLOTS && |claim| == SLOTS / 8
    {
      set j: nat | j < SLOTS && TestBit(claim, j) && Takes(owners[j], importing[j], epochs, sender, epoch)
    }

    /** One slot of the loop of clusterUpdateSlotsConfigWith. */
    method ClaimSlot(j: nat, sender: Node, epoch: nat, claim: seq<bv8>) returns (taken: bool)
      requires Valid() && j < SLOTS && sender in nodes && |claim| == SLOTS / 8
      modifies slots, nodes, set n | n in nodes :: n.bitmap
      ensures Valid() && Epochs() == old(Epochs())
      ensures taken == (TestBit(claim, j) && Takes(old(slots[j]), importing[j], Epochs(), sender, epoch))
      ensures slots[..] == if taken then old(slots[..])[j := sender] else old(slots[..])
    {
      hide TestBit;
      if !TestBit(claim, j) || slots[j] == sender || importing[j] != null { return false; }
      taken := slots[j] == null || slots[j].configEpoch < epoch;
      if taken { Rebind(j, sender); }
    }

    /** The loop of clusterUpdateSlotsConfigWith. `held` are the slots with keys here; `newmaster` tells whether a slot was
        taken from curmaster, `dirty` are the slots lost with keys in them. */
    method ClaimSlots(sender: Node, epoch: nat, claim: seq<bv8>, myself: Node, curmaster: Node?, held: set<nat>)
      returns (newmaster: bool, dirty: seq<nat>)
      requires Valid() && sender in nodes && |claim| == SLOTS / 8
      requires curmaster != null ==> curmaster in nodes
      modifies slots, nodes, set n | n in nodes :: n.bitmap
      ensures Valid() && slots.Length == importing.Length == SLOTS && Epochs() == old(Epochs())
      ensures var taken := Taken(old(slots[..]), old(importing[..]), old(Epochs()), sender, epoch, claim);
              && (forall j: nat | j < SLOTS :: slots[j] == if j in taken then sender else old(slots[j]))
              && (newmaster <==> exists j <- taken :: j < SLOTS && old(slots[j]) == curmaster)
              && (forall j: nat :: j in dirty <==> j in taken && j < SLOTS && old(slots[j]) == myself && j in held)
    {
      hide Valid, Takes, TestBit;
      Shape();
      ghost var was := slots[..];
      ghost var all := Taken(was, importing[..], Epochs(), sender, epoch, claim);
      newmaster, dirty := false, [];
      for j := 0 to SLOTS
        invariant Valid() && Epochs() == old(Epochs()) && importing[..] == old(importing[..])
        invariant forall i: nat | i < j :: slots[i] == if i in all then sender else was[i]
        invariant forall i: nat | j <= i < SLOTS :: slots[i] == was[i]
        invariant newmaster <==> exists i <- all :: i < j && was[i] == curmaster
        invariant forall i: nat :: i in dirty <==> i in all && i < j && was[i] == myself && i in held
      {
        var owner := slots[j];
        var taken := ClaimSlot(j, sender, epoch, claim);
        assert taken == (j in all);
        if taken {
          if owner == myself && j in held { dirty := dirty + [j]; }
          if owner == curmaster { newmaster := true; }
        }
      }
    }

    /** clusterUpdateSlotsConfigWith. `curmaster` is this node or its master, null for a replica that knows none. A claim
        about myself is discarded. Otherwise the slots change hands, and unless a module has switched redirection off: the
        null pointer is followed exactly when a slot nobody owns was taken; this node follows the sender when its master
        lost its last slots; and else the keys of the slots it lost are deleted. */
    method UpdateSlotsConfigWith(sender: Node, epoch: nat, claim: seq<bv8>, myself: Node, curmaster: Node?, held: set<nat>,
                                 noRedirection: bool)
      returns (crashes: bool, demoted: bool, emptied: seq<nat>)
      requires Valid() && sender in nodes && |claim| == SLOTS / 8
      requires curmaster != null ==> curmaster in nodes
      modifies slots, nodes, set n | n in nodes :: n.bitmap
      ensures Valid() && slots.Length == importing.Length == SLOTS && Epochs() == old(Epochs())
      ensures sender == myself ==> slots[..] == old(slots[..])
      ensures sender == myself || noRedirection ==> !crashes && !demoted && emptied == []
      ensures var taken := Taken(old(slots[..]), old(importing[..]), old(Epochs()), sender, epoch, claim);
              sender != myself ==>
                && (forall j: nat | j < SLOTS :: slots[j] == if j in taken then sender else old(slots[j]))
                && (!noRedirection ==>
                      && (crashes <==> curmaster == null && exists j <- taken :: j < SLOTS && old(slots[j]) == null)
                      && (demoted <==> && curmaster != null && curmaster.numslots == 0
                                       && exists j <- taken :: j < SLOTS && old(slots[j]) == curmaster)
                      && (forall j: nat :: j in emptied <==> && !crashes && !demoted && j in taken && j < SLOTS
                                                             && old(slots[j]) == myself && j in held))
    {
      hide Valid, Taken;
      Shape();
      crashes, demoted, emptied := false, false, [];
      if sender == myself { return; }
      var newmaster, dirty := ClaimSlots(sender, epoch, claim, myself, curmaster, held);
      if noRedirection { return; }
      if newmaster && curmaster == null {
        crashes := true;
      } else if newmaster && curmaster.numslots == 0 {
        demoted := true;
      } else {
        emptied := dirty;
      }
    }
  }
}
