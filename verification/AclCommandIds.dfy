/** ACLGetCommandID: the numbering of command names behind the command bitmaps. */
module AclCommandIds {
  import opened AclRules

  class CommandIds {
    var ids: map<string, nat>
    var nextid: nat

    /** Names in lower case have distinct numbers, and nothing is ever given the reserved bit. */
    ghost predicate Valid()
      reads this
    {
      && nextid != RESERVED
      && (forall name <- ids :: ids[name] < nextid && ids[name] != RESERVED)
      && (forall a, b | a in ids && b in ids && ids[a] == ids[b] :: a == b)
    }

    constructor ()
      ensures Valid() && ids == map[] && nextid == 0
    {
      ids, nextid := map[], 0;
    }

    /** A name keeps its number for good, in whatever case it is written; two different names never share one. */
    method GetCommandId(name: string) returns (id: nat)
      requires Valid()
      modifies this
      ensures Valid() && id != RESERVED
      ensures forall n <- old(ids) :: n in ids && ids[n] == old(ids)[n]
      ensures ids.Keys == old(ids).Keys + {Lower(name)} && ids[Lower(name)] == id
      ensures forall other <- ids :: (ids[other] == id) <==> (other == Lower(name))
    {
      var lower := Lower(name);
      if lower in ids { return ids[lower]; }
      ids := ids[lower := nextid];
      id := nextid;
      nextid := nextid + 1;
      if nextid == BITS - 1 { nextid := nextid + 1; }
    }
  }
}
