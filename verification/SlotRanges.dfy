/** Slot ranges in CLUSTER NODES and nodes.conf: generated in one pass over the slot table or by a scan for one node, printed
    as words, and loaded again. */
module SlotRanges {
  import opened Basics
  import opened AofFormat

  type Id = nat

  datatype Range = Range(start: nat, stop: nat)

  // ---------------------------------------------------------------------------------------------------------
  // The ranges of a node
  // ---------------------------------------------------------------------------------------------------------

  /** The end of the run of slots of id that goes on at i. */
  function RunEnd(o: seq<Option<Id>>, id: Id, i: nat): (e: nat)
    requires i <= |o|
    ensures i <= e <= |o| && (forall p | i <= p < e :: o[p] == Some(id)) && (e < |o| ==> o[e] != Some(id))
    decreases |o| - i
  {
    if i < |o| && o[i] == Some(id) then RunEnd(o, id, i + 1) else i
  }

  /** The runs of slots of id from i on. */
  function Runs(o: seq<Option<Id>>, id: Id, i: nat): seq<Range>
    requires i <= |o|
    decreases |o| - i
  {
    if i == |o| then []
    else if o[i] != Some(id) then Runs(o, id, i + 1)
    else
      var e := RunEnd(o, id, i);
      [Range(i, e - 1)] + Runs(o, id, e)
  }

  /** Sorted ranges that cannot be joined or extended, and that hold exactly the slots of id from i on. */
  ghost predicate Maximal(o: seq<Option<Id>>, id: Id, i: nat, rs: seq<Range>) {
    Apart(o, id, i, rs) && Exact(o, id, i, rs)
  }

  ghost predicate Apart(o: seq<Option<Id>>, id: Id, i: nat, rs: seq<Range>) {
    && (forall a | 0 <= a < |rs| :: Unextended(o, id, i, rs[a]))
    && (forall a, b | 0 <= a < b < |rs| :: rs[a].stop + 1 < rs[b].start)
  }

  /** A range of slots from i on that cannot be extended. */
  predicate Unextended(o: seq<Option<Id>>, id: Id, i: nat, r: Range) {
    && i <= r.start <= r.stop < |o|
    && (r.stop + 1 < |o| ==> o[r.stop + 1] != Some(id))
    && (r.start > i ==> o[r.start - 1] != Some(id))
  }

  ghost predicate Exact(o: seq<Option<Id>>, id: Id, i: nat, rs: seq<Range>) {
    forall p: nat | i <= p < |o| :: o[p] == Some(id) <==> InSome(rs, p)
  }

  predicate InSome(rs: seq<Range>, p: nat) {
    exists a | 0 <= a < |rs| :: rs[a].start <= p <= rs[a].stop
  }

  lemma {:induction false} RunsAreMaximal(o: seq<Option<Id>>, id: Id, i: nat)
    requires i <= |o|
    ensures Maximal(o, id, i, Runs(o, id, i))
    decreases |o| - i
  {
    hide Maximal, RunEnd;
    if i == |o| {
      NoneMaximal(o, id);
    } else if o[i] != Some(id) {
      RunsAreMaximal(o, id, i + 1);
      MaximalBefore(o, id, i, Runs(o, id, i + 1));
    } else {
      var e := RunEnd(o, id, i);
      RunsAreMaximal(o, id, e);
      MaximalAfter(o, id, i, e, Runs(o, id, e));
    }
  }

  lemma NoneMaximal(o: seq<Option<Id>>, id: Id)
    ensures Maximal(o, id, |o|, [])
  {
  }

  lemma MaximalBefore(o: seq<Option<Id>>, id: Id, i: nat, rs: seq<Range>)
    requires i < |o| && o[i] != Some(id) && Maximal(o, id, i + 1, rs)
    ensures Maximal(o, id, i, rs)
  {
  }

  lemma MaximalAfter(o: seq<Option<Id>>, id: Id, i: nat, e: nat, rs: seq<Range>)
    requires i < e <= |o| && (forall p | i <= p < e :: o[p] == Some(id)) && (e < |o| ==> o[e] != Some(id))
    requires Maximal(o, id, e, rs)
    ensures Maximal(o, id, i, [Range(i, e - 1)] + rs)
  {
    forall a | 0 <= a < |rs| ensures rs[a].start > e {
      assert InSome(rs, rs[a].start);
    }
    ApartAfter(o, id, i, e, rs);
    ExactAfter(o, id, i, e, rs);
  }

  lemma ApartAfter(o: seq<Option<Id>>, id: Id, i: nat, e: nat, rs: seq<Range>)
    requires i < e <= |o| && (e < |o| ==> o[e] != Some(id))
    requires Apart(o, id, e, rs) && forall a | 0 <= a < |rs| :: rs[a].start > e
    ensures Apart(o, id, i, [Range(i, e - 1)] + rs)
  {
    var all := [Range(i, e - 1)] + rs;
    forall a | 0 <= a < |all| ensures Unextended(o, id, i, all[a]) {
      if a > 0 { assert all[a] == rs[a - 1] && Unextended(o, id, e, rs[a - 1]); }
    }
    forall a, b | 0 <= a < b < |all| ensures all[a].stop + 1 < all[b].start {
      assert all[b] == rs[b - 1];
      if a > 0 { assert all[a] == rs[a - 1]; }
    }
  }

  lemma ExactAfter(o: seq<Option<Id>>, id: Id, i: nat, e: nat, rs: seq<Range>)
    requires i < e <= |o| && (forall p | i <= p < e :: o[p] == Some(id))
    requires Exact(o, id, e, rs)
    ensures Exact(o, id, i, [Range(i, e - 1)] + rs)
  {
    var all := [Range(i, e - 1)] + rs;
    forall p: nat | i <= p < |o| ensures o[p] == Some(id) <==> InSome(all, p) {
      if p < e {
        assert all[0].start <= p <= all[0].stop;
      } else if InSome(rs, p) {
        var a :| 0 <= a < |rs| && rs[a].start <= p <= rs[a].stop;
        assert all[a + 1] == rs[a];
      }
    }
  }

  // ---------------------------------------------------------------------------------------------------------
  // Generating
  // ---------------------------------------------------------------------------------------------------------

  function InfoOf(info: map<Id, seq<Range>>, id: Id): seq<Range> {
    if id in info then info[id] else []
  }

  lemma {:induction false} RunsSkip(o: seq<Option<Id>>, id: Id, i: nat, e: nat)
    requires i <= e <= |o| && forall p | i <= p < e :: o[p] != Some(id)
    ensures Runs(o, id, i) == Runs(o, id, e)
    decreases e - i
  {
    if i < e { RunsSkip(o, id, i + 1, e); }
  }

  lemma {:induction false} RunEndIs(o: seq<Option<Id>>, id: Id, i: nat, e: nat)
    requires i <= e <= |o| && (forall p | i <= p < e :: o[p] == Some(id)) && (e < |o| ==> o[e] != Some(id))
    ensures RunEnd(o, id, i) == e
    decreases e - i
  {
    if i < e { RunEndIs(o, id, i + 1, e); }
  }

  /** A run from start up to i is done: it is one range for its node and none for the others. */
  lemma RunDone(o: seq<Option<Id>>, n: Id, start: nat, i: nat, id: Id)
    requires start < i <= |o| && (forall p | start <= p < i :: o[p] == Some(n)) && (i < |o| ==> o[i] != Some(n))
    ensures Runs(o, id, start) == (if id == n then [Range(start, i - 1)] else []) + Runs(o, id, i)
  {
    if id == n {
      RunEndIs(o, n, start, i);
    } else {
      RunsSkip(o, id, start, i);
    }
  }

  /** clusterGenNodesSlotsInfo: one pass for all nodes that are not filtered out. */
  method GenNodesSlotsInfo(o: seq<Option<Id>>, filtered: set<Id>) returns (info: map<Id, seq<Range>>)
    ensures forall id: Id :: InfoOf(info, id) == if id in filtered then [] else Runs(o, id, 0)
  {
    hide Runs;
    info := map[];
    var n: Option<Id> := None;
    var start: nat := 0;
    RunsEnd(o);
    var i := 0;
    while true
      invariant i <= |o|
      invariant n.None? ==> AllReported(o, filtered, info, i)
      invariant n.Some? ==> start < i && (forall p | start <= p < i :: o[p] == n) && AllReported(o, filtered, info, start)
      decreases |o| - i
    {
      if n.None? {
        if i == |o| { break; }
        n := o[i];
        start := i;
        if n.None? { Unassigned(o, filtered, info, i); }
        i := i + 1;
        continue;
      }
      if i == |o| || n != o[i] {
        ghost var before := info;
        if n.value !in filtered {
          info := info[n.value := InfoOf(info, n.value) + [Range(start, i - 1)]];
        }
        forall id: Id ensures Reported(o, filtered, info, id, i) {
          assert Reported(o, filtered, before, id, start);
          RunDone(o, n.value, start, i, id);
          ReportedMore(o, filtered, before, info, n.value, id, start, i);
        }
        if i == |o| { n := None; break; }
        n := o[i];
        start := i;
        if n.None? { Unassigned(o, filtered, info, i); }
      }
      i := i + 1;
    }
    forall id: Id ensures InfoOf(info, id) == if id in filtered then [] else Runs(o, id, 0) {
      assert Reported(o, filtered, info, id, |o|);
    }
  }

  /** What has been reported for a node is all of its runs before k. */
  ghost predicate Reported(o: seq<Option<Id>>, filtered: set<Id>, info: map<Id, seq<Range>>, id: Id, k: nat)
    requires k <= |o|
  {
    if id in filtered then InfoOf(info, id) == [] else InfoOf(info, id) + Runs(o, id, k) == Runs(o, id, 0)
  }

  ghost predicate AllReported(o: seq<Option<Id>>, filtered: set<Id>, info: map<Id, seq<Range>>, k: nat)
    requires k <= |o|
  {
    forall id: Id :: Reported(o, filtered, info, id, k)
  }

  lemma RunsEnd(o: seq<Option<Id>>)
    ensures forall id: Id :: Runs(o, id, |o|) == []
  {
  }

  lemma ReportedMore(o: seq<Option<Id>>, filtered: set<Id>, before: map<Id, seq<Range>>, info: map<Id, seq<Range>>,
                     n: Id, id: Id, start: nat, i: nat)
    requires start < i <= |o| && Reported(o, filtered, before, id, start)
    requires Runs(o, id, start) == (if id == n then [Range(start, i - 1)] else []) + Runs(o, id, i)
    requires info == if n in filtered then before else before[n := InfoOf(before, n) + [Range(start, i - 1)]]
    ensures Reported(o, filtered, info, id, i)
  {
    hide Runs;
    if id !in filtered {
      if id == n {
        assert InfoOf(before, n) + ([Range(start, i - 1)] + Runs(o, id, i))
               == InfoOf(before, n) + [Range(start, i - 1)] + Runs(o, id, i);
      } else {
        assert [] + Runs(o, id, i) == Runs(o, id, i);
      }
    }
  }

  /** An unassigned slot starts no run. */
  lemma Unassigned(o: seq<Option<Id>>, filtered: set<Id>, info: map<Id, seq<Range>>, i: nat)
    requires i < |o| && o[i].None? && AllReported(o, filtered, info, i)
    ensures AllReported(o, filtered, info, i + 1)
  {
    var k := i + 1;
    forall id: Id ensures Reported(o, filtered, info, id, k) {
      assert Reported(o, filtered, info, id, i);
      RunsSkip(o, id, i, k);
    }
  }

  /** The scan of clusterGenNodeDescription over one node's bitmap; it gives the same ranges. */
  method NodeRanges(o: seq<Option<Id>>, id: Id) returns (rs: seq<Range>)
    ensures rs == Runs(o, id, 0)
  {
    hide Runs;
    rs := [];
    RunsEnd(o);
    var start: int := -1;
    var j := 0;
    while j < |o|
      invariant -1 <= start < j || (start == -1 && j == 0)
      invariant start == -1 ==> rs + Runs(o, id, if j <= |o| then j else |o|) == Runs(o, id, 0)
      invariant start != -1 ==> j < |o| && forall p | start <= p < j :: o[p] == Some(id)
      invariant start != -1 ==> rs + Runs(o, id, start) == Runs(o, id, 0)
      decreases |o| - j
    {
      var bit := o[j] == Some(id);
      if bit && start == -1 { start := j; }
      if start != -1 && (!bit || j == |o| - 1) {
        if bit && j == |o| - 1 { j := j + 1; }
        RunDone(o, id, start, j, id);
        assert rs + ([Range(start, j - 1)] + Runs(o, id, j)) == rs + [Range(start, j - 1)] + Runs(o, id, j);
        rs := rs + [Range(start, j - 1)];
        start := -1;
      }
      if start == -1 && j < |o| { RunsSkip(o, id, j, j + 1); }
      j := j + 1;
    }
  }

  // ---------------------------------------------------------------------------------------------------------
  // As words
  // ---------------------------------------------------------------------------------------------------------

  const DASH: Byte := 45

  function Print(r: Range): Bytes {
    if r.start == r.stop then Decimal(r.start) else Decimal(r.start) + [DASH] + Decimal(r.stop)
  }

  /** strchr for '-', with the length for NULL. */
  function DashAt(w: Bytes): (i: nat)
    ensures i <= |w| && (i < |w| ==> w[i] == DASH) && forall j | 0 <= j < i :: w[j] != DASH
  {
    if w == [] || w[0] == DASH then 0
    else
      var i := DashAt(w[1..]);
      assert forall j | 0 <= j < i + 1 :: w[j] == (if j == 0 then w[0] else w[1..][j - 1]);
      i + 1
  }

  /** A word of clusterLoadConfig that is no open slot: its bounds, or None for a format error. */
  function Parse(w: Bytes): Option<Range> {
    var d := DashAt(w);
    var start := if d < |w| then AToI(w[..d]) else AToI(w);
    var stop := if d < |w| then AToI(w[d + 1..]) else start;
    if 0 <= start < SLOTS && 0 <= stop < SLOTS then Some(Range(start, stop)) else None
  }

  lemma NumberRead(n: nat)
    requires n < SLOTS
    ensures AToI(Decimal(n)) == n && DASH !in Decimal(n)
  {
    hide AToI, Value, Decimal;
    DecimalValue(n);
    assert Decimal(n) + [] == Decimal(n);
    AToISmall(Decimal(n), []);
    assert !IsDigit(DASH);
  }

  lemma DashIs(w: Bytes, i: nat)
    requires i <= |w| && (i < |w| ==> w[i] == DASH) && forall j | 0 <= j < i :: w[j] != DASH
    ensures DashAt(w) == i
  {
  }

  lemma ParsePrint(r: Range)
    requires r.start <= r.stop < SLOTS
    ensures Parse(Print(r)) == Some(r)
  {
    hide AToI, Decimal, DashAt;
    NumberRead(r.start);
    NumberRead(r.stop);
    var w, a := Print(r), Decimal(r.start);
    if r.start == r.stop {
      DashIs(w, |w|);
    } else {
      assert w[..|a|] == a && w[|a| + 1..] == Decimal(r.stop) && w[|a|] == DASH;
      assert forall j | 0 <= j < |a| :: w[j] == a[j];
      DashIs(w, |a|);
    }
  }

  // ---------------------------------------------------------------------------------------------------------
  // Loading
  // ---------------------------------------------------------------------------------------------------------

  function Printed(rs: seq<Range>): (ws: seq<Bytes>)
    ensures |ws| == |rs| && forall a | 0 <= a < |rs| :: ws[a] == Print(rs[a])
  {
    if rs == [] then [] else Printed(rs[..|rs| - 1]) + [Print(rs[|rs| - 1])]
  }

  // '[', '>' and '<'
  const BRACKET: Byte := 91
  const GREATER: Byte := 62
  const LESS: Byte := 60
  const CLOSE: Byte := 93

  /** CLUSTER_NAMELEN. */
  const NAMELEN: nat := 40

  /** What a word says: slots that are served, or a slot that is migrating to or importing from the named node. */
  datatype Word = Served(r: Range) | Open(slot: nat, migrating: bool, name: Bytes) | BadFormat | NoDash

  /** The forty bytes from i on. */
  function NameAt(w: Bytes, i: nat): Bytes {
    if i + NAMELEN <= |w| then w[i..i + NAMELEN] else if i <= |w| then w[i..] else []
  }

  /** A word of clusterLoadConfig, whatever it is. */
  function ReadWord(w: Bytes): Word {
    if w != [] && w[0] == BRACKET then
      var d := DashAt(w);
      if d == |w| then NoDash
      else
        var slot := AToI(w[1..d]);
        if 0 <= slot < SLOTS then Open(slot, d + 1 < |w| && w[d + 1] == GREATER, NameAt(w, d + 3)) else BadFormat
    else
      match Parse(w)
      case None => BadFormat
      case Some(r) => Served(r)
  }

  /** The words of clusterGenNodeDescription for open slots. */
  function PrintOpen(slot: nat, migrating: bool, name: Bytes): Bytes {
    [BRACKET] + Decimal(slot) + [DASH, if migrating then GREATER else LESS, DASH] + name + [CLOSE]
  }

  lemma ReadServed(r: Range)
    requires r.start <= r.stop < SLOTS
    ensures ReadWord(Print(r)) == Served(r)
  {
    hide AToI, Parse;
    ParsePrint(r);
    assert IsDigit(Decimal(r.start)[0]);
  }

  /** Numbers as they come: a range is taken if and only if both its ends are slots, a single number if it is one, and an open
      slot likewise. */
  lemma NumbersRead(a: nat, b: nat, migrating: bool, name: Bytes)
    requires a < TWO_31 && b < TWO_31 && |name| == NAMELEN
    ensures ReadWord(Decimal(a) + [DASH] + Decimal(b)) == if a < SLOTS && b < SLOTS then Served(Range(a, b)) else BadFormat
    ensures ReadWord(Decimal(a)) == if a < SLOTS then Served(Range(a, a)) else BadFormat
    ensures ReadWord(PrintOpen(a, migrating, name)) == if a < SLOTS then Open(a, migrating, name) else BadFormat
  {
    hide AToI, Decimal, DashAt;
    NumberIs(a);
    NumberIs(b);
    var w, da := Decimal(a) + [DASH] + Decimal(b), Decimal(a);
    assert w[..|da|] == da && w[|da| + 1..] == Decimal(b) && w[|da|] == DASH;
    assert forall j | 0 <= j < |da| :: w[j] == da[j];
    assert da[0] != BRACKET && w[0] == da[0];
    DashIs(w, |da|);
    DashIs(da, |da|);
    OpenNumber(a, migrating, name);
  }

  lemma NumberIs(n: nat)
    requires n < TWO_31
    ensures AToI(Decimal(n)) == n && Decimal(n) != [] && forall b <- Decimal(n) :: b != DASH && b != BRACKET
    ensures forall j | 0 <= j < |Decimal(n)| :: Decimal(n)[j] != DASH && Decimal(n)[j] != BRACKET
  {
    hide AToI, Value, Decimal;
    DecimalValue(n);
    assert Decimal(n) + [] == Decimal(n);
    AToISmall(Decimal(n), []);
    forall j | 0 <= j < |Decimal(n)| ensures Decimal(n)[j] != DASH && Decimal(n)[j] != BRACKET {
      assert IsDigit(Decimal(n)[j]);
    }
  }

  lemma OpenNumber(slot: nat, migrating: bool, name: Bytes)
    requires slot < TWO_31 && |name| == NAMELEN
    ensures ReadWord(PrintOpen(slot, migrating, name)) == if slot < SLOTS then Open(slot, migrating, name) else BadFormat
  {
    hide AToI, Decimal, DashAt;
    var w, digits := PrintOpen(slot, migrating, name), Decimal(slot);
    NumberIs(slot);
    var d := 1 + |digits|;
    assert w[d] == DASH && w[1..d] == digits && w[d + 1] == if migrating then GREATER else LESS;
    assert forall j | 1 <= j < d :: w[j] == digits[j - 1];
    DashIs(w, d);
    assert w[d + 3..d + 3 + NAMELEN] == name;
  }

  lemma ReadOpen(slot: nat, migrating: bool, name: Bytes)
    requires slot < SLOTS && |name| == NAMELEN
    ensures ReadWord(PrintOpen(slot, migrating, name)) == Open(slot, migrating, name)
  {
    hide ReadWord, PrintOpen;
    OpenNumber(slot, migrating, name);
  }

  /** The slots a word stands for. */
  predicate Covers(w: Bytes, p: nat) {
    ReadWord(w).Served? && ReadWord(w).r.start <= p <= ReadWord(w).r.stop
  }

  predicate Covered(words: seq<Bytes>, p: nat) {
    exists a | 0 <= a < |words| :: Covers(words[a], p)
  }

  /** The node that the last word about an open slot names. */
  function LastOpen(words: seq<Bytes>, p: nat, migrating: bool, was: Option<Bytes>): Option<Bytes> {
    if words == [] then was
    else
      match ReadWord(words[|words| - 1])
      case Open(slot, m, name) =>
        if slot == p && m == migrating then Some(name) else LastOpen(words[..|words| - 1], p, migrating, was)
      case _ => LastOpen(words[..|words| - 1], p, migrating, was)
  }

  predicate Readable(w: Bytes) { ReadWord(w).Served? || ReadWord(w).Open? }

  /** How many words come before the first that cannot be read. */
  function Leading(words: seq<Bytes>): (n: nat)
    ensures n <= |words|
  {
    if words == [] || !Readable(words[0]) then 0 else 1 + Leading(words[1..])
  }

  lemma {:induction false} LeadingIs(words: seq<Bytes>, n: nat)
    requires n <= |words| && (forall a | 0 <= a < n :: Readable(words[a])) && (n < |words| ==> !Readable(words[n]))
    ensures Leading(words) == n
  {
    hide Readable;
    if n > 0 { LeadingIs(words[1..], n - 1); }
  }

  lemma OneMoreWord(words: seq<Bytes>, j: nat, p: nat)
    requires j < |words|
    ensures Covered(words[..j + 1], p) <==> Covered(words[..j], p) || Covers(words[j], p)
  {
    hide Covers;
    if Covered(words[..j], p) {
      var a :| 0 <= a < j && Covers(words[a], p);
      assert words[..j + 1][a] == words[a];
    }
    if Covers(words[j], p) { assert words[..j + 1][j] == words[j]; }
  }

  /** What one more word does to what is known of an open slot. */
  ghost predicate NextOpen(words: seq<Bytes>, j: nat, p: nat, migrating: bool, was: Option<Bytes>)
    requires j < |words|
  {
    LastOpen(words[..j + 1], p, migrating, was)
    == match ReadWord(words[j])
       case Open(slot, m, name) =>
         if slot == p && m == migrating then Some(name) else LastOpen(words[..j], p, migrating, was)
       case _ => LastOpen(words[..j], p, migrating, was)
  }

  lemma OneMoreOpen(words: seq<Bytes>, j: nat, p: nat, migrating: bool, was: Option<Bytes>)
    requires j < |words|
    ensures NextOpen(words, j, p, migrating, was)
  {
    hide ReadWord;
    assert words[..j + 1][..j] == words[..j];
  }

  /** clusterAddSlot for every slot of a range; a slot already assigned is left alone. */
  method AddSlots(table: array<Option<Id>>, id: Id, r: Range)
    requires table.Length == SLOTS && r.stop < SLOTS
    modifies table
    ensures forall p: nat | p < SLOTS ::
              table[p] == if r.start <= p <= r.stop && old(table[p]).None? then Some(id) else old(table[p])
  {
    var start := r.start;
    while start <= r.stop
      invariant if r.start <= r.stop then r.start <= start <= r.stop + 1 else start == r.start
      invariant forall p: nat | p < SLOTS ::
                  table[p] == if r.start <= p < start && old(table[p]).None? then Some(id) else old(table[p])
    {
      if table[start].None? { table[start] := Some(id); }
      start := start + 1;
    }
  }

  /** The slots a line's words speak of, as far as they go. */
  ghost predicate Loaded(table: seq<Option<Id>>, migrating: seq<Option<Bytes>>, importing: seq<Option<Bytes>>,
                         was: seq<Option<Id>>, mig: seq<Option<Bytes>>, imp: seq<Option<Bytes>>, id: Id, words: seq<Bytes>) {
    && |table| == |migrating| == |importing| == |was| == |mig| == |imp| == SLOTS
    && forall p: nat | p < SLOTS ::
         && table[p] == (if Covered(words, p) && was[p].None? then Some(id) else was[p])
         && migrating[p] == LastOpen(words, p, true, mig[p])
         && importing[p] == LastOpen(words, p, false, imp[p])
  }

  lemma ServedRange(w: Bytes)
    requires ReadWord(w).Served?
    ensures ReadWord(w).r.stop < SLOTS
  {
    hide AToI, DashAt;
  }

  lemma OpenSlot(w: Bytes)
    requires ReadWord(w).Open?
    ensures ReadWord(w).slot < SLOTS
  {
    hide AToI, DashAt, Parse;
  }

  /** One word. */
  method LoadWord(table: array<Option<Id>>, migrating: array<Option<Bytes>>, importing: array<Option<Bytes>>, id: Id,
                  words: seq<Bytes>, j: nat, ghost was: seq<Option<Id>>, ghost mig: seq<Option<Bytes>>,
                  ghost imp: seq<Option<Bytes>>) returns (ok: bool)
    requires table.Length == migrating.Length == importing.Length == SLOTS && migrating != importing && j < |words|
    requires Loaded(table[..], migrating[..], importing[..], was, mig, imp, id, words[..j])
    modifies table, migrating, importing
    ensures ok == Readable(words[j])
    ensures Loaded(table[..], migrating[..], importing[..], was, mig, imp, id, words[..if ok then j + 1 else j])
  {
    hide ReadWord, Covered, LastOpen;
    forall p: nat
      ensures Covered(words[..j + 1], p) <==> Covered(words[..j], p) || Covers(words[j], p) { OneMoreWord(words, j, p); }
    forall p: nat | p < SLOTS
      ensures NextOpen(words, j, p, true, mig[p]) && NextOpen(words, j, p, false, imp[p])
    {
      OneMoreOpen(words, j, p, true, mig[p]);
      OneMoreOpen(words, j, p, false, imp[p]);
    }
    match ReadWord(words[j]) {
      case Served(r) =>
        ServedRange(words[j]);
        AddSlots(table, id, r);
      case Open(slot, m, name) =>
        OpenSlot(words[j]);
        if m { migrating[slot] := Some(name); } else { importing[slot] := Some(name); }
      case _ => return false;
    }
    ok := true;
  }

  lemma NothingLoaded(was: seq<Option<Id>>, mig: seq<Option<Bytes>>, imp: seq<Option<Bytes>>, id: Id, words: seq<Bytes>)
    requires |was| == |mig| == |imp| == SLOTS
    ensures Loaded(was, mig, imp, was, mig, imp, id, words[..0])
  {
  }

  /** The slot words of one line, whatever they are: the loading stops at the first that cannot be read. */
  method LoadWords(table: array<Option<Id>>, migrating: array<Option<Bytes>>, importing: array<Option<Bytes>>, id: Id,
                   words: seq<Bytes>) returns (ok: bool)
    requires table.Length == migrating.Length == importing.Length == SLOTS && migrating != importing
    modifies table, migrating, importing
    ensures ok <==> Leading(words) == |words|
    ensures Loaded(table[..], migrating[..], importing[..], old(table[..]), old(migrating[..]), old(importing[..]), id,
                   words[..Leading(words)])
  {
    hide ReadWord, Covered, Leading, Loaded, LastOpen, Readable;
    ghost var was, mig, imp := table[..], migrating[..], importing[..];
    NothingLoaded(was, mig, imp, id, words);
    for j := 0 to |words|
      invariant forall a | 0 <= a < j :: Readable(words[a])
      invariant Loaded(table[..], migrating[..], importing[..], was, mig, imp, id, words[..j])
    {
      ok := LoadWord(table, migrating, importing, id, words, j, was, mig, imp);
      if !ok {
        LeadingIs(words, j);
        return;
      }
    }
    LeadingIs(words, |words|);
    ok := true;
  }

  // ---------------------------------------------------------------------------------------------------------
  // Printing and loading
  // ---------------------------------------------------------------------------------------------------------

  /** The words for the open slots below n; a slot is printed as migrating if it is both. */
  function OpenWords(mig: seq<Option<Bytes>>, imp: seq<Option<Bytes>>, n: nat): seq<Bytes>
    requires n <= |mig| && n <= |imp|
  {
    if n == 0 then []
    else
      OpenWords(mig, imp, n - 1)
      + (if mig[n - 1].Some? then [PrintOpen(n - 1, true, mig[n - 1].value)]
         else if imp[n - 1].Some? then [PrintOpen(n - 1, false, imp[n - 1].value)]
         else [])
  }

  /** The last loop of clusterGenNodeDescription. */
  method GenOpenWords(mig: seq<Option<Bytes>>, imp: seq<Option<Bytes>>) returns (words: seq<Bytes>)
    requires |mig| == |imp|
    ensures words == OpenWords(mig, imp, |mig|)
  {
    hide PrintOpen;
    words := [];
    for j := 0 to |mig|
      invariant words == OpenWords(mig, imp, j)
    {
      if mig[j].Some? {
        words := words + [PrintOpen(j, true, mig[j].value)];
      } else if imp[j].Some? {
        words := words + [PrintOpen(j, false, imp[j].value)];
      }
    }
  }

  /** Node names have their forty bytes. */
  ghost predicate Named(ns: seq<Option<Bytes>>) {
    |ns| == SLOTS && forall j | 0 <= j < SLOTS :: ns[j].Some? ==> |ns[j].value| == NAMELEN
  }

  /** What is printed of an importing slot. */
  function Shown(mig: Option<Bytes>, imp: Option<Bytes>): Option<Bytes> {
    if mig.Some? then None else imp
  }

  /** One slot more. */
  lemma OneMoreSlot(mig: seq<Option<Bytes>>, imp: seq<Option<Bytes>>, n: nat, p: nat)
    requires Named(mig) && Named(imp) && n < SLOTS
    ensures (forall w <- OpenWords(mig, imp, n) :: ReadWord(w).Open?)
            ==> forall w <- OpenWords(mig, imp, n + 1) :: ReadWord(w).Open?
    ensures LastOpen(OpenWords(mig, imp, n + 1), p, true, None)
            == if p == n && mig[p].Some? then mig[p] else LastOpen(OpenWords(mig, imp, n), p, true, None)
    ensures LastOpen(OpenWords(mig, imp, n + 1), p, false, None)
            == if p == n && Shown(mig[p], imp[p]).Some? then imp[p] else LastOpen(OpenWords(mig, imp, n), p, false, None)
  {
    hide ReadWord, PrintOpen;
    var before, all := OpenWords(mig, imp, n), OpenWords(mig, imp, n + 1);
    if mig[n].Some? || imp[n].Some? {
      var m := mig[n].Some?;
      var name := if m then mig[n].value else imp[n].value;
      ReadOpen(n, m, name);
      assert all[|all| - 1] == PrintOpen(n, m, name) && all[..|all| - 1] == before;
    } else {
      assert all == before;
    }
  }

  lemma NothingOpen(p: nat, migrating: bool, was: Option<Bytes>)
    ensures LastOpen([], p, migrating, was) == was
  {
  }

  lemma NoSlots(mig: seq<Option<Bytes>>, imp: seq<Option<Bytes>>)
    ensures OpenWords(mig, imp, 0) == []
  {
  }

  lemma {:induction false} OpenWordsRead(mig: seq<Option<Bytes>>, imp: seq<Option<Bytes>>, n: nat, p: nat)
    requires Named(mig) && Named(imp) && n <= SLOTS && p < SLOTS
    ensures forall w <- OpenWords(mig, imp, n) :: ReadWord(w).Open?
    ensures LastOpen(OpenWords(mig, imp, n), p, true, None) == if p < n then mig[p] else None
    ensures LastOpen(OpenWords(mig, imp, n), p, false, None) == if p < n then Shown(mig[p], imp[p]) else None
  {
    hide ReadWord, OpenWords, LastOpen;
    if n == 0 {
      NoSlots(mig, imp);
      NothingOpen(p, true, None);
      NothingOpen(p, false, None);
    } else {
      OpenWordsRead(mig, imp, n - 1, p);
      OneMoreSlot(mig, imp, n - 1, p);
    }
  }

  /** Slot 0 is migrating to one node and importing from another. */
  function BothWays(): (seq<Option<Bytes>>, seq<Option<Bytes>>) {
    (seq(SLOTS, j => if j == 0 then Some(seq(NAMELEN, _ => 97)) else None),
     seq(SLOTS, j => if j == 0 then Some(seq(NAMELEN, _ => 98)) else None))
  }

  /** The words printed for it say nothing of the import. */
  lemma ImportIsForgotten()
    ensures var (mig, imp) := BothWays();
            && Named(mig) && Named(imp) && imp[0].Some?
            && LastOpen(OpenWords(mig, imp, SLOTS), 0, true, None) == mig[0]
            && LastOpen(OpenWords(mig, imp, SLOTS), 0, false, None) == None
  {
    hide ReadWord, OpenWords, LastOpen;
    var (mig, imp) := BothWays();
    OpenWordsRead(mig, imp, SLOTS, 0);
  }

  /** Words that open nothing, then the words for open slots. */
  lemma {:induction false} OpenAfter(ws: seq<Bytes>, open: seq<Bytes>, p: nat, migrating: bool, was: Option<Bytes>)
    requires forall w <- ws :: ReadWord(w).Served?
    ensures LastOpen(ws + open, p, migrating, was) == LastOpen(open, p, migrating, was)
    decreases |ws| + |open|
  {
    hide ReadWord;
    if open == [] {
      assert ws + open == ws;
      if ws != [] {
        assert ws[|ws| - 1] in ws && forall w <- ws[..|ws| - 1] :: w in ws;
        OpenAfter(ws[..|ws| - 1], [], p, migrating, was);
        assert ws[..|ws| - 1] + [] == ws[..|ws| - 1];
      }
    } else {
      assert (ws + open)[..|ws + open| - 1] == ws + open[..|open| - 1];
      OpenAfter(ws, open[..|open| - 1], p, migrating, was);
    }
  }

  /** Printed ranges are all read, and stand for their slots. */
  lemma PrintedCovers(rs: seq<Range>, open: seq<Bytes>)
    requires forall a | 0 <= a < |rs| :: rs[a].start <= rs[a].stop < SLOTS
    requires forall w <- open :: ReadWord(w).Open?
    ensures forall w <- Printed(rs) :: ReadWord(w).Served?
    ensures Leading(Printed(rs) + open) == |Printed(rs) + open|
    ensures forall p: nat :: Covered(Printed(rs) + open, p) <==> InSome(rs, p)
  {
    hide ReadWord, Print, Printed, Leading;
    var ws := Printed(rs);
    var all := ws + open;
    forall a | 0 <= a < |rs| ensures ReadWord(ws[a]) == Served(rs[a]) {
      ReadServed(rs[a]);
    }
    forall a | 0 <= a < |all| ensures Readable(all[a]) && (a >= |ws| ==> ReadWord(all[a]).Open?) {
      if a >= |ws| { assert all[a] == open[a - |ws|] && all[a] in open; } else { assert all[a] == ws[a]; }
    }
    LeadingIs(all, |all|);
    forall p: nat ensures Covered(all, p) <==> InSome(rs, p) {
      if InSome(rs, p) {
        var a :| 0 <= a < |rs| && rs[a].start <= p <= rs[a].stop;
        assert Covers(all[a], p);
      }
      if Covered(all, p) {
        var a :| 0 <= a < |all| && Covers(all[a], p);
        assert a < |ws| && all[a] == ws[a];
      }
    }
  }

  /** What loading one node's line does to tables in which it has nothing yet. */
  lemma LineLoaded(o: seq<Option<Id>>, id: Id, open: seq<Bytes>, table: seq<Option<Id>>, migrating: seq<Option<Bytes>>,
                   importing: seq<Option<Bytes>>, was: seq<Option<Id>>, mig: seq<Option<Bytes>>, imp: seq<Option<Bytes>>)
    requires |o| == SLOTS && (forall w <- open :: ReadWord(w).Open?)
    requires Loaded(table, migrating, importing, was, mig, imp, id,
                    (Printed(Runs(o, id, 0)) + open)[..Leading(Printed(Runs(o, id, 0)) + open)])
    ensures Leading(Printed(Runs(o, id, 0)) + open) == |Printed(Runs(o, id, 0)) + open|
    ensures forall p: nat | p < SLOTS ::
              && table[p] == (if o[p] == Some(id) && was[p].None? then Some(id) else was[p])
              && migrating[p] == LastOpen(open, p, true, mig[p]) && importing[p] == LastOpen(open, p, false, imp[p])
  {
    hide Runs, Printed, Leading, Covered, ReadWord, LastOpen;
    var rs := Runs(o, id, 0);
    RunsAreMaximal(o, id, 0);
    PrintedCovers(rs, open);
    var all := Printed(rs) + open;
    assert all[..|all|] == all;
    forall p: nat | p < SLOTS
      ensures LastOpen(all, p, true, mig[p]) == LastOpen(open, p, true, mig[p])
              && LastOpen(all, p, false, imp[p]) == LastOpen(open, p, false, imp[p])
    {
      OpenAfter(Printed(rs), open, p, true, mig[p]);
      OpenAfter(Printed(rs), open, p, false, imp[p]);
    }
    assert forall p: nat | p < SLOTS :: InSome(rs, p) <==> o[p] == Some(id);
  }

  /** The tables after the lines of the first k nodes. */
  ghost predicate Rebuilt(table: seq<Option<Id>>, migrating: seq<Option<Bytes>>, importing: seq<Option<Bytes>>,
                          o: seq<Option<Id>>, mig: seq<Option<Bytes>>, imp: seq<Option<Bytes>>, done: seq<Id>, mine: bool) {
    && |table| == |migrating| == |importing| == |o| == |mig| == |imp| == SLOTS
    && forall p: nat | p < SLOTS ::
         && table[p] == (if o[p].Some? && o[p].value in done then o[p] else None)
         && migrating[p] == (if mine then mig[p] else None)
         && importing[p] == (if mine then Shown(mig[p], imp[p]) else None)
  }

  lemma RebuiltNone(o: seq<Option<Id>>, mig: seq<Option<Bytes>>, imp: seq<Option<Bytes>>, table: seq<Option<Id>>,
                    migrating: seq<Option<Bytes>>, importing: seq<Option<Bytes>>)
    requires |table| == |migrating| == |importing| == |o| == |mig| == |imp| == SLOTS
    requires forall p: nat | p < SLOTS :: table[p] == None && migrating[p] == None && importing[p] == None
    ensures Rebuilt(table, migrating, importing, o, mig, imp, [], false)
  {
  }

  /** The words for the open slots are those of this node, and nothing for any other. */
  ghost predicate OpenFor(open: seq<Bytes>, mig: seq<Option<Bytes>>, imp: seq<Option<Bytes>>, mine: bool) {
    && |mig| == |imp| == SLOTS && (forall w <- open :: ReadWord(w).Open?)
    && (!mine ==> open == [])
    && (mine ==> forall p: nat | p < SLOTS ::
          LastOpen(open, p, true, None) == mig[p] && LastOpen(open, p, false, None) == Shown(mig[p], imp[p]))
  }

  lemma OpenForMe(mig: seq<Option<Bytes>>, imp: seq<Option<Bytes>>, mine: bool)
    requires Named(mig) && Named(imp)
    ensures OpenFor(if mine then OpenWords(mig, imp, SLOTS) else [], mig, imp, mine)
  {
    hide LastOpen, ReadWord, OpenWords;
    forall p: nat | p < SLOTS
      ensures LastOpen(OpenWords(mig, imp, SLOTS), p, true, None) == mig[p]
      ensures LastOpen(OpenWords(mig, imp, SLOTS), p, false, None) == Shown(mig[p], imp[p])
    {
      OpenWordsRead(mig, imp, SLOTS, p);
    }
    OpenWordsRead(mig, imp, SLOTS, 0);
  }

  /** One more line. */
  lemma RebuiltNext(o: seq<Option<Id>>, mig: seq<Option<Bytes>>, imp: seq<Option<Bytes>>, done: seq<Id>, mine: bool, id: Id,
                    open: seq<Bytes>, before: bool, t0: seq<Option<Id>>, m0: seq<Option<Bytes>>, i0: seq<Option<Bytes>>,
                    t: seq<Option<Id>>, m: seq<Option<Bytes>>, i: seq<Option<Bytes>>)
    requires Rebuilt(t0, m0, i0, o, mig, imp, done, before) && OpenFor(open, mig, imp, mine) && !(before && mine)
    requires |t| == |m| == |i| == SLOTS
    requires forall p: nat | p < SLOTS ::
               && t[p] == (if o[p] == Some(id) && t0[p].None? then Some(id) else t0[p])
               && m[p] == LastOpen(open, p, true, m0[p]) && i[p] == LastOpen(open, p, false, i0[p])
    ensures Rebuilt(t, m, i, o, mig, imp, done + [id], before || mine)
  {
    hide LastOpen, ReadWord, Shown;
    forall p: nat | p < SLOTS
      ensures !mine ==> LastOpen(open, p, true, m0[p]) == m0[p] && LastOpen(open, p, false, i0[p]) == i0[p]
    {
      NothingOpen(p, true, m0[p]);
      NothingOpen(p, false, i0[p]);
    }
  }

  lemma RebuiltAll(o: seq<Option<Id>>, mig: seq<Option<Bytes>>, imp: seq<Option<Bytes>>, nodes: seq<Id>,
                   table: seq<Option<Id>>, migrating: seq<Option<Bytes>>, importing: seq<Option<Bytes>>)
    requires Rebuilt(table, migrating, importing, o, mig, imp, nodes, true)
    requires forall p | 0 <= p < SLOTS :: o[p].Some? ==> o[p].value in nodes
    ensures table == o && migrating == mig
    ensures importing == imp <==> forall p | 0 <= p < SLOTS :: mig[p].None? || imp[p].None?
    ensures forall p | 0 <= p < SLOTS :: mig[p].None? ==> importing[p] == imp[p]
  {
    if p :| 0 <= p < SLOTS && !(mig[p].None? || imp[p].None?) {
      assert importing[p] != imp[p];
    }
  }

  /** Printing the ranges of every node, and the open slots of this one, and loading the words into empty tables rebuilds the
      tables, but for the importing state of the slots that are migrating too. */
  method PrintAndLoad(o: seq<Option<Id>>, mig: seq<Option<Bytes>>, imp: seq<Option<Bytes>>, nodes: seq<Id>, me: nat)
    returns (table: array<Option<Id>>, migrating: array<Option<Bytes>>, importing: array<Option<Bytes>>, ok: bool)
    requires |o| == SLOTS && Named(mig) && Named(imp) && me < |nodes|
    requires forall p | 0 <= p < SLOTS :: o[p].Some? ==> o[p].value in nodes
    ensures ok && table[..] == o && migrating[..] == mig
    ensures importing[..] == imp <==> forall p | 0 <= p < SLOTS :: mig[p].None? || imp[p].None?
    ensures importing.Length == SLOTS && forall p | 0 <= p < SLOTS :: mig[p].None? ==> importing[p] == imp[p]
  {
    hide Runs, Printed, Leading, Loaded, LastOpen, ReadWord, OpenWords, Rebuilt, OpenFor;
    var info := GenNodesSlotsInfo(o, {});
    var openWords := GenOpenWords(mig, imp);
    table := new Option<Id>[SLOTS](_ => None);
    migrating := new Option<Bytes>[SLOTS](_ => None);
    importing := new Option<Bytes>[SLOTS](_ => None);
    RebuiltNone(o, mig, imp, table[..], migrating[..], importing[..]);
    ok := true;
    for k := 0 to |nodes|
      invariant ok && fresh(table) && fresh(migrating) && fresh(importing) && migrating != importing
      invariant table.Length == migrating.Length == importing.Length == SLOTS
      invariant Rebuilt(table[..], migrating[..], importing[..], o, mig, imp, nodes[..k], me < k)
    {
      var id := nodes[k];
      var open := if k == me then openWords else [];
      ghost var was, m0, i0 := table[..], migrating[..], importing[..];
      OpenForMe(mig, imp, k == me);
      OpensOnly(open, mig, imp, k == me);
      ok := LoadWords(table, migrating, importing, id, Printed(InfoOf(info, id)) + open);
      LineLoaded(o, id, open, table[..], migrating[..], importing[..], was, m0, i0);
      RebuiltNext(o, mig, imp, nodes[..k], k == me, id, open, me < k, was, m0, i0, table[..], migrating[..], importing[..]);
      assert nodes[..k + 1] == nodes[..k] + [id];
    }
    assert nodes[..|nodes|] == nodes;
    RebuiltAll(o, mig, imp, nodes, table[..], migrating[..], importing[..]);
  }

  lemma OpensOnly(open: seq<Bytes>, mig: seq<Option<Bytes>>, imp: seq<Option<Bytes>>, mine: bool)
    requires OpenFor(open, mig, imp, mine)
    ensures forall w <- open :: ReadWord(w).Open?
  {
  }
}
