/** Moving one hash slot from a master to another while clients keep using it. */
module Resharding {
  import opened Basics
  import opened SlotRouting

  /** The nodes S and T, the slot that moves and the hash function. */
  datatype Setup = Setup(s: Node, t: Node, slot: nat, hash: Key -> nat)

  /** The keys of the slot each node holds; whether S still thinks it owns the slot and T that it does already; the
      requests that S has answered with ASK. */
  datatype State = State(sKeys: set<Key>, tKeys: set<Key>, sClosed: bool, tOwns: bool, asked: set<seq<seq<Key>>>)

  datatype Step =
    | AtS(r: Request, kept: set<Key>)   // a request reaches S; if served it leaves these of its keys in place
    | AtT(r: Request, kept: set<Key>)   // the same at T
    | Migrate(keys: set<Key>)           // MIGRATE moves keys from S to T
    | ExpireS(keys: set<Key>)
    | ExpireT(keys: set<Key>)
    | CloseS                            // CLUSTER SETSLOT <slot> NODE <T> at S
    | CloseT                            // the same at T

  ghost predicate SetupOk(u: Setup) {
    u.s != u.t
  }

  /** S has the slot migrating to T until it is told that T is the owner. */
  function ViewS(u: Setup, q: State): View {
    View(u.s, u.hash, map[u.slot := if q.sClosed then u.t else u.s],
         if q.sClosed then map[] else map[u.slot := u.t], map[], q.sKeys, true, true, None)
  }

  /** T has the slot importing from S until it is told that it is the owner. */
  function ViewT(u: Setup, q: State): View {
    View(u.t, u.hash, map[u.slot := if q.tOwns then u.t else u.s],
         map[], if q.tOwns then map[] else map[u.slot := u.s], q.tKeys, true, true, None)
  }

  function KeysOf(r: Request): set<Key> {
    set k | k in AllKeys(r.commands)
  }

  /** A request about this slot; MIGRATE is a step of its own, and only a slave has a master to read for. */
  ghost predicate OnSlot(u: Setup, r: Request) {
    && AllKeys(r.commands) != [] && !(r.isExec && !r.inMulti) && !r.isMigrate
    && forall k <- AllKeys(r.commands) :: u.hash(k) == u.slot
  }

  ghost predicate Enabled(u: Setup, q: State, step: Step) {
    match step
    case AtS(r, kept) => OnSlot(u, r) && kept <= KeysOf(r)
    case AtT(r, kept) => OnSlot(u, r) && kept <= KeysOf(r) && (r.asking ==> r.commands in q.asked)
    case Migrate(keys) => keys <= q.sKeys && !q.sClosed
    case ExpireS(_) => true
    case ExpireT(_) => true
    case CloseS => q.sKeys == {}
    case CloseT => true
  }

  ghost function Apply(u: Setup, q: State, step: Step): State {
    match step
    case AtS(r, kept) =>
      var a := Route(ViewS(u, q), r);
      if a.Serve? then q.(sKeys := (q.sKeys - KeysOf(r)) + kept)
      else if a.Ask? then q.(asked := q.asked + {r.commands})
      else q
    case AtT(r, kept) =>
      if Route(ViewT(u, q), r).Serve? then q.(tKeys := (q.tKeys - KeysOf(r)) + kept) else q
    case Migrate(keys) => q.(sKeys := q.sKeys - keys, tKeys := q.tKeys + keys)
    case ExpireS(keys) => q.(sKeys := q.sKeys - keys)
    case ExpireT(keys) => q.(tKeys := q.tKeys - keys)
    case CloseS => q.(sClosed := true)
    case CloseT => q.(tOwns := true)
  }

  // ---------------------------------------------------------------------------------------------------------
  // What the nodes answer
  // ---------------------------------------------------------------------------------------------------------

  lemma SlotOf(u: Setup, v: View, r: Request)
    requires OnSlot(u, r) && v.hash == u.hash
    ensures var keys := AllKeys(r.commands);
            v.hash(keys[0]) == u.slot && OneSlot(v, keys)
            && (Missing(v, keys) <==> !(KeysOf(r) <= v.keys))
  {
    var keys := AllKeys(r.commands);
    forall i | 0 <= i < |keys| ensures v.hash(keys[i]) == u.slot {
      assert keys[i] in keys;
    }
    if !(KeysOf(r) <= v.keys) {
      var k :| k in KeysOf(r) && k !in v.keys;
      var i :| 0 <= i < |keys| && keys[i] == k;
    }
  }

  /** While the slot is migrating S serves a request exactly when it has all the keys, and else sends it to T. */
  lemma AnswerS(u: Setup, q: State, r: Request)
    requires SetupOk(u) && OnSlot(u, r)
    ensures Route(ViewS(u, q), r)
            == if q.sClosed then Moved(u.t) else if KeysOf(r) <= q.sKeys then Serve else Ask(u.t)
  {
    SlotOf(u, ViewS(u, q), r);
  }

  /** While the slot is importing T serves a request exactly when the client is asking and it cannot be torn between the
      two nodes. */
  lemma AnswerT(u: Setup, q: State, r: Request)
    requires SetupOk(u) && OnSlot(u, r)
    ensures Route(ViewT(u, q), r)
            == if q.tOwns then Serve
               else if !r.asking then Moved(u.s)
               else if SeveralKeys(AllKeys(r.commands)) && !(KeysOf(r) <= q.tKeys) then TryAgain
               else Serve
  {
    SlotOf(u, ViewT(u, q), r);
  }

  // ---------------------------------------------------------------------------------------------------------
  // Safety
  // ---------------------------------------------------------------------------------------------------------

  /** No key is on both nodes. */
  ghost predicate Apart(q: State) { q.sKeys !! q.tKeys }

  /** Besides, S has keys of this slot only and lacks a key of every request it has sent away; a node that gave up the slot,
      or faces a new owner, has no key of it. */
  ghost predicate Safe(u: Setup, q: State) {
    && Apart(q)
    && (forall k <- q.sKeys :: u.hash(k) == u.slot)
    && (forall c <- q.asked :: !((set k | k in AllKeys(c)) <= q.sKeys))
    && (q.sClosed || q.tOwns ==> q.sKeys == {})
  }

  /** Some request that a client may send to T next puts a key on both nodes. */
  ghost predicate Exposed(u: Setup, q: State) {
    exists r, kept :: Enabled(u, q, AtT(r, kept)) && !Apart(Apply(u, q, AtT(r, kept)))
  }

  lemma OneKey(r: Request, k: Key)
    requires AllKeys(r.commands) != [] && !SeveralKeys(AllKeys(r.commands)) && k in KeysOf(r)
    ensures KeysOf(r) == {k}
  {
    var keys := AllKeys(r.commands);
    assert forall i | 0 <= i < |keys| :: keys[i] == keys[0];
  }

  lemma ServedAtT(u: Setup, q: State, r: Request)
    requires SetupOk(u) && Safe(u, q) && OnSlot(u, r) && (r.asking ==> r.commands in q.asked)
    requires Route(ViewT(u, q), r).Serve?
    ensures KeysOf(r) !! q.sKeys
  {
    hide AllKeys, SeveralKeys;
    AnswerT(u, q, r);
    if !q.tOwns && SeveralKeys(AllKeys(r.commands)) {
      assert KeysOf(r) <= q.tKeys;
    } else if !q.tOwns {
      assert !(KeysOf(r) <= q.sKeys);
      var k :| k in KeysOf(r) && k !in q.sKeys;
      OneKey(r, k);
    }
  }

  /** T is made the owner while S still has keys; unlike S, it cannot tell. */
  predicate Premature(q: State, step: Step) { step.CloseT? && q.sKeys != {} }

  lemma StepKeepsSafe(u: Setup, q: State, step: Step)
    requires SetupOk(u) && Safe(u, q) && Enabled(u, q, step)
    ensures var p := Apply(u, q, step); Apart(p) && p.sKeys <= q.sKeys && (!Premature(q, step) ==> Safe(u, p))
    ensures step.AtS? && Route(ViewS(u, q), step.r).Serve? ==> KeysOf(step.r) <= q.sKeys
  {
    hide AllKeys, OnSlot, Route;
    match step
    case AtS(r, kept) => AnswerS(u, q, r);
    case AtT(r, kept) => if Route(ViewT(u, q), r).Serve? { ServedAtT(u, q, r); }
    case _ =>
  }

  lemma SafeIsNotExposed(u: Setup, q: State)
    requires SetupOk(u) && Safe(u, q)
    ensures !Exposed(u, q)
  {
    hide Safe, Apart, Apply, Enabled;
    forall r, kept | Enabled(u, q, AtT(r, kept)) ensures Apart(Apply(u, q, AtT(r, kept))) {
      StepKeepsSafe(u, q, AtT(r, kept));
    }
  }

  /** A plain request for one key. */
  function Plain(k: Key): Request {
    Request([[k]], false, false, false, false, true, true, false, false)
  }

  lemma PlainKeys(u: Setup, k: Key)
    requires u.hash(k) == u.slot
    ensures AllKeys(Plain(k).commands) == [k] && OnSlot(u, Plain(k)) && KeysOf(Plain(k)) == {k}
  {
    assert [[k]][..0] == [];
    assert AllKeys([]) == [] && [] + [k] == [k];
  }

  /** A step never puts a key on both nodes by itself, and leaves the nodes so that no request to T can do so next, if and
      only if it does not make T the owner too early; S's keys only ever become fewer; what S serves it has in full. */
  lemma StepIsSafe(u: Setup, q: State, step: Step)
    requires SetupOk(u) && Safe(u, q) && Enabled(u, q, step)
    ensures var p := Apply(u, q, step);
            && Apart(p) && p.sKeys <= q.sKeys
            && (Exposed(u, p) <==> Premature(q, step))
            && (!Premature(q, step) ==> Safe(u, p))
    ensures step.AtS? && Route(ViewS(u, q), step.r).Serve? ==> KeysOf(step.r) <= q.sKeys
  {
    hide AllKeys, OnSlot, Route, Exposed;
    var p := Apply(u, q, step);
    StepKeepsSafe(u, q, step);
    if Premature(q, step) {
      var k :| k in q.sKeys;
      OwnerExposes(u, p, k);
    } else {
      SafeIsNotExposed(u, p);
    }
  }

  /** An owner serves what it does not have. */
  lemma OwnerExposes(u: Setup, q: State, k: Key)
    requires SetupOk(u) && q.tOwns && k in q.sKeys && u.hash(k) == u.slot
    ensures var p := Apply(u, q, AtT(Plain(k), {k})); Enabled(u, q, AtT(Plain(k), {k})) && k in p.sKeys && k in p.tKeys
    ensures Exposed(u, q)
  {
    hide AllKeys, Route, OnSlot;
    PlainKeys(u, k);
    AnswerT(u, q, Plain(k));
    assert !Apart(Apply(u, q, AtT(Plain(k), {k})));
  }

  ghost predicate IsRun(u: Setup, run: seq<State>, steps: seq<Step>) {
    && |run| == |steps| + 1
    && Apart(run[0]) && (forall k <- run[0].sKeys :: u.hash(k) == u.slot)
    && run[0].asked == {} && !run[0].sClosed && !run[0].tOwns
    && forall i | 0 <= i < |steps| :: Enabled(u, run[i], steps[i]) && run[i + 1] == Apply(u, run[i], steps[i])
  }

  /** Over every run in which T is not made the owner too early: no key is ever on both nodes, nor can a request put one
      there; S's keys of the slot only shrink, and every request S serves finds all its keys there. */
  lemma {:induction false} ReshardingIsSafe(u: Setup, run: seq<State>, steps: seq<Step>, i: nat, j: nat)
    requires SetupOk(u) && IsRun(u, run, steps) && i <= j < |run|
    requires forall k | 0 <= k < |steps| :: !Premature(run[k], steps[k])
    ensures Safe(u, run[j]) && !Exposed(u, run[j]) && run[j].sKeys <= run[i].sKeys
    ensures j < |steps| && steps[j].AtS? && Route(ViewS(u, run[j]), steps[j].r).Serve?
            ==> KeysOf(steps[j].r) <= run[j].sKeys
    decreases j
  {
    hide Apply, Enabled, Route, KeysOf, ViewS, Exposed;
    if j > 0 {
      ReshardingIsSafe(u, run, steps, if i < j then i else j - 1, j - 1);
      StepIsSafe(u, run[j - 1], steps[j - 1]);
    }
    SafeIsNotExposed(u, run[j]);
    if j < |steps| {
      StepIsSafe(u, run[j], steps[j]);
    }
  }

  // ---------------------------------------------------------------------------------------------------------
  // Progress
  // ---------------------------------------------------------------------------------------------------------

  predicate Present(q: State, k: Key) { k in q.sKeys || k in q.tKeys }

  /** A node serves a request that names the key, or the key expires. */
  ghost predicate Touches(u: Setup, q: State, step: Step, k: Key) {
    match step
    case AtS(r, _) => Route(ViewS(u, q), r).Serve? && k in KeysOf(r)
    case AtT(r, _) => Route(ViewT(u, q), r).Serve? && k in KeysOf(r)
    case ExpireS(keys) => k in keys
    case ExpireT(keys) => k in keys
    case _ => false
  }

  /** Moving, redirecting and closing lose no key and make none up, whatever happens meanwhile: a key that no request and no
      expiry touches is there afterwards if and only if it was there. */
  lemma {:induction false} NoKeyIsLost(u: Setup, run: seq<State>, steps: seq<Step>, i: nat, j: nat, k: Key)
    requires IsRun(u, run, steps) && i <= j < |run|
    requires forall m | i <= m < j :: !Touches(u, run[m], steps[m], k)
    ensures Present(run[j], k) <==> Present(run[i], k)
    decreases j
  {
    hide Route, KeysOf, ViewS, ViewT, Apart;
    if i < j {
      NoKeyIsLost(u, run, steps, i, j - 1, k);
      assert Enabled(u, run[j - 1], steps[j - 1]) && run[j] == Apply(u, run[j - 1], steps[j - 1]);
    }
  }

  /** A request that is served leaves exactly the keys it keeps, at the node that serves it, and nothing else changes there or
      elsewhere; expiry and MIGRATE take away exactly the keys they name. */
  lemma TouchedKeys(u: Setup, q: State, step: Step, k: Key)
    requires Enabled(u, q, step)
    ensures var p := Apply(u, q, step);
            && (step.AtS? && Touches(u, q, step, k) ==> (k in p.sKeys <==> k in step.kept) && p.tKeys == q.tKeys)
            && (step.AtT? && Touches(u, q, step, k) ==> (k in p.tKeys <==> k in step.kept) && p.sKeys == q.sKeys)
            && (step.ExpireS? ==> (k in p.sKeys <==> k in q.sKeys && k !in step.keys) && p.tKeys == q.tKeys)
            && (step.ExpireT? ==> (k in p.tKeys <==> k in q.tKeys && k !in step.keys) && p.sKeys == q.sKeys)
            && (step.Migrate? && k in step.keys ==> k !in p.sKeys && k in p.tKeys)
  {
    hide Route, ViewS, ViewT;
  }

  /** A client that is sent to T may ask there, and is served unless it wants several keys that have not all arrived. */
  lemma AskIsAnswered(u: Setup, q: State, r: Request, kept: set<Key>)
    requires SetupOk(u) && OnSlot(u, r) && Route(ViewS(u, q), r).Ask? && kept <= KeysOf(r) && !q.tOwns
    ensures var p, asks := Apply(u, q, AtS(r, kept)), r.(asking := true);
            && p.sKeys == q.sKeys && p.tKeys == q.tKeys && Enabled(u, p, AtT(asks, kept))
            && (Route(ViewT(u, p), asks) == Serve <==> !SeveralKeys(AllKeys(r.commands)) || KeysOf(r) <= q.tKeys)
  {
    hide Route, AllKeys, SeveralKeys;
    var p, asks := Apply(u, q, AtS(r, kept)), r.(asking := true);
    assert OnSlot(u, asks) && KeysOf(asks) == KeysOf(r);
    AnswerT(u, p, asks);
  }

  lemma {:induction false} StaysClosed(u: Setup, run: seq<State>, steps: seq<Step>, i: nat, j: nat)
    requires IsRun(u, run, steps) && i <= j < |run|
    ensures (run[i].sClosed ==> run[j].sClosed) && (run[i].tOwns ==> run[j].tOwns)
    decreases j
  {
    hide Route, KeysOf, ViewS, ViewT, Apart;
    if i < j {
      StaysClosed(u, run, steps, i, j - 1);
      assert run[j] == Apply(u, run[j - 1], steps[j - 1]);
    }
  }

  /** Once S was told of the new owner it sends every request there; once T was told it serves every request. */
  lemma OwnershipMoves(u: Setup, run: seq<State>, steps: seq<Step>, i: nat, j: nat, r: Request)
    requires SetupOk(u) && IsRun(u, run, steps) && i < j < |run| && OnSlot(u, r)
    ensures steps[i].CloseS? ==> Route(ViewS(u, run[j]), r) == Moved(u.t)
    ensures steps[i].CloseT? ==> Route(ViewT(u, run[j]), r) == Serve
  {
    hide Route, KeysOf, ViewS, ViewT, Apart, OnSlot;
    assert run[i + 1] == Apply(u, run[i], steps[i]);
    StaysClosed(u, run, steps, i + 1, j);
    AnswerS(u, run[j], r);
    AnswerT(u, run[j], r);
  }

  /** From every safe state the move can be finished at once, and then T owns the slot and has all keys of both. */
  lemma MoveCanFinish(u: Setup, q: State)
    requires Safe(u, q) && !q.sClosed
    ensures var a := Apply(u, q, Migrate(q.sKeys));
            var b := Apply(u, a, CloseT);
            var c := Apply(u, b, CloseS);
            && Enabled(u, q, Migrate(q.sKeys)) && Enabled(u, a, CloseT) && !Premature(a, CloseT) && Enabled(u, b, CloseS)
            && c.tOwns && c.sClosed && c.sKeys == {} && c.tKeys == q.sKeys + q.tKeys
  {
  }

  /** A client that sends ASKING without having been told to breaks this: T serves a key that S still has. */
  lemma AskingUnasked(u: Setup, q: State, r: Request, k: Key)
    requires SetupOk(u) && OnSlot(u, r) && r.asking && !q.tOwns && AllKeys(r.commands) == [k] && k in q.sKeys
    ensures var p := Apply(u, q, AtT(r, {k})); k in p.sKeys && k in p.tKeys
  {
    assert !SeveralKeys([k]);
    AnswerT(u, q, r);
  }

  function Seven(k: Key): nat { 7 }

  /** Slot 7 moves from node 0 to node 1, and node 0 still has the key "a". */
  function Moving(): (Setup, State) {
    (Setup(0, 1, 7, Seven), State({"a"}, {}, false, false, {}))
  }

  /** What goes wrong when T is made the owner too early: the command is accepted, and a plain request for "a" puts it on
      both nodes. */
  lemma ClosedTooEarly()
    ensures var (u, q) := Moving();
            var p := Apply(u, q, CloseT);
            && SetupOk(u) && Safe(u, q) && Enabled(u, q, CloseT) && Premature(q, CloseT)
            && Enabled(u, p, AtT(Plain("a"), {"a"}))
            && var p2 := Apply(u, p, AtT(Plain("a"), {"a"})); "a" in p2.sKeys && "a" in p2.tKeys
  {
    hide Route, AllKeys, OnSlot;
    var (u, q) := Moving();
    OwnerExposes(u, Apply(u, q, CloseT), "a");
  }
}
