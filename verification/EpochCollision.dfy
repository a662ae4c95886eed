/** Config-epoch collision resolution among masters that exchange headers asynchronously: headers may be delayed,
    reordered, duplicated and lost. A master takes a new epoch at most once per master with a greater name,
    so resolution stops, and wherever it has not finished one more header makes it move. */
module EpochCollision {
  import opened Basics
  import opened ClusterNode
  import opened ClusterRun

  // ---------------------------------------------------------------------------------------------------------
  // Histories: which epoch every master holds, and which it has ever held
  // ---------------------------------------------------------------------------------------------------------

  type Epochs = map<NodeId, nat>

  type History = map<NodeId, set<nat>>

  ghost predicate HeldAbove(held: History, id: NodeId, v: nat) {
    exists j :: j in held && id < j && v in held[j]
  }

  /** Every master holds the greatest epoch it ever held, and an epoch it left was held by a master with a
      greater name. */
  ghost predicate Chronicle(cfg: Epochs, held: History) {
    && held.Keys == cfg.Keys
    && (forall id :: id in cfg ==> cfg[id] in held[id])
    && (forall id, v :: id in cfg && v in held[id] ==> v <= cfg[id])
    && (forall id, v {:trigger HeldAbove(held, id, v)} ::
          id in cfg && v in held[id] && v != cfg[id] ==> HeldAbove(held, id, v))
  }

  ghost function Above(ids: set<NodeId>, id: NodeId): set<NodeId> {
    set j | j in ids && id < j
  }

  /** id leaves the epoch it shares, or shared, with src for a greater one. */
  lemma MoveKeepsChronicle(cfg: Epochs, held: History, id: NodeId, src: NodeId, e: nat)
    requires Chronicle(cfg, held) && id in cfg && src in cfg && id < src
    requires cfg[id] in held[src] && cfg[id] < e
    ensures Chronicle(cfg[id := e], held[id := held[id] + {e}])
    ensures |held[id] + {e}| == |held[id]| + 1
  {
    var cfg', held' := cfg[id := e], held[id := held[id] + {e}];
    forall i, v | i in cfg' && v in held'[i] && v != cfg'[i] ensures HeldAbove(held', i, v) {
      if i == id && v == cfg[id] {
        assert v in held'[src];
      } else {
        assert HeldAbove(held, i, v);
        var j :| j in held && i < j && v in held[j];
        assert v in held'[j];
      }
    }
  }

  ghost function HeldBy(held: History, ids: set<NodeId>): set<nat>
    requires ids <= held.Keys
  {
    set j, v | j in ids && v in held[j] :: v
  }

  lemma {:induction false} LeastOf(ids: set<NodeId>) returns (x: NodeId)
    requires ids != {}
    ensures x in ids && forall y :: y in ids ==> x <= y
    decreases |ids|
  {
    x :| x in ids;
    assert forall y :: y in ids ==> y == x || y in ids - {x};
    if ids - {x} != {} {
      var z := LeastOf(ids - {x});
      x := if z < x then z else x;
    }
  }

  /** All that a master and those above it ever held fits in what those above it held, plus what it holds now. */
  lemma HeldGrowsByOne(cfg: Epochs, held: History, id: NodeId)
    requires Chronicle(cfg, held) && id in cfg
    ensures held[id] <= HeldBy(held, Above(cfg.Keys, id)) + {cfg[id]}
  {
    forall v | v in held[id] && v != cfg[id] ensures v in HeldBy(held, Above(cfg.Keys, id)) {
      assert HeldAbove(held, id, v);
      var j :| j in held && id < j && v in held[j];
      assert j in Above(cfg.Keys, id);
    }
  }

  /** The greatest k masters never held more than k different epochs between them. */
  lemma {:induction false} FewEpochs(cfg: Epochs, held: History, ids: set<NodeId>)
    requires Chronicle(cfg, held) && ids <= cfg.Keys
    requires forall a, b :: a in ids && b in cfg && a < b ==> b in ids
    ensures |HeldBy(held, ids)| <= |ids|
    decreases |ids|
  {
    if ids == {} {
      assert HeldBy(held, ids) == {};
    } else {
      var x := LeastOf(ids);
      FewEpochs(cfg, held, ids - {x});
      HeldGrowsByOne(cfg, held, x);
      assert Above(cfg.Keys, x) == ids - {x};
      SubsetSize(HeldBy(held, ids), HeldBy(held, ids - {x}) + {cfg[x]});
    }
  }

  lemma HistoryBound(cfg: Epochs, held: History, id: NodeId)
    requires Chronicle(cfg, held) && id in cfg
    ensures |held[id]| <= 1 + |Above(cfg.Keys, id)|
  {
    var above := Above(cfg.Keys, id);
    FewEpochs(cfg, held, above);
    HeldGrowsByOne(cfg, held, id);
    SubsetSize(held[id], HeldBy(held, above) + {cfg[id]});
  }

  // ---------------------------------------------------------------------------------------------------------
  // Runs of header exchanges
  // ---------------------------------------------------------------------------------------------------------

  ghost predicate HeaderStep(step: Step) {
    step.SendPing? || (step.Deliver? && step.msg.body.Ping?)
  }

  ghost predicate HeaderRun(s: System, steps: seq<Step>) {
    IsRun(s, steps) && forall i :: 0 <= i < |steps| ==> HeaderStep(steps[i])
  }

  /** The step makes its node leave a config epoch it shares with the sender of the header. */
  ghost predicate Moves(s: System, step: Step)
    requires Enabled(s, step)
  {
    && step.Deliver? && step.msg.body.Ping?
    && Collides(ProcessHeader(s.nodes[step.id], step.msg.hdr), step.msg.hdr)
  }

  ghost function MoveCount(s: System, steps: seq<Step>, id: NodeId): nat
    requires IsRun(s, steps)
    decreases |steps|
  {
    if steps == [] then 0
    else (if steps[0].id == id && Moves(s, steps[0]) then 1 else 0)
         + MoveCount(Apply(s, steps[0]), steps[1..], id)
  }

  /** A master's table: everybody in cfg is a master, and its record of them is not ahead of what they hold. */
  ghost predicate Table(n: Node, id: NodeId, cfg: Epochs) {
    && n.me == id && NodeEpochs(n)
    && n.peers.Keys == cfg.Keys
    && id in cfg && n.peers[id].configEpoch == cfg[id]
    && (forall p :: p in n.peers ==> n.peers[p].master && n.peers[p].configEpoch <= cfg[p])
  }

  /** The system is at epochs cfg, and the headers in flight only tell of epochs held. */
  ghost predicate At(s: System, cfg: Epochs, held: History) {
    && s.nodes.Keys == cfg.Keys && held.Keys == cfg.Keys
    && (forall id :: id in cfg ==> Table(s.nodes[id], id, cfg))
    && (forall m :: m in s.net ==> Told(m, held))
  }

  ghost predicate Told(m: Msg, held: History) {
    && m.body.Ping? && m.hdr.src in held && m.hdr.configEpoch in held[m.hdr.src]
    && m.hdr.configEpoch <= m.hdr.currentEpoch
  }

  /** One delivery, as the receiving master sees it. */
  lemma Receive(n: Node, cfg: Epochs, h: Header)
    requires Table(n, n.me, cfg) && h.src in cfg && h.src != n.me
    requires h.configEpoch <= cfg[h.src] && h.configEpoch <= h.currentEpoch
    ensures var n1 := ProcessHeader(n, h);
            if Collides(n1, h) then
              && n.me < h.src && cfg[n.me] == h.configEpoch && cfg[n.me] < n1.currentEpoch + 1
              && Table(HandlePing(n, h), n.me, cfg[n.me := n1.currentEpoch + 1])
            else Table(HandlePing(n, h), n.me, cfg)
    ensures HandlePing(n, h).me == n.me
  {
  }

  lemma OthersKeepTables(n: Node, id: NodeId, cfg: Epochs, mover: NodeId, e: nat)
    requires Table(n, id, cfg) && mover in cfg && mover != id && cfg[mover] <= e
    ensures Table(n, id, cfg[mover := e])
  {
  }

  lemma TableAt(s: System, cfg: Epochs, held: History, id: NodeId)
    requires At(s, cfg, held) && id in cfg
    ensures id in s.nodes && Table(s.nodes[id], id, cfg)
    ensures s.nodes[id].me == id && WellFormed(s.nodes[id])
  {
  }

  lemma HeaderAt(s: System, cfg: Epochs, held: History, m: Msg)
    requires At(s, cfg, held) && Chronicle(cfg, held) && m in s.net
    ensures Told(m, held) && m.hdr.src in cfg && m.hdr.configEpoch <= cfg[m.hdr.src]
  {
    hide Table, HeldAbove;
    assert Told(m, held);
  }

  lemma PutAt(s: System, n: Node, cfg: Epochs, held: History)
    requires At(s, cfg, held) && n.me in cfg && Table(n, n.me, cfg)
    ensures At(Put(s, n), cfg, held)
  {
    hide Table;
  }

  lemma MoveAt(s: System, n: Node, cfg: Epochs, held: History, e: nat)
    requires At(s, cfg, held) && n.me in cfg && cfg[n.me] <= e && Table(n, n.me, cfg[n.me := e])
    ensures At(Put(s, n), cfg[n.me := e], held[n.me := held[n.me] + {e}])
  {
    hide Table;
    var s', cfg', held' := Put(s, n), cfg[n.me := e], held[n.me := held[n.me] + {e}];
    forall i | i in cfg' ensures Table(s'.nodes[i], i, cfg') {
      if i != n.me {
        TableAt(s, cfg, held, i);
        OthersKeepTables(s.nodes[i], i, cfg, n.me, e);
      }
    }
    assert forall m :: m in s.net ==> Told(m, held);
  }

  lemma FreshHeader(n: Node, cfg: Epochs)
    requires Table(n, n.me, cfg)
    ensures var h := BuildHeader(n); h.src == n.me && h.configEpoch == cfg[n.me] <= h.currentEpoch
  {
    assert Announced(n) == n.me;
  }

  lemma SendStep(s: System, step: Step, cfg: Epochs, held: History)
    requires At(s, cfg, held) && Chronicle(cfg, held) && Enabled(s, step) && step.SendPing?
    ensures At(Apply(s, step), cfg, held)
  {
    hide HeldAbove, Table, BuildHeader;
    var n := s.nodes[step.id];
    TableAt(s, cfg, held, step.id);
    FreshHeader(n, cfg);
    assert Told(Msg(BuildHeader(n), Ping), held);
  }

  lemma DeliverStep(s: System, step: Step, cfg: Epochs, held: History) returns (cfg': Epochs, held': History)
    requires At(s, cfg, held) && Chronicle(cfg, held) && Enabled(s, step) && step.Deliver? && step.msg.body.Ping?
    ensures At(Apply(s, step), cfg', held') && Chronicle(cfg', held') && cfg'.Keys == cfg.Keys
    ensures forall id :: id in cfg ==> |held'[id]| == |held[id]| + if step.id == id && Moves(s, step) then 1 else 0
  {
    hide HeldAbove, Table, Collides, ProcessHeader, HandlePing;
    var id, n, h := step.id, s.nodes[step.id], step.msg.hdr;
    TableAt(s, cfg, held, id);
    HeaderAt(s, cfg, held, step.msg);
    Receive(n, cfg, h);
    if Moves(s, step) {
      var e := ProcessHeader(n, h).currentEpoch + 1;
      cfg', held' := cfg[id := e], held[id := held[id] + {e}];
      MoveKeepsChronicle(cfg, held, id, h.src, e);
      MoveAt(s, HandlePing(n, h), cfg, held, e);
    } else {
      cfg', held' := cfg, held;
      PutAt(s, HandlePing(n, h), cfg, held);
    }
  }

  lemma {:induction false} RunHistory(s: System, steps: seq<Step>, cfg: Epochs, held: History, id: NodeId)
    returns (cfg': Epochs, held': History)
    requires At(s, cfg, held) && Chronicle(cfg, held) && HeaderRun(s, steps) && id in cfg
    ensures At(Exec(s, steps), cfg', held') && Chronicle(cfg', held') && cfg'.Keys == cfg.Keys
    ensures |held'[id]| == |held[id]| + MoveCount(s, steps, id)
    decreases |steps|
  {
    hide HeldAbove, At, Chronicle;
    cfg', held' := cfg, held;
    if steps != [] {
      var step := steps[0];
      assert HeaderStep(step);
      if step.SendPing? {
        SendStep(s, step, cfg, held);
      } else {
        cfg', held' := DeliverStep(s, step, cfg, held);
      }
      cfg', held' := RunHistory(Apply(s, step), steps[1..], cfg', held', id);
    }
  }

  ghost predicate Tables(s: System, cfg: Epochs) {
    s.nodes.Keys == cfg.Keys && forall id :: id in cfg ==> Table(s.nodes[id], id, cfg)
  }

  /** Masters that know each other, with no packet in flight; any of them may share a config epoch. */
  ghost predicate Quiet(s: System, cfg: Epochs) {
    Tables(s, cfg) && s.net == {}
  }

  lemma QuietStart(s: System, cfg: Epochs) returns (held: History)
    requires Quiet(s, cfg)
    ensures At(s, cfg, held) && Chronicle(cfg, held)
    ensures forall id :: id in cfg ==> held[id] == {cfg[id]}
  {
    hide Table;
    held := map i | i in cfg :: {cfg[i]};
  }

  /** However headers are delayed or repeated, a master moves at most once per master with a greater name;
      in particular the one with the greatest name never moves. */
  lemma MovesAreBounded(s: System, steps: seq<Step>, cfg: Epochs, id: NodeId)
    requires Quiet(s, cfg) && HeaderRun(s, steps) && id in cfg
    ensures MoveCount(s, steps, id) <= |Above(cfg.Keys, id)|
  {
    hide At, Chronicle, Table;
    var held := QuietStart(s, cfg);
    var cfg', held' := RunHistory(s, steps, cfg, held, id);
    HistoryBound(cfg', held', id);
  }

  ghost predicate Distinct(cfg: Epochs) {
    forall a, b :: a in cfg && b in cfg && a != b ==> cfg[a] != cfg[b]
  }

  /** A fresh header from b makes a leave its epoch. */
  ghost predicate Stirs(s: System, a: NodeId, b: NodeId) {
    && a in s.nodes && WellFormed(s.nodes[a]) && b in s.nodes && WellFormed(s.nodes[b])
    && var h := BuildHeader(s.nodes[b]);
    Collides(ProcessHeader(s.nodes[a], h), h)
  }

  ghost predicate Still(s: System) {
    forall a, b :: a in s.nodes && b in s.nodes && a != b ==> !Stirs(s, a, b)
  }

  lemma FreshHeaderStirs(s: System, cfg: Epochs, held: History, a: NodeId, b: NodeId)
    requires At(s, cfg, held) && a in cfg && b in cfg && a != b
    ensures Stirs(s, a, b) <==> a < b && cfg[a] == cfg[b]
  {
    hide At, BuildHeader;
    TableAt(s, cfg, held, a);
    TableAt(s, cfg, held, b);
    FreshHeader(s.nodes[b], cfg);
  }

  lemma StillExactlyWhenDistinct(s: System, cfg: Epochs, held: History)
    requires At(s, cfg, held)
    ensures Tables(s, cfg)
    ensures Still(s) <==> Distinct(cfg)
  {
    hide Stirs, Table;
    forall a, b | a in cfg && b in cfg && a != b
      ensures Stirs(s, a, b) <==> a < b && cfg[a] == cfg[b]
    {
      FreshHeaderStirs(s, cfg, held, a, b);
    }
    if !Distinct(cfg) {
      var a, b :| a in cfg && b in cfg && a != b && cfg[a] == cfg[b];
      assert Stirs(s, a, b) || Stirs(s, b, a);
    }
  }

  /** After any such run no fresh header stirs anybody exactly when the masters' epochs are pairwise distinct. */
  lemma ResolvedExactlyWhenStill(s: System, steps: seq<Step>, cfg: Epochs) returns (cfg': Epochs)
    requires Quiet(s, cfg) && HeaderRun(s, steps) && cfg != map[]
    ensures cfg'.Keys == cfg.Keys && Tables(Exec(s, steps), cfg')
    ensures Still(Exec(s, steps)) <==> Distinct(cfg')
  {
    hide At, Chronicle, Tables, Still;
    var held := QuietStart(s, cfg);
    var id :| id in cfg;
    cfg', held := RunHistory(s, steps, cfg, held, id);
    StillExactlyWhenDistinct(Exec(s, steps), cfg', held);
  }

  // ---------------------------------------------------------------------------------------------------------
  // When an epoch is taken
  // ---------------------------------------------------------------------------------------------------------

  /** A header makes a node take a new configuration epoch if and only if both are masters, the sender announces the node's
      own epoch and is not known under a newer one, and the sender's name is the greater; the new epoch is one above all the
      two have seen. */
  lemma CollidesExactly(n: Node, h: Header)
    requires NodeEpochs(n) && h.configEpoch <= h.currentEpoch && h.src != n.me
    ensures var mine, n' := n.peers[n.me].configEpoch, HandlePing(n, h);
            && n.me in n'.peers
            && (n'.peers[n.me].configEpoch != mine <==>
                  && h.src in n.peers && n.peers[n.me].master && n.peers[h.src].master
                  && h.configEpoch == mine && n.peers[h.src].configEpoch <= mine && n.me < h.src)
            && (n'.peers[n.me].configEpoch != mine ==>
                  n'.peers[n.me].configEpoch == n'.currentEpoch == Max(n.currentEpoch, h.currentEpoch) + 1)
  {
  }

  /** CLUSTER BUMPEPOCH acts unless the node's epoch is the greatest it has seen and not zero, and then makes it that. */
  lemma BumpsExactly(n: Node)
    requires NodeEpochs(n)
    ensures NeedsBump(n) <==> !IsGreatest(n)
    ensures NodeEpochs(TakeNextEpoch(n)) && IsGreatest(TakeNextEpoch(n)) && !NeedsBump(TakeNextEpoch(n))
    ensures forall p <- n.peers | p != n.me :: TakeNextEpoch(n).peers[p] == n.peers[p]
  {
  }

  ghost predicate IsGreatest(n: Node)
    requires WellFormed(n)
  {
    && 0 < n.peers[n.me].configEpoch == n.currentEpoch
    && forall p <- n.peers :: n.peers[p].configEpoch <= n.peers[n.me].configEpoch
  }
}
