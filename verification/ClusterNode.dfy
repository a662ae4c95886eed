/** One cluster node's view of the cluster, the header it puts on every packet, and the handlers that move
    epochs and votes. Handlers are functions from the node's state to its next state. */
module ClusterNode {
  import opened Basics

  /** Node names are fixed-width strings ordered by memcmp; only their order matters. */
  type NodeId = nat

  type Slot = nat

  /** What a node remembers about a cluster member, itself included. */
  datatype Peer = Peer(master: bool, slaveOf: Option<NodeId>, failed: bool, configEpoch: nat)

  datatype Node = Node(
    me: NodeId,
    currentEpoch: nat,
    lastVoteEpoch: nat,
    authEpoch: nat,
    authCount: nat,
    authSent: bool,
    peers: map<NodeId, Peer>,
    owner: map<Slot, NodeId>)

  /** The fields of clusterMsg every packet carries. */
  datatype Header = Header(src: NodeId, currentEpoch: nat, configEpoch: nat, slots: set<Slot>)

  datatype Body =
    | Ping
    | Request(forceAck: bool)
    | Ack(dst: NodeId)
    | Update(about: NodeId, epoch: nat)

  datatype Msg = Msg(hdr: Header, body: Body)

  ghost predicate WellFormed(n: Node) {
    n.me in n.peers
  }

  function Max(a: nat, b: nat): nat {
    if a < b then b else a
  }

  function SlotsOf(n: Node, p: NodeId): set<Slot> {
    set j | j in n.owner && n.owner[j] == p
  }

  /** Masters serving at least one slot, as clusterUpdateState counts them. */
  function ServingMasters(n: Node): set<NodeId> {
    set p | p in n.owner.Values && p in n.peers && n.peers[p].master
  }

  /** The number of votes clusterHandleSlaveFailover asks for. */
  function NeededQuorum(n: Node): nat {
    |ServingMasters(n)| / 2 + 1
  }

  /** A replica announces its master's slots and config epoch, anybody else its own. */
  function Announced(n: Node): NodeId
    requires WellFormed(n)
  {
    match n.peers[n.me].slaveOf
    case Some(m) => if !n.peers[n.me].master && m in n.peers then m else n.me
    case None => n.me
  }

  function BuildHeader(n: Node): Header
    requires WellFormed(n)
  {
    Header(n.me, n.currentEpoch, n.peers[Announced(n)].configEpoch, SlotsOf(n, Announced(n)))
  }

  function SetEpoch(n: Node, p: NodeId, e: nat): Node
    requires p in n.peers
  {
    n.(peers := n.peers[p := n.peers[p].(configEpoch := e)])
  }

  /** The part of clusterProcessPacket common to all packets: adopt newer epochs from a known sender. */
  function ProcessHeader(n: Node, h: Header): Node {
    if h.src !in n.peers then n
    else
      var n1 := n.(currentEpoch := Max(n.currentEpoch, h.currentEpoch));
      SetEpoch(n1, h.src, Max(n1.peers[h.src].configEpoch, h.configEpoch))
  }

  /** clusterHandleConfigEpochCollision under its guard in clusterProcessPacket. */
  predicate Collides(n: Node, h: Header)
    requires WellFormed(n)
  {
    && h.src in n.peers
    && n.peers[n.me].master && n.peers[h.src].master
    && h.configEpoch == n.peers[n.me].configEpoch
    && n.peers[h.src].configEpoch == n.peers[n.me].configEpoch
    && n.me < h.src
  }

  /** Take a config epoch nobody granted: one above everything this node has seen. */
  function TakeNextEpoch(n: Node): Node
    requires WellFormed(n)
  {
    SetEpoch(n.(currentEpoch := n.currentEpoch + 1), n.me, n.currentEpoch + 1)
  }

  function HandlePing(n: Node, h: Header): Node
    requires WellFormed(n)
  {
    var n1 := ProcessHeader(n, h);
    if Collides(n1, h) then TakeNextEpoch(n1) else n1
  }

  /** All the gates of clusterSendFailoverAuthIfNeeded, after the header was processed.
      clockOk stands for the voted_time check. */
  predicate Grants(n: Node, h: Header, forceAck: bool, clockOk: bool)
    requires WellFormed(n)
  {
    && h.src in n.peers
    && n.peers[n.me].master && SlotsOf(n, n.me) != {}
    && n.currentEpoch <= h.currentEpoch
    && n.lastVoteEpoch != n.currentEpoch
    && !n.peers[h.src].master
    && n.peers[h.src].slaveOf.Some? && n.peers[h.src].slaveOf.value in n.peers
    && (n.peers[n.peers[h.src].slaveOf.value].failed || forceAck)
    && clockOk
    && (forall j :: j in h.slots && j in n.owner && n.owner[j] in n.peers ==>
          n.peers[n.owner[j]].configEpoch <= h.configEpoch)
  }

  function HandleRequest(n: Node, h: Header, forceAck: bool, clockOk: bool): Node
    requires WellFormed(n)
  {
    var n1 := ProcessHeader(n, h);
    if Grants(n1, h, forceAck, clockOk) then n1.(lastVoteEpoch := n1.currentEpoch) else n1
  }

  /** An ACK counts when its sender is a master with slots and its epoch is not older than the election. */
  predicate CountsAck(n: Node, h: Header) {
    && h.src in n.peers
    && n.peers[h.src].master && SlotsOf(n, h.src) != {}
    && n.authEpoch <= h.currentEpoch
  }

  function HandleAck(n: Node, h: Header): Node {
    var n1 := ProcessHeader(n, h);
    if CountsAck(n1, h) then n1.(authCount := n1.authCount + 1) else n1
  }

  function HandleUpdate(n: Node, h: Header, about: NodeId, epoch: nat): Node {
    var n1 := ProcessHeader(n, h);
    if h.src !in n1.peers || about !in n1.peers || epoch <= n1.peers[about].configEpoch then n1
    else
      var p := n1.peers[about];
      var p1 := if p.master then p else p.(master := true, slaveOf := None);
      SetEpoch(n1.(peers := n1.peers[about := p1]), about, epoch)
  }

  /** Preconditions of clusterHandleSlaveFailover, shared by its three phases. Timers are left open. */
  predicate CanFailover(n: Node, manual: bool)
    requires WellFormed(n)
  {
    var self := n.peers[n.me];
    && !self.master
    && self.slaveOf.Some? && self.slaveOf.value in n.peers
    && (n.peers[self.slaveOf.value].failed || manual)
    && SlotsOf(n, self.slaveOf.value) != {}
  }

  /** Phase 1: schedule a new attempt. The count is cleared here, the election epoch is not. */
  function ScheduleElection(n: Node): Node {
    n.(authCount := 0, authSent := false)
  }

  /** Phase 2: take a new epoch and ask everybody for a vote. */
  function StartElection(n: Node): Node {
    n.(currentEpoch := n.currentEpoch + 1, authEpoch := n.currentEpoch + 1, authSent := true)
  }

  /** Phase 3: the quorum was reached. Adopt the election epoch, become a master and take the slots. */
  function WinElection(n: Node): Node
    requires WellFormed(n) && n.peers[n.me].slaveOf.Some?
  {
    var self := n.peers[n.me];
    var oldMaster := self.slaveOf.value;
    n.(peers := n.peers[n.me := Peer(true, None, self.failed, Max(self.configEpoch, n.authEpoch))],
       owner := map j | j in n.owner :: if n.owner[j] == oldMaster then n.me else n.owner[j])
  }

  /** clusterBumpConfigEpochWithoutConsensus acts unless this node already holds the greatest epoch it knows of. */
  predicate NeedsBump(n: Node)
    requires WellFormed(n)
  {
    var mine := n.peers[n.me].configEpoch;
    mine == 0 || mine < n.currentEpoch || exists p :: p in n.peers && mine < n.peers[p].configEpoch
  }
}
