/**
  The epoch and failover protocol of Redis Cluster (src/cluster.c) as one deterministic
  state machine: every node's epochs, election bookkeeping and node table, the messages in
  flight, and the elections won.  A run is any sequence of steps; a step whose guard is
  false changes nothing, so every sequence of steps is a run.

  Time, the failure detector and the slot tables choose freely which steps happen.  Message
  delivery is at most once (each delivery consumes the message) and may reorder or lose
  messages.
 */
module ClusterProtocol {

  type NodeId = nat   // node names, compared by memcmp in the program: any total order
  type Epoch = nat

  datatype MaybeNode = NoNode | Known(id: NodeId)

  /**
    What a node knows about one node of its table (itself included).  While a handshake lasts
    the entry stands under a random name that no node has.
   */
  datatype Peer = Peer(configEpoch: Epoch, master: bool, handshake: bool)

  /**
    One server's cluster state.  The last three fields are history, read by no step: the
    voters counted since the current election was requested, the number of acks counted
    between the reset of the tally and that request, and the config epochs given up by
    collisions.
   */
  datatype Node = Node(
    master: bool,
    slaveof: MaybeNode,
    currentEpoch: Epoch,
    lastVoteEpoch: Epoch,
    authEpoch: Epoch,              // failover_auth_epoch
    authCount: nat,                // failover_auth_count
    authSent: bool,                // failover_auth_sent
    table: map<NodeId, Peer>,
    tally: set<NodeId>,
    stale: nat,
    abandoned: seq<Epoch>)

  datatype Body =
    | Ping(master: bool)           // PING and PONG are processed alike
    | Update(about: NodeId, reported: Epoch)
    | AuthRequest
    | AuthAck

  datatype Msg = Msg(src: NodeId, dst: NodeId, currentEpoch: Epoch, configEpoch: Epoch, body: Body)

  /** A vote granted. */
  datatype Vote = Vote(voter: NodeId, epoch: Epoch, candidate: NodeId)

  /** An election won, with the voters counted for it and the acks counted before it was requested. */
  datatype Win = Win(node: NodeId, epoch: Epoch, supporters: set<NodeId>, stale: nat)

  datatype Cluster = Cluster(
    nodes: map<NodeId, Node>,
    net: multiset<Msg>,
    votes: set<Vote>,    // history: every vote ever granted
    wins: set<Win>)      // history: every election ever won

  /** For every epoch, the masters serving slots, as all parties to that epoch see them. */
  type Electorate = Epoch -> set<NodeId>

  function Quorum(elect: Electorate, e: Epoch): nat { |elect(e)| / 2 + 1 }

  function Max(a: Epoch, b: Epoch): Epoch { if a < b then b else a }

  // ---- Sending ---------------------------------------------------------------------

  /** The configEpoch a node announces: its master's when it is a replica of a known master. */
  function Announced(me: NodeId, n: Node): Epoch {
    if !n.master && n.slaveof.Known? && n.slaveof.id in n.table then n.table[n.slaveof.id].configEpoch
    else if me in n.table then n.table[me].configEpoch
    else 0
  }

  function Message(me: NodeId, n: Node, dst: NodeId, body: Body): Msg {
    Msg(me, dst, n.currentEpoch, Announced(me, n), body)
  }

  function Broadcast(me: NodeId, n: Node, body: Body): multiset<Msg> {
    multiset(set d | d in n.table && d != me && !n.table[d].handshake :: Message(me, n, d, body))
  }

  // ---- Receiving -------------------------------------------------------------------

  /** Header processing: adopt a newer currentEpoch and a newer configEpoch of the sender. */
  function Observe(n: Node, m: Msg): Node
    requires m.src in n.table
  {
    var p := n.table[m.src];
    if p.handshake then n
    else n.(currentEpoch := Max(n.currentEpoch, m.currentEpoch),
            table := n.table[m.src := p.(configEpoch := Max(p.configEpoch, m.configEpoch))])
  }

  /** The sender's epochs as the rest of the packet handler sees them: zero during a handshake. */
  function SenderEpoch(n: Node, m: Msg): Epoch
    requires m.src in n.table
  {
    if n.table[m.src].handshake then 0 else m.currentEpoch
  }

  function SenderConfigEpoch(n: Node, m: Msg): Epoch
    requires m.src in n.table
  {
    if n.table[m.src].handshake then 0 else m.configEpoch
  }

  /** clusterHandleConfigEpochCollision. */
  function ResolveCollision(me: NodeId, n: Node, sender: NodeId): Node
    requires me in n.table && sender in n.table
  {
    var mine := n.table[me].configEpoch;
    if n.table[sender].configEpoch != mine || !n.table[sender].master || !n.master then n
    else if sender <= me then n
    else n.(currentEpoch := n.currentEpoch + 1,
            table := n.table[me := n.table[me].(configEpoch := n.currentEpoch + 1)],
            abandoned := n.abandoned + [mine])
  }

  /** PING/PONG: header, role of the sender, possible demotion by its slots, collision. */
  function OnPing(me: NodeId, n: Node, m: Msg, demoted: bool): Node
    requires me in n.table && m.src in n.table && m.body.Ping?
  {
    var senderConfig := SenderConfigEpoch(n, m);
    var a := Observe(n, m);
    var b := a.(table := a.table[m.src := a.table[m.src].(master := m.body.master)]);
    var d := if demoted && m.src != me then b.(master := false, slaveof := Known(m.src)) else b;
    if d.master && d.table[m.src].master && senderConfig == d.table[me].configEpoch
    then ResolveCollision(me, d, m.src)
    else d
  }

  /** UPDATE: adopt the reported configEpoch of a known node if it is newer. */
  function OnUpdate(n: Node, m: Msg): Node
    requires m.src in n.table && m.body.Update?
  {
    var a := Observe(n, m);
    if m.body.about !in a.table || a.table[m.body.about].configEpoch >= m.body.reported then a
    else a.(table := a.table[m.body.about :=
                               a.table[m.body.about].(master := true, configEpoch := m.body.reported)])
  }

  /**
    May the node vote for the sender of this request?  `eligible` stands for the checks on
    the requester: a replica of a failing master (or a forced ack), no recent vote for that
    master, and no claimed slot held under a greater configEpoch.
   */
  predicate Grants(me: NodeId, n: Node, m: Msg, eligible: bool, elect: Electorate) {
    && n.master && me in elect(n.currentEpoch)
    && m.currentEpoch >= n.currentEpoch
    && n.lastVoteEpoch != n.currentEpoch
    && eligible
  }

  /** FAILOVER_AUTH_REQUEST. */
  function OnAuthRequest(me: NodeId, n: Node, m: Msg, eligible: bool, elect: Electorate): Node
    requires m.src in n.table
  {
    var a := Observe(n, m);
    if Grants(me, a, m, eligible, elect)
    then a.(lastVoteEpoch := a.currentEpoch)
    else a
  }

  /** FAILOVER_AUTH_ACK: count the vote of a slot-serving master whose epoch is not too old. */
  function OnAuthAck(n: Node, m: Msg, elect: Electorate): Node
    requires m.src in n.table
  {
    var senderEpoch := SenderEpoch(n, m);
    var a := Observe(n, m);
    if m.src in elect(a.authEpoch) && senderEpoch >= a.authEpoch
    then if a.authSent then a.(authCount := a.authCount + 1, tally := a.tally + {m.src})
         else a.(authCount := a.authCount + 1, stale := a.stale + 1)
    else a
  }

  /** The table without a peer, as clusterDelNode leaves it. */
  function Without(n: Node, peer: NodeId): Node {
    n.(table := n.table - {peer}, slaveof := if n.slaveof == Known(peer) then NoNode else n.slaveof)
  }

  /**
    PING or PONG over the link of an entry in handshake: the entry goes if its sender is
    already known, else it takes the sender's name and role and leaves the handshake.
   */
  function OnHandshakeReply(n: Node, m: Msg, entry: NodeId): Node
    requires m.body.Ping?
  {
    if m.src in n.table then Without(Observe(n, m), entry)
    else n.(table := (n.table - {entry})[m.src := Peer(0, m.body.master, false)],
            slaveof := if n.slaveof == Known(entry) then Known(m.src) else n.slaveof)
  }

  // ---- Steps -----------------------------------------------------------------------

  datatype Step =
    | SendPing(n: NodeId, to: NodeId)
    | SendUpdate(n: NodeId, to: NodeId, about: NodeId)
    | Schedule(n: NodeId)            // a new election is scheduled: tally and sent flag reset
    | RequestVotes(n: NodeId)        // the scheduled election starts
    | WinElection(n: NodeId)
    | BumpEpoch(n: NodeId)           // clusterBumpConfigEpochWithoutConsensus
    | Takeover(n: NodeId)            // CLUSTER FAILOVER TAKEOVER
    | SetConfigEpoch(n: NodeId, epoch: Epoch)
    | Demote(n: NodeId, to: NodeId)  // clusterSetMaster
    | Learn(n: NodeId, peer: NodeId, master: bool)      // from gossip
    | StartHandshake(n: NodeId, entry: NodeId)           // an entry under a random name
    | FinishHandshake(m: Msg, entry: NodeId)             // m comes over that entry's link
    | Forget(n: NodeId, peer: NodeId)
    | Deliver(m: Msg, choice: bool)
    | Drop(m: Msg)

  /** Is this node's configEpoch the result of clusterGetMaxEpoch on its own table? */
  predicate HasMaxEpoch(me: NodeId, n: Node)
    requires me in n.table
  {
    && n.currentEpoch <= n.table[me].configEpoch
    && forall p :: p in n.table ==> n.table[p].configEpoch <= n.table[me].configEpoch
  }

  function Bumped(me: NodeId, n: Node): Node
    requires me in n.table
  {
    if n.table[me].configEpoch == 0 || !HasMaxEpoch(me, n)
    then n.(currentEpoch := n.currentEpoch + 1,
            table := n.table[me := n.table[me].(configEpoch := n.currentEpoch + 1)])
    else n
  }

  function Promoted(n: Node): Node { n.(master := true, slaveof := NoNode) }

  /** The configEpoch a winner takes: that of the election, unless it already has a greater one. */
  function Elected(me: NodeId, n: Node): Node
    requires me in n.table
  {
    var p := n.table[me];
    Promoted(n.(table := n.table[me := p.(configEpoch := Max(p.configEpoch, n.authEpoch))]))
  }

  function Received(me: NodeId, n: Node, m: Msg, choice: bool, elect: Electorate): Node
    requires me in n.table
  {
    if m.src !in n.table then n
    else match m.body
      case Ping(_) => OnPing(me, n, m, choice)
      case Update(_, _) => OnUpdate(n, m)
      case AuthRequest => OnAuthRequest(me, n, m, choice, elect)
      case AuthAck => OnAuthAck(n, m, elect)
  }

  /** Does delivering this message grant a vote? */
  predicate Voting(me: NodeId, n: Node, s: Step, elect: Electorate)
  {
    && s.Deliver? && s.m.src in n.table && s.m.body.AuthRequest?
    && Grants(me, Observe(n, s.m), s.m, s.choice, elect)
  }

  /** The node a step runs on; messages being dropped run nowhere. */
  function Actor(s: Step): NodeId {
    match s
    case Deliver(m, _) => m.dst
    case Drop(m) => m.dst
    case FinishHandshake(m, _) => m.dst
    case SendPing(n, _) => n
    case SendUpdate(n, _, _) => n
    case Schedule(n) => n
    case RequestVotes(n) => n
    case WinElection(n) => n
    case BumpEpoch(n) => n
    case Takeover(n) => n
    case SetConfigEpoch(n, _) => n
    case Demote(n, _) => n
    case Learn(n, _, _) => n
    case StartHandshake(n, _) => n
    case Forget(n, _) => n
  }

  predicate Enabled(c: Cluster, s: Step, elect: Electorate) {
    && Actor(s) in c.nodes
    && var me := Actor(s);
       var n := c.nodes[me];
       && me in n.table
       && match s
          case SendPing(_, to) => to != me
          case SendUpdate(_, to, about) => to != me && about in n.table
          case Schedule(_) => !n.master && n.slaveof.Known?
          case RequestVotes(_) => !n.master && n.slaveof.Known? && !n.authSent
          case WinElection(_) =>
            !n.master && n.slaveof.Known? && n.authSent && n.authCount >= Quorum(elect, n.authEpoch)
          case BumpEpoch(_) => true
          case Takeover(_) => !n.master && n.slaveof.Known?
          case SetConfigEpoch(_, _) => n.table.Keys == {me} && n.table[me].configEpoch == 0
          case Demote(_, to) => to != me && to in n.table
          case Learn(_, peer, _) => peer !in n.table
          case StartHandshake(_, entry) => entry !in n.table && entry !in c.nodes
          case FinishHandshake(m, entry) =>
            m in c.net && m.src != me && m.body.Ping? && entry in n.table && n.table[entry].handshake
          case Forget(_, peer) => peer != me
          case Deliver(m, _) => m in c.net && m.src != me
          case Drop(m) => m in c.net
  }

  /** The actor's state after an enabled step. */
  function Next(me: NodeId, n: Node, s: Step, elect: Electorate): Node
    requires me in n.table
  {
    match s
    case SendPing(_, _) => n
    case SendUpdate(_, _, _) => n
    case Schedule(_) => n.(authCount := 0, authSent := false, tally := {}, stale := 0)
    case RequestVotes(_) =>
      n.(currentEpoch := n.currentEpoch + 1, authEpoch := n.currentEpoch + 1, authSent := true)
    case WinElection(_) => Elected(me, n)
    case BumpEpoch(_) => Bumped(me, n)
    case Takeover(_) => Promoted(Bumped(me, n))
    case SetConfigEpoch(_, e) =>
      n.(table := n.table[me := n.table[me].(configEpoch := e)], currentEpoch := Max(n.currentEpoch, e))
    case Demote(_, to) => n.(master := false, slaveof := Known(to))
    case Learn(_, peer, master) => n.(table := n.table[peer := Peer(0, master, false)])
    case StartHandshake(_, entry) => n.(table := n.table[entry := Peer(0, false, true)])
    case FinishHandshake(m, entry) => if m.body.Ping? then OnHandshakeReply(n, m, entry) else n
    case Forget(_, peer) => Without(n, peer)
    case Deliver(m, choice) => Received(me, n, m, choice, elect)
    case Drop(_) => n
  }

  function Sent(me: NodeId, n: Node, s: Step, elect: Electorate): multiset<Msg>
    requires me in n.table
  {
    match s
    case SendPing(_, to) => multiset{Message(me, n, to, Ping(n.master))}
    case SendUpdate(_, to, about) =>
      if about in n.table then multiset{Message(me, n, to, Update(about, n.table[about].configEpoch))}
      else multiset{}
    case RequestVotes(_) => Broadcast(me, Next(me, n, s, elect), AuthRequest)
    case Deliver(m, _) =>
      if Voting(me, n, s, elect) then multiset{Message(me, Next(me, n, s, elect), m.src, AuthAck)}
      else multiset{}
    case _ => multiset{}
  }

  function Consumed(s: Step): multiset<Msg> {
    match s
    case Deliver(m, _) => multiset{m}
    case FinishHandshake(m, _) => multiset{m}
    case Drop(m) => multiset{m}
    case _ => multiset{}
  }

  function Votes(me: NodeId, n: Node, s: Step, elect: Electorate): set<Vote> {
    if Voting(me, n, s, elect) then {Vote(me, Observe(n, s.m).currentEpoch, s.m.src)} else {}
  }

  function Wins(me: NodeId, n: Node, s: Step): set<Win> {
    if s.WinElection? then {Win(me, n.authEpoch, n.tally, n.stale)} else {}
  }

  function Apply(c: Cluster, s: Step, elect: Electorate): Cluster {
    if !Enabled(c, s, elect) then c
    else
      var me := Actor(s);
      var n := c.nodes[me];
      Cluster(c.nodes[me := Next(me, n, s, elect)],
              c.net - Consumed(s) + Sent(me, n, s, elect),
              c.votes + Votes(me, n, s, elect),
              c.wins + Wins(me, n, s))
  }

  function Run(c: Cluster, steps: seq<Step>, elect: Electorate): Cluster
    decreases |steps|
  {
    if steps == [] then c else Apply(Run(c, steps[..|steps| - 1], elect), steps[|steps| - 1], elect)
  }
}
