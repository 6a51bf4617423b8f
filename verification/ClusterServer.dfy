/**
  One server's packet handlers and timers (src/cluster.c) in the form they have in the program:
  fields updated in place. Each is proved to do to the server's state what the corresponding
  step of the cluster-wide machine does.
 */
module ClusterServer {
  import opened ClusterProtocol

  /** What the checks on a vote request look at: the requester and the slots it claims. */
  datatype Request = Request(
    fromMaster: bool,             // the requester is itself a master
    master: MaybeNode,            // the requester's master
    masterFailed: bool,
    forceAck: bool,
    claimed: seq<bool>)

  /** A slot as this server sees it: nobody's, given up by its owner, or held under an epoch. */
  datatype SlotView = Unclaimed | HeldUnder(epoch: Epoch)

  /** No claimed slot is held under a greater configEpoch. */
  ghost predicate NoNewerOwner(claimed: seq<bool>, slots: seq<SlotView>, epoch: Epoch)
    requires |claimed| == |slots|
  {
    forall j :: 0 <= j < |slots| && claimed[j] && slots[j].HeldUnder? ==> slots[j].epoch <= epoch
  }

  /** When this server last voted for a replica of each master. */
  type Voted = map<NodeId, int>

  function LastVoted(voted: Voted, master: NodeId): int { if master in voted then voted[master] else 0 }

  /** The checks on the requester; two votes about one master are at least twice the node timeout apart. */
  ghost predicate Eligible(r: Request, slots: seq<SlotView>, epoch: Epoch, voted: Voted, now: int, nodeTimeout: nat)
    requires |r.claimed| == |slots|
  {
    && !r.fromMaster && r.master.Known? && (r.masterFailed || r.forceAck)
    && now - LastVoted(voted, r.master.id) >= 2 * nodeTimeout
    && NoNewerOwner(r.claimed, slots, epoch)
  }

  /** In any state messages in flight may arrive or be lost, and end a handshake over their link. */
  lemma MayReceive(c: Cluster, me: NodeId, m: Msg, choice: bool, entry: NodeId, elect: Electorate)
    requires me in c.nodes && me in c.nodes[me].table && m.dst == me && m in c.net
    ensures Enabled(c, Drop(m), elect) && (m.src != me ==> Enabled(c, Deliver(m, choice), elect))
    ensures var n := c.nodes[me];
            m.src != me && m.body.Ping? && entry in n.table && n.table[entry].handshake ==>
              Enabled(c, FinishHandshake(m, entry), elect)
  {
  }

  /** In any state a server may talk to another node, follow, forget or learn it, and begin a handshake. */
  lemma MayMeet(c: Cluster, me: NodeId, peer: NodeId, master: bool, elect: Electorate)
    requires me in c.nodes && me in c.nodes[me].table
    ensures var n := c.nodes[me];
            && (peer != me ==> Enabled(c, SendPing(me, peer), elect) && Enabled(c, Forget(me, peer), elect))
            && (peer != me && peer in n.table ==>
                  Enabled(c, Demote(me, peer), elect) && Enabled(c, SendUpdate(me, peer, me), elect))
            && (peer !in n.table ==> Enabled(c, Learn(me, peer, master), elect))
            && (peer !in n.table && peer !in c.nodes ==> Enabled(c, StartHandshake(me, peer), elect))
  {
  }

  /** In any state a server may bump its epoch; a replica may take over, stand for election, and win it by majority. */
  lemma MayRise(c: Cluster, me: NodeId, epoch: Epoch, elect: Electorate)
    requires me in c.nodes && me in c.nodes[me].table
    ensures Enabled(c, BumpEpoch(me), elect)
    ensures var n := c.nodes[me];
            && (n.table.Keys == {me} && n.table[me].configEpoch == 0 ==> Enabled(c, SetConfigEpoch(me, epoch), elect))
            && (!n.master && n.slaveof.Known? ==>
                  && Enabled(c, Schedule(me), elect) && Enabled(c, Takeover(me), elect)
                  && (!n.authSent ==> Enabled(c, RequestVotes(me), elect))
                  && (n.authSent && 2 * n.authCount > |elect(n.authEpoch)| ==> Enabled(c, WinElection(me), elect)))
  {
  }

  /** What the failover timer looks at. */
  datatype Timer = Timer(
    now: int,
    nodeTimeout: nat,
    masterFailed: bool,
    masterSlots: nat,
    manual: bool,                 // a manual failover is on and may start
    manualEnd: bool,              // mf_end is set
    noFailover: bool,             // cluster-replica-no-failover
    dataAge: int,                 // time since the link to the master was good
    validity: nat,                // cluster-replica-validity-factor
    pingPeriod: nat,              // seconds
    rank: nat,
    delay: nat,                   // random, below 500
    size: nat)                    // masters serving slots

  function AuthTimeout(t: Timer): nat { if 2 * t.nodeTimeout < 2000 then 2000 else 2 * t.nodeTimeout }

  /** The replica's data is too old for an election. */
  predicate TooOld(t: Timer) {
    var age := if t.dataAge > t.nodeTimeout then t.dataAge - t.nodeTimeout else t.dataAge;
    t.validity != 0 && age > t.pingPeriod * 1000 + t.nodeTimeout * t.validity
  }

  /** There is a reason to fail over and nothing forbids it. */
  predicate MayFailover(t: Timer, n: Node) {
    && !n.master && n.slaveof.Known? && t.masterSlots != 0
    && (t.manual || (t.masterFailed && !t.noFailover && !TooOld(t)))
  }

  /** The start of the election, put off by a second for every rank lost since it was scheduled. */
  function StartTime(t: Timer, n: Node, authTime: int, authRank: nat): int {
    if !n.authSent && !t.manualEnd && t.rank > authRank then authTime + (t.rank - authRank) * 1000 else authTime
  }

  /** What a turn of the failover timer does. */
  datatype Action = Nothing | Scheduled | Requested | Won

  lemma NextSchedule(me: NodeId, n: Node, elect: Electorate)
    requires me in n.table
    ensures Next(me, n, Schedule(me), elect) == n.(authCount := 0, authSent := false, tally := {}, stale := 0)
  {
  }

  lemma NextCommands(me: NodeId, n: Node, to: NodeId, epoch: Epoch, elect: Electorate)
    requires me in n.table
    ensures Next(me, n, Demote(me, to), elect) == n.(master := false, slaveof := Known(to))
    ensures Next(me, n, StartHandshake(me, to), elect) == n.(table := n.table[to := Peer(0, false, true)])
    ensures Next(me, n, Forget(me, to), elect) == Without(n, to)
    ensures Next(me, n, Takeover(me), elect) == Promoted(Bumped(me, n))
    ensures Next(me, n, SetConfigEpoch(me, epoch), elect)
            == n.(table := n.table[me := n.table[me].(configEpoch := epoch)],
                  currentEpoch := Max(n.currentEpoch, epoch))
  {
  }

  lemma Alone(table: map<NodeId, Peer>, me: NodeId)
    requires me in table
    ensures |table| <= 1 <==> table.Keys == {me}
  {
    if |table| <= 1 {
      assert |table.Keys - {me}| == |table.Keys| - 1 == 0;
      assert table.Keys - {me} == {};
    }
  }

  /** The new value is the greater of the old one and the one heard of. */
  ghost predicate Raised(now: Epoch, before: Epoch, heard: Epoch) {
    before <= now && heard <= now && (now == before || now == heard)
  }

  // ---- What a PING or PONG changes --------------------------------------------------------------

  /** Two masters that announce one configEpoch, and the sender's name is the greater. */
  ghost predicate Collides(me: NodeId, n: Node, m: Msg, demoted: bool)
    requires me in n.table && m.src in n.table && m.body.Ping?
  {
    var announced := if n.table[m.src].handshake then 0 else m.configEpoch;
    && n.master && !demoted && m.body.master && me < m.src
    && announced == n.table[me].configEpoch && n.table[m.src].configEpoch <= announced
  }

  /** The sender's role and epochs are taken over, and a demoted server follows the sender. */
  lemma PingAdopts(me: NodeId, n: Node, m: Msg, demoted: bool)
    requires me in n.table && m.src in n.table && m.src != me && m.body.Ping?
    ensures var r := OnPing(me, n, m, demoted);
            && r.table.Keys == n.table.Keys && r.table[m.src].master == m.body.master
            && r.master == (n.master && !demoted) && r.slaveof == (if demoted then Known(m.src) else n.slaveof)
            && (!n.table[m.src].handshake ==>
                  && Raised(r.table[m.src].configEpoch, n.table[m.src].configEpoch, m.configEpoch)
                  && r.currentEpoch >= m.currentEpoch)
            && (n.table[m.src].handshake ==> r.table[m.src].configEpoch == n.table[m.src].configEpoch)
            && r.currentEpoch >= n.currentEpoch && r.lastVoteEpoch == n.lastVoteEpoch
            && r.authEpoch == n.authEpoch && r.authCount == n.authCount && r.authSent == n.authSent
            && forall p :: p in n.table && p != me && p != m.src ==> r.table[p] == n.table[p]
  {
  }

  /**
    The server gives its configEpoch up exactly on a collision it has to yield in; the new one exceeds the current
    epoch as both sides knew it, and so every epoch the server knows.  Otherwise its own entry stays.
   */
  lemma PingYields(me: NodeId, n: Node, m: Msg, demoted: bool)
    requires me in n.table && m.src in n.table && m.src != me && m.body.Ping?
    ensures var r := OnPing(me, n, m, demoted);
            if Collides(me, n, m, demoted)
            then && r.table[me] == n.table[me].(configEpoch := r.currentEpoch) && n.currentEpoch < r.currentEpoch
                 && (forall p :: p in n.table && n.table[p].configEpoch <= n.currentEpoch ==>
                       n.table[p].configEpoch < r.table[me].configEpoch)
                 && (!n.table[m.src].handshake ==> Raised(r.currentEpoch - 1, n.currentEpoch, m.currentEpoch))
            else && r.table[me] == n.table[me]
                 && (!n.table[m.src].handshake ==> Raised(r.currentEpoch, n.currentEpoch, m.currentEpoch))
  {
  }

  class Server {
    const me: NodeId
    var master: bool
    var slaveof: MaybeNode
    var currentEpoch: Epoch
    var lastVoteEpoch: Epoch
    var authEpoch: Epoch          // failover_auth_epoch
    var authCount: nat            // failover_auth_count
    var authSent: bool            // failover_auth_sent
    var table: map<NodeId, Peer>
    var voted: Voted              // voted_time of the masters
    var authTime: int             // failover_auth_time
    var authRank: nat             // failover_auth_rank
    ghost var tally: set<NodeId>
    ghost var stale: nat
    ghost var abandoned: seq<Epoch>

    ghost function View(): Node
      reads this
    {
      Node(master, slaveof, currentEpoch, lastVoteEpoch, authEpoch, authCount, authSent, table, tally, stale, abandoned)
    }

    constructor (name: NodeId)
      ensures me == name && me in table
      ensures View() == Node(true, NoNode, 0, 0, 0, 0, false, map[name := Peer(0, true, false)], {}, 0, [])
    {
      me := name;
      master, slaveof, currentEpoch, lastVoteEpoch := true, NoNode, 0, 0;
      authEpoch, authCount, authSent := 0, 0, false;
      table := map[name := Peer(0, true, false)];
      voted, authTime, authRank := map[], 0, 0;
      tally, stale, abandoned := {}, 0, [];
    }

    /** The epoch part of the header, for any packet type. */
    method ProcessHeader(m: Msg) returns (senderEpoch: Epoch, senderConfigEpoch: Epoch)
      requires m.src in table
      modifies this`currentEpoch, this`table
      ensures View() == Observe(old(View()), m)
      ensures senderEpoch == SenderEpoch(old(View()), m) && senderConfigEpoch == SenderConfigEpoch(old(View()), m)
      ensures old(table)[m.src].handshake ==> senderEpoch == senderConfigEpoch == 0
      ensures old(table)[m.src].handshake ==> currentEpoch == old(currentEpoch) && table == old(table)
      ensures !old(table)[m.src].handshake ==> senderEpoch == m.currentEpoch && senderConfigEpoch == m.configEpoch
      ensures !old(table)[m.src].handshake ==> Raised(currentEpoch, old(currentEpoch), m.currentEpoch)
      ensures !old(table)[m.src].handshake ==>
                Raised(table[m.src].configEpoch, old(table)[m.src].configEpoch, m.configEpoch)
      ensures table == old(table)[m.src := old(table)[m.src].(configEpoch := table[m.src].configEpoch)]
    {
      senderEpoch, senderConfigEpoch := 0, 0;
      var p := table[m.src];
      if !p.handshake {
        senderEpoch, senderConfigEpoch := m.currentEpoch, m.configEpoch;
        if senderEpoch > currentEpoch { currentEpoch := senderEpoch; }
        if senderConfigEpoch > p.configEpoch { table := table[m.src := p.(configEpoch := senderConfigEpoch)]; }
      }
      assert table == old(table)[m.src := table[m.src]];
    }

    /** clusterGetMaxEpoch: the greatest configEpoch of any known node, or the current epoch if greater. */
    method GetMaxEpoch() returns (max: Epoch)
      ensures currentEpoch <= max && forall p :: p in table ==> table[p].configEpoch <= max
      ensures max == currentEpoch || exists p :: p in table && table[p].configEpoch == max
    {
      max := 0;
      var todo := table.Keys;
      while todo != {}
        invariant todo <= table.Keys
        invariant forall p :: p in table && p !in todo ==> table[p].configEpoch <= max
        invariant max == 0 || exists p :: p in table && table[p].configEpoch == max
        decreases |todo|
      {
        var p :| p in todo;
        if table[p].configEpoch > max { max := table[p].configEpoch; }
        todo := todo - {p};
      }
      if max < currentEpoch { max := currentEpoch; }
    }

    /** clusterBumpConfigEpochWithoutConsensus. */
    method BumpConfigEpochWithoutConsensus() returns (bumped: bool)
      requires me in table
      modifies this`currentEpoch, this`table
      ensures View() == Bumped(me, old(View()))
      ensures bumped <==> old(table)[me].configEpoch == 0 || old(table)[me].configEpoch < old(currentEpoch)
                          || exists p :: p in old(table) && old(table)[p].configEpoch > old(table)[me].configEpoch
      ensures currentEpoch == old(currentEpoch) + if bumped then 1 else 0
      ensures table == if bumped then old(table)[me := old(table)[me].(configEpoch := currentEpoch)] else old(table)
    {
      var max := GetMaxEpoch();
      bumped := table[me].configEpoch == 0 || table[me].configEpoch != max;
      if bumped {
        currentEpoch := currentEpoch + 1;
        table := table[me := table[me].(configEpoch := currentEpoch)];
      }
    }

    /** CLUSTER FAILOVER TAKEOVER on a replica: a new epoch without asking anybody, and the role of a master. */
    method TakeoverCommand(ghost elect: Electorate)
      requires me in table
      modifies this`currentEpoch, this`table, this`master, this`slaveof
      ensures View() == Next(me, old(View()), Takeover(me), elect)
      ensures master && slaveof == NoNode
      ensures forall p :: p in old(table) && p != me ==> p in table && table[p] == old(table)[p]
      ensures 0 < table[me].configEpoch && currentEpoch <= table[me].configEpoch
    {
      NextCommands(me, View(), me, 0, elect);
      hide Next, Bumped;
      var bumped := BumpConfigEpochWithoutConsensus();
      master, slaveof := true, NoNode;
    }

    /** CLUSTER SET-CONFIG-EPOCH: only on a server that knows no other node and has no epoch yet. */
    method SetConfigEpochCommand(epoch: int, ghost elect: Electorate) returns (ok: bool)
      requires me in table
      modifies this`currentEpoch, this`table
      ensures ok <==> epoch >= 0 && old(table).Keys == {me} && old(table)[me].configEpoch == 0
      ensures ok ==> View() == Next(me, old(View()), SetConfigEpoch(me, epoch), elect)
      ensures ok ==> table == map[me := old(table)[me].(configEpoch := epoch)]
      ensures ok ==> Raised(currentEpoch, old(currentEpoch), epoch)
      ensures !ok ==> unchanged(this)
    {
      Alone(table, me);
      if epoch < 0 || |table| > 1 || table[me].configEpoch != 0 { return false; }
      NextCommands(me, View(), me, epoch, elect);
      hide Next;
      table := table[me := table[me].(configEpoch := epoch)];
      if currentEpoch < epoch { currentEpoch := epoch; }
      return true;
    }

    /** clusterSetMaster. */
    method SetMaster(to: NodeId, ghost elect: Electorate)
      requires me in table && to in table && to != me
      modifies this`master, this`slaveof
      ensures View() == Next(me, old(View()), Demote(me, to), elect)
      ensures !master && slaveof == Known(to)
    {
      NextCommands(me, View(), to, 0, elect);
      hide Next;
      master, slaveof := false, Known(to);
    }

    /** clusterStartHandshake: an entry under a random name, no master, without an epoch. */
    method StartHandshakeWith(entry: NodeId, ghost elect: Electorate)
      requires me in table && entry !in table
      modifies this`table
      ensures View() == Next(me, old(View()), StartHandshake(me, entry), elect)
      ensures table == old(table)[entry := Peer(0, false, true)]
    {
      NextCommands(me, View(), entry, 0, elect);
      hide Next;
      table := table[entry := Peer(0, false, true)];
    }

    /** clusterDelNode: the entry goes, and a replica of it is left without a master. */
    method ForgetNode(peer: NodeId, ghost elect: Electorate)
      requires me in table && peer != me
      modifies this`table, this`slaveof
      ensures View() == Next(me, old(View()), Forget(me, peer), elect)
      ensures table.Keys == old(table).Keys - {peer} && forall p :: p in table ==> table[p] == old(table)[p]
      ensures slaveof == if old(slaveof) == Known(peer) then NoNode else old(slaveof)
    {
      NextCommands(me, View(), peer, 0, elect);
      hide Next;
      table := table - {peer};
      if slaveof == Known(peer) { slaveof := NoNode; }
    }

    /** clusterHandleConfigEpochCollision. */
    method HandleConfigEpochCollision(sender: NodeId)
      requires me in table && sender in table
      modifies this`currentEpoch, this`table, this`abandoned
      ensures View() == ResolveCollision(me, old(View()), sender)
      ensures var gives := && old(table)[sender].configEpoch == old(table)[me].configEpoch
                           && old(table)[sender].master && master && me < sender;
              && currentEpoch == old(currentEpoch) + (if gives then 1 else 0)
              && table == if gives then old(table)[me := old(table)[me].(configEpoch := currentEpoch)] else old(table)
    {
      if table[sender].configEpoch != table[me].configEpoch || !table[sender].master || !master { return; }
      if sender <= me { return; }
      abandoned := abandoned + [table[me].configEpoch];
      currentEpoch := currentEpoch + 1;
      table := table[me := table[me].(configEpoch := currentEpoch)];
    }

    /** A PING or PONG; `demoted` says whether its slots leave this server without any. */
    method ProcessPing(m: Msg, demoted: bool)
      requires me in table && m.src in table && m.body.Ping?
      modifies this
      ensures View() == OnPing(me, old(View()), m, demoted)
      ensures voted == old(voted) && authTime == old(authTime) && authRank == old(authRank)
    {
      var _, senderConfigEpoch := ProcessHeader(m);
      table := table[m.src := table[m.src].(master := m.body.master)];
      if demoted && m.src != me { master, slaveof := false, Known(m.src); }
      if master && table[m.src].master && senderConfigEpoch == table[me].configEpoch {
        HandleConfigEpochCollision(m.src);
      }
    }

    /** An UPDATE about some node. */
    method ProcessUpdate(m: Msg)
      requires m.src in table && m.body.Update?
      modifies this`currentEpoch, this`table
      ensures View() == OnUpdate(old(View()), m)
      ensures m.body.about in old(table) ==>
                && m.body.about in table && table[m.body.about].configEpoch >= m.body.reported
                && (old(table)[m.body.about].configEpoch < m.body.reported && m.body.about != m.src ==>
                      table[m.body.about] == old(table)[m.body.about].(configEpoch := m.body.reported, master := true))
                && (old(table)[m.body.about].configEpoch >= m.body.reported ==>
                      table[m.body.about].master == old(table)[m.body.about].master)
      ensures table.Keys == old(table).Keys
      ensures forall p :: p in table && p != m.src && p != m.body.about ==> table[p] == old(table)[p]
    {
      var _, _ := ProcessHeader(m);
      var n := m.body.about;
      if n !in table || table[n].configEpoch >= m.body.reported { return; }
      table := table[n := table[n].(master := true)];
      table := table[n := table[n].(configEpoch := m.body.reported)];
    }

    /** A PING or PONG over the link of an entry in handshake. */
    method ProcessHandshakeReply(m: Msg, entry: NodeId)
      requires m.body.Ping? && entry in table && table[entry].handshake
      modifies this`currentEpoch, this`table, this`slaveof
      ensures View() == OnHandshakeReply(old(View()), m, entry)
      ensures entry != m.src ==> table.Keys == old(table).Keys - {entry} + {m.src}
      ensures m.src !in old(table) ==> table[m.src] == Peer(0, m.body.master, false)
      ensures forall p :: p in table && p != m.src ==> table[p] == old(table)[p]
      ensures slaveof == if old(slaveof) != Known(entry) then old(slaveof)
                         else if m.src in old(table) then NoNode else Known(m.src)
    {
      if m.src in table {
        var _, _ := ProcessHeader(m);
        table := table - {entry};
        if slaveof == Known(entry) { slaveof := NoNode; }
      } else {
        table := table - {entry};
        table := table[m.src := Peer(0, m.body.master, false)];
        if slaveof == Known(entry) { slaveof := Known(m.src); }
      }
    }

    /** clusterSendFailoverAuthIfNeeded after the header; the electorate of an epoch is who serves slots in it. */
    method SendFailoverAuthIfNeeded(m: Msg, r: Request, slots: seq<SlotView>, numslots: nat, now: int, nodeTimeout: nat,
                                    ghost elect: Electorate)
      returns (granted: bool)
      requires |r.claimed| == |slots| && (numslots > 0 <==> me in elect(currentEpoch))
      modifies this`lastVoteEpoch, this`voted
      ensures var eligible := Eligible(r, slots, m.configEpoch, old(voted), now, nodeTimeout);
              granted == Grants(me, old(View()), m, eligible, elect)
      ensures granted <==>
                && master && numslots > 0 && m.currentEpoch >= currentEpoch && old(lastVoteEpoch) != currentEpoch
                && !r.fromMaster && r.master.Known? && (r.masterFailed || r.forceAck)
                && (r.master.id in old(voted) ==> now - old(voted)[r.master.id] >= 2 * nodeTimeout)
                && (r.master.id !in old(voted) ==> now >= 2 * nodeTimeout)
                && forall j :: 0 <= j < |slots| && r.claimed[j] && slots[j].HeldUnder? ==>
                     slots[j].epoch <= m.configEpoch
      ensures lastVoteEpoch == if granted then currentEpoch else old(lastVoteEpoch)
      ensures granted ==> r.master.Known?
      ensures voted == if granted then old(voted)[r.master.id := now] else old(voted)
    {
      if !master || numslots == 0 { return false; }
      if m.currentEpoch < currentEpoch { return false; }
      if lastVoteEpoch == currentEpoch { return false; }
      if r.fromMaster || r.master == NoNode || (!r.masterFailed && !r.forceAck) { return false; }
      if now - LastVoted(voted, r.master.id) < nodeTimeout * 2 { return false; }
      var j := 0;
      while j < |slots|
        invariant 0 <= j <= |slots| && lastVoteEpoch == old(lastVoteEpoch) && voted == old(voted)
        invariant forall i :: 0 <= i < j && r.claimed[i] && slots[i].HeldUnder? ==> slots[i].epoch <= m.configEpoch
      {
        if r.claimed[j] && slots[j].HeldUnder? && slots[j].epoch > m.configEpoch { return false; }
        j := j + 1;
      }
      lastVoteEpoch := currentEpoch;
      voted := voted[r.master.id := now];
      return true;
    }

    /** FAILOVER_AUTH_REQUEST. */
    method ProcessAuthRequest(m: Msg, r: Request, slots: seq<SlotView>, numslots: nat, now: int, nodeTimeout: nat,
                              ghost elect: Electorate)
      returns (granted: bool)
      requires m.src in table && |r.claimed| == |slots|
      requires numslots > 0 <==> me in elect(Observe(View(), m).currentEpoch)
      modifies this`currentEpoch, this`table, this`lastVoteEpoch, this`voted
      ensures var eligible := Eligible(r, slots, m.configEpoch, old(voted), now, nodeTimeout);
              && View() == OnAuthRequest(me, old(View()), m, eligible, elect)
              && granted == Grants(me, Observe(old(View()), m), m, eligible, elect)
      ensures granted ==> r.master.Known?
      ensures voted == if granted then old(voted)[r.master.id := now] else old(voted)
    {
      var _, _ := ProcessHeader(m);
      granted := SendFailoverAuthIfNeeded(m, r, slots, numslots, now, nodeTimeout, elect);
    }

    /** FAILOVER_AUTH_ACK; `serves` says whether the sender is a master serving slots. */
    method ProcessAuthAck(m: Msg, serves: bool, ghost elect: Electorate)
      requires m.src in table && (serves <==> m.src in elect(authEpoch))
      modifies this`currentEpoch, this`table, this`authCount, this`tally, this`stale
      ensures View() == OnAuthAck(old(View()), m, elect)
      ensures var epoch := if old(table)[m.src].handshake then 0 else m.currentEpoch;
              authCount == old(authCount) + if serves && epoch >= authEpoch then 1 else 0
    {
      var senderEpoch, _ := ProcessHeader(m);
      if serves && senderEpoch >= authEpoch {
        authCount := authCount + 1;
        if authSent { tally := tally + {m.src}; } else { stale := stale + 1; }
      }
    }

    /** What clusterHandleSlaveFailover has to do now. */
    ghost function Due(t: Timer): Action
      reads this
    {
      var age := t.now - authTime;
      if !MayFailover(t, View()) then Nothing
      else if age > 2 * AuthTimeout(t) then Scheduled
      else if t.now < StartTime(t, View(), authTime, authRank) || age > AuthTimeout(t) then Nothing
      else if !authSent then Requested
      else if authCount >= t.size / 2 + 1 then Won
      else Nothing
    }

    /** The checks of clusterHandleSlaveFailover before it looks at the election. */
    method MayStart(t: Timer) returns (ok: bool)
      ensures ok == MayFailover(t, View())
      ensures ok <==>
                && !master && slaveof.Known? && t.masterSlots != 0
                && (t.manual
                    || (&& t.masterFailed && !t.noFailover
                        && (t.validity == 0
                            || t.dataAge <= t.nodeTimeout + t.nodeTimeout * t.validity + t.pingPeriod * 1000)))
    {
      TooOldWhen(t);
      if master || slaveof == NoNode || t.masterSlots == 0 || (!t.masterFailed && !t.manual)
         || (t.noFailover && !t.manual) {
        return false;
      }
      var dataAge := if t.dataAge > t.nodeTimeout then t.dataAge - t.nodeTimeout else t.dataAge;
      if t.validity != 0 && dataAge > t.pingPeriod * 1000 + t.nodeTimeout * t.validity && !t.manual { return false; }
      return true;
    }

    /** clusterHandleSlaveFailover: the action that is due, and what the machine's step for it does to the state. */
    method HandleSlaveFailover(t: Timer, ghost elect: Electorate) returns (action: Action)
      requires me in table && t.size == |elect(authEpoch)|
      modifies this
      ensures action == old(Due(t)) && voted == old(voted)
      ensures action == Nothing || old(MayFailover(t, View()) && !master && slaveof.Known?)
      ensures action == Requested ==> !old(authSent)
      ensures action == Won ==> old(authSent) && old(authCount) >= Quorum(elect, old(authEpoch))
      ensures View() == match action
                        case Nothing => old(View())
                        case Scheduled => Next(me, old(View()), Schedule(me), elect)
                        case Requested => Next(me, old(View()), RequestVotes(me), elect)
                        case Won => Next(me, old(View()), WinElection(me), elect)
      ensures action == Scheduled ==>
                authTime == t.now + (if t.manualEnd then 0 else 500 + t.delay + 1000 * authRank)
                && authRank == if t.manualEnd then 0 else t.rank
      ensures action == Requested || action == Won ==>
                authTime == old(StartTime(t, View(), authTime, authRank)) <= t.now
      ensures action == Nothing ==>
                authTime == old(authTime) || authTime == old(StartTime(t, View(), authTime, authRank))
      ensures if action == Won
              then && master && slaveof == NoNode
                   && Raised(table[me].configEpoch, old(table)[me].configEpoch, authEpoch)
                   && table == old(table)[me := old(table)[me].(configEpoch := table[me].configEpoch)]
              else master == old(master) && slaveof == old(slaveof) && table == old(table)
      ensures if action == Requested then authSent && currentEpoch == authEpoch == old(currentEpoch) + 1
              else currentEpoch == old(currentEpoch) && authEpoch == old(authEpoch)
      ensures if action == Scheduled then !authSent && authCount == 0 else authCount == old(authCount)
      ensures lastVoteEpoch == old(lastVoteEpoch)
    {
      hide Next, Raised, MayFailover;
      var quorum := t.size / 2 + 1;
      var age := t.now - authTime;
      var authTimeout := t.nodeTimeout * 2;
      if authTimeout < 2000 { authTimeout := 2000; }
      var may := MayStart(t);
      if !may { return Nothing; }
      if age > authTimeout * 2 { ScheduleElection(t, elect); return Scheduled; }
      PutOff(t);
      if t.now < authTime || age > authTimeout { return Nothing; }
      if !authSent { RequestFailoverAuth(elect); return Requested; }
      if authCount >= quorum { TakeOver(elect); return Won; }
      return Nothing;
    }

    /** A new attempt: half a second to a second from now and a second more for every rank, or at once if manual. */
    method ScheduleElection(t: Timer, ghost elect: Electorate)
      requires me in table
      modifies this`authTime, this`authRank, this`authCount, this`authSent, this`tally, this`stale
      ensures View() == Next(me, old(View()), Schedule(me), elect)
      ensures !authSent && authCount == 0 && authRank == if t.manualEnd then 0 else t.rank
      ensures authTime == t.now + (if t.manualEnd then 0 else 500 + t.delay + 1000 * authRank)
    {
      NextSchedule(me, View(), elect);
      hide Next;
      authTime := t.now + 500 + t.delay;
      authCount, authSent := 0, false;
      authRank := t.rank;
      authTime := authTime + authRank * 1000;
      if t.manualEnd { authTime, authRank := t.now, 0; }
      tally, stale := {}, 0;
    }

    /** The start is put off if the rank has grown. */
    method PutOff(t: Timer)
      modifies this`authTime, this`authRank
      ensures authTime == old(StartTime(t, View(), authTime, authRank))
      ensures if !authSent && !t.manualEnd && t.rank > old(authRank)
              then authTime == old(authTime) + 1000 * (t.rank - old(authRank)) && authRank == t.rank
              else authTime == old(authTime) && authRank == old(authRank)
    {
      if !authSent && !t.manualEnd && t.rank > authRank {
        authTime := authTime + (t.rank - authRank) * 1000;
        authRank := t.rank;
      }
    }

    /** The vote request. */
    method RequestFailoverAuth(ghost elect: Electorate)
      requires me in table
      modifies this`currentEpoch, this`authEpoch, this`authSent
      ensures View() == Next(me, old(View()), RequestVotes(me), elect)
      ensures authSent && currentEpoch == authEpoch == old(currentEpoch) + 1
    {
      currentEpoch := currentEpoch + 1;
      authEpoch := currentEpoch;
      authSent := true;
    }

    /** The election is won: its epoch becomes the configEpoch. */
    method TakeOver(ghost elect: Electorate)
      requires me in table
      modifies this`table, this`master, this`slaveof
      ensures View() == Next(me, old(View()), WinElection(me), elect)
      ensures master && slaveof == NoNode && Raised(table[me].configEpoch, old(table)[me].configEpoch, authEpoch)
      ensures table == old(table)[me := old(table)[me].(configEpoch := table[me].configEpoch)]
    {
      if table[me].configEpoch < authEpoch { table := table[me := table[me].(configEpoch := authEpoch)]; }
      assert table == old(table)[me := table[me]];
      master, slaveof := true, NoNode;
    }
  }

  /** A replica's data is too old exactly when the link was down for longer than all the allowances together. */
  lemma TooOldWhen(t: Timer)
    ensures TooOld(t) <==>
            t.validity != 0 && t.dataAge > t.nodeTimeout + t.nodeTimeout * t.validity + t.pingPeriod * 1000
  {
    if t.validity != 0 { assert t.nodeTimeout * t.validity >= t.nodeTimeout * 1; }
  }

  /** When the failover timer of a replica of a master with slots acts, in plain times. */
  lemma ActsWhen(s: Server, t: Timer)
    requires !s.master && s.slaveof.Known? && t.masterSlots != 0
    ensures s.Due(t) != Nothing ==> t.manual || (t.masterFailed && !t.noFailover && !TooOld(t))
    ensures s.Due(t) == Scheduled ==> t.now > s.authTime + 4 * t.nodeTimeout && t.now > s.authTime + 4000
    ensures s.Due(t) == Requested || s.Due(t) == Won ==>
              s.authTime <= t.now && (t.now <= s.authTime + 2 * t.nodeTimeout || t.now <= s.authTime + 2000)
    ensures s.Due(t) == Requested && !t.manualEnd && t.rank > s.authRank ==>
              s.authTime + 1000 * (t.rank - s.authRank) <= t.now
    ensures s.Due(t) == Won ==> 2 * s.authCount > t.size
    ensures t.manual || (t.masterFailed && !t.noFailover && !TooOld(t)) ==>
              && (t.now > s.authTime + 4 * t.nodeTimeout && t.now > s.authTime + 4000 ==> s.Due(t) == Scheduled)
              && (s.authTime <= t.now <= s.authTime + 2 * t.nodeTimeout ==>
                    && (!s.authSent && (t.manualEnd || t.rank <= s.authRank) ==> s.Due(t) == Requested)
                    && (s.authSent && 2 * s.authCount > t.size ==> s.Due(t) == Won))
  {
    hide TooOld;
  }
}
