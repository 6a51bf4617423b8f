/**
  Config epoch collisions (section "configEpoch conflicts resolution algorithm" of the Redis
  Cluster Specification): in runs of message deliveries among masters, heartbeats and the UPDATEs
  they bring about, collisions are resolved by a bounded number of bumps, and only a state with
  pairwise distinct epochs is at rest.
 */
module EpochCollision {
  import opened Bits
  import opened ClusterProtocol

  type Nodes = map<NodeId, Node>

  /**
    The steps of such a run: sending heartbeats and UPDATEs, and delivering or losing any message.
    No heartbeat demotes its receiver.
   */
  predicate Messaging(s: Step) {
    s.SendPing? || s.SendUpdate? || s.Drop? || (s.Deliver? && !s.choice)
  }

  /** The config epoch a node has; zero if it does not know itself. */
  ghost function Own(id: NodeId, n: Node): Epoch {
    if id in n.table then n.table[id].configEpoch else 0
  }

  /** Has the node ever had this config epoch? */
  ghost predicate Held(id: NodeId, n: Node, x: Epoch) { x in n.abandoned || x == Own(id, n) }

  // ---- The invariant ----------------------------------------------------------------------

  /** A master past its handshakes that knows itself; its abandoned epochs are distinct and old. */
  ghost predicate NodeOk(id: NodeId, n: Node) {
    && n.master && id in n.table
    && (forall p :: p in n.table ==> n.table[p].master && !n.table[p].handshake)
    && Own(id, n) <= n.currentEpoch
    && (forall i :: 0 <= i < |n.abandoned| ==> n.abandoned[i] < Own(id, n))
    && (forall i, j :: 0 <= i < j < |n.abandoned| ==> n.abandoned[i] < n.abandoned[j])
  }

  ghost predicate HeldAbove(id: NodeId, x: Epoch, nodes: Nodes) {
    exists s :: s in nodes && s > id && Held(s, nodes[s], x)
  }

  /** Whatever a node abandoned was held by a node with a greater name. */
  ghost predicate AbandonedOk(id: NodeId, nodes: Nodes)
    requires id in nodes
  {
    forall x :: x in nodes[id].abandoned ==> HeldAbove(id, x, nodes)
  }

  /** What a node knows of the others never runs ahead of them. */
  ghost predicate ViewsOk(id: NodeId, nodes: Nodes)
    requires id in nodes
  {
    forall p :: p in nodes[id].table ==> ViewOk(nodes[id], p, nodes)
  }

  ghost predicate NodesOk(nodes: Nodes) {
    && (forall id :: id in nodes ==> NodeOk(id, nodes[id]))
    && (forall id :: id in nodes ==> AbandonedOk(id, nodes))
    && (forall id :: id in nodes ==> ViewsOk(id, nodes))
  }

  ghost predicate ViewOk(n: Node, p: NodeId, nodes: Nodes) {
    p in n.table && p in nodes && n.table[p].configEpoch <= Own(p, nodes[p])
  }

  /** A message announces an epoch its sender has held, and an UPDATE runs not ahead of the node it is about. */
  ghost predicate MsgOk(m: Msg, nodes: Nodes) {
    && m.src in nodes && Held(m.src, nodes[m.src], m.configEpoch)
    && match m.body
       case Ping(master) => master
       case Update(about, reported) => about in nodes && reported <= Own(about, nodes[about])
       case _ => false
  }

  ghost predicate Inv(c: Cluster) {
    NodesOk(c.nodes) && forall m :: m in c.net ==> MsgOk(m, c.nodes)
  }

  /** No epoch has been given up yet. */
  ghost predicate Initial(c: Cluster) {
    Inv(c) && forall id :: id in c.nodes ==> c.nodes[id].abandoned == []
  }

  // ---- Steps ---------------------------------------------------------------------------------

  /** Epochs are only ever gained: what was held stays held, and the own epoch does not fall. */
  ghost predicate Gains(id: NodeId, n: Node, n': Node) {
    && Own(id, n) <= Own(id, n')
    && (forall x :: Held(id, n, x) ==> Held(id, n', x))
  }

  lemma AboveStep(nodes: Nodes, me: NodeId, n': Node, id: NodeId, x: Epoch)
    requires me in nodes && Gains(me, nodes[me], n') && HeldAbove(id, x, nodes)
    ensures HeldAbove(id, x, nodes[me := n'])
  {
    hide Held;
    var s :| s in nodes && s > id && Held(s, nodes[s], x);
    assert Held(s, nodes[me := n'][s], x);
  }

  lemma AbandonedStep(nodes: Nodes, me: NodeId, n': Node, id: NodeId)
    requires me in nodes && id in nodes && Gains(me, nodes[me], n')
    requires if id == me then forall x :: x in n'.abandoned ==> HeldAbove(me, x, nodes) else AbandonedOk(id, nodes)
    ensures AbandonedOk(id, nodes[me := n'])
  {
    hide HeldAbove;
    var nodes' := nodes[me := n'];
    forall x | x in nodes'[id].abandoned ensures HeldAbove(id, x, nodes') {
      AboveStep(nodes, me, n', id, x);
    }
  }

  lemma ViewsStep(nodes: Nodes, me: NodeId, n': Node, id: NodeId)
    requires me in nodes && id in nodes && Gains(me, nodes[me], n')
    requires if id == me then forall p :: p in n'.table && p != me ==> ViewOk(n', p, nodes) else ViewsOk(id, nodes)
    ensures ViewsOk(id, nodes[me := n'])
  {
    hide Held;
    var nodes' := nodes[me := n'];
    forall p | p in nodes'[id].table ensures ViewOk(nodes'[id], p, nodes') {
      if id != me { assert ViewOk(nodes[id], p, nodes); }
    }
  }

  lemma NodesStep(nodes: Nodes, me: NodeId, n': Node)
    requires NodesOk(nodes) && me in nodes && NodeOk(me, n') && Gains(me, nodes[me], n')
    requires forall x :: x in n'.abandoned ==> HeldAbove(me, x, nodes)
    requires forall p :: p in n'.table && p != me ==> ViewOk(n', p, nodes)
    ensures NodesOk(nodes[me := n'])
  {
    hide NodeOk, AbandonedOk, ViewsOk, HeldAbove, ViewOk, Gains;
    var nodes' := nodes[me := n'];
    forall id | id in nodes' ensures NodeOk(id, nodes'[id]) && AbandonedOk(id, nodes') && ViewsOk(id, nodes') {
      AbandonedStep(nodes, me, n', id);
      ViewsStep(nodes, me, n', id);
    }
  }

  /** What a delivered heartbeat does to the receiver. */
  lemma PingEffect(me: NodeId, n: Node, m: Msg)
    requires NodeOk(me, n) && m.src in n.table && m.src != me && m.body == Ping(true)
    ensures var n' := OnPing(me, n, m, false);
            && n'.table.Keys == n.table.Keys
            && NodeOk(me, n')
            && (forall p :: p in n.table && p != me && p != m.src ==> n'.table[p] == n.table[p])
            && n'.table[m.src].configEpoch == Max(n.table[m.src].configEpoch, m.configEpoch)
            && (if m.src > me && m.configEpoch == Own(me, n) && n.table[m.src].configEpoch <= m.configEpoch
                then && n'.abandoned == n.abandoned + [Own(me, n)] && Own(me, n) < Own(me, n')
                     && n.currentEpoch < Own(me, n') && m.currentEpoch < Own(me, n') == n'.currentEpoch
                else n'.abandoned == n.abandoned && Own(me, n') == Own(me, n))
  {
  }

  lemma DeliverStep(nodes: Nodes, me: NodeId, m: Msg)
    requires NodesOk(nodes) && me in nodes && MsgOk(m, nodes) && m.src in nodes[me].table && m.src != me && m.body.Ping?
    ensures NodesOk(nodes[me := OnPing(me, nodes[me], m, false)])
    ensures Gains(me, nodes[me], OnPing(me, nodes[me], m, false))
  {
    hide OnPing, NodeOk, AbandonedOk, ViewsOk, HeldAbove, ViewOk, Gains;
    PingEffect(me, nodes[me], m);
    PingGains(nodes, me, m);
    NodesStep(nodes, me, OnPing(me, nodes[me], m, false));
  }

  lemma PingGains(nodes: Nodes, me: NodeId, m: Msg)
    requires me in nodes && NodeOk(me, nodes[me]) && m.src in nodes && NodeOk(m.src, nodes[m.src])
    requires AbandonedOk(me, nodes) && ViewsOk(me, nodes)
    requires MsgOk(m, nodes) && m.src in nodes[me].table && m.src != me && m.body.Ping?
    ensures var n' := OnPing(me, nodes[me], m, false);
            && Gains(me, nodes[me], n')
            && (forall x :: x in n'.abandoned ==> HeldAbove(me, x, nodes))
            && (forall p :: p in n'.table && p != me ==> ViewOk(n', p, nodes))
  {
    var n := nodes[me];
    var n' := OnPing(me, n, m, false);
    PingEffect(me, n, m);
    hide OnPing;
    forall x | x in n'.abandoned ensures HeldAbove(me, x, nodes) {
      if x !in n.abandoned { assert x == Own(me, n) && Held(m.src, nodes[m.src], x); }
    }
    forall p | p in n'.table && p != me ensures ViewOk(n', p, nodes) {
      assert ViewOk(n, p, nodes);
    }
  }

  /** What a delivered UPDATE does to the receiver: its own epoch stays, one view or two are raised. */
  lemma UpdateEffect(me: NodeId, n: Node, m: Msg)
    requires NodeOk(me, n) && m.src in n.table && m.src != me && m.body.Update?
    requires m.body.about == me ==> m.body.reported <= Own(me, n)
    ensures var n' := OnUpdate(n, m);
            && n'.table.Keys == n.table.Keys && NodeOk(me, n')
            && n'.abandoned == n.abandoned && Own(me, n') == Own(me, n)
            && (m.body.about in n.table ==>
                  && n'.table[m.body.about].configEpoch >= m.body.reported
                  && (m.body.about != m.src && n.table[m.body.about].configEpoch < n'.table[m.body.about].configEpoch
                      ==> n'.table[m.body.about].master))
            && forall p :: p in n.table && p != me ==>
                 || n'.table[p].configEpoch == n.table[p].configEpoch
                 || (p == m.src && n'.table[p].configEpoch == m.configEpoch)
                 || (p == m.body.about && n'.table[p].configEpoch == m.body.reported)
  {
  }

  lemma UpdateGains(nodes: Nodes, me: NodeId, m: Msg)
    requires me in nodes && NodeOk(me, nodes[me]) && m.src in nodes && NodeOk(m.src, nodes[m.src])
    requires ViewsOk(me, nodes)
    requires MsgOk(m, nodes) && m.src in nodes[me].table && m.src != me && m.body.Update?
    ensures var n' := OnUpdate(nodes[me], m);
            && NodeOk(me, n') && Gains(me, nodes[me], n') && n'.abandoned == nodes[me].abandoned
            && (forall p :: p in n'.table && p != me ==> ViewOk(n', p, nodes))
  {
    var n := nodes[me];
    UpdateEffect(me, n, m);
    hide OnUpdate;
    var n' := OnUpdate(n, m);
    forall p | p in n'.table && p != me ensures ViewOk(n', p, nodes) { assert ViewOk(n, p, nodes); }
  }

  lemma UpdateStep(nodes: Nodes, me: NodeId, m: Msg)
    requires NodesOk(nodes) && me in nodes && MsgOk(m, nodes) && m.src in nodes[me].table && m.src != me
             && m.body.Update?
    ensures NodesOk(nodes[me := OnUpdate(nodes[me], m)])
    ensures Gains(me, nodes[me], OnUpdate(nodes[me], m))
  {
    hide OnUpdate, NodeOk, ViewsOk, HeldAbove, ViewOk, Gains;
    UpdateGains(nodes, me, m);
    assert AbandonedOk(me, nodes);
    NodesStep(nodes, me, OnUpdate(nodes[me], m));
  }

  lemma MsgStep(nodes: Nodes, me: NodeId, n': Node, m: Msg)
    requires me in nodes && Gains(me, nodes[me], n') && MsgOk(m, nodes)
    ensures MsgOk(m, nodes[me := n'])
  {
    hide Held;
  }

  /** What a message that a node of such a run can receive does to it. */
  ghost function OnMessage(me: NodeId, n: Node, m: Msg): Node
    requires me in n.table && m.src in n.table
  {
    match m.body
    case Ping(_) => OnPing(me, n, m, false)
    case Update(_, _) => OnUpdate(n, m)
    case _ => n
  }

  /** A message that a node sends of itself. */
  ghost predicate SentBy(m: Msg, me: NodeId, n: Node) {
    || m == Message(me, n, m.dst, Ping(n.master))
    || (m.body.Update? && m.body.about in n.table
        && m == Message(me, n, m.dst, Update(m.body.about, n.table[m.body.about].configEpoch)))
  }

  /** What an enabled step of such a run does. */
  lemma DeliverEffect(c: Cluster, m: Msg, elect: Electorate)
    requires Enabled(c, Deliver(m, false), elect) && (m.body.Ping? || m.body.Update?)
    ensures var n, c' := c.nodes[m.dst], Apply(c, Deliver(m, false), elect);
            && m in c.net && m.src != m.dst && m.dst in n.table && c'.net <= c.net
            && c'.nodes == if m.src in n.table then c.nodes[m.dst := OnMessage(m.dst, n, m)] else c.nodes
  {
    hide OnPing, OnUpdate;
  }

  lemma SendEffect(c: Cluster, s: Step, elect: Electorate)
    requires Enabled(c, s, elect) && (s.SendPing? || s.SendUpdate? || s.Drop?)
    ensures Apply(c, s, elect).nodes == c.nodes
    ensures forall m :: m in Apply(c, s, elect).net ==> m in c.net || SentBy(m, Actor(s), c.nodes[Actor(s)])
  {
    hide Announced;
  }

  lemma StepKeepsInv(c: Cluster, s: Step, elect: Electorate)
    requires Inv(c) && Messaging(s)
    ensures Inv(Apply(c, s, elect))
  {
    hide NodesOk;
    if Enabled(c, s, elect) {
      if s.Deliver? {
        var m := s.m;
        assert MsgOk(m, c.nodes);
        DeliverEffect(c, m, elect);
        hide MsgOk, Apply, Enabled, OnMessage;
        var c' := Apply(c, s, elect);
        if m.src in c.nodes[m.dst].table { DeliverApplied(c, c', m); }
      } else {
        SendEffect(c, s, elect);
        hide MsgOk, Apply, Enabled, SentBy;
        var c' := Apply(c, s, elect);
        forall m | m in c'.net ensures MsgOk(m, c'.nodes) {
          if m !in c.net { OwnMessage(c.nodes, Actor(s), m); }
        }
      }
    } else {
      assert Apply(c, s, elect) == c;
    }
  }

  lemma OwnMessage(nodes: Nodes, me: NodeId, m: Msg)
    requires NodesOk(nodes) && me in nodes && SentBy(m, me, nodes[me])
    ensures MsgOk(m, nodes)
  {
    hide NodesOk;
    Facts(nodes, me);
    if m.body.Update? { assert ViewOk(nodes[me], m.body.about, nodes); }
  }

  lemma DeliverApplied(c: Cluster, c': Cluster, m: Msg)
    requires Inv(c) && m in c.net && m.dst in c.nodes && m.src in c.nodes[m.dst].table && m.src != m.dst
    requires m.dst in c.nodes[m.dst].table
    requires c'.nodes == c.nodes[m.dst := OnMessage(m.dst, c.nodes[m.dst], m)] && c'.net <= c.net
    ensures Inv(c')
  {
    assert MsgOk(m, c.nodes) && (m.body.Ping? || m.body.Update?);
    hide OnPing, OnUpdate, NodesOk, Gains, MsgOk;
    if m.body.Ping? { DeliverStep(c.nodes, m.dst, m); } else { UpdateStep(c.nodes, m.dst, m); }
    forall k | k in c'.net ensures MsgOk(k, c'.nodes) {
      assert k in c.net;
      MsgStep(c.nodes, m.dst, OnMessage(m.dst, c.nodes[m.dst], m), k);
    }
  }

  lemma {:induction false} RunKeepsInv(c0: Cluster, steps: seq<Step>, elect: Electorate)
    requires Inv(c0) && forall i :: 0 <= i < |steps| ==> Messaging(steps[i])
    ensures Inv(Run(c0, steps, elect))
    decreases |steps|
  {
    hide Inv, Apply;
    if steps != [] {
      var most := steps[..|steps| - 1];
      RunKeepsInv(c0, most, elect);
      StepKeepsInv(Run(c0, most, elect), steps[|steps| - 1], elect);
    }
  }

  // ---- Counting bumps ---------------------------------------------------------------------

  ghost function Above(id: NodeId, nodes: Nodes): set<NodeId> { set s | s in nodes && s > id }

  /** A set of nodes that contains every node above each of its members. */
  ghost predicate Upward(up: set<NodeId>, nodes: Nodes) {
    up <= nodes.Keys && forall a, b | a in up && b in nodes :: a < b ==> b in up
  }

  ghost function Elements(s: seq<Epoch>): set<Epoch> { set x | x in s }

  ghost function HeldSet(id: NodeId, n: Node): set<Epoch> { Elements(n.abandoned) + {Own(id, n)} }

  ghost predicate IsLeast(m: NodeId, s: set<NodeId>) { m in s && forall q :: q in s ==> m <= q }

  lemma {:induction false} LeastExists(s: set<NodeId>)
    requires s != {}
    ensures exists m :: IsLeast(m, s)
    decreases s
  {
    var m :| m in s;
    if s == {m} {
      assert IsLeast(m, s);
    } else {
      LeastExists(s - {m});
      var r :| IsLeast(r, s - {m});
      assert forall q :: q in s ==> q == m || q in s - {m};
      assert IsLeast(if r < m then r else m, s);
    }
  }

  ghost function Least(s: set<NodeId>): (m: NodeId)
    requires s != {}
    ensures IsLeast(m, s)
  {
    LeastExists(s);
    var m :| IsLeast(m, s); m
  }

  lemma {:induction false} DistinctElements(s: seq<Epoch>)
    requires forall i, j :: 0 <= i < j < |s| ==> s[i] < s[j]
    ensures |Elements(s)| == |s|
  {
    if s != [] {
      var most, last := s[..|s| - 1], s[|s| - 1];
      DistinctElements(most);
      assert s == most + [last];
      assert Elements(s) == Elements(most) + {last};
      assert last !in Elements(most);
    }
  }

  lemma HeldSetSize(id: NodeId, n: Node)
    requires NodeOk(id, n)
    ensures |HeldSet(id, n)| == |n.abandoned| + 1
  {
    DistinctElements(n.abandoned);
    assert Own(id, n) !in Elements(n.abandoned);
  }

  lemma SubsetSize(a: set<Epoch>, b: set<Epoch>)
    requires a <= b
    ensures |a| <= |b|
  {
    assert a + (b - a) == b;
  }

  /** All epochs the members of an upward set ever held number at most 2^size - 1. */
  lemma {:induction false} UpwardHeld(up: set<NodeId>, nodes: Nodes) returns (all: set<Epoch>)
    requires NodesOk(nodes) && Upward(up, nodes)
    ensures forall s, x :: s in up && Held(s, nodes[s], x) ==> x in all
    ensures |all| <= Pow2(|up|) - 1
    decreases up
  {
    hide NodesOk;
    if up == {} {
      all := {};
    } else {
      var m := Least(up);
      var rest := UpwardHeld(up - {m}, nodes);
      all := rest + HeldSet(m, nodes[m]);
      BumpsWithin(m, nodes, up - {m}, rest);
      AbandonedSize(m, nodes);
      assert |up - {m}| == |up| - 1;
      assert forall x :: Held(m, nodes[m], x) ==> x in HeldSet(m, nodes[m]);
    }
  }

  lemma AbandonedSize(id: NodeId, nodes: Nodes)
    requires NodesOk(nodes) && id in nodes
    ensures |Elements(nodes[id].abandoned)| == |nodes[id].abandoned|
    ensures |HeldSet(id, nodes[id])| == |nodes[id].abandoned| + 1
    ensures AbandonedOk(id, nodes)
  {
    hide AbandonedOk, ViewsOk;
    assert NodeOk(id, nodes[id]);
    DistinctElements(nodes[id].abandoned);
    HeldSetSize(id, nodes[id]);
  }

  /** A node gave up no more epochs than the nodes above it ever held. */
  lemma BumpsWithin(id: NodeId, nodes: Nodes, up: set<NodeId>, all: set<Epoch>)
    requires NodesOk(nodes) && id in nodes
    requires forall s :: s in nodes && s > id ==> s in up && s in nodes
    requires up <= nodes.Keys
    requires forall s, x :: s in up && Held(s, nodes[s], x) ==> x in all
    ensures |nodes[id].abandoned| <= |all|
  {
    hide NodesOk, NodeOk, Held;
    var gone := Elements(nodes[id].abandoned);
    AbandonedSize(id, nodes);
    forall x | x in gone ensures x in all { assert HeldAbove(id, x, nodes); }
    SubsetSize(gone, all);
  }

  lemma NodesBumpBound(nodes: Nodes, id: NodeId)
    requires NodesOk(nodes) && id in nodes
    ensures |nodes[id].abandoned| <= Pow2(|Above(id, nodes)|) - 1
  {
    hide NodesOk;
    var all := UpwardHeld(Above(id, nodes), nodes);
    BumpsWithin(id, nodes, Above(id, nodes), all);
  }

  /** Bumps of all members of an upward set together. */
  ghost function TotalBumps(up: set<NodeId>, nodes: Nodes): nat
    requires up <= nodes.Keys
  {
    if up == {} then 0
    else |nodes[Least(up)].abandoned| + TotalBumps(up - {Least(up)}, nodes)
  }

  lemma {:induction false} UpwardBumps(up: set<NodeId>, nodes: Nodes)
    requires NodesOk(nodes) && Upward(up, nodes)
    ensures TotalBumps(up, nodes) + |up| + 1 <= Pow2(|up|)
    decreases up
  {
    hide NodesOk;
    if up != {} {
      var m := Least(up);
      UpwardBumps(up - {m}, nodes);
      NodesBumpBound(nodes, m);
      assert Above(m, nodes) == up - {m};
    }
  }

  /**
    The number of bumps: in every run of message deliveries the master with k nodes of greater name
    bumps at most 2^k - 1 times (so the one with the greatest name never does), and N masters
    bump at most 2^N - N - 1 times in all.
   */
  lemma {:induction false} BumpBound(c0: Cluster, steps: seq<Step>, elect: Electorate)
    requires Initial(c0) && forall i :: 0 <= i < |steps| ==> Messaging(steps[i])
    ensures var nodes := Run(c0, steps, elect).nodes;
            && (forall id :: id in nodes ==> |nodes[id].abandoned| <= Pow2(|Above(id, nodes)|) - 1)
            && TotalBumps(nodes.Keys, nodes) <= Pow2(|nodes|) - |nodes| - 1
  {
    RunKeepsInv(c0, steps, elect);
    var nodes := Run(c0, steps, elect).nodes;
    hide NodesOk, Run;
    forall id | id in nodes ensures |nodes[id].abandoned| <= Pow2(|Above(id, nodes)|) - 1 {
      NodesBumpBound(nodes, id);
    }
    UpwardBumps(nodes.Keys, nodes);
    assert |nodes.Keys| == |nodes|;
  }

  // ---- Progress ------------------------------------------------------------------------------

  /** The heartbeat `from` would send to `to` now. */
  ghost function Fresh(c: Cluster, from: NodeId, to: NodeId): Msg
    requires from in c.nodes
  {
    Message(from, c.nodes[from], to, Ping(c.nodes[from].master))
  }

  /** Sending a fresh heartbeat and delivering it. */
  ghost function Exchange(c: Cluster, from: NodeId, to: NodeId, elect: Electorate): Cluster
    requires from in c.nodes
  {
    Apply(Apply(c, SendPing(from, to), elect), Deliver(Fresh(c, from, to), false), elect)
  }

  lemma ExchangeEffect(c: Cluster, from: NodeId, to: NodeId, elect: Electorate)
    requires from in c.nodes && to in c.nodes && from != to
    requires from in c.nodes[from].table && to in c.nodes[to].table && from in c.nodes[to].table
    ensures Exchange(c, from, to, elect).nodes == c.nodes[to := OnPing(to, c.nodes[to], Fresh(c, from, to), false)]
  {
    hide OnPing, Announced;
    var m := Fresh(c, from, to);
    var d := Apply(c, SendPing(from, to), elect);
    assert d.nodes == c.nodes && m in d.net by { PingSent(c, from, to, elect); }
    PingDelivered(d, m, elect);
  }

  lemma PingSent(c: Cluster, from: NodeId, to: NodeId, elect: Electorate)
    requires from in c.nodes && from != to && from in c.nodes[from].table
    ensures var d := Apply(c, SendPing(from, to), elect); d.nodes == c.nodes && Fresh(c, from, to) in d.net
  {
    assert c.nodes[from := c.nodes[from]] == c.nodes;
  }

  lemma PingDelivered(d: Cluster, m: Msg, elect: Electorate)
    requires m in d.net && m.body.Ping? && m.dst in d.nodes && m.src != m.dst
    requires m.dst in d.nodes[m.dst].table && m.src in d.nodes[m.dst].table
    ensures Apply(d, Deliver(m, false), elect).nodes == d.nodes[m.dst := OnPing(m.dst, d.nodes[m.dst], m, false)]
  {
    hide OnPing;
  }

  /**
    Progress, in every state of such a run: a fresh heartbeat makes the receiver bump exactly
    when it comes from a node of greater name with the same config epoch.
   */
  lemma {:induction false} Progress(c0: Cluster, steps: seq<Step>, elect: Electorate, from: NodeId, to: NodeId)
    requires Initial(c0) && forall i :: 0 <= i < |steps| ==> Messaging(steps[i])
    requires var c := Run(c0, steps, elect);
             from in c.nodes && to in c.nodes && from != to && from in c.nodes[to].table
    ensures var c := Run(c0, steps, elect);
            var c' := Exchange(c, from, to, elect);
            && to in c'.nodes
            && |c'.nodes[to].abandoned| ==
                 |c.nodes[to].abandoned| +
                 (if from > to && Own(from, c.nodes[from]) == Own(to, c.nodes[to]) then 1 else 0)
  {
    RunKeepsInv(c0, steps, elect);
    var c := Run(c0, steps, elect);
    hide Run, NodesOk, Exchange, OnPing;
    Facts(c.nodes, from);
    Facts(c.nodes, to);
    ExchangeEffect(c, from, to, elect);
    PingEffect(to, c.nodes[to], Fresh(c, from, to));
    assert ViewOk(c.nodes[to], from, c.nodes);
  }

  lemma Facts(nodes: Nodes, id: NodeId)
    requires NodesOk(nodes) && id in nodes
    ensures NodeOk(id, nodes[id]) && ViewsOk(id, nodes)
  {
  }
}
