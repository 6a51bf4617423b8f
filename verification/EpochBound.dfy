/**
  No configEpoch anywhere in the cluster exceeds the currentEpoch that goes with it: in
  every node table it is at most that node's currentEpoch, in every message at most the
  message's.  Holds over every run without CLUSTER RESET HARD.  It rests on names: an entry in
  handshake stands under a random name, so no message is ever looked up to one.
 */
module EpochBound {
  import opened ClusterProtocol

  ghost predicate NodeBounded(n: Node) {
    && n.authEpoch <= n.currentEpoch
    && forall p :: p in n.table ==> n.table[p].configEpoch <= n.currentEpoch
  }

  ghost predicate MsgBounded(m: Msg) {
    && m.configEpoch <= m.currentEpoch
    && (m.body.Update? ==> m.body.reported <= m.currentEpoch)
  }

  ghost predicate Bounded(c: Cluster) {
    && (forall id :: id in c.nodes ==> NodeBounded(c.nodes[id]))
    && (forall m :: m in c.net ==> MsgBounded(m))
  }

  /** Messages come from nodes, and the name of an entry in handshake is no node's. */
  ghost predicate NamesOk(c: Cluster) {
    && (forall m :: m in c.net ==> m.src in c.nodes)
    && (forall id :: id in c.nodes ==> HandshakesOk(c.nodes[id], c.nodes.Keys))
  }

  ghost predicate HandshakesOk(n: Node, names: set<NodeId>) {
    forall p :: p in n.table && n.table[p].handshake ==> p !in names
  }

  // ---- Names ------------------------------------------------------------------------------

  lemma ObserveNames(n: Node, m: Msg, names: set<NodeId>)
    requires m.src in n.table && HandshakesOk(n, names)
    ensures HandshakesOk(Observe(n, m), names)
  {
  }

  lemma PingNames(me: NodeId, n: Node, m: Msg, demoted: bool, names: set<NodeId>)
    requires me in n.table && m.src in n.table && m.body.Ping? && HandshakesOk(n, names)
    ensures HandshakesOk(OnPing(me, n, m, demoted), names)
  {
    ObserveNames(n, m, names);
    hide Observe;
  }

  lemma ReceivedNames(me: NodeId, n: Node, m: Msg, choice: bool, elect: Electorate, names: set<NodeId>)
    requires me in n.table && HandshakesOk(n, names)
    ensures HandshakesOk(Received(me, n, m, choice, elect), names)
  {
    if m.src in n.table {
      ObserveNames(n, m, names);
      match m.body {
        case Ping(_) => PingNames(me, n, m, choice, names);
        case Update(_, _) =>
        case AuthRequest =>
        case AuthAck =>
      }
    }
  }

  lemma NextNames(me: NodeId, n: Node, s: Step, elect: Electorate, names: set<NodeId>)
    requires me in n.table && HandshakesOk(n, names)
    requires s.StartHandshake? ==> s.entry !in names
    ensures HandshakesOk(Next(me, n, s, elect), names)
  {
    hide Received, Observe;
    match s {
      case Deliver(m, choice) => ReceivedNames(me, n, m, choice, elect, names);
      case FinishHandshake(m, _) => if m.src in n.table { ObserveNames(n, m, names); }
      case _ =>
    }
  }

  lemma SentNames(me: NodeId, n: Node, s: Step, elect: Electorate)
    requires me in n.table
    ensures forall m :: m in Sent(me, n, s, elect) ==> m.src == me
  {
    hide Next;
  }

  lemma EnabledNames(c: Cluster, s: Step, elect: Electorate)
    requires Enabled(c, s, elect)
    ensures Actor(s) in c.nodes && Actor(s) in c.nodes[Actor(s)].table
    ensures s.StartHandshake? ==> s.entry !in c.nodes
  {
  }

  lemma StepNames(c: Cluster, s: Step, elect: Electorate)
    requires NamesOk(c)
    ensures NamesOk(Apply(c, s, elect))
  {
    hide Enabled, Next, Sent, HandshakesOk;
    if Enabled(c, s, elect) {
      EnabledNames(c, s, elect);
      var me, n, c' := Actor(s), c.nodes[Actor(s)], Apply(c, s, elect);
      NextNames(me, n, s, elect, c.nodes.Keys);
      SentNames(me, n, s, elect);
      assert c'.nodes.Keys == c.nodes.Keys;
    }
  }

  /** In every state of every run, a sender that its receiver can look up is past its handshake. */
  lemma {:induction false} SendersPastHandshake(c0: Cluster, steps: seq<Step>, elect: Electorate)
    requires NamesOk(c0)
    ensures var c := Run(c0, steps, elect);
            && NamesOk(c)
            && forall m | m in c.net && m.dst in c.nodes && m.src in c.nodes[m.dst].table ::
                 !c.nodes[m.dst].table[m.src].handshake
    decreases |steps|
  {
    hide Apply;
    if steps != [] {
      SendersPastHandshake(c0, steps[..|steps| - 1], elect);
      StepNames(Run(c0, steps[..|steps| - 1], elect), steps[|steps| - 1], elect);
    }
  }

  // ---- One node -------------------------------------------------------------------------

  lemma ObserveBounded(n: Node, m: Msg)
    requires NodeBounded(n) && MsgBounded(m) && m.src in n.table
    ensures NodeBounded(Observe(n, m))
  {
  }

  lemma PingBounded(me: NodeId, n: Node, m: Msg, demoted: bool)
    requires NodeBounded(n) && MsgBounded(m) && me in n.table && m.src in n.table && m.body.Ping?
    ensures NodeBounded(OnPing(me, n, m, demoted))
  {
    ObserveBounded(n, m);
    hide Observe;
  }

  /** Exactly when an UPDATE keeps the bound: unless its sender's header is ignored and it brings a greater epoch. */
  lemma UpdateBounded(n: Node, m: Msg)
    requires NodeBounded(n) && MsgBounded(m) && m.src in n.table && m.body.Update?
    ensures NodeBounded(OnUpdate(n, m)) <==>
            !(n.table[m.src].handshake && m.body.about in n.table && n.currentEpoch < m.body.reported)
  {
    ObserveBounded(n, m);
    if n.table[m.src].handshake && m.body.about in n.table && n.currentEpoch < m.body.reported {
      assert m.body.about in OnUpdate(n, m).table;
    }
  }

  lemma ReceivedBounded(me: NodeId, n: Node, m: Msg, choice: bool, elect: Electorate)
    requires me in n.table && NodeBounded(n) && MsgBounded(m) && (m.src in n.table ==> !n.table[m.src].handshake)
    ensures NodeBounded(Received(me, n, m, choice, elect))
  {
    if m.src in n.table {
      ObserveBounded(n, m);
      match m.body {
        case Ping(_) => PingBounded(me, n, m, choice);
        case Update(_, _) => UpdateBounded(n, m);
        case AuthRequest =>
        case AuthAck =>
      }
    }
  }

  lemma NextBounded(me: NodeId, n: Node, s: Step, elect: Electorate)
    requires NodeBounded(n) && me in n.table
    requires s.Deliver? ==> MsgBounded(s.m) && (s.m.src in n.table ==> !n.table[s.m.src].handshake)
    requires s.FinishHandshake? ==> MsgBounded(s.m)
    ensures NodeBounded(Next(me, n, s, elect))
  {
    hide Received, Observe;
    match s {
      case Deliver(m, choice) => ReceivedBounded(me, n, m, choice, elect);
      case FinishHandshake(m, _) => if m.src in n.table { ObserveBounded(n, m); }
      case _ =>
    }
  }

  lemma MessageBounded(me: NodeId, n: Node, dst: NodeId, body: Body)
    requires NodeBounded(n)
    requires body.Update? ==> body.reported <= n.currentEpoch
    ensures MsgBounded(Message(me, n, dst, body))
  {
  }

  lemma SentBounded(me: NodeId, n: Node, s: Step, elect: Electorate)
    requires NodeBounded(n) && me in n.table && NodeBounded(Next(me, n, s, elect))
    ensures forall m :: m in Sent(me, n, s, elect) ==> MsgBounded(m)
  {
    forall m | m in Sent(me, n, s, elect) ensures MsgBounded(m) {
      var sender := if s.RequestVotes? || s.Deliver? then Next(me, n, s, elect) else n;
      assert m == Message(me, sender, m.dst, m.body) by { hide Next; }
      MessageBounded(me, sender, m.dst, m.body);
    }
  }

  // ---- Every step, every run ---------------------------------------------------------------

  lemma SenderFacts(c: Cluster, s: Step, elect: Electorate)
    requires NamesOk(c) && Bounded(c) && Enabled(c, s, elect)
    ensures Actor(s) in c.nodes && Actor(s) in c.nodes[Actor(s)].table && NodeBounded(c.nodes[Actor(s)])
    ensures s.Deliver? || s.FinishHandshake? ==> MsgBounded(s.m) && s.m.src in c.nodes
    ensures s.Deliver? && s.m.src in c.nodes[Actor(s)].table ==> !c.nodes[Actor(s)].table[s.m.src].handshake
  {
    hide NodeBounded, MsgBounded;
  }

  lemma BoundedAfter(c: Cluster, c': Cluster, me: NodeId, n': Node, sent: multiset<Msg>)
    requires Bounded(c) && NodeBounded(n') && (forall m :: m in sent ==> MsgBounded(m))
    requires c'.nodes == c.nodes[me := n'] && c'.net <= c.net + sent
    ensures Bounded(c')
  {
    hide NodeBounded, MsgBounded;
    forall m | m in c'.net ensures MsgBounded(m) { assert m in c.net || m in sent; }
  }

  lemma StepBounded(c: Cluster, s: Step, elect: Electorate)
    requires Bounded(c) && NamesOk(c)
    ensures Bounded(Apply(c, s, elect))
  {
    hide Enabled, Next, Sent, NodeBounded, MsgBounded, NamesOk, Bounded, Votes, Wins;
    if Enabled(c, s, elect) {
      SenderFacts(c, s, elect);
      var me, n, c' := Actor(s), c.nodes[Actor(s)], Apply(c, s, elect);
      NextBounded(me, n, s, elect);
      SentBounded(me, n, s, elect);
      BoundedAfter(c, c', me, Next(me, n, s, elect), Sent(me, n, s, elect));
    }
  }

  /** The epoch bound, in every state of every run. */
  lemma {:induction false} EpochsBounded(c0: Cluster, steps: seq<Step>, elect: Electorate)
    requires Bounded(c0) && NamesOk(c0)
    ensures Bounded(Run(c0, steps, elect))
    decreases |steps|
  {
    hide Apply, Bounded, NamesOk;
    if steps != [] {
      var most := steps[..|steps| - 1];
      EpochsBounded(c0, most, elect);
      SendersPastHandshake(c0, most, elect);
      StepBounded(Run(c0, most, elect), steps[|steps| - 1], elect);
    }
  }
}
