/**
  What an election is won for (src/cluster.c): the winner's own configEpoch reaches the epoch of
  the election and never falls below it again, whatever the node does or hears afterwards.
 */
module WinnerEpoch {
  import opened ClusterProtocol
  import opened EpochBound

  /** What keeps a node's own entry in its table. */
  ghost predicate Guarded(me: NodeId, n: Node, s: Step) {
    && me in n.table && !n.table[me].handshake && NodeBounded(n)
    && (s.Deliver? || s.FinishHandshake? ==> s.m.src != me)
    && (s.FinishHandshake? || s.StartHandshake? ==> s.entry != me)
    && (s.Learn? || s.Forget? ==> s.peer != me)
    && (s.SetConfigEpoch? ==> n.table[me].configEpoch == 0)
  }

  lemma StepGuarded(c: Cluster, s: Step, elect: Electorate)
    requires NamesOk(c) && Bounded(c) && Enabled(c, s, elect)
    ensures Guarded(Actor(s), c.nodes[Actor(s)], s)
  {
    hide NodeBounded, MsgBounded;
  }

  lemma PingKeepsOwn(me: NodeId, n: Node, m: Msg, demoted: bool)
    requires me in n.table && NodeBounded(n) && m.src in n.table && m.src != me && m.body.Ping?
    ensures var r := OnPing(me, n, m, demoted);
            me in r.table && r.table[me].configEpoch >= n.table[me].configEpoch
  {
  }

  lemma ReceivedKeepsOwn(me: NodeId, n: Node, m: Msg, choice: bool, elect: Electorate)
    requires me in n.table && NodeBounded(n) && m.src != me
    ensures var r := Received(me, n, m, choice, elect);
            me in r.table && r.table[me].configEpoch >= n.table[me].configEpoch
  {
    hide OnPing, Grants, NodeBounded;
    if m.src in n.table && m.body.Ping? { PingKeepsOwn(me, n, m, choice); }
  }

  /** No step lowers the node's own configEpoch; giving it up in a collision raises it. */
  lemma OwnNeverFalls(me: NodeId, n: Node, s: Step, elect: Electorate)
    requires Guarded(me, n, s)
    ensures me in Next(me, n, s, elect).table
    ensures Next(me, n, s, elect).table[me].configEpoch >= n.table[me].configEpoch
    ensures s.WinElection? ==>
              Next(me, n, s, elect).master && Next(me, n, s, elect).table[me].configEpoch >= n.authEpoch
  {
    hide Received;
    if s.Deliver? { ReceivedKeepsOwn(me, n, s.m, s.choice, elect); }
  }

  /** Every recorded winner holds a configEpoch of its own at or above the epoch it won. */
  ghost predicate WinnersHold(c: Cluster) {
    forall w :: w in c.wins ==>
      w.node in c.nodes && w.node in c.nodes[w.node].table && c.nodes[w.node].table[w.node].configEpoch >= w.epoch
  }

  lemma StepHolds(c: Cluster, s: Step, elect: Electorate)
    requires NamesOk(c) && Bounded(c) && WinnersHold(c)
    ensures WinnersHold(Apply(c, s, elect))
  {
    hide Enabled, Next, Sent, Votes, NamesOk, Bounded, Guarded;
    if Enabled(c, s, elect) {
      EnabledNames(c, s, elect);
      StepGuarded(c, s, elect);
      OwnNeverFalls(Actor(s), c.nodes[Actor(s)], s, elect);
    }
  }

  /** In every state of every run, each election ever won has left its winner with at least its epoch. */
  lemma {:induction false} WinnersKeepEpoch(c0: Cluster, steps: seq<Step>, elect: Electorate)
    requires NamesOk(c0) && Bounded(c0) && WinnersHold(c0)
    ensures WinnersHold(Run(c0, steps, elect))
    decreases |steps|
  {
    hide Apply, Bounded, NamesOk, WinnersHold;
    if steps != [] {
      var most := steps[..|steps| - 1];
      WinnersKeepEpoch(c0, most, elect);
      SendersPastHandshake(c0, most, elect);
      EpochsBounded(c0, most, elect);
      StepHolds(Run(c0, most, elect), steps[|steps| - 1], elect);
    }
  }

  // ---- Fresh epochs -------------------------------------------------------------------------------

  lemma FreshInStep(me: NodeId, n: Node, s: Step, elect: Electorate)
    requires Guarded(me, n, s) && (s.BumpEpoch? || s.Takeover? || (s.Deliver? && s.m.body.Ping?))
    requires Next(me, n, s, elect).table[me].configEpoch != n.table[me].configEpoch
    ensures forall p :: p in n.table ==> n.table[p].configEpoch < Next(me, n, s, elect).table[me].configEpoch
  {
  }

  /**
    In every state of every run, an epoch that a node takes without an election, because it was asked to or because
    of a collision, is greater than every epoch in its table.
   */
  lemma {:induction false} FreshEpochs(c0: Cluster, steps: seq<Step>, s: Step, elect: Electorate)
    requires NamesOk(c0) && Bounded(c0) && Enabled(Run(c0, steps, elect), s, elect)
    requires s.BumpEpoch? || s.Takeover? || (s.Deliver? && s.m.body.Ping?)
    ensures var me := Actor(s);
            && me in Run(c0, steps, elect).nodes
            && var n, n' := Run(c0, steps, elect).nodes[me], Apply(Run(c0, steps, elect), s, elect).nodes[me];
               && me in n.table && me in n'.table
               && (n'.table[me].configEpoch == n.table[me].configEpoch
                   || forall p :: p in n.table ==> n.table[p].configEpoch < n'.table[me].configEpoch)
  {
    var c, me := Run(c0, steps, elect), Actor(s);
    SendersPastHandshake(c0, steps, elect);
    EpochsBounded(c0, steps, elect);
    hide Run, NamesOk, Bounded;
    StepGuarded(c, s, elect);
    EnabledNames(c, s, elect);
    hide Enabled, Next, Guarded, Sent, Votes, Wins;
    var n, n' := c.nodes[me], Next(me, c.nodes[me], s, elect);
    OwnNeverFalls(me, n, s, elect);
    if n'.table[me].configEpoch != n.table[me].configEpoch { FreshInStep(me, n, s, elect); }
  }
}
