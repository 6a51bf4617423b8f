/**
  Election safety of the failover protocol (section "Replica election and promotion" of the
  Redis Cluster Specification), over every run of ClusterProtocol.
 */
module ElectionSafety {
  import opened ClusterProtocol

  ghost predicate Initial(c: Cluster) {
    && c.net == multiset{} && c.votes == {} && c.wins == {}
    && forall id :: id in c.nodes ==> Fresh(c.nodes[id])
  }

  ghost predicate Fresh(n: Node) {
    && n.lastVoteEpoch <= n.currentEpoch && n.authEpoch <= n.currentEpoch
    && n.authCount == 0 && !n.authSent && n.tally == {} && n.stale == 0
  }

  // ---- The invariant, conjunct by conjunct -------------------------------------------

  /** Votes are at most one per voter and epoch, by electors, for epochs their candidate requested. */
  ghost predicate VoteOk(x: Vote, nodes: map<NodeId, Node>, elect: Electorate) {
    && x.voter in nodes && x.epoch <= nodes[x.voter].lastVoteEpoch
    && x.voter in elect(x.epoch)
    && (x.candidate in nodes ==> x.epoch <= nodes[x.candidate].authEpoch)
  }

  ghost predicate VotesOk(c: Cluster, elect: Electorate) {
    && (forall x :: x in c.votes ==> VoteOk(x, c.nodes, elect))
    && (forall x, y | x in c.votes && y in c.votes :: x.voter == y.voter && x.epoch == y.epoch ==> x == y)
  }

  /** The counter is the votes of this election plus the acks counted before it was requested. */
  ghost predicate NodeOk(n: Node) {
    && n.lastVoteEpoch <= n.currentEpoch
    && n.authEpoch <= n.currentEpoch
    && (if n.authSent then 0 < n.authEpoch else n.tally == {})
    && n.authCount == |n.tally| + n.stale
  }

  ghost predicate NodesOk(c: Cluster) {
    forall id :: id in c.nodes ==> NodeOk(c.nodes[id])
  }

  ghost predicate RequestsOk(c: Cluster) {
    forall m | m in c.net && m.body.AuthRequest? && m.src in c.nodes ::
      m.currentEpoch <= c.nodes[m.src].authEpoch
  }

  /** An ack in flight is the only one of its voter and epoch, and stands for a vote. */
  ghost predicate AckOk(m: Msg, c: Cluster) {
    Vote(m.src, m.currentEpoch, m.dst) in c.votes && c.net[m] == 1
  }

  ghost predicate SameBallot(m: Msg, k: Msg) { m.src == k.src && m.currentEpoch == k.currentEpoch }

  ghost predicate AcksOk(c: Cluster) {
    && (forall m | m in c.net && m.body.AuthAck? :: AckOk(m, c))
    && (forall m, k | m in c.net && m.body.AuthAck? && k in c.net && k.body.AuthAck? :: SameBallot(m, k) ==> m == k)
  }

  ghost predicate Counted(v: NodeId, id: NodeId, e: Epoch, c: Cluster) {
    && Vote(v, e, id) in c.votes
    && forall m | m in c.net && m.body.AuthAck? :: !(m.src == v && m.currentEpoch == e)
  }

  ghost predicate TalliesOk(c: Cluster) {
    forall id, v | id in c.nodes && v in c.nodes[id].tally :: Counted(v, id, c.nodes[id].authEpoch, c)
  }

  ghost predicate WinOk(w: Win, votes: set<Vote>, elect: Electorate) {
    && |w.supporters| + w.stale >= Quorum(elect, w.epoch)
    && forall v :: v in w.supporters ==> Vote(v, w.epoch, w.node) in votes
  }

  ghost predicate WinsOk(c: Cluster, elect: Electorate) {
    forall w :: w in c.wins ==> WinOk(w, c.votes, elect)
  }

  ghost predicate Inv(c: Cluster, elect: Electorate) {
    && VotesOk(c, elect) && NodesOk(c) && RequestsOk(c) && AcksOk(c) && TalliesOk(c) && WinsOk(c, elect)
  }

  // ---- Steps that leave the election bookkeeping alone -------------------------------

  ghost predicate Quiet(n: Node, n': Node) {
    && n.currentEpoch <= n'.currentEpoch && n'.lastVoteEpoch == n.lastVoteEpoch
    && n'.authEpoch == n.authEpoch && n'.authCount == n.authCount && n'.authSent == n.authSent
    && n'.tally == n.tally && n'.stale == n.stale
  }

  ghost predicate NoNewBallots(net: multiset<Msg>, net': multiset<Msg>) {
    forall m: Msg | m in net' && (m.body.AuthRequest? || m.body.AuthAck?) :: m in net && net'[m] <= net[m]
  }

  lemma QuietStep(c: Cluster, c': Cluster, me: NodeId, n': Node, elect: Electorate)
    requires Inv(c, elect) && me in c.nodes
    requires c'.nodes == c.nodes[me := n'] && Quiet(c.nodes[me], n')
    requires NoNewBallots(c.net, c'.net)
    requires c'.wins == c.wins && c'.votes == c.votes
    ensures Inv(c', elect)
  {
  }

  // ---- Steps of an election -----------------------------------------------------------

  lemma ScheduleStep(c: Cluster, c': Cluster, me: NodeId, elect: Electorate)
    requires Inv(c, elect) && me in c.nodes
    requires c' == c.(nodes := c.nodes[me := c.nodes[me].(authCount := 0, authSent := false, tally := {}, stale := 0)])
    ensures Inv(c', elect)
  {
  }

  lemma RequestStep(c: Cluster, c': Cluster, me: NodeId, n': Node, elect: Electorate)
    requires Inv(c, elect) && me in c.nodes && !c.nodes[me].authSent
    requires n' == c.nodes[me].(currentEpoch := c.nodes[me].currentEpoch + 1,
                                authEpoch := c.nodes[me].currentEpoch + 1, authSent := true)
    requires c' == c.(nodes := c.nodes[me := n'], net := c'.net)
    requires forall m: Msg :: m.body.AuthAck? ==> c'.net[m] == c.net[m]
    requires forall m: Msg | m in c'.net && m.body.AuthRequest? ::
               m in c.net || (m.src == me && m.currentEpoch == n'.authEpoch)
    ensures Inv(c', elect)
  {
  }

  lemma WinStep(c: Cluster, c': Cluster, me: NodeId, n': Node, elect: Electorate)
    requires Inv(c, elect) && me in c.nodes && Quiet(c.nodes[me], n')
    requires c.nodes[me].authCount >= Quorum(elect, c.nodes[me].authEpoch)
    requires c' == c.(nodes := c.nodes[me := n'], wins := c.wins + Wins(me, c.nodes[me], WinElection(me)))
    ensures Inv(c', elect)
  {
    QuietStep(c, c'.(wins := c.wins), me, n', elect);
  }

  /** The voter's epochs strictly increase, so the new vote and its ack are the first of their kind. */
  lemma GrantStep(c: Cluster, c': Cluster, me: NodeId, ack: Msg, elect: Electorate)
    requires Inv(c, elect) && me in c.nodes
    requires var n := c.nodes[me];
             && n.lastVoteEpoch != n.currentEpoch && me in elect(n.currentEpoch)
             && (ack.dst in c.nodes ==> n.currentEpoch <= c.nodes[ack.dst].authEpoch)
             && ack.body == AuthAck && ack.src == me && ack.currentEpoch == n.currentEpoch
             && c' == Cluster(c.nodes[me := n.(lastVoteEpoch := n.currentEpoch)], c.net + multiset{ack},
                              c.votes + {Vote(me, n.currentEpoch, ack.dst)}, c.wins)
    ensures Inv(c', elect)
  {
    var n := c.nodes[me];
    assert NodeOk(n);
    forall x | x in c.votes ensures !(x.voter == me && x.epoch == n.currentEpoch) { assert VoteOk(x, c.nodes, elect); }
    forall k | k in c.net && k.body.AuthAck? ensures !SameBallot(k, ack) { assert AckOk(k, c); }
    GrantVotes(c, c', me, ack, elect);
    GrantAcks(c, c', me, ack, elect);
    assert WinsOk(c', elect);
  }

  lemma GrantVotes(c: Cluster, c': Cluster, me: NodeId, ack: Msg, elect: Electorate)
    requires VotesOk(c, elect) && me in c.nodes
    requires var n := c.nodes[me];
             && n.lastVoteEpoch <= n.currentEpoch && me in elect(n.currentEpoch)
             && (ack.dst in c.nodes ==> n.currentEpoch <= c.nodes[ack.dst].authEpoch)
             && c'.nodes == c.nodes[me := n.(lastVoteEpoch := n.currentEpoch)]
             && c'.votes == c.votes + {Vote(me, n.currentEpoch, ack.dst)}
             && forall x | x in c.votes :: !(x.voter == me && x.epoch == n.currentEpoch)
    ensures VotesOk(c', elect)
  {
  }

  lemma GrantAcks(c: Cluster, c': Cluster, me: NodeId, ack: Msg, elect: Electorate)
    requires AcksOk(c) && TalliesOk(c) && RequestsOk(c) && me in c.nodes && ack.body == AuthAck
    requires c'.nodes.Keys == c.nodes.Keys
    requires forall id | id in c.nodes ::
               c'.nodes[id].tally == c.nodes[id].tally && c'.nodes[id].authEpoch == c.nodes[id].authEpoch
    requires c'.net == c.net + multiset{ack} && c'.votes == c.votes + {Vote(ack.src, ack.currentEpoch, ack.dst)}
    requires forall k | k in c.net && k.body.AuthAck? :: !SameBallot(k, ack)
    requires forall x | x in c.votes :: !(x.voter == ack.src && x.epoch == ack.currentEpoch)
    ensures AcksOk(c') && TalliesOk(c') && RequestsOk(c')
  {
  }

  /** Counting a consumed ack of the current election. */
  lemma CountStep(c: Cluster, c': Cluster, me: NodeId, v: NodeId, elect: Electorate)
    requires Inv(c, elect) && me in c.nodes && c.nodes[me].authSent && v !in c.nodes[me].tally
    requires Counted(v, me, c.nodes[me].authEpoch, c)
    requires var n := c.nodes[me];
             c' == c.(nodes := c.nodes[me := n.(authCount := n.authCount + 1, tally := n.tally + {v})])
    ensures Inv(c', elect)
  {
    assert NodeOk(c.nodes[me]);
    assert NodeOk(c'.nodes[me]);
  }

  /** Counting an ack before the request of the election it will be counted for. */
  lemma CountEarlyStep(c: Cluster, c': Cluster, me: NodeId, elect: Electorate)
    requires Inv(c, elect) && me in c.nodes && !c.nodes[me].authSent
    requires var n := c.nodes[me];
             c' == c.(nodes := c.nodes[me := n.(authCount := n.authCount + 1, stale := n.stale + 1)])
    ensures Inv(c', elect)
  {
    assert NodeOk(c.nodes[me]);
  }

  // ---- Every step, every run ------------------------------------------------------------

  /** Consuming a message and processing its header is quiet. */
  lemma HeaderStep(c: Cluster, m: Msg, elect: Electorate)
    requires Inv(c, elect) && m.dst in c.nodes && m.src in c.nodes[m.dst].table
    ensures Inv(AfterHeader(c, m), elect)
  {
    QuietStep(c, AfterHeader(c, m), m.dst, Observe(c.nodes[m.dst], m), elect);
  }

  ghost function AfterHeader(c: Cluster, m: Msg): Cluster
    requires m.dst in c.nodes && m.src in c.nodes[m.dst].table
  {
    c.(nodes := c.nodes[m.dst := Observe(c.nodes[m.dst], m)], net := c.net - multiset{m})
  }

  lemma AckIsGenuine(c: Cluster, m: Msg, elect: Electorate)
    requires Inv(c, elect) && m.dst in c.nodes && m.src in c.nodes[m.dst].table
    requires m in c.net && m.body.AuthAck?
    requires c.nodes[m.dst].authSent && SenderEpoch(c.nodes[m.dst], m) >= c.nodes[m.dst].authEpoch
    ensures m.src !in c.nodes[m.dst].tally
    ensures Counted(m.src, m.dst, c.nodes[m.dst].authEpoch, AfterHeader(c, m))
  {
    var n := c.nodes[m.dst];
    assert AckOk(m, c) && VoteOk(Vote(m.src, m.currentEpoch, m.dst), c.nodes, elect) && NodeOk(n);
    assert m.currentEpoch == n.authEpoch;
    assert m.src in n.tally ==> Counted(m.src, m.dst, n.authEpoch, c);
    forall k | k in AfterHeader(c, m).net && k.body.AuthAck? ensures !SameBallot(k, m) { assert k in c.net; }
  }

  lemma DeliverAck(c: Cluster, m: Msg, choice: bool, elect: Electorate)
    requires Inv(c, elect) && m.dst in c.nodes && m.src in c.nodes[m.dst].table
    requires m in c.net && m.body.AuthAck?
    ensures Inv(c.(nodes := c.nodes[m.dst := OnAuthAck(c.nodes[m.dst], m, elect)], net := c.net - multiset{m}), elect)
  {
    hide Inv;
    var me, n := m.dst, c.nodes[m.dst];
    var calm, c' := AfterHeader(c, m), c.(nodes := c.nodes[me := OnAuthAck(n, m, elect)], net := c.net - multiset{m});
    HeaderStep(c, m, elect);
    if m.src in elect(n.authEpoch) && SenderEpoch(n, m) >= n.authEpoch {
      if n.authSent {
        AckIsGenuine(c, m, elect);
        CountStep(calm, c', me, m.src, elect);
      } else {
        CountEarlyStep(calm, c', me, elect);
      }
    } else {
      assert c' == calm;
    }
  }

  lemma RequestEpochBound(c: Cluster, m: Msg, elect: Electorate)
    requires Inv(c, elect) && m in c.net && m.body.AuthRequest? && m.src in c.nodes
    ensures m.currentEpoch <= c.nodes[m.src].authEpoch
  {
  }

  lemma DeliverRequest(c: Cluster, m: Msg, choice: bool, elect: Electorate)
    requires Inv(c, elect) && Enabled(c, Deliver(m, choice), elect)
    requires Voting(m.dst, c.nodes[m.dst], Deliver(m, choice), elect)
    ensures Inv(Apply(c, Deliver(m, choice), elect), elect)
  {
    hide Inv;
    var ack := Message(m.dst, OnAuthRequest(m.dst, c.nodes[m.dst], m, choice, elect), m.src, AuthAck);
    HeaderStep(c, m, elect);
    if m.src in c.nodes { RequestEpochBound(c, m, elect); }
    GrantStep(AfterHeader(c, m), Apply(c, Deliver(m, choice), elect), m.dst, ack, elect);
  }

  /** Every step that takes no part in an election is quiet. */
  predicate Bystander(c: Cluster, s: Step, elect: Electorate)
    requires Enabled(c, s, elect)
  {
    && !s.Schedule? && !s.RequestVotes? && !s.WinElection?
    && !Voting(Actor(s), c.nodes[Actor(s)], s, elect)
    && (s.Deliver? && s.m.body.AuthAck? ==> s.m.src !in c.nodes[Actor(s)].table)
  }

  lemma BystanderStep(c: Cluster, s: Step, elect: Electorate)
    requires Inv(c, elect) && Enabled(c, s, elect) && Bystander(c, s, elect)
    ensures Inv(Apply(c, s, elect), elect)
  {
    hide Inv;
    BystanderIsQuiet(c, s, elect);
    QuietStep(c, Apply(c, s, elect), Actor(s), Next(Actor(s), c.nodes[Actor(s)], s, elect), elect);
  }

  lemma BystanderIsQuiet(c: Cluster, s: Step, elect: Electorate)
    requires Enabled(c, s, elect) && Bystander(c, s, elect)
    ensures Quiet(c.nodes[Actor(s)], Next(Actor(s), c.nodes[Actor(s)], s, elect))
    ensures NoNewBallots(c.net, Apply(c, s, elect).net)
    ensures Apply(c, s, elect).wins == c.wins && Apply(c, s, elect).votes == c.votes
  {
    var me, n := Actor(s), c.nodes[Actor(s)];
    assert me in n.table;
    QuietNext(me, n, s, elect);
    QuietSends(me, n, s, elect);
    assert Votes(me, n, s, elect) == {} && Wins(me, n, s) == {};
    hide Enabled, Next, Sent, Quiet, Votes, Wins;
    NoBallotsSent(c.net, Consumed(s), Sent(me, n, s, elect));
  }

  lemma NoBallotsSent(net: multiset<Msg>, consumed: multiset<Msg>, sent: multiset<Msg>)
    requires forall m | m in sent :: m.body.Ping? || m.body.Update?
    ensures NoNewBallots(net, net - consumed + sent)
  {
  }

  lemma QuietSends(me: NodeId, n: Node, s: Step, elect: Electorate)
    requires me in n.table && !s.RequestVotes? && !Voting(me, n, s, elect)
    ensures forall m | m in Sent(me, n, s, elect) :: m.body.Ping? || m.body.Update?
  {
  }

  lemma QuietReceived(me: NodeId, n: Node, m: Msg, choice: bool, elect: Electorate)
    requires me in n.table && !Voting(me, n, Deliver(m, choice), elect)
    requires m.body.AuthAck? ==> m.src !in n.table
    ensures Quiet(n, Received(me, n, m, choice, elect))
  {
    if m.src in n.table {
      match m.body {
        case Ping(_) =>
        case Update(_, _) =>
        case AuthRequest =>
        case AuthAck =>
      }
    }
  }

  lemma QuietNext(me: NodeId, n: Node, s: Step, elect: Electorate)
    requires me in n.table && !s.Schedule? && !s.RequestVotes? && !s.WinElection?
    requires !Voting(me, n, s, elect)
    requires s.Deliver? && s.m.body.AuthAck? ==> s.m.src !in n.table
    ensures Quiet(n, Next(me, n, s, elect))
  {
    hide Received, Voting;
    match s {
      case Deliver(m, choice) => QuietReceived(me, n, m, choice, elect);
      case _ =>
    }
  }

  lemma ScheduleApplied(c: Cluster, me: NodeId, elect: Electorate)
    requires Inv(c, elect) && Enabled(c, Schedule(me), elect)
    ensures Inv(Apply(c, Schedule(me), elect), elect)
  {
    hide Inv;
    ScheduleStep(c, Apply(c, Schedule(me), elect), me, elect);
  }

  lemma RequestApplied(c: Cluster, me: NodeId, elect: Electorate)
    requires Inv(c, elect) && Enabled(c, RequestVotes(me), elect)
    ensures Inv(Apply(c, RequestVotes(me), elect), elect)
  {
    hide Inv;
    RequestStep(c, Apply(c, RequestVotes(me), elect), me, Next(me, c.nodes[me], RequestVotes(me), elect), elect);
  }

  lemma WinApplied(c: Cluster, me: NodeId, elect: Electorate)
    requires Inv(c, elect) && Enabled(c, WinElection(me), elect)
    ensures Inv(Apply(c, WinElection(me), elect), elect)
  {
    hide Inv;
    WinStep(c, Apply(c, WinElection(me), elect), me, Elected(me, c.nodes[me]), elect);
  }

  lemma AckApplied(c: Cluster, m: Msg, choice: bool, elect: Electorate)
    requires Inv(c, elect) && Enabled(c, Deliver(m, choice), elect)
    requires m.body.AuthAck? && m.src in c.nodes[m.dst].table
    ensures Inv(Apply(c, Deliver(m, choice), elect), elect)
  {
    hide Inv;
    DeliverAck(c, m, choice, elect);
    assert Apply(c, Deliver(m, choice), elect) ==
           c.(nodes := c.nodes[m.dst := OnAuthAck(c.nodes[m.dst], m, elect)], net := c.net - multiset{m});
  }

  lemma StepKeepsInv(c: Cluster, s: Step, elect: Electorate)
    requires Inv(c, elect)
    ensures Inv(Apply(c, s, elect), elect)
  {
    hide Inv, Next, Sent, Grants;
    if Enabled(c, s, elect) {
      if Bystander(c, s, elect) {
        BystanderStep(c, s, elect);
      } else {
        match s
        case Schedule(me) => ScheduleApplied(c, me, elect);
        case RequestVotes(me) => RequestApplied(c, me, elect);
        case WinElection(me) => WinApplied(c, me, elect);
        case Deliver(m, choice) =>
          if m.body.AuthAck? && m.src in c.nodes[m.dst].table { AckApplied(c, m, choice, elect); }
          else { DeliverRequest(c, m, choice, elect); }
        case _ =>
      }
    }
  }

  lemma {:induction false} RunKeepsInv(c: Cluster, steps: seq<Step>, elect: Electorate)
    requires Inv(c, elect)
    ensures Inv(Run(c, steps, elect), elect)
    decreases |steps|
  {
    hide Inv;
    if steps != [] {
      RunKeepsInv(c, steps[..|steps| - 1], elect);
      StepKeepsInv(Run(c, steps[..|steps| - 1], elect), steps[|steps| - 1], elect);
    }
  }

  lemma InitialInv(c: Cluster, elect: Electorate)
    requires Initial(c)
    ensures Inv(c, elect)
  {
  }

  // ---- Main results -------------------------------------------------------------------

  /** In every reachable state the counter is the genuine votes plus the acks counted too early. */
  lemma {:induction false} CountExact(c0: Cluster, steps: seq<Step>, elect: Electorate, id: NodeId)
    requires Initial(c0) && id in Run(c0, steps, elect).nodes
    ensures var c := Run(c0, steps, elect);
            var n := c.nodes[id];
            && n.authCount == |n.tally| + n.stale
            && n.tally <= elect(n.authEpoch)
            && forall v :: v in n.tally ==> Vote(v, n.authEpoch, id) in c.votes
  {
    InitialInv(c0, elect);
    RunKeepsInv(c0, steps, elect);
    var c := Run(c0, steps, elect);
    forall v | v in c.nodes[id].tally
      ensures v in elect(c.nodes[id].authEpoch) && Vote(v, c.nodes[id].authEpoch, id) in c.votes
    {
      assert Counted(v, id, c.nodes[id].authEpoch, c);
      assert VoteOk(Vote(v, c.nodes[id].authEpoch, id), c.nodes, elect);
    }
  }

  lemma DisjointSubsets(a: set<NodeId>, b: set<NodeId>, all: set<NodeId>)
    requires a <= all && b <= all && a * b == {}
    ensures |a| + |b| <= |all|
  {
    assert |a + b| == |a| + |b|;
    Subset(a + b, all);
  }

  lemma Subset(a: set<NodeId>, b: set<NodeId>)
    requires a <= b
    ensures |a| <= |b|
  {
    assert a + (b - a) == b;
  }

  /** By how much two quorums of an epoch overlap: 1 if its electors are odd in number, else 2. */
  function Overlap(elect: Electorate, e: Epoch): (k: nat)
    ensures k == if |elect(e)| % 2 == 1 then 1 else 2
  {
    2 * Quorum(elect, e) - |elect(e)|
  }

  /**
    Election safety and how many early acks it tolerates: two wins of one epoch whose early acks
    together are fewer than the overlap of two quorums share a voter and are by the same node.
    TightRun shows that no more are tolerated, whatever the number of electors.
   */
  lemma {:induction false} AtMostOneWinner(c0: Cluster, steps: seq<Step>, elect: Electorate, w: Win, x: Win)
    requires Initial(c0)
    requires w in Run(c0, steps, elect).wins && x in Run(c0, steps, elect).wins
    requires w.epoch == x.epoch && w.stale + x.stale < Overlap(elect, w.epoch)
    ensures w.node == x.node && w.supporters * x.supporters != {}
  {
    InitialInv(c0, elect);
    RunKeepsInv(c0, steps, elect);
    var c := Run(c0, steps, elect);
    assert WinOk(w, c.votes, elect) && WinOk(x, c.votes, elect);
    forall v | v in w.supporters ensures v in elect(w.epoch) {
      assert VoteOk(Vote(v, w.epoch, w.node), c.nodes, elect);
    }
    forall v | v in x.supporters ensures v in elect(x.epoch) {
      assert VoteOk(Vote(v, x.epoch, x.node), c.nodes, elect);
    }
    if w.supporters * x.supporters == {} {
      DisjointSubsets(w.supporters, x.supporters, elect(w.epoch));
    } else {
      var v :| v in w.supporters * x.supporters;
      assert Vote(v, w.epoch, w.node) in c.votes && Vote(v, x.epoch, x.node) in c.votes;
    }
  }

  // ---- Early acks over a run ---------------------------------------------------------

  /** This delivery counts an ack between the reset of the tally and the next request. */
  ghost predicate EarlyAck(c: Cluster, s: Step, elect: Electorate) {
    && Enabled(c, s, elect) && s.Deliver? && s.m.body.AuthAck?
    && var n := c.nodes[s.m.dst];
       && s.m.src in n.table && !n.authSent
       && s.m.src in elect(n.authEpoch) && SenderEpoch(n, s.m) >= n.authEpoch
  }

  /** The early acks of a run, and those that one node counts. */
  ghost function EarlyAcks(c0: Cluster, steps: seq<Step>, elect: Electorate): nat
    decreases |steps|
  {
    if steps == [] then 0
    else
      var most, s := steps[..|steps| - 1], steps[|steps| - 1];
      EarlyAcks(c0, most, elect) + if EarlyAck(Run(c0, most, elect), s, elect) then 1 else 0
  }

  ghost function EarlyAcksOf(c0: Cluster, steps: seq<Step>, elect: Electorate, id: NodeId): nat
    decreases |steps|
  {
    if steps == [] then 0
    else
      var most, s := steps[..|steps| - 1], steps[|steps| - 1];
      EarlyAcksOf(c0, most, elect, id)
      + if EarlyAck(Run(c0, most, elect), s, elect) && Actor(s) == id then 1 else 0
  }

  lemma {:induction false} TwoShares(c0: Cluster, steps: seq<Step>, elect: Electorate, a: NodeId, b: NodeId)
    requires a != b
    ensures EarlyAcksOf(c0, steps, elect, a) + EarlyAcksOf(c0, steps, elect, b) <= EarlyAcks(c0, steps, elect)
    decreases |steps|
  {
    hide EarlyAck, Run;
    if steps != [] { TwoShares(c0, steps[..|steps| - 1], elect, a, b); }
  }

  lemma StaleReceived(me: NodeId, n: Node, m: Msg, choice: bool, elect: Electorate)
    requires me in n.table
    ensures Received(me, n, m, choice, elect).stale
            == n.stale + if m.body.AuthAck? && m.src in n.table && !n.authSent
                            && m.src in elect(n.authEpoch) && SenderEpoch(n, m) >= n.authEpoch then 1 else 0
  {
    if m.src in n.table { match m.body { case Ping(_) => case _ => } }
  }

  lemma StaleNext(me: NodeId, n: Node, s: Step, elect: Electorate)
    requires me in n.table
    ensures Next(me, n, s, elect).stale
            <= n.stale + if s.Deliver? && s.m.body.AuthAck? && s.m.src in n.table && !n.authSent
                            && s.m.src in elect(n.authEpoch) && SenderEpoch(n, s.m) >= n.authEpoch then 1 else 0
  {
    hide Received;
    match s {
      case Deliver(m, choice) => StaleReceived(me, n, m, choice, elect);
      case _ =>
    }
  }

  /** A node's early acks, now or at its wins, are among those delivered to it. */
  ghost predicate StaleWithin(c: Cluster, early: NodeId -> nat) {
    && (forall id :: id in c.nodes ==> c.nodes[id].stale <= early(id))
    && (forall w :: w in c.wins ==> w.stale <= early(w.node))
  }

  lemma ActorFacts(c: Cluster, s: Step, elect: Electorate)
    requires Enabled(c, s, elect)
    ensures Actor(s) in c.nodes && Actor(s) in c.nodes[Actor(s)].table
  {
  }

  lemma StaleStep(c: Cluster, s: Step, elect: Electorate, early: NodeId -> nat, early': NodeId -> nat)
    requires StaleWithin(c, early)
    requires forall id :: early'(id) == early(id) + if EarlyAck(c, s, elect) && Actor(s) == id then 1 else 0
    ensures StaleWithin(Apply(c, s, elect), early')
  {
    hide Enabled, Next, Sent, Votes;
    if Enabled(c, s, elect) {
      ActorFacts(c, s, elect);
      StaleNext(Actor(s), c.nodes[Actor(s)], s, elect);
    }
  }

  lemma {:induction false} StaleRun(c0: Cluster, steps: seq<Step>, elect: Electorate)
    requires Initial(c0)
    ensures StaleWithin(Run(c0, steps, elect), id => EarlyAcksOf(c0, steps, elect, id))
    decreases |steps|
  {
    hide Apply, EarlyAck;
    if steps != [] {
      var most, s := steps[..|steps| - 1], steps[|steps| - 1];
      StaleRun(c0, most, elect);
      StaleStep(Run(c0, most, elect), s, elect, id => EarlyAcksOf(c0, most, elect, id),
                id => EarlyAcksOf(c0, steps, elect, id));
    }
  }

  /** Election safety: no epoch has two winners in a run with fewer early acks than two of its quorums share voters. */
  lemma {:induction false} SafeElections(c0: Cluster, steps: seq<Step>, elect: Electorate)
    requires Initial(c0)
    ensures forall w, x | w in Run(c0, steps, elect).wins && x in Run(c0, steps, elect).wins ::
              w.epoch == x.epoch && EarlyAcks(c0, steps, elect) < Overlap(elect, w.epoch) ==> w.node == x.node
  {
    StaleRun(c0, steps, elect);
    var wins, all := Run(c0, steps, elect).wins, EarlyAcks(c0, steps, elect);
    forall w, x | w in wins && x in wins && w.epoch == x.epoch && all < Overlap(elect, w.epoch)
      ensures w.node == x.node
    {
      if w.node != x.node {
        TwoShares(c0, steps, elect, w.node, x.node);
        AtMostOneWinner(c0, steps, elect, w, x);
      }
    }
  }

  // ---- Granted epochs strictly increase -------------------------------------------------

  /** What a run adds to `votes` lies beyond the lastVoteEpoch its voter had before. */
  ghost predicate VotesBeyond(c: Cluster, c': Cluster) {
    && c.nodes.Keys == c'.nodes.Keys && c.votes <= c'.votes
    && (forall id :: id in c.nodes ==> c.nodes[id].lastVoteEpoch <= c'.nodes[id].lastVoteEpoch)
    && (forall y :: y in c'.votes - c.votes ==> y.voter in c.nodes && c.nodes[y.voter].lastVoteEpoch < y.epoch)
  }

  lemma LastVoteNext(me: NodeId, n: Node, s: Step, elect: Electorate)
    requires me in n.table && NodeOk(n)
    ensures Voting(me, n, s, elect) ==> n.lastVoteEpoch < Observe(n, s.m).currentEpoch
    ensures n.lastVoteEpoch <= Next(me, n, s, elect).lastVoteEpoch
  {
    match s {
      case Deliver(m, choice) => if m.src in n.table { match m.body { case Ping(_) => case _ => } }
      case _ =>
    }
  }

  lemma VotesBeyondStep(c: Cluster, s: Step, elect: Electorate)
    requires NodesOk(c)
    ensures VotesBeyond(c, Apply(c, s, elect))
  {
    if Enabled(c, s, elect) {
      var me := Actor(s);
      assert me in c.nodes && me in c.nodes[me].table;
      var c' := Apply(c, s, elect);
      hide Enabled, Next, Sent, Voting, Observe;
      LastVoteNext(me, c.nodes[me], s, elect);
      VotesAdded(c, c', me, Next(me, c.nodes[me], s, elect), Votes(me, c.nodes[me], s, elect));
    }
  }

  lemma VotesAdded(c: Cluster, c': Cluster, me: NodeId, n': Node, votes: set<Vote>)
    requires me in c.nodes && c'.nodes == c.nodes[me := n'] && c'.votes == c.votes + votes
    requires c.nodes[me].lastVoteEpoch <= n'.lastVoteEpoch
    requires forall y :: y in votes ==> y.voter == me && c.nodes[me].lastVoteEpoch < y.epoch
    ensures VotesBeyond(c, c')
  {
  }

  lemma {:induction false} VotesBeyondRun(c: Cluster, steps: seq<Step>, elect: Electorate)
    requires Inv(c, elect)
    ensures VotesBeyond(c, Run(c, steps, elect))
    decreases |steps|
  {
    hide Inv, Apply;
    if steps != [] {
      var most := steps[..|steps| - 1];
      VotesBeyondRun(c, most, elect);
      RunKeepsInv(c, most, elect);
      InvNodesOk(Run(c, most, elect), elect);
      VotesBeyondStep(Run(c, most, elect), steps[|steps| - 1], elect);
    }
  }

  lemma InvNodesOk(c: Cluster, elect: Electorate)
    requires Inv(c, elect)
    ensures NodesOk(c)
    ensures forall x :: x in c.votes ==> x.voter in c.nodes && x.epoch <= c.nodes[x.voter].lastVoteEpoch
  {
    forall x | x in c.votes ensures x.voter in c.nodes && x.epoch <= c.nodes[x.voter].lastVoteEpoch {
      assert VoteOk(x, c.nodes, elect);
    }
  }

  lemma {:induction false} RunConcat(c: Cluster, a: seq<Step>, b: seq<Step>, elect: Electorate)
    ensures Run(c, a + b, elect) == Run(Run(c, a, elect), b, elect)
    decreases |b|
  {
    hide Apply;
    if b == [] {
      assert a + b == a;
    } else {
      var most := b[..|b| - 1];
      RunConcat(c, a, most, elect);
      assert (a + b)[..|a + b| - 1] == a + most && (a + b)[|a + b| - 1] == b[|b| - 1];
    }
  }

  /** Whatever a master votes after any point of a run is for a greater epoch than all it voted before. */
  lemma {:induction false} VoteEpochsIncrease(c0: Cluster, a: seq<Step>, b: seq<Step>, elect: Electorate, x: Vote,
                                              y: Vote)
    requires Initial(c0)
    requires x in Run(c0, a, elect).votes
    requires y in Run(c0, a + b, elect).votes && y !in Run(c0, a, elect).votes
    requires x.voter == y.voter
    ensures x.epoch < y.epoch
  {
    hide Inv;
    var c := Run(c0, a, elect);
    InitialInv(c0, elect);
    RunKeepsInv(c0, a, elect);
    InvNodesOk(c, elect);
    RunConcat(c0, a, b, elect);
    VotesBeyondRun(c, b, elect);
    assert y in Run(c, b, elect).votes - c.votes;
  }
}
