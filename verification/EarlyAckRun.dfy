/**
  How tight election safety is: for every set of electors there is a run with as many early acks
  as two quorums share voters in which two replicas win the same epoch.  An early ack is one that
  is counted after the tally was reset and before the next request.
 */
module EarlyAckRun {
  import opened ClusterProtocol
  import opened ElectionSafety

  /** The same masters serve the slots in every epoch. */
  function Fixed(all: set<NodeId>): Electorate { (e: Epoch) => all }

  // ---- The nodes: masters in `all`, and two replicas of one of them that are asked to fail over -------------

  /** The master both replicas follow.  The requests force acks, so it may vote as well. */
  ghost function Followed(all: set<NodeId>): MaybeNode {
    if all == {} then NoNode else var m :| m in all; Known(m)
  }

  function Voter(me: NodeId, a: NodeId, b: NodeId, e: Epoch): Node {
    Node(true, NoNode, e, e, 0, 0, false,
         map[me := Peer(0, true, false), a := Peer(0, false, false), b := Peer(0, false, false)], {}, 0, [])
  }

  function Peers(me: NodeId, all: set<NodeId>): map<NodeId, Peer> {
    map v | v in all + {me} :: Peer(0, v in all, false)
  }

  /** A replica whose last election was for epoch `auth`. */
  ghost function Replica(me: NodeId, all: set<NodeId>, e: Epoch, auth: Epoch, sent: bool, tally: set<NodeId>,
                         stale: nat): Node {
    Node(false, Followed(all), e, 0, auth, |tally| + stale, sent, Peers(me, all), tally, stale, [])
  }

  ghost function Start(all: set<NodeId>, a: NodeId, b: NodeId): Cluster {
    Cluster(map id | id in all + {a, b} ::
              if id == a then Replica(a, all, 0, 0, false, {}, 0)
              else if id == b then Replica(b, all, 1, 0, false, {}, 0)
              else Voter(id, a, b, 0),
            multiset{}, {}, {})
  }

  function Ask(from: NodeId, to: NodeId, e: Epoch): Msg { Msg(from, to, e, 0, AuthRequest) }

  function Ack(from: NodeId, to: NodeId, e: Epoch): Msg { Msg(from, to, e, 0, AuthAck) }

  // ---- Pieces of a run -------------------------------------------------------------------------------------

  /** These steps lead from c to c' and count so many early acks. */
  ghost predicate Leads(c: Cluster, steps: seq<Step>, c': Cluster, early: nat, all: set<NodeId>) {
    c' == Run(c, steps, Fixed(all)) && EarlyAcks(c, steps, Fixed(all)) == early
  }

  lemma {:induction false} EarlyConcat(c: Cluster, p: seq<Step>, q: seq<Step>, elect: Electorate)
    ensures EarlyAcks(c, p + q, elect) == EarlyAcks(c, p, elect) + EarlyAcks(Run(c, p, elect), q, elect)
    decreases |q|
  {
    hide Run, EarlyAck;
    if q == [] {
      assert p + q == p;
    } else {
      var most := q[..|q| - 1];
      EarlyConcat(c, p, most, elect);
      RunConcat(c, p, most, elect);
      assert (p + q)[..|p + q| - 1] == p + most && (p + q)[|p + q| - 1] == q[|q| - 1];
    }
  }

  lemma Chain(c: Cluster, p: seq<Step>, d: Cluster, i: nat, q: seq<Step>, e: Cluster, j: nat, all: set<NodeId>)
    requires Leads(c, p, d, i, all) && Leads(d, q, e, j, all)
    ensures Leads(c, p + q, e, i + j, all)
  {
    hide Run, EarlyAcks;
    RunConcat(c, p, q, Fixed(all));
    EarlyConcat(c, p, q, Fixed(all));
  }

  lemma One(c: Cluster, s: Step, c': Cluster, all: set<NodeId>)
    requires c' == Apply(c, s, Fixed(all))
    ensures Leads(c, [s], c', if EarlyAck(c, s, Fixed(all)) then 1 else 0, all)
  {
    hide Apply, EarlyAck;
    var steps := [s];
    assert steps[..|steps| - 1] == [] && steps[|steps| - 1] == s;
    assert Run(c, [], Fixed(all)) == c && EarlyAcks(c, [], Fixed(all)) == 0;
  }

  // ---- Single steps ------------------------------------------------------------------------------------------

  ghost predicate Others(c: Cluster, c': Cluster, me: NodeId) {
    && c'.nodes.Keys == c.nodes.Keys
    && forall id :: id in c.nodes && id != me ==> c'.nodes[id] == c.nodes[id]
  }

  lemma Requests(c: Cluster, me: NodeId, all: set<NodeId>, e: Epoch, auth: Epoch, stale: nat) returns (c': Cluster)
    requires all != {} && me in c.nodes && me !in all && c.nodes[me] == Replica(me, all, e, auth, false, {}, stale)
    ensures Leads(c, [RequestVotes(me)], c', 0, all) && Others(c, c', me) && c'.wins == c.wins
    ensures c'.nodes[me] == Replica(me, all, e + 1, e + 1, true, {}, stale)
    ensures forall v :: v in all ==> Ask(me, v, e + 1) in c'.net
    ensures forall m :: m in c.net ==> m in c'.net
  {
    hide Apply, Enabled, Leads, Broadcast, Replica, EarlyAck, Ask;
    var s := RequestVotes(me);
    ReplicaFacts(me, all, e, auth, stale);
    Requested(c, me, Fixed(all));
    Asked(me, all, Replica(me, all, e + 1, e + 1, true, {}, stale));
    c' := Apply(c, s, Fixed(all));
    NoneEarly(c, s, Fixed(all));
    One(c, s, c', all);
  }

  lemma ReplicaFacts(me: NodeId, all: set<NodeId>, e: Epoch, auth: Epoch, stale: nat)
    requires all != {}
    ensures var n := Replica(me, all, e, auth, false, {}, stale);
            && me in n.table && !n.master && n.slaveof == Followed(all) && n.slaveof.Known? && n.slaveof.id in all
            && !n.authSent && n.currentEpoch == e
            && n.(currentEpoch := e + 1, authEpoch := e + 1, authSent := true)
               == Replica(me, all, e + 1, e + 1, true, {}, stale)
            && Replica(me, all, e + 1, e + 1, true, {}, stale).table == Peers(me, all)
  {
  }

  /** Only deliveries of acks can be early. */
  lemma NoneEarly(c: Cluster, s: Step, elect: Electorate)
    requires !s.Deliver? || !s.m.body.AuthAck?
    ensures !EarlyAck(c, s, elect)
  {
    hide Enabled;
  }

  lemma Requested(c: Cluster, me: NodeId, elect: Electorate)
    requires me in c.nodes && me in c.nodes[me].table
    requires var n := c.nodes[me]; !n.master && n.slaveof.Known? && !n.authSent
    ensures var n := c.nodes[me];
            var n' := n.(currentEpoch := n.currentEpoch + 1, authEpoch := n.currentEpoch + 1, authSent := true);
            var c' := Apply(c, RequestVotes(me), elect);
            && c'.nodes == c.nodes[me := n'] && c'.wins == c.wins && c'.net == c.net + Broadcast(me, n', AuthRequest)
  {
    hide Broadcast;
  }

  lemma Asked(me: NodeId, all: set<NodeId>, n: Node)
    requires me !in all && n.table == Peers(me, all) && !n.master && n.slaveof.Known? && n.slaveof.id in all
    ensures forall v :: v in all ==> Ask(me, v, n.currentEpoch) in Broadcast(me, n, AuthRequest)
  {
    forall v | v in all ensures Ask(me, v, n.currentEpoch) in Broadcast(me, n, AuthRequest) {
      assert Message(me, n, v, AuthRequest) == Ask(me, v, n.currentEpoch);
    }
  }

  lemma Resets(c: Cluster, me: NodeId, all: set<NodeId>, e: Epoch) returns (c': Cluster)
    requires all != {} && me in c.nodes && c.nodes[me] == Replica(me, all, e, e, true, {}, 0)
    ensures Leads(c, [Schedule(me)], c', 0, all) && Others(c, c', me) && c'.wins == c.wins && c'.net == c.net
    ensures c'.nodes[me] == Replica(me, all, e, e, false, {}, 0)
  {
    c' := Apply(c, Schedule(me), Fixed(all));
    One(c, Schedule(me), c', all);
  }

  lemma Wins(c: Cluster, me: NodeId, all: set<NodeId>, e: Epoch, tally: set<NodeId>, stale: nat) returns (c': Cluster)
    requires all != {} && me in c.nodes && c.nodes[me] == Replica(me, all, e, e, true, tally, stale)
    requires |tally| + stale >= Quorum(Fixed(all), e)
    ensures Leads(c, [WinElection(me)], c', 0, all) && Others(c, c', me)
    ensures c'.wins == c.wins + {Win(me, e, tally, stale)}
  {
    c' := Apply(c, WinElection(me), Fixed(all));
    One(c, WinElection(me), c', all);
  }

  /** A header that carries nothing new about the sender's own epoch. */
  lemma Nothing(n: Node, m: Msg)
    requires m.src in n.table && !n.table[m.src].handshake && m.configEpoch == 0
    ensures Observe(n, m) == n.(currentEpoch := Max(n.currentEpoch, m.currentEpoch))
  {
    assert n.table[m.src := n.table[m.src]] == n.table;
  }

  /** What a granted vote request does to the voter. */
  lemma GrantedNext(me: NodeId, n: Node, m: Msg, elect: Electorate)
    requires m.body.AuthRequest? && me in n.table && m.src in n.table && Grants(me, Observe(n, m), m, true, elect)
    ensures var s := Deliver(m, true);
            var n' := Observe(n, m).(lastVoteEpoch := Observe(n, m).currentEpoch);
            Next(me, n, s, elect) == n' && Sent(me, n, s, elect) == multiset{Message(me, n', m.src, AuthAck)}
  {
    hide Observe, Grants, Message, OnPing, OnUpdate, OnAuthAck;
  }

  lemma DeliverEnabled(c: Cluster, m: Msg, elect: Electorate)
    requires m in c.net && m.dst in c.nodes && m.src != m.dst && m.dst in c.nodes[m.dst].table
    ensures Enabled(c, Deliver(m, true), elect)
  {
  }

  lemma Granted(c: Cluster, m: Msg, elect: Electorate)
    requires m in c.net && m.body.AuthRequest? && m.dst in c.nodes && m.src != m.dst
    requires m.dst in c.nodes[m.dst].table && m.src in c.nodes[m.dst].table
    requires Grants(m.dst, Observe(c.nodes[m.dst], m), m, true, elect)
    ensures var n := Observe(c.nodes[m.dst], m);
            var n' := n.(lastVoteEpoch := n.currentEpoch);
            var c' := Apply(c, Deliver(m, true), elect);
            && c'.nodes == c.nodes[m.dst := n'] && c'.wins == c.wins
            && c'.net == c.net - multiset{m} + multiset{Message(m.dst, n', m.src, AuthAck)}
  {
    hide Observe, Grants, Message, Next, Sent, Enabled, Votes;
    DeliverEnabled(c, m, elect);
    GrantedNext(m.dst, c.nodes[m.dst], m, elect);
  }

  /** What an ack does. */
  lemma Counted(c: Cluster, m: Msg, elect: Electorate)
    requires m in c.net && m.body.AuthAck? && m.dst in c.nodes && m.src != m.dst
    requires m.dst in c.nodes[m.dst].table && m.src in c.nodes[m.dst].table
    ensures var c' := Apply(c, Deliver(m, true), elect);
            && c'.nodes == c.nodes[m.dst := OnAuthAck(c.nodes[m.dst], m, elect)] && c'.wins == c.wins
            && c'.net == c.net - multiset{m}
  {
    hide OnAuthAck, Enabled;
    DeliverEnabled(c, m, elect);
  }

  lemma CountedNode(v: NodeId, me: NodeId, all: set<NodeId>, e: Epoch, sent: bool, tally: set<NodeId>, stale: nat)
    requires v in all && v != me && v !in tally && (sent || tally == {})
    ensures var n := Replica(me, all, e, e, sent, tally, stale);
            && v in n.table && me in n.table && n.authSent == sent && n.authEpoch == e == SenderEpoch(n, Ack(v, me, e))
            && OnAuthAck(n, Ack(v, me, e), Fixed(all))
               == if sent then Replica(me, all, e, e, sent, tally + {v}, stale)
                  else Replica(me, all, e, e, sent, tally, stale + 1)
  {
    var n := Replica(me, all, e, e, sent, tally, stale);
    Nothing(n, Ack(v, me, e));
    hide Observe;
  }

  lemma VotedNode(v: NodeId, a: NodeId, b: NodeId, to: NodeId, all: set<NodeId>, e0: Epoch, e: Epoch)
    requires v in all && (to == a || to == b) && a != v && b != v && e0 < e
    ensures var n, m := Voter(v, a, b, e0), Ask(to, v, e);
            && v in n.table && to in n.table && Grants(v, Observe(n, m), m, true, Fixed(all))
            && Observe(n, m).(lastVoteEpoch := Observe(n, m).currentEpoch) == Voter(v, a, b, e)
            && Message(v, Voter(v, a, b, e), to, AuthAck) == Ack(v, to, e)
  {
    Nothing(Voter(v, a, b, e0), Ask(to, v, e));
    hide Observe;
  }

  lemma Votes1(c: Cluster, v: NodeId, a: NodeId, b: NodeId, to: NodeId, all: set<NodeId>, e0: Epoch, e: Epoch)
    returns (c': Cluster)
    requires v in c.nodes && v in all && (to == a || to == b) && a != v && b != v && e0 < e
    requires c.nodes[v] == Voter(v, a, b, e0) && Ask(to, v, e) in c.net
    ensures Leads(c, [Deliver(Ask(to, v, e), true)], c', 0, all) && Others(c, c', v) && c'.wins == c.wins
    ensures c'.nodes[v] == Voter(v, a, b, e) && Ack(v, to, e) in c'.net
    ensures forall m :: m in c.net && m != Ask(to, v, e) ==> m in c'.net
  {
    var m := Ask(to, v, e);
    VotedNode(v, a, b, to, all, e0, e);
    hide Observe, Apply, Message, Voter, Grants, Leads, EarlyAck;
    Granted(c, m, Fixed(all));
    c' := Apply(c, Deliver(m, true), Fixed(all));
    NoneEarly(c, Deliver(m, true), Fixed(all));
    One(c, Deliver(m, true), c', all);
  }

  lemma Counts1(c: Cluster, v: NodeId, me: NodeId, all: set<NodeId>, e: Epoch, sent: bool, tally: set<NodeId>,
                stale: nat)
    returns (c': Cluster)
    requires me in c.nodes && v in all && v != me && v !in tally && (sent || tally == {})
    requires c.nodes[me] == Replica(me, all, e, e, sent, tally, stale) && Ack(v, me, e) in c.net
    ensures Leads(c, [Deliver(Ack(v, me, e), true)], c', if sent then 0 else 1, all) && Others(c, c', me)
    ensures c'.wins == c.wins
    ensures c'.nodes[me] == if sent then Replica(me, all, e, e, sent, tally + {v}, stale)
                            else Replica(me, all, e, e, sent, tally, stale + 1)
    ensures forall m :: m in c.net && m != Ack(v, me, e) ==> m in c'.net
  {
    hide OnAuthAck, SenderEpoch, Replica, Apply, Enabled, Leads, EarlyAck;
    var m := Ack(v, me, e);
    CountedNode(v, me, all, e, sent, tally, stale);
    DeliverEnabled(c, m, Fixed(all));
    Counted(c, m, Fixed(all));
    c' := Apply(c, Deliver(m, true), Fixed(all));
    EarlyExactly(c, m, all, sent);
    One(c, Deliver(m, true), c', all);
  }

  lemma EarlyExactly(c: Cluster, m: Msg, all: set<NodeId>, sent: bool)
    requires m.body.AuthAck? && Enabled(c, Deliver(m, true), Fixed(all)) && m.dst in c.nodes && m.src in all
    requires var n := c.nodes[m.dst]; m.src in n.table && n.authSent == sent && SenderEpoch(n, m) >= n.authEpoch
    ensures EarlyAck(c, Deliver(m, true), Fixed(all)) <==> !sent
  {
    hide Enabled;
  }

  // ---- Phases ------------------------------------------------------------------------------------------------

  /** The two replicas and the masters, each of which last voted in epoch at[v]. */
  ghost predicate World(c: Cluster, all: set<NodeId>, a: NodeId, b: NodeId, at: map<NodeId, Epoch>) {
    && all != {} && c.nodes.Keys == all + {a, b} && at.Keys == all
    && forall v :: v in all ==> c.nodes[v] == Voter(v, a, b, at[v])
  }

  ghost function Raised(at: map<NodeId, Epoch>, who: set<NodeId>, e: Epoch): map<NodeId, Epoch> {
    map v | v in at :: if v in who then e else at[v]
  }

  /** A step of one voter. */
  lemma VoterMoves(c: Cluster, c': Cluster, v: NodeId, all: set<NodeId>, a: NodeId, b: NodeId, at: map<NodeId, Epoch>,
                   e: Epoch)
    requires World(c, all, a, b, at) && v in all && Others(c, c', v) && c'.nodes[v] == Voter(v, a, b, e)
    requires a !in all && b !in all
    ensures World(c', all, a, b, at[v := e]) && c'.nodes[a] == c.nodes[a] && c'.nodes[b] == c.nodes[b]
  {
    hide Voter;
  }

  /** A step of one replica. */
  lemma ReplicaMoves(c: Cluster, c': Cluster, me: NodeId, all: set<NodeId>, a: NodeId, b: NodeId,
                     at: map<NodeId, Epoch>)
    requires World(c, all, a, b, at) && (me == a || me == b) && Others(c, c', me) && a !in all && b !in all
    ensures World(c', all, a, b, at)
    ensures a != me ==> c'.nodes[a] == c.nodes[a]
    ensures b != me ==> c'.nodes[b] == c.nodes[b]
  {
    hide Voter;
  }

  ghost predicate Asking(net: multiset<Msg>, who: set<NodeId>, to: NodeId, e: Epoch) {
    forall v :: v in who ==> Ask(to, v, e) in net
  }

  ghost predicate Acking(net: multiset<Msg>, who: set<NodeId>, to: NodeId, e: Epoch) {
    forall v :: v in who ==> Ack(v, to, e) in net
  }

  /** All of `who` vote for `to`. */
  lemma {:induction false} VotesOf(c: Cluster, who: set<NodeId>, done: set<NodeId>, a: NodeId, b: NodeId, to: NodeId,
                                   all: set<NodeId>, at: map<NodeId, Epoch>, e: Epoch)
    returns (steps: seq<Step>, c': Cluster)
    requires World(c, all, a, b, at) && who <= all && a !in all && b !in all && (to == a || to == b)
    requires Asking(c.net, who, to, e) && Acking(c.net, done, to, e) && forall v :: v in who ==> at[v] < e
    ensures Leads(c, steps, c', 0, all) && c'.wins == c.wins && World(c', all, a, b, Raised(at, who, e))
    ensures c'.nodes[a] == c.nodes[a] && c'.nodes[b] == c.nodes[b] && Acking(c'.net, done + who, to, e)
    decreases who
  {
    hide Leads, World, Others;
    assert at.Keys == all by { Domain(c, all, a, b, at); }
    if who == {} {
      steps, c' := [], c;
      Nowhere(c, all);
      assert Raised(at, who, e) == at && done + who == done;
    } else {
      var v :| v in who;
      var d := VoteOf(c, v, a, b, to, all, at, e);
      var rest;
      rest, c' := VotesOf(d, who - {v}, done + {v}, a, b, to, all, at[v := e], e);
      steps := [Deliver(Ask(to, v, e), true)] + rest;
      Chain(c, [Deliver(Ask(to, v, e), true)], d, 0, rest, c', 0, all);
      assert Raised(at[v := e], who - {v}, e) == Raised(at, who, e) && done + {v} + (who - {v}) == done + who;
    }
  }

  lemma Domain(c: Cluster, all: set<NodeId>, a: NodeId, b: NodeId, at: map<NodeId, Epoch>)
    requires World(c, all, a, b, at)
    ensures all != {} && at.Keys == all && c.nodes.Keys == all + {a, b}
  {
  }

  lemma VoteOf(c: Cluster, v: NodeId, a: NodeId, b: NodeId, to: NodeId, all: set<NodeId>, at: map<NodeId, Epoch>,
               e: Epoch)
    returns (d: Cluster)
    requires World(c, all, a, b, at) && v in all && a !in all && b !in all && (to == a || to == b)
    requires Ask(to, v, e) in c.net && at[v] < e
    ensures Leads(c, [Deliver(Ask(to, v, e), true)], d, 0, all) && d.wins == c.wins && World(d, all, a, b, at[v := e])
    ensures d.nodes[a] == c.nodes[a] && d.nodes[b] == c.nodes[b] && Ack(v, to, e) in d.net
    ensures forall m :: m in c.net && m != Ask(to, v, e) ==> m in d.net
  {
    hide Leads, Voter;
    d := Votes1(c, v, a, b, to, all, at[v], e);
    VoterMoves(c, d, v, all, a, b, at, e);
  }

  lemma Nowhere(c: Cluster, all: set<NodeId>)
    ensures Leads(c, [], c, 0, all)
  {
  }

  /** Votes reach the replica that asked for them. */
  lemma {:induction false} CountsVotes(c: Cluster, who: set<NodeId>, me: NodeId, all: set<NodeId>, e: Epoch,
                                       tally: set<NodeId>, stale: nat)
    returns (steps: seq<Step>, c': Cluster)
    requires who <= all && me !in all && me in c.nodes && who !! tally && Acking(c.net, who, me, e)
    requires c.nodes[me] == Replica(me, all, e, e, true, tally, stale)
    ensures Leads(c, steps, c', 0, all) && Others(c, c', me) && c'.wins == c.wins
    ensures c'.nodes[me] == Replica(me, all, e, e, true, tally + who, stale)
    decreases who
  {
    hide Leads, Replica;
    if who == {} {
      steps, c' := [], c;
      Nowhere(c, all);
      assert tally + who == tally;
    } else {
      var v :| v in who;
      var s, rest := Deliver(Ack(v, me, e), true), [];
      var d := Counts1(c, v, me, all, e, true, tally, stale);
      rest, c' := CountsVotes(d, who - {v}, me, all, e, tally + {v}, stale);
      assert tally + {v} + (who - {v}) == tally + who;
      Chain(c, [s], d, 0, rest, c', 0, all);
      steps := [s] + rest;
    }
  }

  /** Votes reach a replica that has reset its tally and not asked again. */
  lemma {:induction false} CountsEarly(c: Cluster, who: set<NodeId>, me: NodeId, all: set<NodeId>, e: Epoch, stale: nat)
    returns (steps: seq<Step>, c': Cluster)
    requires who <= all && me !in all && me in c.nodes && Acking(c.net, who, me, e)
    requires c.nodes[me] == Replica(me, all, e, e, false, {}, stale)
    ensures Leads(c, steps, c', |who|, all) && Others(c, c', me) && c'.wins == c.wins
    ensures c'.nodes[me] == Replica(me, all, e, e, false, {}, stale + |who|)
    decreases who
  {
    hide Leads, Replica;
    if who == {} {
      steps, c' := [], c;
      Nowhere(c, all);
    } else {
      var v :| v in who;
      var s, rest := Deliver(Ack(v, me, e), true), [];
      var d := Counts1(c, v, me, all, e, false, {}, stale);
      rest, c' := CountsEarly(d, who - {v}, me, all, e, stale + 1);
      Chain(c, [s], d, 1, rest, c', |who - {v}|, all);
      steps := [s] + rest;
    }
  }

  // ---- The run -------------------------------------------------------------------------------------------------

  lemma {:induction false} Part(all: set<NodeId>, k: nat) returns (some: set<NodeId>)
    requires k <= |all|
    ensures some <= all && |some| == k
    decreases k
  {
    if k == 0 {
      some := {};
    } else {
      var less := Part(all, k - 1);
      assert less + (all - less) == all;
      var v :| v in all - less;
      some := less + {v};
    }
  }

  /** A replica asks for a new epoch and `who` vote for it. */
  lemma AskPhase(c: Cluster, all: set<NodeId>, a: NodeId, b: NodeId, me: NodeId, at: map<NodeId, Epoch>,
                 e: Epoch, auth: Epoch, stale: nat, who: set<NodeId>)
    returns (steps: seq<Step>, c': Cluster)
    requires World(c, all, a, b, at) && a !in all && b !in all && (me == a || me == b) && who <= all
    requires c.nodes[me] == Replica(me, all, e, auth, false, {}, stale) && forall v :: v in who ==> at[v] <= e
    ensures Leads(c, steps, c', 0, all) && World(c', all, a, b, Raised(at, who, e + 1)) && c'.wins == c.wins
    ensures Acking(c'.net, who, me, e + 1) && c'.nodes[me] == Replica(me, all, e + 1, e + 1, true, {}, stale)
    ensures a != me ==> c'.nodes[a] == c.nodes[a]
    ensures b != me ==> c'.nodes[b] == c.nodes[b]
  {
    hide Leads, Replica, World, Others;
    Domain(c, all, a, b, at);
    var d := Requests(c, me, all, e, auth, stale);
    ReplicaMoves(c, d, me, all, a, b, at);
    var votes;
    votes, c' := VotesOf(d, who, {}, a, b, me, all, at, e + 1);
    assert {} + who == who;
    Chain(c, [RequestVotes(me)], d, 0, votes, c', 0, all);
    steps := [RequestVotes(me)] + votes;
  }

  /** Replica `a` asks for epoch 1, gets the early votes, resets, and only then hears of them. */
  lemma EarlyPhase(all: set<NodeId>, a: NodeId, b: NodeId, early: set<NodeId>)
    returns (steps: seq<Step>, c: Cluster, at: map<NodeId, Epoch>)
    requires all != {} && a !in all && b !in all && a != b && early <= all
    ensures Leads(Start(all, a, b), steps, c, |early|, all) && c.wins == {} && World(c, all, a, b, at)
    ensures at.Keys == all && forall v :: v in at ==> at[v] <= 1
    ensures c.nodes[a] == Replica(a, all, 1, 1, false, {}, |early|) && c.nodes[b] == Replica(b, all, 1, 0, false, {}, 0)
  {
    hide Leads, Voter, Replica, Others, Acking;
    var c0, at0 := Start(all, a, b), map v | v in all :: 0;
    at := Raised(at0, early, 1);
    var asks, c1 := AskPhase(c0, all, a, b, a, at0, 0, 0, 0, early);
    var rest;
    rest, c := ResetPhase(c1, all, a, b, at, early);
    Chain(c0, asks, c1, 0, rest, c, |early|, all);
    steps := asks + rest;
  }

  lemma ResetPhase(c: Cluster, all: set<NodeId>, a: NodeId, b: NodeId, at: map<NodeId, Epoch>, early: set<NodeId>)
    returns (steps: seq<Step>, c': Cluster)
    requires World(c, all, a, b, at) && a !in all && b !in all && a != b && early <= all
    requires c.nodes[a] == Replica(a, all, 1, 1, true, {}, 0) && Acking(c.net, early, a, 1)
    ensures Leads(c, steps, c', |early|, all) && World(c', all, a, b, at) && c'.wins == c.wins
    ensures c'.nodes[a] == Replica(a, all, 1, 1, false, {}, |early|) && c'.nodes[b] == c.nodes[b]
  {
    hide Leads, World, Replica, Others, Acking;
    Domain(c, all, a, b, at);
    var d := Resets(c, a, all, 1);
    ReplicaMoves(c, d, a, all, a, b, at);
    Domain(d, all, a, b, at);
    var acks;
    acks, c' := CountsEarly(d, early, a, all, 1, 0);
    ReplicaMoves(d, c', a, all, a, b, at);
    Domain(c', all, a, b, at);
    Chain(c, [Schedule(a)], d, 0, acks, c', |early|, all);
    steps := [Schedule(a)] + acks;
  }

  /** A replica asks for epoch 2, gets the votes of `who` and wins with its early acks. */
  lemma WinPhase(c: Cluster, all: set<NodeId>, a: NodeId, b: NodeId, me: NodeId, at: map<NodeId, Epoch>,
                 auth: Epoch, stale: nat, who: set<NodeId>)
    returns (steps: seq<Step>, c': Cluster)
    requires World(c, all, a, b, at) && a !in all && b !in all && (me == a || me == b) && who <= all
    requires c.nodes[me] == Replica(me, all, 1, auth, false, {}, stale) && forall v :: v in who ==> at[v] <= 1
    requires |who| + stale >= Quorum(Fixed(all), 2)
    ensures Leads(c, steps, c', 0, all) && World(c', all, a, b, Raised(at, who, 2))
    ensures c'.wins == c.wins + {Win(me, 2, who, stale)}
    ensures a != me ==> c'.nodes[a] == c.nodes[a]
    ensures b != me ==> c'.nodes[b] == c.nodes[b]
  {
    hide Leads, World, Replica, Quorum, Others, Acking, Raised;
    Domain(c, all, a, b, at);
    var asks, c1 := AskPhase(c, all, a, b, me, at, 1, auth, stale, who);
    Domain(c1, all, a, b, Raised(at, who, 2));
    var ends;
    ends, c' := CountPhase(c1, all, a, b, me, Raised(at, who, 2), stale, who);
    Chain(c, asks, c1, 0, ends, c', 0, all);
    steps := asks + ends;
  }

  /** Its votes arrive and it wins. */
  lemma CountPhase(c: Cluster, all: set<NodeId>, a: NodeId, b: NodeId, me: NodeId, at: map<NodeId, Epoch>,
                   stale: nat, who: set<NodeId>)
    returns (steps: seq<Step>, c': Cluster)
    requires World(c, all, a, b, at) && a !in all && b !in all && (me == a || me == b) && who <= all
    requires me in c.nodes && c.nodes[me] == Replica(me, all, 2, 2, true, {}, stale) && Acking(c.net, who, me, 2)
    requires |who| + stale >= Quorum(Fixed(all), 2)
    ensures Leads(c, steps, c', 0, all) && World(c', all, a, b, at)
    ensures c'.wins == c.wins + {Win(me, 2, who, stale)}
    ensures a != me ==> c'.nodes[a] == c.nodes[a]
    ensures b != me ==> c'.nodes[b] == c.nodes[b]
  {
    hide Leads, World, Replica, Quorum, Others, Acking;
    Domain(c, all, a, b, at);
    var acks, d := CountsVotes(c, who, me, all, 2, {}, stale);
    assert {} + who == who;
    ReplicaMoves(c, d, me, all, a, b, at);
    Domain(d, all, a, b, at);
    c' := Wins(d, me, all, 2, who, stale);
    ReplicaMoves(d, c', me, all, a, b, at);
    Chain(c, acks, d, 0, [WinElection(me)], c', 0, all);
    steps := acks + [WinElection(me)];
  }

  lemma Sizes(all: set<NodeId>)
    requires all != {}
    ensures var k, q := Overlap(Fixed(all), 2), Quorum(Fixed(all), 2);
            && k <= |all| && k <= q && q - k <= |all|
            && forall who :: who <= all && |who| == q - k ==> |all - who| == q
  {
    forall who | who <= all && |who| == Quorum(Fixed(all), 2) - Overlap(Fixed(all), 2)
      ensures |all - who| == Quorum(Fixed(all), 2)
    {
      assert who + (all - who) == all;
    }
  }

  lemma StartIsInitial(all: set<NodeId>, a: NodeId, b: NodeId)
    ensures Initial(Start(all, a, b))
  {
  }

  /**
    For every set of electors: a run from an initial state with exactly Overlap early acks in which
    two replicas win epoch 2.
   */
  lemma TightRun(all: set<NodeId>, a: NodeId, b: NodeId) returns (steps: seq<Step>, w: Win, x: Win)
    requires all != {} && a !in all && b !in all && a != b
    ensures Initial(Start(all, a, b)) && w.epoch == x.epoch == 2 && w.node == a && x.node == b
    ensures Run(Start(all, a, b), steps, Fixed(all)).wins == {w, x}
    ensures EarlyAcks(Start(all, a, b), steps, Fixed(all)) == Overlap(Fixed(all), 2) == w.stale + x.stale
  {
    hide Replica, Voter, Leads, Run, EarlyAcks, World, Overlap, Quorum, Start, Initial;
    StartIsInitial(all, a, b);
    Sizes(all);
    var k, q := Overlap(Fixed(all), 2), Quorum(Fixed(all), 2);
    var early := Part(all, k);
    var who := Part(all, q - k);
    var p1, c1, at := EarlyPhase(all, a, b, early);
    var p2, c2 := BothWin(c1, all, a, b, at, k, who);
    Chain(Start(all, a, b), p1, c1, k, p2, c2, 0, all);
    steps, w, x := p1 + p2, Win(a, 2, who, k), Win(b, 2, all - who, 0);
    assert {} + {w} + {x} == {w, x};
    assert Leads(Start(all, a, b), steps, c2, k, all);
    Led(Start(all, a, b), steps, c2, k, all);
  }

  lemma Led(c: Cluster, steps: seq<Step>, c': Cluster, early: nat, all: set<NodeId>)
    requires Leads(c, steps, c', early, all)
    ensures c' == Run(c, steps, Fixed(all)) && EarlyAcks(c, steps, Fixed(all)) == early
  {
    hide Run, EarlyAcks;
  }

  lemma BothWin(c: Cluster, all: set<NodeId>, a: NodeId, b: NodeId, at: map<NodeId, Epoch>, k: nat, who: set<NodeId>)
    returns (steps: seq<Step>, c': Cluster)
    requires World(c, all, a, b, at) && a !in all && b !in all && a != b && who <= all
    requires (forall v :: v in at ==> at[v] <= 1) && at.Keys == all
    requires c.nodes[a] == Replica(a, all, 1, 1, false, {}, k) && c.nodes[b] == Replica(b, all, 1, 0, false, {}, 0)
    requires |who| + k >= Quorum(Fixed(all), 2) && |all - who| >= Quorum(Fixed(all), 2)
    ensures Leads(c, steps, c', 0, all)
    ensures c'.wins == c.wins + {Win(a, 2, who, k)} + {Win(b, 2, all - who, 0)}
  {
    hide Replica, Leads, World, Quorum;
    var p2, c2 := WinPhase(c, all, a, b, a, at, 1, k, who);
    var p3, c3 := WinPhase(c2, all, a, b, b, Raised(at, who, 2), 0, 0, all - who);
    Chain(c, p2, c2, 0, p3, c3, 0, all);
    steps, c' := p2 + p3, c3;
  }

  /** Two replicas win epoch 2 in this run, which counts so many early acks. */
  ghost predicate DoubleWin(all: set<NodeId>, a: NodeId, b: NodeId, steps: seq<Step>, early: nat) {
    && EarlyAcks(Start(all, a, b), steps, Fixed(all)) == early
    && var wins := Run(Start(all, a, b), steps, Fixed(all)).wins;
       exists w, x :: w in wins && x in wins && w.epoch == x.epoch == 2 && w.node != x.node
  }

  /** One early ack does it among three masters, two among four. */
  lemma TwoWinners()
    ensures exists steps :: DoubleWin({1, 2, 3}, 10, 11, steps, 1)
    ensures exists steps :: DoubleWin({1, 2, 3, 4}, 10, 11, steps, 2)
  {
    hide Run, EarlyAcks, Start, Initial;
    var p, w, x := TightRun({1, 2, 3}, 10, 11);
    assert |{1, 2, 3}| == 3 && |{1, 2, 3, 4}| == 4;
    assert DoubleWin({1, 2, 3}, 10, 11, p, 1);
    var q, y, z := TightRun({1, 2, 3, 4}, 10, 11);
    assert DoubleWin({1, 2, 3, 4}, 10, 11, q, 2);
  }
}
