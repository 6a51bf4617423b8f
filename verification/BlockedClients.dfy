/**
  Blocking and unblocking (src/blocked.c): the operations on the index of blocked clients, and the
  loop that serves the waiters of a key that became ready.
 */
module BlockedClients {
  import opened BlockedIndex
  import opened SetLoops
  import opened Options

  ghost function SetOf(ks: seq<Key>): set<Key> { set k | k in ks }

  class Database {
    var lists: map<Key, seq<Entry>>          // blocking_keys
    var noKey: map<Key, nat>                 // blocking_keys_unblock_on_nokey
    var keys: map<Client, map<Key, nat>>     // bstate.keys, with the list node of each
    var flagged: set<Client>                 // bstate.unblock_on_nokey
    var blocked: set<Client>                 // CLIENT_BLOCKED
    var next: nat

    ghost function View(): Index
      reads this
    {
      Index(lists, noKey, keys, flagged, next)
    }

    ghost predicate Valid()
      reads this
    {
      Ok(View()) && forall c :: c !in blocked ==> KeysOf(View(), c) == map[] && c !in flagged
    }

    constructor ()
      ensures Valid() && blocked == {}
    {
      lists, noKey, keys, flagged, blocked, next := map[], map[], map[], {}, {}, 0;
    }

    /** One key of blockForKeys: the client at the tail of the key's list, and the key in its own table. */
    method AddKey(c: Client, k: Key, flag: bool)
      requires k !in KeysOf(View(), c)
      modifies this`lists, this`noKey, this`keys, this`next
      ensures View() == Added(old(View()), c, k, flag)
    {
      var l := if k in lists then lists[k] else [];
      lists := lists[k := l + [Entry(next, c)]];
      keys := keys[c := (if c in keys then keys[c] else map[])[k := next]];
      if flag { noKey := noKey[k := if k in noKey then noKey[k] + 1 else 1]; }
      next := next + 1;
    }

    /** The loop of blockForKeys; the flag is recorded after it. */
    method AddKeys(c: Client, ks: seq<Key>, flag: bool, ghost flagged': set<Client>)
      requires Ok(View().(flagged := flagged')) && KeysOf(View(), c) == map[] && flag == (c in flagged')
      modifies this`lists, this`noKey, this`keys, this`next
      ensures Ok(View().(flagged := flagged')) && Grown(old(View()), View(), c, ks) && next >= old(next)
    {
      ghost var x := View();
      hide Ok, Added, Grown, List;
      GrownStarts(x, c);
      var j := 0;
      while j < |ks|
        invariant 0 <= j <= |ks| && Ok(View().(flagged := flagged')) && next >= x.next
        invariant Grown(x, View(), c, ks[..j])
      {
        ghost var y := View();
        assert ks[..j + 1] == ks[..j] + [ks[j]];
        if ks[j] !in (if c in keys then keys[c] else map[]) {
          AddedOk(y.(flagged := flagged'), c, ks[j], flag);
          GrownMore(x, y, c, ks[..j], ks[j], flag);
          AddedFrame(y, c, ks[j], flag, flagged');
          AddKey(c, ks[j], flag);
        } else {
          GrownSame(x, y, c, ks[..j], ks[j]);
        }
        j := j + 1;
      }
      assert ks[..j] == ks;
    }

    /** blockForKeys: repeated keys count once. */
    method BlockForKeys(c: Client, ks: seq<Key>, flag: bool)
      requires Valid() && c !in blocked
      modifies this
      ensures Valid() && blocked == old(blocked) + {c} && next >= old(next)
      ensures flagged == if flag then old(flagged) + {c} else old(flagged)
      ensures Grown(old(View()), View(), c, ks)
    {
      hide Ok, Grown;
      ghost var x := View();
      ghost var flagged' := if flag then flagged + {c} else flagged;
      FlagOk(x, c, flagged');
      AddKeys(c, ks, flag, flagged');
      GrownOthers(x, View(), c, ks);
      GrownFrame(x, View(), c, ks, flagged');
      if flag { flagged := flagged + {c}; }
      blocked := blocked + {c};
    }

    /** releaseBlockedEntry without removal of the key from the client's table; both assertions hold. */
    method ReleaseEntry(c: Client, k: Key, node: nat)
      requires k in lists && (c in flagged ==> k in noKey)
      modifies this`lists, this`noKey
      ensures View() == Unlisted(old(View()), c, k, node)
    {
      var l := Unlinked(lists[k], node);
      if l == [] {
        lists, noKey := lists - {k}, noKey - {k};
      } else {
        lists := lists[k := l];
        if c in flagged {
          var left := noKey[k];
          noKey := if left <= 1 then noKey - {k} else noKey[k := left - 1];
        }
      }
    }

    /** unblockClientWaitingData: every key of the client is released, in any order, and its table emptied. */
    method UnblockWaitingData(c: Client)
      requires Ok(View())
      modifies this`lists, this`noKey, this`keys
      ensures Ok(View()) && Shrunk(old(View()), View(), c, old(KeysOf(View(), c)).Keys)
      ensures KeysOf(View(), c) == map[]
    {
      ghost var x := View();
      var mine := if c in keys then keys[c] else map[];
      hide Ok, Shrunk, Unlisted, List, Released;
      ghost var y := x;
      ShrunkStarts(x, c);
      var todo := mine.Keys;
      ghost var done: set<Key> := {};
      SplitStarts(todo);
      while todo != {}
        invariant Split(mine.Keys, done, todo) && Ok(y) && KeysOf(y, c) == mine - done
        invariant View() == y.(keys := x.keys)
        invariant Shrunk(x, y, c, done)
        decreases |todo|
      {
        var k :| k in todo;
        SplitStep(mine.Keys, done, todo, k);
        assert k in KeysOf(y, c) && KeysOf(y, c)[k] == mine[k];
        ReleaseStep(x, y, c, k, done);
        ReleaseEntry(c, k, mine[k]);
        y := Released(y, c, k);
        todo, done := todo - {k}, done + {k};
      }
      SplitEnd(mine.Keys, done, todo);
      keys := keys[c := map[]];
      ShrunkEnds(x, y, View(), c, done);
    }

    /** unblockClient for a client blocked on keys: on a timeout, an error, or before it runs again. */
    method UnblockClient(c: Client)
      requires Valid()
      modifies this
      ensures Valid() && blocked == old(blocked) - {c} && flagged == old(flagged) - {c} && next == old(next)
      ensures Gone(old(View()), View(), c)
    {
      ghost var x := View();
      hide Ok, Shrunk, Gone;
      UnblockWaitingData(c);
      ghost var y := View();
      ShrunkOthers(x, y, c, KeysOf(x, c).Keys);
      FlagOk(y, c, flagged - {c});
      flagged := flagged - {c};
      blocked := blocked - {c};
      GoneIs(x, y, View(), c);
    }

    /** unblockClientOnKey: the entry of the key first, then the others. */
    method UnblockOnKey(c: Client, k: Key)
      requires Valid() && k in KeysOf(View(), c)
      modifies this
      ensures Valid() && blocked == old(blocked) - {c} && flagged == old(flagged) - {c} && next == old(next)
      ensures Gone(old(View()), View(), c)
    {
      ghost var x := View();
      hide Ok, Shrunk, Gone, Unlisted, Released;
      ShrunkStarts(x, c);
      assert KeysOf(x, c) - {} == KeysOf(x, c);
      ReleaseStep(x, x, c, k, {});
      ReleaseEntry(c, k, keys[c][k]);
      keys := keys[c := keys[c] - {k}];
      ghost var y := View();
      ReleasedView(x, y, c, k);
      ghost var none: set<Key> := {};
      assert none + {k} == {k};
      ShrunkOthers(x, y, c, {k});
      hide KeysOf;
      UnblockClient(c);
      GoneTwice(x, y, View(), c, k);
    }

    /** One waiter of a ready key: left waiting, or unblocked and run again, which may block it once more. */
    method ServeClient(c: Client, k: Key, ready: bool, again: Rerun)
      requires Valid() && k in KeysOf(View(), c)
      modifies this
      ensures Valid() && (ready && again.Blocks? && k in again.keys ==> k in KeysOf(View(), c))
      ensures var l, node := old(List(View(), k)), old(KeysOf(View(), c)[k]);
              List(View(), k)
              == if !ready then l
                 else Unlinked(l, node)
                      + if again.Blocks? && k in again.keys then [Entry(KeysOf(View(), c)[k], c)] else []
    {
      hide Ok, Unlinked;
      if !ready { return; }
      UnblockOnKey(c, k);
      if again.Blocks? {
        BlockForKeys(c, again.keys, again.flag);
      }
    }

    /** handleClientsBlockedOnKey: the iterator holds the node to visit next, and a count bounds the visits. */
    method HandleClientsBlockedOnKey(k: Key, ready: Client -> bool, again: Client -> Rerun)
      returns (visited: seq<Client>)
      requires Valid()
      modifies this
      ensures Valid() && visited == Clients(old(List(View(), k)))
      ensures exists added :: List(View(), k) == Waiting(old(List(View(), k)), ready) + added
                              && Clients(added) == Returned(old(List(View(), k)), k, ready, again)
    {
      hide Ok, Visited, Waiting, Returned, Clients, At, Unlinked;
      visited := [];
      ghost var l0: seq<Entry>, added: seq<Entry> := List(View(), k), [];
      VisitedStarts(l0, k, ready, again);
      if k in lists {
        var count := |lists[k]|;
        var ptr := if lists[k] == [] then None else Some(lists[k][0].node);
        ghost var j := 0;
        while ptr.Some? && count > 0
          invariant 0 <= j <= |l0| && count == |l0| - j && Valid()
          invariant Visited(List(View(), k), l0, j, added, visited, k, ready, again)
          invariant j < |l0| ==> ptr == Some(l0[j].node)
          decreases count
        {
          ghost var x := View();
          Visiting(x, l0, j, added, visited, k, ready, again);
          var receiver;
          receiver, ptr := NextWaiter(lists[k], ptr.value, l0, j, |Waiting(l0[..j], ready)|);
          ServeClient(receiver, k, ready(receiver), again(receiver));
          ghost var back := if k in KeysOf(View(), receiver) then KeysOf(View(), receiver)[k] else 0;
          VisitedStep(x.lists[k], List(View(), k), l0, j, added, visited, k, ready, again, back);
          if Comes(receiver, k, ready, again) { added := added + [Entry(back, receiver)]; }
          visited := visited + [receiver];
          count := count - 1;
          j := j + 1;
        }
      }
      VisitedEnds(List(View(), k), l0, added, visited, k, ready, again);
    }
  }

  /** What running a command again comes to: it finishes, or blocks on some keys. */
  datatype Rerun = Finishes | Blocks(keys: seq<Key>, flag: bool)

  function Clients(l: seq<Entry>): seq<Client>
    decreases |l|
  {
    if l == [] then [] else Clients(l[..|l| - 1]) + [l[|l| - 1].client]
  }

  /** The entries of clients that are not ready. */
  ghost function Waiting(l: seq<Entry>, ready: Client -> bool): seq<Entry>
    decreases |l|
  {
    if l == [] then [] else Waiting(l[..|l| - 1], ready) + if ready(l[|l| - 1].client) then [] else [l[|l| - 1]]
  }

  /** The client is run again and blocks on the key once more. */
  predicate Comes(c: Client, k: Key, ready: Client -> bool, again: Client -> Rerun) {
    ready(c) && again(c).Blocks? && k in again(c).keys
  }

  /** The clients that block on the key again. */
  ghost function Returned(l: seq<Entry>, k: Key, ready: Client -> bool, again: Client -> Rerun): seq<Client>
    decreases |l|
  {
    if l == [] then []
    else Returned(l[..|l| - 1], k, ready, again)
         + if Comes(l[|l| - 1].client, k, ready, again) then [l[|l| - 1].client] else []
  }

  /** After j visits: the clients that were not ready, the rest of the list as it was, and those that came back. */
  ghost predicate Visited(l: seq<Entry>, l0: seq<Entry>, j: nat, added: seq<Entry>, visited: seq<Client>,
                          k: Key, ready: Client -> bool, again: Client -> Rerun)
    requires j <= |l0|
  {
    && l == Waiting(l0[..j], ready) + l0[j..] + added
    && visited == Clients(l0[..j]) && Clients(added) == Returned(l0[..j], k, ready, again)
  }

  lemma VisitedStarts(l0: seq<Entry>, k: Key, ready: Client -> bool, again: Client -> Rerun)
    ensures Visited(l0, l0, 0, [], [], k, ready, again)
  {
    assert l0[..0] == [];
    assert [] + l0[0..] + [] == l0;
  }

  lemma VisitedEnds(l: seq<Entry>, l0: seq<Entry>, added: seq<Entry>, visited: seq<Client>,
                    k: Key, ready: Client -> bool, again: Client -> Rerun)
    requires Visited(l, l0, |l0|, added, visited, k, ready, again)
    ensures visited == Clients(l0) && l == Waiting(l0, ready) + added && Clients(added) == Returned(l0, k, ready, again)
  {
    assert l0[..|l0|] == l0;
    assert Waiting(l0, ready) + [] + added == Waiting(l0, ready) + added;
  }

  lemma VisitedStep(l: seq<Entry>, l': seq<Entry>, l0: seq<Entry>, j: nat, added: seq<Entry>, visited: seq<Client>,
                    k: Key, ready: Client -> bool, again: Client -> Rerun, back: nat)
    requires j < |l0| && Visited(l, l0, j, added, visited, k, ready, again)
    requires Unlinked(l, l0[j].node) == Waiting(l0[..j], ready) + l0[j + 1..] + added
    requires var c := l0[j].client;
             l' == if !ready(c) then l
                   else Unlinked(l, l0[j].node) + if Comes(c, k, ready, again) then [Entry(back, c)] else []
    ensures var c := l0[j].client;
            var added' := if Comes(c, k, ready, again) then added + [Entry(back, c)] else added;
            Visited(l', l0, j + 1, added', visited + [c], k, ready, again)
  {
    hide Unlinked, Waiting, Returned, Clients;
    var c, kept, e := l0[j].client, Waiting(l0[..j], ready), Entry(back, l0[j].client);
    NextStep(l0, j, k, ready, again);
    Resumed(kept, l0, j, added, e);
    ClientsMore(added, e);
    var comes := Comes(c, k, ready, again);
    assert comes ==> ready(c);
    hide Comes;
    if comes {
      assert Clients(added + [e]) == Returned(l0[..j], k, ready, again) + [c];
    } else {
      assert Returned(l0[..j], k, ready, again) + [] == Returned(l0[..j], k, ready, again);
    }
  }

  lemma ClientsMore(l: seq<Entry>, e: Entry)
    ensures Clients(l + [e]) == Clients(l) + [e.client]
  {
    assert (l + [e])[..|l|] == l;
  }

  /** listNext: the client of a node, and the node that follows it. */
  method NextWaiter(l: seq<Entry>, node: nat, ghost l0: seq<Entry>, ghost j: nat, ghost p: nat)
    returns (c: Client, next: Option<nat>)
    requires At(l, p, l0, j) && node == l0[j].node
    ensures c == l0[j].client && (j + 1 < |l0| ==> next == Some(l0[j + 1].node))
  {
    var i := FindNode(l, node);
    c := l[i].client;
    next := if i + 1 < |l| then Some(l[i + 1].node) else None;
  }

  method FindNode(l: seq<Entry>, node: nat) returns (i: nat)
    requires exists m :: 0 <= m < |l| && l[m].node == node
    ensures i < |l| && l[i].node == node
  {
    i := 0;
    while l[i].node != node
      invariant i < |l| && forall m :: 0 <= m < i ==> l[m].node != node
      decreases |l| - i
    {
      i := i + 1;
    }
  }

  /** Where the entry to visit stands. */
  ghost predicate At(l: seq<Entry>, p: nat, l0: seq<Entry>, j: nat) {
    && j < |l0| && p < |l| && l[p] == l0[j] && (j + 1 < |l0| ==> p + 1 < |l| && l[p + 1] == l0[j + 1])
    && forall i :: 0 <= i < |l| && l[i].node == l0[j].node ==> i == p
  }

  /** The entry to visit is in the list, and its node is unique. */
  lemma Visiting(x: Index, l0: seq<Entry>, j: nat, added: seq<Entry>, visited: seq<Client>, k: Key,
                 ready: Client -> bool, again: Client -> Rerun)
    requires Ok(x) && j < |l0| && Visited(List(x, k), l0, j, added, visited, k, ready, again)
    ensures k in x.lists && k in KeysOf(x, l0[j].client) && KeysOf(x, l0[j].client)[k] == l0[j].node
    ensures At(x.lists[k], |Waiting(l0[..j], ready)|, l0, j)
    ensures Unlinked(x.lists[k], l0[j].node) == Waiting(l0[..j], ready) + l0[j + 1..] + added
  {
    hide Unlinked, Waiting, Returned, Clients;
    assert KeyOk(x, k);
    Placed(List(x, k), Waiting(l0[..j], ready), l0, j, added, x.next);
    ListedKeys(x, k, l0[j]);
  }

  lemma ListedKeys(x: Index, k: Key, e: Entry)
    requires KeyOk(x, k) && e in List(x, k)
    ensures k in x.lists && k in KeysOf(x, e.client) && KeysOf(x, e.client)[k] == e.node
  {
  }

  lemma Placed(l: seq<Entry>, kept: seq<Entry>, l0: seq<Entry>, j: nat, added: seq<Entry>, next: nat)
    requires j < |l0| && l == kept + l0[j..] + added && Ordered(l, next)
    ensures l0[j] in l && At(l, |kept|, l0, j) && Unlinked(l, l0[j].node) == kept + l0[j + 1..] + added
  {
    var e, rest := l0[j], l0[j + 1..] + added;
    assert l0[j..] == [e] + l0[j + 1..];
    assert l == kept + [e] + rest;
    UnlinkedMiddle(kept, e, rest, next);
    hide Unlinked;
    assert kept + rest == kept + l0[j + 1..] + added;
    assert l[|kept|] == e;
    UniqueNode(l, |kept|, next);
    assert j + 1 < |l0| ==> l[|kept| + 1] == l0[j + 1];
  }

  lemma UniqueNode(l: seq<Entry>, p: nat, next: nat)
    requires Ordered(l, next) && p < |l|
    ensures forall i :: 0 <= i < |l| && l[i].node == l[p].node ==> i == p
  {
  }

  lemma {:induction false} UnlinkedConcat(a: seq<Entry>, b: seq<Entry>, node: nat)
    ensures Unlinked(a + b, node) == Unlinked(a, node) + Unlinked(b, node)
    decreases |b|
  {
    if b == [] {
      assert a + b == a;
    } else {
      UnlinkedConcat(a, b[..|b| - 1], node);
      assert (a + b)[..|a + b| - 1] == a + b[..|b| - 1];
    }
  }

  lemma UnlinkedMiddle(a: seq<Entry>, e: Entry, b: seq<Entry>, next: nat)
    requires Ordered(a + [e] + b, next)
    ensures Unlinked(a + [e] + b, e.node) == a + b
  {
    NodesApart(a, e, b, next);
    hide Ordered, Unlinked;
    UnlinkedAbsent(a, e.node);
    UnlinkedAbsent(b, e.node);
    UnlinkedConcat(a, [e], e.node);
    UnlinkedConcat(a + [e], b, e.node);
    UnlinkedOne(e);
    assert a + [] == a;
  }

  lemma NodesApart(a: seq<Entry>, e: Entry, b: seq<Entry>, next: nat)
    requires Ordered(a + [e] + b, next)
    ensures (forall f :: f in a ==> f.node != e.node) && (forall f :: f in b ==> f.node != e.node)
  {
    var l := a + [e] + b;
    forall f | f in a ensures f.node != e.node {
      var i :| 0 <= i < |a| && a[i] == f;
      assert l[i] == f && l[|a|] == e;
    }
    forall f | f in b ensures f.node != e.node {
      var i :| 0 <= i < |b| && b[i] == f;
      assert l[|a| + 1 + i] == f && l[|a|] == e;
    }
  }

  lemma UnlinkedOne(e: Entry)
    ensures Unlinked([e], e.node) == []
  {
  }

  lemma NextStep(l0: seq<Entry>, j: nat, k: Key, ready: Client -> bool, again: Client -> Rerun)
    requires j < |l0|
    ensures var c := l0[j].client;
            && Clients(l0[..j + 1]) == Clients(l0[..j]) + [c]
            && Waiting(l0[..j + 1], ready) == Waiting(l0[..j], ready) + (if ready(c) then [] else [l0[j]])
            && Returned(l0[..j + 1], k, ready, again)
               == Returned(l0[..j], k, ready, again) + if Comes(c, k, ready, again) then [c] else []
  {
    assert l0[..j + 1][..j] == l0[..j];
  }

  lemma Resumed(kept: seq<Entry>, l0: seq<Entry>, j: nat, added: seq<Entry>, e: Entry)
    requires j < |l0|
    ensures kept + l0[j..] + added == kept + [l0[j]] + l0[j + 1..] + added
    ensures kept + [] + l0[j + 1..] + added == kept + l0[j + 1..] + added
    ensures kept + l0[j + 1..] + added + [] == kept + l0[j + 1..] + added
    ensures kept + l0[j + 1..] + added + [e] == kept + l0[j + 1..] + (added + [e])
  {
    assert l0[j..] == [l0[j]] + l0[j + 1..];
  }

  /** The client is out of every list and has no keys; nobody else is touched. */
  ghost predicate Gone(x: Index, y: Index, c: Client) {
    && KeysOf(y, c) == map[]
    && (forall d :: d != c ==> KeysOf(y, d) == KeysOf(x, d))
    && (forall k :: List(y, k) == if k in KeysOf(x, c) then Unlinked(List(x, k), KeysOf(x, c)[k]) else List(x, k))
  }

  lemma ShrunkOthers(x: Index, y: Index, c: Client, done: set<Key>)
    requires Shrunk(x, y, c, done)
    ensures y.flagged == x.flagged && y.next == x.next && forall d :: d != c ==> KeysOf(y, d) == KeysOf(x, d)
  {
  }

  lemma GoneIs(x: Index, y: Index, z: Index, c: Client)
    requires Shrunk(x, y, c, KeysOf(x, c).Keys) && KeysOf(y, c) == map[] && z == y.(flagged := z.flagged)
    ensures Gone(x, z, c)
  {
    hide Unlinked;
    assert forall k :: List(z, k) == List(y, k);
    assert forall d :: KeysOf(z, d) == KeysOf(y, d);
  }

  lemma ReleasedView(x: Index, y: Index, c: Client, k: Key)
    requires k in KeysOf(x, c) && y == Unlisted(x, c, k, KeysOf(x, c)[k]).(keys := x.keys[c := KeysOf(x, c) - {k}])
    ensures y == Released(x, c, k)
  {
  }

  lemma GoneTwice(x: Index, y: Index, z: Index, c: Client, k: Key)
    requires k in KeysOf(x, c) && Shrunk(x, y, c, {k}) && KeysOf(y, c) == KeysOf(x, c) - {k} && Gone(y, z, c)
    ensures Gone(x, z, c)
  {
    hide Unlinked;
    forall h ensures List(z, h) == if h in KeysOf(x, c) then Unlinked(List(x, h), KeysOf(x, c)[h]) else List(x, h) {}
    forall d | d != c ensures KeysOf(z, d) == KeysOf(x, d) {}
  }

  /** What releasing some keys of c has done: its node is unlinked from their lists, other clients keep their keys. */
  ghost predicate Shrunk(x: Index, y: Index, c: Client, done: set<Key>) {
    && y.flagged == x.flagged && y.next == x.next
    && (forall d :: d != c ==> KeysOf(y, d) == KeysOf(x, d))
    && (forall k :: List(y, k) ==
          if k in done && k in KeysOf(x, c) then Unlinked(List(x, k), KeysOf(x, c)[k]) else List(x, k))
  }

  lemma ShrunkStarts(x: Index, c: Client)
    ensures Shrunk(x, x, c, {})
  {
  }

  lemma ReleaseStep(x: Index, y: Index, c: Client, k: Key, done: set<Key>)
    requires Ok(y) && Shrunk(x, y, c, done) && k in KeysOf(y, c) && k !in done
    requires KeysOf(y, c) == KeysOf(x, c) - done
    ensures k in y.lists && (c in y.flagged ==> k in y.noKey) && Ok(Released(y, c, k))
    ensures Shrunk(x, Released(y, c, k), c, done + {k}) && KeysOf(Released(y, c, k), c) == KeysOf(x, c) - (done + {k})
    ensures Unlisted(y.(keys := x.keys), c, k, KeysOf(y, c)[k]) == Released(y, c, k).(keys := x.keys)
  {
    hide Shrunk, Unlinked, Released, Unlisted;
    assert KeyOk(y, k);
    hide Ok, KeyOk;
    ReleasedThisKey(y, c, k);
    ReleasedOk(y, c, k);
    ReleaseShrinks(x, y, c, k, done);
    UnlistedFrame(y, c, k, x.keys);
  }

  lemma ReleaseShrinks(x: Index, y: Index, c: Client, k: Key, done: set<Key>)
    requires Shrunk(x, y, c, done) && k in KeysOf(y, c) && k !in done && KeysOf(y, c) == KeysOf(x, c) - done
    ensures Shrunk(x, Released(y, c, k), c, done + {k}) && KeysOf(Released(y, c, k), c) == KeysOf(x, c) - (done + {k})
  {
    var z := Released(y, c, k);
    forall h ensures List(z, h) == if h == k then Unlinked(List(y, k), KeysOf(y, c)[k]) else List(y, h) {
      ReleasedList(y, c, k, h);
    }
    hide Unlinked;
    assert forall d :: d != c ==> KeysOf(z, d) == KeysOf(y, d);
  }

  lemma ReleasedList(y: Index, c: Client, k: Key, h: Key)
    requires k in KeysOf(y, c)
    ensures List(Released(y, c, k), h) == if h == k then Unlinked(List(y, k), KeysOf(y, c)[k]) else List(y, h)
  {
    hide Unlinked;
  }

  lemma UnlistedFrame(y: Index, c: Client, k: Key, keys: map<Client, map<Key, nat>>)
    requires k in KeysOf(y, c)
    ensures Unlisted(y.(keys := keys), c, k, KeysOf(y, c)[k]) == Released(y, c, k).(keys := keys)
  {
    hide Unlinked;
  }

  lemma ShrunkEnds(x: Index, y: Index, z: Index, c: Client, done: set<Key>)
    requires Ok(y) && Shrunk(x, y, c, done) && KeysOf(y, c) == map[] && z == y.(keys := x.keys[c := map[]])
    ensures Ok(z) && Shrunk(x, z, c, done)
  {
    assert forall d :: KeysOf(z, d) == KeysOf(y, d);
    hide Shrunk, KeysOf;
    forall k ensures KeyOk(z, k) {
      assert KeyOk(y, k);
      AgreesKeys(y, z, k, List(y, k));
      hide Agrees, Flagged, Ordered;
    }
    ShrunkFrame(x, y, z, c, done);
  }

  lemma ShrunkFrame(x: Index, y: Index, z: Index, c: Client, done: set<Key>)
    requires Shrunk(x, y, c, done) && z == y.(keys := z.keys) && forall d :: KeysOf(z, d) == KeysOf(y, d)
    ensures Shrunk(x, z, c, done)
  {
    hide Unlinked;
    assert forall k :: List(z, k) == List(y, k);
  }

  lemma AgreesKeys(x: Index, y: Index, k: Key, l: seq<Entry>)
    requires Agrees(x, k, l) && forall d :: KeysOf(x, d) == KeysOf(y, d)
    ensures Agrees(y, k, l)
  {
    forall d | d in y.keys && k in y.keys[d] ensures Entry(y.keys[d][k], d) in l {
      assert KeysOf(x, d) == y.keys[d];
    }
  }

  /** What blocking c on some keys has done so far. */
  ghost predicate Grown(x: Index, y: Index, c: Client, ks: seq<Key>) {
    && KeysOf(y, c).Keys == SetOf(ks)
    && (forall d :: d != c ==> KeysOf(y, d) == KeysOf(x, d))
    && (forall k :: k in ks ==> KeysOf(y, c)[k] >= x.next)
    && (forall k :: List(y, k) == List(x, k) + if k in ks then [Entry(KeysOf(y, c)[k], c)] else [])
  }

  lemma GrownMore(x: Index, y: Index, c: Client, ks: seq<Key>, k: Key, flag: bool)
    requires Grown(x, y, c, ks) && k !in KeysOf(y, c) && y.next >= x.next
    ensures Grown(x, Added(y, c, k, flag), c, ks + [k])
  {
    AddedEffect(y, c, k, flag);
    GrownFrom(x, y, Added(y, c, k, flag), c, ks, k);
  }

  lemma AddedEffect(y: Index, c: Client, k: Key, flag: bool)
    ensures var y' := Added(y, c, k, flag);
            && KeysOf(y', c) == KeysOf(y, c)[k := y.next] && (forall d :: d != c ==> KeysOf(y', d) == KeysOf(y, d))
            && (forall h :: List(y', h) == if h == k then List(y, k) + [Entry(y.next, c)] else List(y, h))
  {
  }

  lemma GrownFrom(x: Index, y: Index, y': Index, c: Client, ks: seq<Key>, k: Key)
    requires Grown(x, y, c, ks) && k !in KeysOf(y, c) && y.next >= x.next
    requires KeysOf(y', c) == KeysOf(y, c)[k := y.next] && (forall d :: d != c ==> KeysOf(y', d) == KeysOf(y, d))
    requires forall h :: List(y', h) == if h == k then List(y, k) + [Entry(y.next, c)] else List(y, h)
    ensures Grown(x, y', c, ks + [k])
  {
    hide KeysOf, List;
    assert k !in SetOf(ks) && SetOf(ks + [k]) == SetOf(ks) + {k} && k !in ks;
    assert List(x, k) + [] == List(x, k);
  }

  lemma GrownSame(x: Index, y: Index, c: Client, ks: seq<Key>, k: Key)
    requires Grown(x, y, c, ks) && k in KeysOf(y, c)
    ensures Grown(x, y, c, ks + [k])
  {
    assert k in SetOf(ks) && SetOf(ks + [k]) == SetOf(ks);
  }

  lemma GrownStarts(x: Index, c: Client)
    requires KeysOf(x, c) == map[]
    ensures Grown(x, x, c, [])
  {
    assert SetOf([]) == {};
  }

  lemma GrownOthers(x: Index, y: Index, c: Client, ks: seq<Key>)
    requires Grown(x, y, c, ks)
    ensures forall d :: d != c ==> KeysOf(y, d) == KeysOf(x, d)
  {
  }

  lemma GrownFrame(x: Index, y: Index, c: Client, ks: seq<Key>, flagged: set<Client>)
    requires Grown(x, y, c, ks)
    ensures Grown(x, y.(flagged := flagged), c, ks)
  {
  }

  lemma AddedFrame(y: Index, c: Client, k: Key, flag: bool, flagged: set<Client>)
    ensures Added(y.(flagged := flagged), c, k, flag) == Added(y, c, k, flag).(flagged := flagged)
    ensures k !in KeysOf(y, c) <==> k !in KeysOf(y.(flagged := flagged), c)
    ensures Added(y, c, k, flag).next > y.next
  {
  }
}
