/**
  Clients blocked on keys (src/blocked.c): for every key the clients waiting for it in order, for
  every client the keys it waits for, and a count of the waiters that also wait for a deletion.
 */
module BlockedIndex {

  type Key = nat
  type Client = nat

  /** A list node: its identity, given out in order, and the client it holds. */
  datatype Entry = Entry(node: nat, client: Client)

  /** blocking_keys, blocking_keys_unblock_on_nokey, each client's own keys, and the clients with the no-key flag. */
  datatype Index = Index(lists: map<Key, seq<Entry>>, noKey: map<Key, nat>, keys: map<Client, map<Key, nat>>,
                         flagged: set<Client>, next: nat)

  function List(x: Index, k: Key): seq<Entry> { if k in x.lists then x.lists[k] else [] }

  function KeysOf(x: Index, c: Client): map<Key, nat> { if c in x.keys then x.keys[c] else map[] }

  /** How many entries belong to flagged clients. */
  function Flagged(l: seq<Entry>, flagged: set<Client>): nat
    decreases |l|
  {
    if l == [] then 0 else Flagged(l[..|l| - 1], flagged) + if l[|l| - 1].client in flagged then 1 else 0
  }

  // ---- Agreement --------------------------------------------------------------------------------------------

  /** Entries stand in blocking order, and nodes are not reused. */
  ghost predicate Ordered(l: seq<Entry>, next: nat) {
    && (forall i :: 0 <= i < |l| ==> l[i].node < next)
    && (forall i, j :: 0 <= i < j < |l| ==> l[i].node < l[j].node)
  }

  /** Every listed client has the key with this node, and the other way round. */
  ghost predicate Agrees(x: Index, k: Key, l: seq<Entry>) {
    && (forall e :: e in l ==> k in KeysOf(x, e.client) && KeysOf(x, e.client)[k] == e.node)
    && (forall c :: c in x.keys && k in x.keys[c] ==> Entry(x.keys[c][k], c) in l)
  }

  ghost predicate KeyOk(x: Index, k: Key) {
    && (k in x.lists ==> x.lists[k] != [])
    && Ordered(List(x, k), x.next) && Agrees(x, k, List(x, k))
    && (k in x.noKey ==> x.noKey[k] > 0)
    && Flagged(List(x, k), x.flagged) == if k in x.noKey then x.noKey[k] else 0
  }

  ghost predicate Ok(x: Index) { forall k :: KeyOk(x, k) }

  /** A client is listed under a key exactly when the key is in its own table, and then once. */
  lemma ListedOnce(x: Index, c: Client, k: Key)
    requires Ok(x)
    ensures k in KeysOf(x, c) <==> exists i :: 0 <= i < |List(x, k)| && List(x, k)[i].client == c
    ensures forall i, j | 0 <= i < |List(x, k)| && 0 <= j < |List(x, k)| ::
              List(x, k)[i].client == c == List(x, k)[j].client ==> i == j
  {
    assert KeyOk(x, k);
    var l := List(x, k);
    if k in KeysOf(x, c) {
      var i :| 0 <= i < |l| && l[i] == Entry(x.keys[c][k], c);
    }
    assert forall i :: 0 <= i < |l| ==> l[i] in l;
  }

  // ---- Adding -------------------------------------------------------------------------------------------------

  /** One turn of the loop in blockForKeys, for a key the client does not have yet. */
  function Added(x: Index, c: Client, k: Key, flag: bool): Index {
    x.(lists := x.lists[k := List(x, k) + [Entry(x.next, c)]],
       keys := x.keys[c := KeysOf(x, c)[k := x.next]],
       noKey := if flag then x.noKey[k := 1 + if k in x.noKey then x.noKey[k] else 0] else x.noKey,
       next := x.next + 1)
  }

  lemma AddedThisKey(x: Index, c: Client, k: Key, flag: bool)
    requires KeyOk(x, k) && k !in KeysOf(x, c) && flag == (c in x.flagged)
    ensures KeyOk(Added(x, c, k, flag), k)
  {
    var x' := Added(x, c, k, flag);
    var l, e := List(x, k), Entry(x.next, c);
    assert x'.lists[k] == l + [e] && (l + [e])[..|l|] == l;
    assert Agrees(x', k, l + [e]) by {
      hide Flagged;
      forall f | f in l + [e] ensures k in KeysOf(x', f.client) && KeysOf(x', f.client)[k] == f.node {
        if f in l { assert f.client != c; }
      }
      forall d | d in x'.keys && k in x'.keys[d] ensures Entry(x'.keys[d][k], d) in l + [e] {
        if d != c { assert Entry(x.keys[d][k], d) in l; }
      }
    }
  }

  lemma AddedOtherKey(x: Index, c: Client, k: Key, flag: bool, k': Key)
    requires KeyOk(x, k') && k' != k
    ensures KeyOk(Added(x, c, k, flag), k')
  {
    var x' := Added(x, c, k, flag);
    assert List(x', k') == List(x, k');
    hide Flagged;
    assert forall d :: KeysOf(x', d) == if d == c then KeysOf(x, c)[k := x.next] else KeysOf(x, d);
  }

  lemma AddedOk(x: Index, c: Client, k: Key, flag: bool)
    requires Ok(x) && k !in KeysOf(x, c) && flag == (c in x.flagged)
    ensures Ok(Added(x, c, k, flag))
  {
    hide KeyOk, Added;
    forall k' ensures KeyOk(Added(x, c, k, flag), k') {
      assert KeyOk(x, k');
      if k' == k { AddedThisKey(x, c, k, flag); } else { AddedOtherKey(x, c, k, flag, k'); }
    }
  }

  // ---- Releasing ------------------------------------------------------------------------------------------------

  function Unlinked(l: seq<Entry>, node: nat): (r: seq<Entry>)
    decreases |l|
  {
    if l == [] then [] else Unlinked(l[..|l| - 1], node) + if l[|l| - 1].node == node then [] else [l[|l| - 1]]
  }

  /** The lists and the counter after releaseBlockedEntry. */
  function Unlisted(x: Index, c: Client, k: Key, node: nat): Index {
    var l := Unlinked(List(x, k), node);
    var left := if k in x.noKey then x.noKey[k] else 0;
    x.(lists := if l == [] then x.lists - {k} else x.lists[k := l],
       noKey := if l == [] || (c in x.flagged && left <= 1) then x.noKey - {k}
                else if c in x.flagged then x.noKey[k := left - 1] else x.noKey)
  }

  /** The key gone from the client's own table as well. */
  function Released(x: Index, c: Client, k: Key): Index
    requires k in KeysOf(x, c)
  {
    Unlisted(x, c, k, KeysOf(x, c)[k]).(keys := x.keys[c := KeysOf(x, c) - {k}])
  }

  lemma {:induction false} UnlinkedIs(l: seq<Entry>, node: nat)
    ensures forall e :: e in Unlinked(l, node) <==> e in l && e.node != node
    decreases |l|
  {
    if l != [] {
      UnlinkedIs(l[..|l| - 1], node);
      assert l == l[..|l| - 1] + [l[|l| - 1]];
    }
  }

  lemma {:induction false} UnlinkedOrdered(l: seq<Entry>, node: nat, next: nat)
    requires Ordered(l, next)
    ensures Ordered(Unlinked(l, node), next)
    decreases |l|
  {
    if l != [] {
      var most, last := l[..|l| - 1], l[|l| - 1];
      LastIsLatest(l, next);
      UnlinkedOrdered(most, node, next);
      UnlinkedIs(most, node);
      OrderedMore(Unlinked(most, node), last, next);
    }
  }

  lemma OrderedMore(l: seq<Entry>, e: Entry, next: nat)
    requires Ordered(l, next) && e.node < next && forall f :: f in l ==> f.node < e.node
    ensures Ordered(l + [e], next) && l + [] == l
  {
    forall i, j | 0 <= i < j < |l + [e]| ensures (l + [e])[i].node < (l + [e])[j].node {
      if j == |l| { assert l[i] in l; }
    }
  }

  /** Unlinking the one entry of a client takes its flag out of the count. */
  lemma {:induction false} UnlinkedCount(l: seq<Entry>, e: Entry, next: nat, flagged: set<Client>)
    requires Ordered(l, next) && e in l
    ensures Flagged(Unlinked(l, e.node), flagged) == Flagged(l, flagged) - if e.client in flagged then 1 else 0
    decreases |l|
  {
    var most, last := l[..|l| - 1], l[|l| - 1];
    LastIsLatest(l, next);
    if e == last {
      UnlinkedAbsent(most, e.node);
      assert most + [] == most;
    } else {
      hide Ordered;
      UnlinkedCount(most, e, next, flagged);
      var u := Unlinked(most, e.node);
      assert (u + [last])[..|u|] == u;
    }
  }

  lemma LastIsLatest(l: seq<Entry>, next: nat)
    requires Ordered(l, next) && l != []
    ensures Ordered(l[..|l| - 1], next)
    ensures forall e :: e in l && e != l[|l| - 1] ==> e in l[..|l| - 1] && e.node < l[|l| - 1].node
    ensures forall e :: e in l[..|l| - 1] ==> e.node < l[|l| - 1].node
  {
    var most, last := l[..|l| - 1], l[|l| - 1];
    assert l == most + [last];
    forall e | e in most ensures e.node < last.node { var i :| 0 <= i < |most| && most[i] == e; }
  }

  lemma {:induction false} UnlinkedAbsent(l: seq<Entry>, node: nat)
    requires forall e :: e in l ==> e.node != node
    ensures Unlinked(l, node) == l
    decreases |l|
  {
    if l != [] {
      UnlinkedAbsent(l[..|l| - 1], node);
      assert l == l[..|l| - 1] + [l[|l| - 1]];
    }
  }

  lemma ReleasedAgrees(x: Index, c: Client, k: Key, l: seq<Entry>, keys: map<Client, map<Key, nat>>)
    requires k in KeysOf(x, c) && Ordered(l, x.next) && Agrees(x, k, l) && keys == x.keys[c := KeysOf(x, c) - {k}]
    ensures Agrees(x.(keys := keys), k, Unlinked(l, KeysOf(x, c)[k]))
  {
    hide Ordered;
    var x', e := x.(keys := keys), Entry(KeysOf(x, c)[k], c);
    var l' := Unlinked(l, e.node);
    UnlinkedIs(l, e.node);
    forall f | f in l' ensures k in KeysOf(x', f.client) && KeysOf(x', f.client)[k] == f.node {
      assert f in l;
    }
    forall d | d in x'.keys && k in x'.keys[d] ensures Entry(x'.keys[d][k], d) in l' {
      assert Entry(x.keys[d][k], d) in l;
      if x.keys[d][k] == e.node { SameNode(l, x.next, Entry(x.keys[d][k], d), e); }
    }
  }

  lemma AgreesFrame(x: Index, y: Index, k: Key, l: seq<Entry>)
    requires Agrees(x, k, l) && x.keys == y.keys
    ensures Agrees(y, k, l)
  {
  }

  lemma ReleasedThisKey(x: Index, c: Client, k: Key)
    requires KeyOk(x, k) && k in KeysOf(x, c)
    ensures k in x.lists && Entry(KeysOf(x, c)[k], c) in x.lists[k]
    ensures c in x.flagged ==> k in x.noKey
    ensures KeyOk(Released(x, c, k), k)
  {
    var x' := Released(x, c, k);
    var l, e := List(x, k), Entry(KeysOf(x, c)[k], c);
    assert e in l;
    hide Ordered, Flagged, Unlinked;
    UnlinkedOrdered(l, e.node, x.next);
    UnlinkedCount(l, e, x.next, x.flagged);
    FlaggedNone(x.flagged);
    ReleasedAgrees(x, c, k, l, x'.keys);
    AgreesFrame(x.(keys := x'.keys), x', k, Unlinked(l, e.node));
    hide Agrees;
  }

  lemma FlaggedNone(flagged: set<Client>)
    ensures Flagged([], flagged) == 0
  {
  }

  lemma SameNode(l: seq<Entry>, next: nat, e: Entry, f: Entry)
    requires Ordered(l, next) && e in l && f in l && e.node == f.node
    ensures e == f
  {
    var i :| 0 <= i < |l| && l[i] == e;
    var j :| 0 <= j < |l| && l[j] == f;
  }

  lemma ReleasedOtherKey(x: Index, c: Client, k: Key, k': Key)
    requires KeyOk(x, k') && k' != k && k in KeysOf(x, c)
    ensures KeyOk(Released(x, c, k), k') && List(Released(x, c, k), k') == List(x, k')
  {
    var x' := Released(x, c, k);
    assert List(x', k') == List(x, k');
    hide Flagged, Unlinked, Ordered;
    forall d ensures k' in KeysOf(x', d) <==> k' in KeysOf(x, d) {}
  }

  lemma ReleasedOk(x: Index, c: Client, k: Key)
    requires Ok(x) && k in KeysOf(x, c)
    ensures Ok(Released(x, c, k))
  {
    hide KeyOk, Released;
    forall k' ensures KeyOk(Released(x, c, k), k') {
      assert KeyOk(x, k');
      if k' == k { ReleasedThisKey(x, c, k); } else { ReleasedOtherKey(x, c, k, k'); }
    }
  }

  // ---- Flags ------------------------------------------------------------------------------------------------------

  lemma {:induction false} FlaggedSame(l: seq<Entry>, f: set<Client>, g: set<Client>)
    requires forall e :: e in l ==> (e.client in f <==> e.client in g)
    ensures Flagged(l, f) == Flagged(l, g)
    decreases |l|
  {
    if l != [] {
      assert l[|l| - 1] in l;
      FlaggedSame(l[..|l| - 1], f, g);
    }
  }

  /** The flag of a client that waits for nothing does not matter. */
  lemma FlagOk(x: Index, c: Client, flagged: set<Client>)
    requires Ok(x) && KeysOf(x, c) == map[] && forall d :: d != c ==> (d in flagged <==> d in x.flagged)
    ensures Ok(x.(flagged := flagged))
  {
    var x' := x.(flagged := flagged);
    forall k ensures KeyOk(x', k) {
      assert KeyOk(x, k);
      FlaggedSame(List(x, k), x.flagged, flagged);
      hide Flagged, Ordered;
      AgreesFrame(x, x', k, List(x, k));
    }
  }
}
