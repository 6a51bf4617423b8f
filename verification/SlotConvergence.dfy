/**
  Slot claims converge (src/cluster.c): whatever the order in which nodes hear the same claims,
  and however often, they end with the same owner for every slot.
 */
module SlotConvergence {
  import opened SlotTable
  import opened SlotOps
  import opened Options

  /** One claim per peer, each under its own configEpoch. */
  ghost predicate ClaimsOk(claims: map<Id, Claim>) {
    && (forall p :: p in claims ==> claims[p].sender == p && |claims[p].slots| == SLOTS)
    && (forall p, q :: p in claims && q in claims && claims[p].epoch == claims[q].epoch ==> p == q)
  }

  ghost function EpochsOf(claims: map<Id, Claim>): map<Id, nat> { map p | p in claims :: claims[p].epoch }

  ghost function EmptyView(): View {
    View(seq(SLOTS, _ => None), seq(SLOTS, _ => false))
  }

  ghost function NoImports(): seq<Option<Id>> { seq(SLOTS, _ => None) }

  /** The table of a node that hears claims in this order, starting with nothing. */
  ghost function Deliver(claims: map<Id, Claim>, order: seq<Id>): (v: View)
    requires ClaimsOk(claims) && forall p :: p in order ==> p in claims
    ensures |v.owners| == |v.stale| == SLOTS
    decreases |order|
  {
    if order == [] then EmptyView()
    else Rebound(Deliver(claims, order[..|order| - 1]), NoImports(), EpochsOf(claims), claims[order[|order| - 1]])
  }

  ghost function Heard(order: seq<Id>): set<Id> { set p | p in order }

  ghost predicate Claims(claims: map<Id, Claim>, p: Id, j: nat) {
    p in claims && j < |claims[p].slots| && claims[p].slots[j]
  }

  /** The owner is the claimant with the greatest configEpoch among those heard, or nobody when nobody claims. */
  ghost predicate Greatest(claims: map<Id, Claim>, heard: set<Id>, j: nat, owner: Option<Id>) {
    match owner
    case None => forall p :: p in heard ==> !Claims(claims, p, j)
    case Some(w) => w in heard && Claims(claims, w, j)
                    && forall p :: p in heard && Claims(claims, p, j) ==> claims[p].epoch <= claims[w].epoch
  }

  lemma RebindGreatest(claims: map<Id, Claim>, heard: set<Id>, j: nat, owner: Option<Id>, p: Id)
    requires ClaimsOk(claims) && heard <= claims.Keys && p in claims && j < SLOTS && Greatest(claims, heard, j, owner)
    ensures var older := OlderThan(EpochsOf(claims), owner, claims[p].epoch);
            var after := Rebind(owner, false, false, older, p, claims[p].slots[j]);
            Greatest(claims, heard + {p}, j, after.0) && after.1 == false
  {
  }

  lemma ReboundAt(v: View, epochs: map<Id, nat>, c: Claim, j: nat)
    requires |v.owners| == |v.stale| == |c.slots| == SLOTS && j < SLOTS
    ensures var r := Rebound(v, NoImports(), epochs, c);
            (r.owners[j], r.stale[j])
            == Rebind(v.owners[j], v.stale[j], false, OlderThan(epochs, v.owners[j], c.epoch), c.sender, c.slots[j])
  {
  }

  lemma {:induction false} DeliverGreatest(claims: map<Id, Claim>, order: seq<Id>, j: nat)
    requires ClaimsOk(claims) && (forall p :: p in order ==> p in claims) && j < SLOTS
    ensures var v := Deliver(claims, order);
            Greatest(claims, Heard(order), j, v.owners[j]) && !v.stale[j]
    decreases |order|
  {
    hide Greatest, Rebind, Rebound;
    if order == [] {
      NobodyYet(claims, j);
      assert Heard(order) == {};
    } else {
      var most, p := order[..|order| - 1], order[|order| - 1];
      DeliverGreatest(claims, most, j);
      var v := Deliver(claims, most);
      RebindGreatest(claims, Heard(most), j, v.owners[j], p);
      ReboundAt(v, EpochsOf(claims), claims[p], j);
      assert Heard(order) == Heard(most) + {p};
    }
  }

  lemma NobodyYet(claims: map<Id, Claim>, j: nat)
    ensures Greatest(claims, {}, j, None)
  {
  }

  lemma GreatestIsUnique(claims: map<Id, Claim>, heard: set<Id>, j: nat, a: Option<Id>, b: Option<Id>)
    requires ClaimsOk(claims) && heard <= claims.Keys && Greatest(claims, heard, j, a) && Greatest(claims, heard, j, b)
    ensures a == b
  {
  }

  /** Two nodes that have heard the same peers, in any orders and any number of times, hold the same table. */
  lemma ObserversAgree(claims: map<Id, Claim>, order: seq<Id>, order': seq<Id>)
    requires ClaimsOk(claims) && (forall p :: p in order ==> p in claims) && (forall p :: p in order' ==> p in claims)
    requires Heard(order) == Heard(order')
    ensures Deliver(claims, order) == Deliver(claims, order')
  {
    hide Greatest, Deliver;
    var v, w := Deliver(claims, order), Deliver(claims, order');
    forall j | 0 <= j < SLOTS ensures v.owners[j] == w.owners[j] && v.stale[j] == w.stale[j] {
      DeliverGreatest(claims, order, j);
      DeliverGreatest(claims, order', j);
      GreatestIsUnique(claims, Heard(order), j, v.owners[j], w.owners[j]);
    }
    assert v.owners == w.owners && v.stale == w.stale;
  }
}
