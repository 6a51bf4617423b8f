/**
  The operations on the slot table (src/cluster.c): single slots, a node's slots, a claim by
  another node, a failover, the removal of a node. Each keeps the table coherent.
 */
module SlotOps {
  import opened SlotBitmap
  import opened SlotTable
  import opened Options

  // ---- Loops over the slots -----------------------------------------------------------------------------

  /** The table when the first k slots have been brought from t to u. */
  ghost function Upto<T>(t: seq<T>, u: seq<T>, k: nat): seq<T>
    requires k <= |t| == |u|
  {
    u[..k] + t[k..]
  }

  lemma UptoStep<T>(t: seq<T>, u: seq<T>, k: nat)
    requires k < |t| == |u|
    ensures Upto(t, u, k)[k] == t[k] && Upto(t, u, k + 1) == Upto(t, u, k)[k := u[k]]
    ensures Upto(t, u, 0) == t && Upto(t, u, |t|) == u
  {
  }

  /** The same nodes in the same roles, whatever slots they hold. */
  ghost predicate SameNodes(a: Nodes, b: Nodes) {
    a.Keys == b.Keys && forall n :: n in a ==> b[n] == a[n].(bitmap := b[n].bitmap, numslots := b[n].numslots)
  }

  /** Only replicas follow a node, the node they follow is known, and `me` does not follow itself. */
  ghost predicate RolesOk(nodes: Nodes, me: Id) {
    && me in nodes && nodes[me].slaveof != Some(me)
    && forall n :: n in nodes && nodes[n].slaveof.Some? ==> !nodes[n].master && nodes[n].slaveof.value in nodes
  }

  // ---- Claims ----------------------------------------------------------------------------------------------

  /** What a claim does to one slot: its owner, and whether the owner has stopped claiming it. */
  function Rebind(owner: Option<Id>, stale: bool, importing: bool, older: bool, sender: Id,
                  claimed: bool): (Option<Id>, bool) {
    if claimed then
      if owner == Some(sender) then (owner, false)
      else if importing then (owner, stale)
      else if owner == None || stale || older then (Some(sender), false)
      else (owner, stale)
    else if owner == Some(sender) then (owner, true)
    else (owner, stale)
  }

  /** The owner's configEpoch is below the one in the claim. */
  predicate Older(nodes: Nodes, owner: Option<Id>, epoch: nat) {
    owner.Some? && owner.value in nodes && nodes[owner.value].configEpoch < epoch
  }

  ghost function BitsOf(bm: Bitmap): (w: seq<bool>)
    requires |bm| == BYTES
    ensures |w| == SLOTS
  {
    seq(SLOTS, j requires 0 <= j < SLOTS => TestBit(bm, j))
  }

  lemma BitsUpdate(bm: Bitmap, j: nat)
    requires |bm| == BYTES && j < SLOTS
    ensures BitsOf(SetBit(bm, j)) == BitsOf(bm)[j := true] && BitsOf(ClearBit(bm, j)) == BitsOf(bm)[j := false]
  {
    hide TestBit, SetBit, ClearBit;
    forall q | 0 <= q < SLOTS
      ensures BitsOf(SetBit(bm, j))[q] == BitsOf(bm)[j := true][q]
              && BitsOf(ClearBit(bm, j))[q] == BitsOf(bm)[j := false][q]
    {
      BitChanges(bm, j, q);
    }
  }

  // ---- The cluster state -------------------------------------------------------------------------------------

  class ClusterState {
    const slots: array<Option<Id>>
    const importing: array<Option<Id>>     // importing_slots_from
    const migrating: array<Option<Id>>     // migrating_slots_to
    var notClaiming: Bitmap                // owner_not_claiming_slot
    var nodes: Nodes
    var myself: Id

    ghost predicate Valid()
      reads this, slots
    {
      && slots.Length == importing.Length == migrating.Length == SLOTS && |notClaiming| == BYTES
      && slots != importing && slots != migrating && importing != migrating
      && RolesOk(nodes, myself) && Coherent(slots[..], nodes)
    }

    constructor (me: Id)
      ensures Valid() && fresh(slots) && fresh(importing) && fresh(migrating)
      ensures myself == me && nodes.Keys == {me} && forall j :: 0 <= j < SLOTS ==> slots[j] == None
    {
      slots := new Option<Id>[SLOTS](_ => None);
      importing := new Option<Id>[SLOTS](_ => None);
      migrating := new Option<Id>[SLOTS](_ => None);
      notClaiming := Zeros(BYTES);
      nodes := map[me := Node(Zeros(BYTES), 0, 0, true, None)];
      myself := me;
      new;
      EmptyIsCoherent(slots[..], nodes, me);
    }

    /** clusterAddNode, for a node just created. */
    method AddNode(n: Id, master: bool)
      requires Valid() && n !in nodes
      modifies this`nodes
      ensures Valid() && nodes == old(nodes)[n := Node(Zeros(BYTES), 0, 0, master, None)]
    {
      hide NodeOk, TestBit, Zeros;
      NewKeeps(slots[..], nodes, n, Node(Zeros(BYTES), 0, 0, master, None));
      nodes := nodes[n := Node(Zeros(BYTES), 0, 0, master, None)];
    }

    /** clusterSetNodeAsMaster. */
    method SetNodeAsMaster(n: Id)
      requires Valid() && n in nodes
      modifies this`nodes
      ensures Valid()
      ensures nodes == if old(nodes)[n].master then old(nodes)
                       else old(nodes)[n := old(nodes)[n].(master := true, slaveof := None)]
    {
      hide NodeOk, Coherent;
      if nodes[n].master { return; }
      RoleKeeps(slots[..], nodes, n, true, None);
      nodes := nodes[n := nodes[n].(master := true, slaveof := None)];
    }

    /**
      A node says that it is a replica: it loses its slots if it was a master, and follows its master if we
      know it.
     */
    method SetNodeAsReplica(n: Id, master: Id)
      requires Valid() && n in nodes && n != myself
      modifies this`nodes, slots
      ensures Valid() && nodes.Keys == old(nodes.Keys)
      ensures slots[..] == if old(nodes)[n].master then Moved(old(slots[..]), n, None) else old(slots[..])
      ensures !nodes[n].master && (old(nodes)[n].master ==> nodes[n].numslots == 0)
      ensures nodes[n].slaveof == if master in nodes then Some(master) else old(nodes)[n].slaveof
      ensures forall m :: m in nodes && m != n ==> nodes[m] == old(nodes)[m]
    {
      hide NodeOk, Moved, Coherent, SameNodes;
      SameSelf(nodes);
      if nodes[n].master { var deleted := DelNodeSlots(n); }
      SameRole(old(nodes), nodes, n);
      SameTrans(old(nodes), nodes, nodes);
      var follows := if master in nodes then Some(master) else nodes[n].slaveof;
      RoleKeeps(slots[..], nodes, n, false, follows);
      RolesStay(old(nodes), nodes, myself);
      nodes := nodes[n := nodes[n].(master := false, slaveof := follows)];
    }

    /** clusterSetMaster: this server follows another node; a master also closes its imports and migrations. */
    method SetMaster(to: Id)
      requires Valid() && to in nodes && to != myself && nodes[myself].numslots == 0
      modifies this`nodes, importing, migrating
      ensures Valid() && nodes == old(nodes)[myself := old(nodes)[myself].(master := false, slaveof := Some(to))]
      ensures importing[..] == if old(nodes)[myself].master then NoMarks() else old(importing[..])
      ensures migrating[..] == if old(nodes)[myself].master then NoMarks() else old(migrating[..])
    {
      hide NodeOk, Coherent;
      if nodes[myself].master { CloseAllSlots(); }
      RoleKeeps(slots[..], nodes, myself, false, Some(to));
      nodes := nodes[myself := nodes[myself].(master := false, slaveof := Some(to))];
    }

    /** clusterCloseAllSlots. */
    method CloseAllSlots()
      requires importing.Length == migrating.Length == SLOTS
      modifies importing, migrating
      ensures importing[..] == NoMarks() && migrating[..] == NoMarks()
    {
      var j := 0;
      while j < SLOTS
        invariant 0 <= j <= SLOTS
        invariant forall i :: 0 <= i < j ==> importing[i] == None && migrating[i] == None
      {
        migrating[j] := None;
        importing[j] := None;
        j := j + 1;
      }
    }

    /** clusterNodeSetSlotBit. */
    method SetSlotBit(n: Id, j: nat) returns (was: bool)
      requires n in nodes && j < 8 * |nodes[n].bitmap|
      modifies this`nodes
      ensures was == old(TestBit(nodes[n].bitmap, j))
      ensures nodes == if was then old(nodes)
                       else
                         var x := old(nodes[n]);
                         old(nodes)[n := x.(bitmap := SetBit(x.bitmap, j), numslots := x.numslots + 1)]
    {
      var x := nodes[n];
      was := TestBit(x.bitmap, j);
      if !was { nodes := nodes[n := x.(bitmap := SetBit(x.bitmap, j), numslots := x.numslots + 1)]; }
    }

    /** clusterNodeClearSlotBit. */
    method ClearSlotBit(n: Id, j: nat) returns (was: bool)
      requires n in nodes && j < 8 * |nodes[n].bitmap|
      modifies this`nodes
      ensures was == old(TestBit(nodes[n].bitmap, j))
      ensures nodes == if !was then old(nodes)
                       else
                         var x := old(nodes[n]);
                         old(nodes)[n := x.(bitmap := ClearBit(x.bitmap, j), numslots := x.numslots - 1)]
    {
      var x := nodes[n];
      was := TestBit(x.bitmap, j);
      if was { nodes := nodes[n := x.(bitmap := ClearBit(x.bitmap, j), numslots := x.numslots - 1)]; }
    }

    /** clusterAddSlot. */
    method AddSlot(n: Id, j: nat) returns (ok: bool)
      requires Valid() && n in nodes && j < SLOTS
      modifies this`nodes, slots
      ensures Valid() && SameNodes(old(nodes), nodes)
      ensures ok == (old(slots[j]) == None)
      ensures slots[..] == if ok then old(slots[..])[j := Some(n)] else old(slots[..])
    {
      hide NodeOk, TestBit, SetBit;
      if slots[j] != None { return false; }
      AddKeeps(slots[..], nodes, j, n);
      BitmapSizes(slots[..], nodes, n);
      var was := SetSlotBit(n, j);
      slots[j] := Some(n);
      return true;
    }

    /** clusterDelSlot: the assertion that the owner's bit was set holds. */
    method DelSlot(j: nat) returns (ok: bool)
      requires Valid() && j < SLOTS
      modifies this`nodes, slots
      ensures Valid() && SameNodes(old(nodes), nodes)
      ensures ok == (old(slots[j]) != None)
      ensures slots[..] == old(slots[..])[j := None]
      ensures forall m :: m in nodes && old(slots[j]) != Some(m) ==> nodes[m] == old(nodes)[m]
    {
      hide NodeOk, TestBit, ClearBit;
      if slots[j] == None { return false; }
      var n := slots[j].value;
      DelKeeps(slots[..], nodes, j);
      BitmapSizes(slots[..], nodes, n);
      var was := ClearSlotBit(n, j);
      assert was;
      slots[j] := None;
      return true;
    }

    /** clusterDelNodeSlots. */
    method DelNodeSlots(n: Id) returns (deleted: nat)
      requires Valid() && n in nodes
      modifies this`nodes, slots
      ensures Valid() && SameNodes(old(nodes), nodes)
      ensures slots[..] == Moved(old(slots[..]), n, None)
      ensures deleted == old(nodes[n].numslots) && nodes[n].numslots == 0
      ensures forall m :: m in nodes && m != n ==> nodes[m] == old(nodes)[m]
    {
      hide NodeOk, TestBit, Moved, Upto, SameNodes;
      ghost var t, u := slots[..], Moved(slots[..], n, None);
      UptoStep(t, u, 0);
      SameSelf(nodes);
      BitmapSizes(t, nodes, n);
      deleted := 0;
      var j := 0;
      while j < SLOTS
        invariant 0 <= j <= SLOTS && Valid() && SameNodes(old(nodes), nodes) && n in nodes
        invariant slots[..] == Upto(t, u, j) && deleted == Count(t, n, j) && nodes.Keys == old(nodes).Keys
        invariant forall m :: m in nodes && m != n ==> nodes[m] == old(nodes)[m]
      {
        UptoStep(t, u, j);
        MovedAt(t, n, None, j);
        BitmapSizes(slots[..], nodes, n);
        ghost var before := nodes;
        if TestBit(nodes[n].bitmap, j) {
          var ok := DelSlot(j);
          deleted := deleted + 1;
        }
        SameTrans(old(nodes), before, nodes);
        j := j + 1;
      }
      UptoStep(t, u, 0);
      BitmapSizes(slots[..], nodes, n);
      MovedCounts(t, n, None, n, SLOTS);
    }

    /** The loop of clusterFailoverReplaceYourMaster. */
    method ClaimSlotsOf(from: Id, to: Id)
      requires Valid() && from in nodes && to in nodes && from != to
      modifies this`nodes, slots
      ensures Valid() && SameNodes(old(nodes), nodes)
      ensures slots[..] == Moved(old(slots[..]), from, Some(to))
    {
      hide NodeOk, TestBit, Moved, Upto, SameNodes;
      ghost var t, u := slots[..], Moved(slots[..], from, Some(to));
      UptoStep(t, u, 0);
      SameSelf(nodes);
      var j := 0;
      while j < SLOTS
        invariant 0 <= j <= SLOTS && Valid() && SameNodes(old(nodes), nodes) && from in nodes && to in nodes
        invariant slots[..] == Upto(t, u, j)
      {
        UptoStep(t, u, j);
        MovedAt(t, from, Some(to), j);
        BitmapSizes(slots[..], nodes, from);
        ghost var before := nodes;
        if TestBit(nodes[from].bitmap, j) {
          var ok := DelSlot(j);
          SameTrans(old(nodes), before, nodes);
          before := nodes;
          ok := AddSlot(to, j);
        }
        SameTrans(old(nodes), before, nodes);
        j := j + 1;
      }
      UptoStep(t, u, 0);
    }

    /** clusterFailoverReplaceYourMaster: exactly the slots of the old master become ours. */
    method ReplaceYourMaster()
      requires Valid()
      modifies this`nodes, slots
      ensures Valid() && nodes.Keys == old(nodes.Keys)
      ensures var me := old(nodes[myself]);
              if me.master || me.slaveof == None then nodes == old(nodes) && slots[..] == old(slots[..])
              else var master := me.slaveof.value;
                   && nodes[myself].master && nodes[myself].slaveof == None
                   && slots[..] == Moved(old(slots[..]), master, Some(myself))
                   && nodes[master].numslots == 0
                   && nodes[myself].numslots == me.numslots + old(nodes)[master].numslots
    {
      hide NodeOk, Moved, SameNodes, Coherent;
      var me := myself;
      if nodes[me].master || nodes[me].slaveof == None { return; }
      var master := nodes[me].slaveof.value;
      ghost var t := slots[..];
      BitmapSizes(t, nodes, me);
      BitmapSizes(t, nodes, master);
      SetNodeAsMaster(me);
      ghost var start := nodes;
      ClaimSlotsOf(master, me);
      SameRole(start, nodes, me);
      SameTrans(start, nodes, nodes);
      BitmapSizes(slots[..], nodes, me);
      BitmapSizes(slots[..], nodes, master);
      MovedCounts(t, master, Some(me), me, SLOTS);
      MovedCounts(t, master, Some(me), master, SLOTS);
    }

    /** One turn of the loop of clusterUpdateSlotsConfigWith. */
    method ClaimSlot(sender: Id, epoch: nat, claimed: bool, j: nat) returns (rebound: bool)
      requires Valid() && sender in nodes && j < SLOTS
      modifies this`nodes, this`notClaiming, slots
      ensures Valid() && SameNodes(old(nodes), nodes)
      ensures var owner := old(slots[j]);
              var stale, older := old(TestBit(notClaiming, j)), Older(old(nodes), owner, epoch);
              var after := Rebind(owner, stale, old(importing[j]).Some?, older, sender, claimed);
              && slots[..] == old(slots[..])[j := after.0]
              && BitsOf(notClaiming) == old(BitsOf(notClaiming))[j := after.1]
              && rebound == (after.0 != owner)
      ensures Settled(old(slots[j]), old(TestBit(notClaiming, j)), old(importing[j]), old(nodes), sender, epoch,
                      claimed, slots[j], TestBit(notClaiming, j))
    {
      hide NodeOk, TestBit, SameNodes, SetBit, ClearBit, Coherent, Settled;
      RebindSettles(slots[j], TestBit(notClaiming, j), importing[j], nodes, sender, epoch, claimed);
      BitsAt(notClaiming, j);
      BitsUpdate(notClaiming, j);
      SameSelf(nodes);
      rebound := false;
      if claimed {
        if slots[j] == Some(sender) {
          notClaiming := ClearBit(notClaiming, j);
        } else if importing[j].Some? {
        } else if slots[j] == None || TestBit(notClaiming, j) || Older(nodes, slots[j], epoch) {
          var ok := DelSlot(j);
          ghost var before := nodes;
          SameTrans(old(nodes), nodes, nodes);
          ok := AddSlot(sender, j);
          SameTrans(old(nodes), before, nodes);
          notClaiming := ClearBit(notClaiming, j);
          rebound := true;
        }
      } else if slots[j] == Some(sender) {
        notClaiming := SetBit(notClaiming, j);
      }
      BitsAt(notClaiming, j);
    }

    /**
      The loop of clusterUpdateSlotsConfigWith: the table after the claim, how many slots were claimed, how many
      of them were taken from `cur` (from nobody, if our master is unknown), and which of our own we lost while
      they hold keys.
     */
    method ClaimSlots(sender: Id, epoch: nat, claim: Bitmap, cur: Option<Id>, keys: seq<bool>)
      returns (claimed: nat, taken: nat, dirty: seq<nat>)
      requires Valid() && sender in nodes && |claim| == BYTES && |keys| == SLOTS
      modifies this`nodes, this`notClaiming, slots
      ensures Valid() && SameNodes(old(nodes), nodes)
      ensures var before := View(old(slots[..]), old(BitsOf(notClaiming)));
              View(slots[..], BitsOf(notClaiming))
              == Rebound(before, old(importing[..]), Epochs(old(nodes)), ClaimOf(sender, epoch, BitsOf(claim)))
      ensures claimed == Ones(claim, SLOTS) && taken == Taken(old(slots[..]), slots[..], cur, SLOTS)
      ensures dirty == Dirty(old(slots[..]), slots[..], myself, keys, SLOTS)
      ensures forall j :: 0 <= j < SLOTS ==>
                Settled(old(slots[..])[j], old(BitsOf(notClaiming))[j], old(importing[..])[j], old(nodes), sender,
                        epoch, BitsOf(claim)[j], slots[j], BitsOf(notClaiming)[j])
    {
      hide NodeOk, TestBit, SameNodes, Coherent, Upto, BitsOf, Rebind, Rebound, Older, RolesOk, Settled;
      SameSelf(nodes);
      ghost var before := View(slots[..], BitsOf(notClaiming));
      ghost var after := Rebound(before, importing[..], Epochs(nodes), ClaimOf(sender, epoch, BitsOf(claim)));
      UptoStep(before.owners, after.owners, 0);
      UptoStep(before.stale, after.stale, 0);
      claimed, taken, dirty := 0, 0, [];
      var j := 0;
      while j < SLOTS
        invariant 0 <= j <= SLOTS && Valid() && SameNodes(old(nodes), nodes) && sender in nodes
        invariant slots[..] == Upto(before.owners, after.owners, j)
        invariant BitsOf(notClaiming) == Upto(before.stale, after.stale, j)
        invariant claimed == Ones(claim, j) && taken == Taken(before.owners, after.owners, cur, j)
        invariant dirty == Dirty(before.owners, after.owners, myself, keys, j)
      {
        ghost var nodes0 := nodes;
        UptoStep(before.owners, after.owners, j);
        UptoStep(before.stale, after.stale, j);
        BitsAt(notClaiming, j);
        BitsAt(claim, j);
        ReboundAt(before, importing[..], old(nodes), nodes, ClaimOf(sender, epoch, BitsOf(claim)), j);
        var owner := slots[j];
        var rebound := ClaimSlot(sender, epoch, TestBit(claim, j), j);
        if TestBit(claim, j) { claimed := claimed + 1; }
        if rebound && owner == Some(myself) && keys[j] { dirty := dirty + [j]; }
        if rebound && owner == cur { taken := taken + 1; }
        SameTrans(old(nodes), nodes0, nodes);
        j := j + 1;
      }
      AllSettle(before, importing[..], old(nodes), ClaimOf(sender, epoch, BitsOf(claim)));
    }

    /**
      clusterUpdateSlotsConfigWith.  `keys` says which slots hold keys, `redirects` whether modules left redirections
      on, `migration` whether replicas may migrate.
     */
    method UpdateSlotsConfigWith(sender: Id, epoch: nat, claim: Bitmap, keys: seq<bool>, redirects: bool,
                                 migration: bool)
      returns (outcome: Outcome)
      requires Valid() && sender in nodes && |claim| == BYTES && |keys| == SLOTS
      modifies this`nodes, this`notClaiming, slots, importing, migrating
      ensures Valid() && nodes.Keys == old(nodes.Keys)
      ensures sender == myself ==> nodes == old(nodes) && slots[..] == old(slots[..]) && notClaiming == old(notClaiming)
      ensures sender != myself ==>
                var before := View(old(slots[..]), old(BitsOf(notClaiming)));
                View(slots[..], BitsOf(notClaiming))
                == Rebound(before, old(importing[..]), Epochs(old(nodes)), ClaimOf(sender, epoch, BitsOf(claim)))
      ensures sender != myself ==>
                forall j :: 0 <= j < SLOTS ==>
                  Settled(old(slots[..])[j], old(BitsOf(notClaiming))[j], old(importing[..])[j], old(nodes), sender,
                          epoch, BitsOf(claim)[j], slots[j], BitsOf(notClaiming)[j])
      ensures outcome == if sender == myself || !redirects then Stay
                         else Decision(old(slots[..]), slots[..], old(nodes), myself, sender, Ones(claim, SLOTS),
                                       keys, migration)
      ensures Role(nodes, myself) == if outcome.Follow? then (false, Some(outcome.to)) else Role(old(nodes), myself)
      ensures forall n :: n in nodes && n != myself ==> Role(nodes, n) == Role(old(nodes), n)
      ensures var closed := outcome.Follow? && old(nodes)[myself].master;
              && importing[..] == (if closed then NoMarks() else old(importing[..]))
              && migrating[..] == (if closed then NoMarks() else old(migrating[..]))
    {
      hide NodeOk, Coherent, Rebound, BitsOf, Taken, Dirty, SameNodes, Ones, Settled, Decision, Reaction;
      if sender == myself { return Stay; }
      var cur := if nodes[myself].master then Some(myself) else nodes[myself].slaveof;
      var claimed, taken, dirty := ClaimSlots(sender, epoch, claim, cur, keys);
      SameTrans(old(nodes), nodes, nodes);
      SameRoles(old(nodes), nodes);
      if !redirects { return Stay; }
      ReactionIsDecision(old(slots[..]), slots[..], old(nodes), nodes, myself, sender, claimed, keys, migration);
      outcome := Reconfigure(sender, cur, claimed, taken, dirty, migration);
    }

    /** What clusterUpdateSlotsConfigWith does after its loop. */
    method Reconfigure(sender: Id, cur: Option<Id>, claimed: nat, taken: nat, dirty: seq<nat>, migration: bool)
      returns (outcome: Outcome)
      requires Valid() && sender in nodes && sender != myself
      requires cur == if nodes[myself].master then Some(myself) else nodes[myself].slaveof
      modifies this`nodes, importing, migrating
      ensures Valid()
      ensures outcome == Reaction(old(nodes), myself, sender, cur, claimed, taken, dirty, migration)
      ensures var me := old(nodes)[myself];
              nodes == if outcome.Follow? then old(nodes)[myself := me.(master := false, slaveof := Some(outcome.to))]
                       else old(nodes)
      ensures var closed := outcome.Follow? && old(nodes)[myself].master;
              && importing[..] == (if closed then NoMarks() else old(importing[..]))
              && migrating[..] == (if closed then NoMarks() else old(migrating[..]))
    {
      hide NodeOk, Coherent;
      var me := myself;
      if taken > 0 && cur == None { return Abort; }
      if taken > 0 && nodes[cur.value].numslots == 0 && (migration || claimed == taken) {
        if nodes[me].numslots != 0 { return Abort; }
        SetMaster(sender);
        return Follow(sender);
      } else if nodes[me].slaveof.Some? && nodes[nodes[me].slaveof.value].slaveof.Some?
                && nodes[nodes[me].slaveof.value].slaveof != Some(me) {
        var grand := nodes[nodes[me].slaveof.value].slaveof.value;
        if nodes[me].numslots != 0 { return Abort; }
        SetMaster(grand);
        return Follow(grand);
      } else if dirty != [] {
        return Purge(dirty);
      }
      return Stay;
    }

    /** clusterDelNode: nothing refers to the node any more. */
    method DelNode(n: Id)
      requires Valid() && n in nodes && n != myself
      modifies this`nodes, slots, importing, migrating
      ensures Valid() && nodes == Dropped(old(nodes), n)
      ensures slots[..] == Moved(old(slots[..]), n, None)
      ensures importing[..] == Moved(old(importing[..]), n, None) && migrating[..] == Moved(old(migrating[..]), n, None)
    {
      hide NodeOk, TestBit, Moved, Upto, SameNodes, Coherent, RolesOk;
      ghost var t, u := slots[..], Moved(slots[..], n, None);
      ghost var ti, ui := importing[..], Moved(importing[..], n, None);
      ghost var tm, um := migrating[..], Moved(migrating[..], n, None);
      UptoStep(t, u, 0);
      UptoStep(ti, ui, 0);
      UptoStep(tm, um, 0);
      var j := 0;
      while j < SLOTS
        invariant 0 <= j <= SLOTS && Valid() && nodes.Keys == old(nodes.Keys)
        invariant slots[..] == Upto(t, u, j) && importing[..] == Upto(ti, ui, j) && migrating[..] == Upto(tm, um, j)
        invariant forall m :: m in nodes && m != n ==> nodes[m] == old(nodes)[m]
      {
        UptoStep(t, u, j);
        UptoStep(ti, ui, j);
        UptoStep(tm, um, j);
        MovedAt(t, n, None, j);
        MovedAt(ti, n, None, j);
        MovedAt(tm, n, None, j);
        if importing[j] == Some(n) { importing[j] := None; }
        if migrating[j] == Some(n) { migrating[j] := None; }
        ghost var before := nodes;
        if slots[j] == Some(n) {
          var ok := DelSlot(j);
          SameTrans(before, nodes, nodes);
        }
        j := j + 1;
      }
      RemoveKeeps(t, nodes, n);
      RemoveRoles(nodes, n, myself);
      assert Dropped(nodes, n) == Dropped(old(nodes), n);
      nodes := Dropped(nodes, n);
    }
  }

  /** The nodes without n; whoever followed it follows nobody. */
  function Dropped(nodes: Nodes, n: Id): Nodes {
    map m | m in nodes && m != n :: nodes[m].(slaveof := if nodes[m].slaveof == Some(n) then None else nodes[m].slaveof)
  }

  lemma RemoveRoles(nodes: Nodes, n: Id, me: Id)
    requires RolesOk(nodes, me) && n != me
    ensures RolesOk(Dropped(nodes, n), me)
  {
  }

  /** A node without slots can go. */
  lemma RemoveKeeps(t: Owners, nodes: Nodes, n: Id)
    requires Coherent(Moved(t, n, None), nodes)
    ensures Coherent(Moved(t, n, None), Dropped(nodes, n))
  {
    hide TestBit, Count, Moved;
    var u, nodes' := Moved(t, n, None), Dropped(nodes, n);
    forall m | m in nodes' ensures NodeOk(u, m, nodes'[m]) { assert NodeOk(u, m, nodes[m]); }
    forall j | 0 <= j < SLOTS && u[j].Some? ensures u[j].value in nodes' { MovedAt(t, n, None, j); }
  }

  /** What one node sees of the table: owners, and owners that stopped claiming. */
  datatype View = View(owners: Owners, stale: seq<bool>)

  /**
    What follows a claim: nothing, a new master, the deletion of the keys of lost slots, or the end of the process:
    an unknown master is looked at, or clusterSetMaster finds that we still hold slots.
   */
  datatype Outcome = Stay | Follow(to: Id) | Purge(lost: seq<nat>) | Abort

  ghost function Role(nodes: Nodes, n: Id): (bool, Option<Id>) {
    if n in nodes then (nodes[n].master, nodes[n].slaveof) else (false, None)
  }

  /** How many of the first k slots were taken from `cur`, or from nobody. */
  ghost function Taken(before: Owners, after: Owners, cur: Option<Id>, k: nat): nat
    requires k <= |before| == |after|
  {
    if k == 0 then 0
    else Taken(before, after, cur, k - 1) + if before[k - 1] == cur && after[k - 1] != cur then 1 else 0
  }

  /** A claim of as many slots as it took from one owner is a claim of exactly those. */
  lemma {:induction false} ExactClaim(before: Owners, after: Owners, cur: Option<Id>, claim: Bitmap, k: nat)
    requires |before| == |after| == SLOTS && |claim| == BYTES && k <= SLOTS
    requires forall j :: 0 <= j < SLOTS && before[j] == cur && after[j] != cur ==> TestBit(claim, j)
    ensures Taken(before, after, cur, k) <= Ones(claim, k)
    ensures Taken(before, after, cur, k) == Ones(claim, k) <==>
            forall j :: 0 <= j < k ==> (TestBit(claim, j) <==> before[j] == cur && after[j] != cur)
    decreases k
  {
    hide TestBit;
    if k > 0 { ExactClaim(before, after, cur, claim, k - 1); }
  }

  /** The slots among the first k that n lost while they hold keys. */
  ghost function Dirty(before: Owners, after: Owners, n: Id, keys: seq<bool>, k: nat): seq<nat>
    requires k <= |before| == |after| == |keys|
  {
    if k == 0 then []
    else Dirty(before, after, n, keys, k - 1)
         + if before[k - 1] == Some(n) && after[k - 1] != Some(n) && keys[k - 1] then [k - 1] else []
  }

  /**
    What a server does after a claim: follow the claimant if it took the last slots of the server's own master
    (itself, if it is one), else leave a master that is a replica, else delete the keys of the slots it lost.
   */
  ghost function Decision(before: Owners, after: Owners, nodes: Nodes, me: Id, sender: Id, claimed: nat,
                          keys: seq<bool>, migration: bool): Outcome
    requires |before| == |after| == |keys| == SLOTS && RolesOk(nodes, me)
  {
    var cur := if nodes[me].master then Some(me) else nodes[me].slaveof;
    var taken := Taken(before, after, cur, SLOTS);
    if taken > 0 && cur == None then Abort
    else
      var last := taken > 0 && Count(after, cur.value, SLOTS) == 0;
      Chosen(nodes, me, sender, last && (migration || claimed == taken), Count(after, me, SLOTS) == 0,
             Dirty(before, after, me, keys, SLOTS))
  }

  /** The same by the counters, where the program looks. */
  ghost function Reaction(nodes: Nodes, me: Id, sender: Id, cur: Option<Id>, claimed: nat, taken: nat,
                          dirty: seq<nat>, migration: bool): Outcome
    requires RolesOk(nodes, me) && (cur.Some? ==> cur.value in nodes)
  {
    if taken > 0 && cur == None then Abort
    else
      var last := taken > 0 && nodes[cur.value].numslots == 0;
      Chosen(nodes, me, sender, last && (migration || claimed == taken), nodes[me].numslots == 0, dirty)
  }

  lemma ReactionIsDecision(before: Owners, after: Owners, nodes: Nodes, nodes': Nodes, me: Id, sender: Id,
                           claimed: nat, keys: seq<bool>, migration: bool)
    requires |before| == |after| == |keys| == SLOTS && RolesOk(nodes, me) && RolesOk(nodes', me)
    requires SameNodes(nodes, nodes') && Coherent(after, nodes')
    ensures var cur := if nodes[me].master then Some(me) else nodes[me].slaveof;
            Reaction(nodes', me, sender, cur, claimed, Taken(before, after, cur, SLOTS),
                     Dirty(before, after, me, keys, SLOTS), migration)
            == Decision(before, after, nodes, me, sender, claimed, keys, migration)
  {
    var cur := if nodes[me].master then Some(me) else nodes[me].slaveof;
    hide Count, Taken, Dirty, Coherent, TestBit;
    BitmapSizes(after, nodes', me);
    if cur.Some? { BitmapSizes(after, nodes', cur.value); }
  }

  ghost function Chosen(nodes: Nodes, me: Id, sender: Id, follow: bool, empty: bool, dirty: seq<nat>): Outcome
    requires RolesOk(nodes, me)
  {
    var grand := if nodes[me].slaveof.Some? then nodes[nodes[me].slaveof.value].slaveof else None;
    if follow then (if empty then Follow(sender) else Abort)
    else if grand.Some? && grand != Some(me) then (if empty then Follow(grand.value) else Abort)
    else if dirty != [] then Purge(dirty)
    else Stay
  }

  /** A master, or a replica that knows its master and holds no slots, survives every claim. */
  lemma ClaimsSurvived(v: View, importing: seq<Option<Id>>, nodes: Nodes, me: Id, c: Claim, claimed: nat,
                       keys: seq<bool>, migration: bool)
    requires |v.owners| == |v.stale| == |importing| == |c.slots| == |keys| == SLOTS && RolesOk(nodes, me)
             && c.sender != me
    requires nodes[me].master || (nodes[me].slaveof.Some? && Count(v.owners, me, SLOTS) == 0)
    ensures var after := Rebound(v, importing, Epochs(nodes), c).owners;
            Decision(v.owners, after, nodes, me, c.sender, claimed, keys, migration) != Abort
  {
    hide Count, Taken, Dirty, Rebound;
    ReboundOwners(v, importing, Epochs(nodes), c);
    CountFalls(v.owners, Rebound(v, importing, Epochs(nodes), c).owners, me, c.sender, SLOTS);
  }

  /**
    What a claim may do to one slot, by the tables before and after.  A slot being imported keeps its owner, and its
    not-claiming bit follows only the claims of that owner.  Any other claimed slot goes to the sender if and only if
    it was the sender's, nobody's, given up, or held under a smaller configEpoch.  An unclaimed slot keeps its owner,
    who is marked if it is the sender.
   */
  ghost predicate Settled(owner: Option<Id>, stale: bool, importing: Option<Id>, nodes: Nodes, sender: Id, epoch: nat,
                          claimed: bool, owner': Option<Id>, stale': bool)
  {
    && (importing.Some? ==> owner' == owner && (stale' != stale ==> owner == Some(sender)))
    && (claimed && importing == None ==>
          && (owner' == Some(sender) <==>
                || owner == Some(sender) || owner == None || stale
                || (owner.value in nodes && nodes[owner.value].configEpoch < epoch))
          && (owner' != Some(sender) ==> owner' == owner && stale' == stale))
    && (claimed && owner' == Some(sender) && (importing == None || owner == owner') ==> !stale')
    && (!claimed ==> owner' == owner && stale' == (stale || owner == Some(sender)))
  }

  lemma RebindSettles(owner: Option<Id>, stale: bool, importing: Option<Id>, nodes: Nodes, sender: Id, epoch: nat,
                      claimed: bool)
    ensures var r := Rebind(owner, stale, importing.Some?, Older(nodes, owner, epoch), sender, claimed);
            Settled(owner, stale, importing, nodes, sender, epoch, claimed, r.0, r.1)
  {
  }

  lemma ReboundSettles(v: View, importing: seq<Option<Id>>, nodes: Nodes, c: Claim, j: nat)
    requires |v.owners| == |v.stale| == |importing| == |c.slots| == SLOTS && j < SLOTS
    ensures var r := Rebound(v, importing, Epochs(nodes), c);
            Settled(v.owners[j], v.stale[j], importing[j], nodes, c.sender, c.epoch, c.slots[j], r.owners[j],
                    r.stale[j])
  {
  }

  lemma AllSettle(v: View, importing: seq<Option<Id>>, nodes: Nodes, c: Claim)
    requires |v.owners| == |v.stale| == |importing| == |c.slots| == SLOTS
    ensures var r := Rebound(v, importing, Epochs(nodes), c);
            forall j :: 0 <= j < SLOTS ==>
              Settled(v.owners[j], v.stale[j], importing[j], nodes, c.sender, c.epoch, c.slots[j], r.owners[j],
                      r.stale[j])
  {
    hide Settled, Rebound;
    forall j | 0 <= j < SLOTS
      ensures var r := Rebound(v, importing, Epochs(nodes), c);
              Settled(v.owners[j], v.stale[j], importing[j], nodes, c.sender, c.epoch, c.slots[j], r.owners[j],
                      r.stale[j])
    {
      ReboundSettles(v, importing, nodes, c, j);
    }
  }

  lemma {:induction false} CountZero(t: Owners, n: Id, k: nat)
    requires k <= |t|
    ensures Count(t, n, k) == 0 <==> forall j :: 0 <= j < k ==> t[j] != Some(n)
    decreases k
  {
    if k > 0 { CountZero(t, n, k - 1); }
  }

  lemma {:induction false} TakenZero(before: Owners, after: Owners, cur: Option<Id>, k: nat)
    requires k <= |before| == |after|
    ensures Taken(before, after, cur, k) == 0 <==> forall j :: 0 <= j < k ==> !(before[j] == cur && after[j] != cur)
    decreases k
  {
    if k > 0 { TakenZero(before, after, cur, k - 1); }
  }

  /** Slot j was n's and holds keys, and is n's no longer. */
  ghost predicate LostWithKeys(before: Owners, after: Owners, n: Id, keys: seq<bool>, j: int) {
    0 <= j < |before| == |after| == |keys| && before[j] == Some(n) && after[j] != Some(n) && keys[j]
  }

  /** The dirty slots are listed in order, each once, and no others. */
  lemma {:induction false} DirtyExactly(before: Owners, after: Owners, n: Id, keys: seq<bool>, k: nat)
    requires k <= |before| == |after| == |keys|
    ensures forall j :: j in Dirty(before, after, n, keys, k) <==> j < k && LostWithKeys(before, after, n, keys, j)
    ensures Ascending(Dirty(before, after, n, keys, k))
    decreases k
  {
    if k > 0 {
      DirtyExactly(before, after, n, keys, k - 1);
      AscendingMore(Dirty(before, after, n, keys, k - 1), k - 1);
    }
  }

  ghost predicate Ascending(d: seq<nat>) { forall i, j :: 0 <= i < j < |d| ==> d[i] < d[j] }

  lemma AscendingMore(d: seq<nat>, x: nat)
    requires Ascending(d) && forall y :: y in d ==> y < x
    ensures Ascending(d + [x])
  {
    assert forall i :: 0 <= i < |d| ==> d[i] in d;
  }

  /** Some slot was taken from `cur`. */
  ghost predicate Lost(before: Owners, after: Owners, cur: Option<Id>) {
    exists j :: 0 <= j < |before| == |after| && before[j] == cur && after[j] != cur
  }

  ghost predicate Holds(t: Owners, n: Option<Id>) { exists j :: 0 <= j < |t| && t[j] == n }

  /** The slots claimed are exactly those taken from `cur`. */
  ghost predicate ClaimsTheLost(before: Owners, after: Owners, cur: Option<Id>, claim: Bitmap) {
    |before| == |after| == SLOTS && |claim| == BYTES
    && forall j :: 0 <= j < SLOTS ==> (TestBit(claim, j) <==> before[j] == cur && after[j] != cur)
  }

  lemma CountsMean(before: Owners, after: Owners, cur: Option<Id>, claim: Bitmap)
    requires |before| == |after| == SLOTS && |claim| == BYTES
    requires forall j :: 0 <= j < SLOTS && after[j] != before[j] ==> TestBit(claim, j)
    ensures Taken(before, after, cur, SLOTS) > 0 <==> Lost(before, after, cur)
    ensures Taken(before, after, cur, SLOTS) == Ones(claim, SLOTS) <==> ClaimsTheLost(before, after, cur, claim)
    ensures cur.Some? ==> (Count(after, cur.value, SLOTS) == 0 <==> !Holds(after, cur))
  {
    hide TestBit;
    TakenZero(before, after, cur, SLOTS);
    ExactClaim(before, after, cur, claim, SLOTS);
    if cur.Some? { CountZero(after, cur.value, SLOTS); }
  }

  lemma DirtyMeans(before: Owners, after: Owners, n: Id, keys: seq<bool>)
    requires |before| == |after| == |keys| == SLOTS
    ensures Dirty(before, after, n, keys, SLOTS) == [] <==> forall j :: !LostWithKeys(before, after, n, keys, j)
    ensures forall j :: j in Dirty(before, after, n, keys, SLOTS) <==> LostWithKeys(before, after, n, keys, j)
  {
    DirtyExactly(before, after, n, keys, SLOTS);
    var d := Dirty(before, after, n, keys, SLOTS);
    hide Dirty;
    assert forall j :: LostWithKeys(before, after, n, keys, j) ==> j < SLOTS;
    hide LostWithKeys;
    if d != [] { assert d[0] in d; }
  }

  /**
    What a server does after a claim, by the tables.  If its own master (itself, for a master) lost a slot and holds
    none any more, and replicas may migrate or the claim is for exactly the slots lost, it follows the sender.  Else, if
    its master follows another node, it follows that one.  Else it deletes the keys of the slots it lost.
   */
  lemma DecisionMeans(before: Owners, after: Owners, nodes: Nodes, me: Id, sender: Id, claim: Bitmap, keys: seq<bool>,
                      migration: bool)
    requires |before| == |after| == |keys| == SLOTS && RolesOk(nodes, me) && |claim| == BYTES
    requires forall j :: 0 <= j < SLOTS && after[j] != before[j] ==> TestBit(claim, j)
    ensures var cur := if nodes[me].master then Some(me) else nodes[me].slaveof;
            var grand := if nodes[me].slaveof.Some? then nodes[nodes[me].slaveof.value].slaveof else None;
            var o := Decision(before, after, nodes, me, sender, Ones(claim, SLOTS), keys, migration);
            if Lost(before, after, cur) && cur == None then o == Abort
            else if Lost(before, after, cur) && !Holds(after, cur)
                    && (migration || ClaimsTheLost(before, after, cur, claim))
            then o == if Holds(after, Some(me)) then Abort else Follow(sender)
            else if grand.Some? && grand.value != me
            then o == if Holds(after, Some(me)) then Abort else Follow(grand.value)
            else if exists j :: LostWithKeys(before, after, me, keys, j)
            then o.Purge? && forall j :: j in o.lost <==> LostWithKeys(before, after, me, keys, j)
            else o == Stay
  {
    hide TestBit, Count, Taken, Dirty, Ones, Lost, Holds, ClaimsTheLost, LostWithKeys;
    var cur := if nodes[me].master then Some(me) else nodes[me].slaveof;
    CountsMean(before, after, cur, claim);
    CountsMean(before, after, Some(me), claim);
    DirtyMeans(before, after, me, keys);
  }

  lemma ReboundOwners(v: View, importing: seq<Option<Id>>, epochs: map<Id, nat>, c: Claim)
    requires |v.owners| == |v.stale| == |importing| == |c.slots| == SLOTS
    ensures var r := Rebound(v, importing, epochs, c);
            forall j :: 0 <= j < SLOTS ==> r.owners[j] == v.owners[j] || r.owners[j] == Some(c.sender)
  {
  }

  lemma SameRoles(a: Nodes, b: Nodes)
    requires SameNodes(a, b)
    ensures forall n :: n in b ==> Role(b, n) == Role(a, n)
  {
  }

  /** A claim gives slots to its sender only. */
  lemma {:induction false} CountFalls(t: Owners, u: Owners, n: Id, sender: Id, k: nat)
    requires k <= |t| == |u| && n != sender && forall j :: 0 <= j < |t| ==> u[j] == t[j] || u[j] == Some(sender)
    ensures Count(u, n, k) <= Count(t, n, k)
    decreases k
  {
    if k > 0 { CountFalls(t, u, n, sender, k - 1); }
  }

  /** A claim: who sends it, under which configEpoch, for which slots. */
  datatype Claim = ClaimOf(sender: Id, epoch: nat, slots: seq<bool>)

  ghost function Epochs(nodes: Nodes): map<Id, nat> { map n | n in nodes :: nodes[n].configEpoch }

  ghost predicate OlderThan(epochs: map<Id, nat>, owner: Option<Id>, epoch: nat) {
    owner.Some? && owner.value in epochs && epochs[owner.value] < epoch
  }

  /** The view after a claim, slot by slot. */
  ghost function Rebound(v: View, importing: seq<Option<Id>>, epochs: map<Id, nat>, c: Claim): (r: View)
    requires |v.owners| == |v.stale| == |importing| == |c.slots| == SLOTS
    ensures |r.owners| == |r.stale| == SLOTS
  {
    View(seq(SLOTS, j requires 0 <= j < SLOTS => RebindAt(v, importing[j].Some?, epochs, c, j).0),
         seq(SLOTS, j requires 0 <= j < SLOTS => RebindAt(v, importing[j].Some?, epochs, c, j).1))
  }

  ghost function RebindAt(v: View, importing: bool, epochs: map<Id, nat>, c: Claim, j: nat): (Option<Id>, bool)
    requires j < |v.owners| == |v.stale| == |c.slots|
  {
    Rebind(v.owners[j], v.stale[j], importing, OlderThan(epochs, v.owners[j], c.epoch), c.sender, c.slots[j])
  }

  lemma BitsAt(bm: Bitmap, j: nat)
    requires |bm| == BYTES && j < SLOTS
    ensures BitsOf(bm)[j] == TestBit(bm, j)
  {
  }

  lemma OlderSame(a: Nodes, b: Nodes, owner: Option<Id>, epoch: nat)
    requires SameNodes(a, b)
    ensures Older(b, owner, epoch) == OlderThan(Epochs(a), owner, epoch)
  {
  }

  lemma ReboundAt(v: View, importing: seq<Option<Id>>, nodes: Nodes, nodes': Nodes, c: Claim, j: nat)
    requires |v.owners| == |v.stale| == |importing| == |c.slots| == SLOTS && j < SLOTS && SameNodes(nodes, nodes')
    ensures var r, owner := Rebound(v, importing, Epochs(nodes), c), v.owners[j];
            (r.owners[j], r.stale[j])
            == Rebind(owner, v.stale[j], importing[j].Some?, Older(nodes', owner, c.epoch), c.sender, c.slots[j])
  {
    hide Rebind;
    OlderSame(nodes, nodes', v.owners[j], c.epoch);
  }

  /** The table after every slot of n has gone to v. */
  ghost function Moved(t: Owners, n: Id, v: Option<Id>): (u: Owners)
    ensures |u| == |t|
  {
    seq(|t|, j requires 0 <= j < |t| => if t[j] == Some(n) then v else t[j])
  }

  lemma MovedAt(t: Owners, n: Id, v: Option<Id>, j: nat)
    requires j < |t|
    ensures Moved(t, n, v)[j] == if t[j] == Some(n) then v else t[j]
  {
  }

  lemma {:induction false} MovedCounts(t: Owners, n: Id, v: Option<Id>, m: Id, k: nat)
    requires k <= |t| && v != Some(n)
    ensures Count(Moved(t, n, v), m, k)
            == if m == n then 0 else Count(t, m, k) + if v == Some(m) then Count(t, n, k) else 0
    decreases k
  {
    if k > 0 { MovedCounts(t, n, v, m, k - 1); }
  }

  lemma SameSelf(a: Nodes)
    ensures SameNodes(a, a)
  {
  }

  lemma SameTrans(a: Nodes, b: Nodes, c: Nodes)
    requires SameNodes(a, b) && (SameNodes(b, c) || b == c)
    ensures SameNodes(a, c) && a.Keys == b.Keys == c.Keys
  {
  }

  lemma SameRole(a: Nodes, b: Nodes, n: Id)
    requires SameNodes(a, b) && n in a
    ensures n in b && b[n].master == a[n].master && b[n].slaveof == a[n].slaveof && b[n].configEpoch == a[n].configEpoch
  {
  }

  /** Roles do not matter for coherence. */
  lemma RoleKeeps(t: Owners, nodes: Nodes, n: Id, master: bool, slaveof: Option<Id>)
    requires Coherent(t, nodes) && n in nodes
    ensures Coherent(t, nodes[n := nodes[n].(master := master, slaveof := slaveof)])
  {
    hide TestBit, Count;
    var nodes' := nodes[n := nodes[n].(master := master, slaveof := slaveof)];
    forall m | m in nodes' ensures NodeOk(t, m, nodes'[m]) { assert NodeOk(t, m, nodes[m]); }
  }

  lemma BitmapSizes(t: Owners, nodes: Nodes, n: Id)
    requires Coherent(t, nodes) && n in nodes
    ensures |nodes[n].bitmap| == BYTES
    ensures forall j :: 0 <= j < SLOTS ==> (TestBit(nodes[n].bitmap, j) <==> t[j] == Some(n))
    ensures nodes[n].numslots == Count(t, n, SLOTS)
  {
    assert NodeOk(t, n, nodes[n]);
  }

  lemma {:induction false} CountNone(t: Owners, n: Id, k: nat)
    requires k <= |t| && forall j :: 0 <= j < k ==> t[j] != Some(n)
    ensures Count(t, n, k) == 0
    decreases k
  {
    if k > 0 { CountNone(t, n, k - 1); }
  }

  /** A node without slots can be added. */
  lemma NewKeeps(t: Owners, nodes: Nodes, n: Id, x: Node)
    requires Coherent(t, nodes) && n !in nodes && x.bitmap == Zeros(BYTES) && x.numslots == 0
    ensures Coherent(t, nodes[n := x])
  {
    CountNone(t, n, SLOTS);
    hide TestBit, Zeros, Count;
    forall j | 0 <= j < SLOTS ensures !TestBit(Zeros(BYTES), j) { ZerosClear(BYTES, j); }
    assert NodeOk(t, n, x);
  }

  lemma RolesStay(a: Nodes, b: Nodes, me: Id)
    requires RolesOk(a, me) && SameNodes(a, b)
    ensures RolesOk(b, me)
  {
  }

  ghost function NoMarks(): seq<Option<Id>> { seq(SLOTS, _ => None) }

  lemma EmptyIsCoherent(t: Owners, nodes: Nodes, me: Id)
    requires |t| == SLOTS && (forall j :: 0 <= j < SLOTS ==> t[j] == None)
    requires nodes.Keys == {me} && nodes[me].bitmap == Zeros(BYTES) && nodes[me].numslots == 0
    ensures Coherent(t, nodes)
  {
    CountNone(t, me, SLOTS);
    hide TestBit, Zeros;
    forall j | 0 <= j < SLOTS ensures !TestBit(Zeros(BYTES), j) { ZerosClear(BYTES, j); }
  }
}
