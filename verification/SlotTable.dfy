/**
  The slot table of src/cluster.c, kept twice: the owner of every slot, and every node's own
  bitmap with its population count. Each operation updates both.
 */
module SlotTable {
  import opened SlotBitmap
  import opened Options

  const SLOTS: nat := 16384     // CLUSTER_SLOTS
  const BYTES: nat := 2048

  type Id = nat

  /** The owner of each slot. */
  type Owners = seq<Option<Id>>

  datatype Node = Node(bitmap: Bitmap, numslots: int, configEpoch: nat, master: bool, slaveof: Option<Id>)

  type Nodes = map<Id, Node>

  // ---- Coherence ------------------------------------------------------------------------------------

  /** How many of the first k slots node n owns. */
  ghost function Count(t: Owners, n: Id, k: nat): nat
    requires k <= |t|
  {
    if k == 0 then 0 else Count(t, n, k - 1) + if t[k - 1] == Some(n) then 1 else 0
  }

  /** The node's bitmap holds exactly its slots, and the counter their number. */
  ghost predicate NodeOk(t: Owners, n: Id, x: Node)
    requires |t| == SLOTS
  {
    && |x.bitmap| == BYTES && x.numslots == Count(t, n, SLOTS)
    && forall j :: 0 <= j < SLOTS ==> (TestBit(x.bitmap, j) <==> t[j] == Some(n))
  }

  ghost predicate Coherent(t: Owners, nodes: Nodes) {
    && |t| == SLOTS
    && (forall j :: 0 <= j < SLOTS && t[j].Some? ==> t[j].value in nodes)
    && (forall n :: n in nodes ==> NodeOk(t, n, nodes[n]))
  }

  lemma {:induction false} CountUpdate(t: Owners, j: nat, v: Option<Id>, n: Id, k: nat)
    requires j < |t| && k <= |t|
    ensures Count(t[j := v], n, k)
            == Count(t, n, k)
               + (if j < k then (if v == Some(n) then 1 else 0) - (if t[j] == Some(n) then 1 else 0) else 0)
    decreases k
  {
    if k > 0 { CountUpdate(t, j, v, n, k - 1); }
  }

  lemma NodeUpdate(t: Owners, j: nat, v: Option<Id>, n: Id, x: Node, x': Node)
    requires |t| == SLOTS && j < SLOTS && NodeOk(t, n, x) && (v == Some(n)) != (t[j] == Some(n))
    requires x'.bitmap == (if v == Some(n) then SetBit(x.bitmap, j) else ClearBit(x.bitmap, j))
    requires x'.numslots == x.numslots + (if v == Some(n) then 1 else -1)
    ensures NodeOk(t[j := v], n, x')
  {
    CountUpdate(t, j, v, n, SLOTS);
    hide TestBit, SetBit, ClearBit, Count;
    forall q | 0 <= q < SLOTS ensures TestBit(x'.bitmap, q) <==> t[j := v][q] == Some(n) {
      BitChanges(x.bitmap, j, q);
    }
  }

  lemma NodeUntouched(t: Owners, j: nat, v: Option<Id>, n: Id, x: Node)
    requires |t| == SLOTS && j < SLOTS && NodeOk(t, n, x) && v != Some(n) && t[j] != Some(n)
    ensures NodeOk(t[j := v], n, x)
  {
    CountUpdate(t, j, v, n, SLOTS);
    hide TestBit, Count;
  }

  /** Assigning a free slot. */
  lemma AddKeeps(t: Owners, nodes: Nodes, j: nat, n: Id)
    requires Coherent(t, nodes) && j < SLOTS && t[j] == None && n in nodes
    ensures var x := nodes[n];
            !TestBit(x.bitmap, j)
            && Coherent(t[j := Some(n)], nodes[n := x.(bitmap := SetBit(x.bitmap, j), numslots := x.numslots + 1)])
  {
    hide TestBit, Count, SetBit;
    var x := nodes[n];
    assert NodeOk(t, n, x);
    var t', nodes' := t[j := Some(n)], nodes[n := x.(bitmap := SetBit(x.bitmap, j), numslots := x.numslots + 1)];
    forall m | m in nodes' ensures NodeOk(t', m, nodes'[m]) {
      if m == n { NodeUpdate(t, j, Some(n), n, x, nodes'[n]); } else { NodeUntouched(t, j, Some(n), m, nodes[m]); }
    }
  }

  /** Freeing an assigned slot: its owner's bit is set. */
  lemma DelKeeps(t: Owners, nodes: Nodes, j: nat)
    requires Coherent(t, nodes) && j < SLOTS && t[j].Some?
    ensures var n := t[j].value;
            var x := nodes[n];
            TestBit(x.bitmap, j)
            && Coherent(t[j := None], nodes[n := x.(bitmap := ClearBit(x.bitmap, j), numslots := x.numslots - 1)])
  {
    hide TestBit, Count, ClearBit;
    var n := t[j].value;
    var x := nodes[n];
    assert NodeOk(t, n, x);
    var t', nodes' := t[j := None], nodes[n := x.(bitmap := ClearBit(x.bitmap, j), numslots := x.numslots - 1)];
    forall m | m in nodes' ensures NodeOk(t', m, nodes'[m]) {
      if m == n { NodeUpdate(t, j, None, n, x, nodes'[n]); } else { NodeUntouched(t, j, None, m, nodes[m]); }
    }
  }

  // ---- What coherence says -----------------------------------------------------------------------------

  lemma {:induction false} CountIsOnes(t: Owners, n: Id, x: Node, k: nat)
    requires |t| == SLOTS && NodeOk(t, n, x) && k <= SLOTS
    ensures Count(t, n, k) == Ones(x.bitmap, k)
    decreases k
  {
    if k > 0 {
      hide TestBit;
      CountIsOnes(t, n, x, k - 1);
    }
  }

  /** The counter is the population count of the bitmap. */
  lemma NumslotsIsPopcount(t: Owners, nodes: Nodes, n: Id)
    requires Coherent(t, nodes) && n in nodes
    ensures |nodes[n].bitmap| == BYTES && nodes[n].numslots == Ones(nodes[n].bitmap, SLOTS)
  {
    assert NodeOk(t, n, nodes[n]);
    CountIsOnes(t, n, nodes[n], SLOTS);
  }

  /** No slot is in two bitmaps. */
  lemma OneOwner(t: Owners, nodes: Nodes, n: Id, m: Id, j: nat)
    requires Coherent(t, nodes) && n in nodes && m in nodes && j < SLOTS
    ensures |nodes[n].bitmap| == BYTES && |nodes[m].bitmap| == BYTES
    ensures TestBit(nodes[n].bitmap, j) && TestBit(nodes[m].bitmap, j) ==> n == m
  {
    assert NodeOk(t, n, nodes[n]) && NodeOk(t, m, nodes[m]);
  }

  ghost function Assigned(t: Owners, k: nat): nat
    requires k <= |t|
  {
    if k == 0 then 0 else Assigned(t, k - 1) + if t[k - 1].Some? then 1 else 0
  }

  ghost function Total(t: Owners, ids: set<Id>, k: nat): nat
    requires k <= |t|
    decreases |ids|
  {
    if ids == {} then 0 else var n :| n in ids; Count(t, n, k) + Total(t, ids - {n}, k)
  }

  lemma {:induction false} TotalNext(t: Owners, ids: set<Id>, k: nat)
    requires k < |t|
    ensures Total(t, ids, k + 1) == Total(t, ids, k) + if t[k].Some? && t[k].value in ids then 1 else 0
    decreases |ids|
  {
    if ids != {} {
      TotalSplit(t, ids, k);
      var n :| n in ids && Total(t, ids, k + 1) == Count(t, n, k + 1) + Total(t, ids - {n}, k + 1);
      TotalNext(t, ids - {n}, k);
      TotalWithout(t, ids, n, k);
    }
  }

  lemma TotalSplit(t: Owners, ids: set<Id>, k: nat)
    requires k < |t| && ids != {}
    ensures exists n :: n in ids && Total(t, ids, k + 1) == Count(t, n, k + 1) + Total(t, ids - {n}, k + 1)
  {
  }

  lemma {:induction false} TotalWithout(t: Owners, ids: set<Id>, n: Id, k: nat)
    requires k <= |t| && n in ids
    ensures Total(t, ids, k) == Count(t, n, k) + Total(t, ids - {n}, k)
    decreases |ids|
  {
    var m :| m in ids && Total(t, ids, k) == Count(t, m, k) + Total(t, ids - {m}, k);
    if m != n {
      TotalWithout(t, ids - {m}, n, k);
      TotalWithout(t, ids - {n}, m, k);
      assert ids - {m} - {n} == ids - {n} - {m};
    }
  }

  ghost function Numslots(nodes: Nodes, ids: set<Id>): int
    requires ids <= nodes.Keys
    decreases |ids|
  {
    if ids == {} then 0 else var n :| n in ids; nodes[n].numslots + Numslots(nodes, ids - {n})
  }

  lemma {:induction false} NumslotsIsTotal(t: Owners, nodes: Nodes, ids: set<Id>)
    requires Coherent(t, nodes) && ids <= nodes.Keys
    ensures Numslots(nodes, ids) == Total(t, ids, SLOTS)
    decreases |ids|
  {
    if ids != {} {
      var n :| n in ids && Numslots(nodes, ids) == nodes[n].numslots + Numslots(nodes, ids - {n});
      assert NodeOk(t, n, nodes[n]);
      hide NodeOk;
      NumslotsIsTotal(t, nodes, ids - {n});
      TotalWithout(t, ids, n, SLOTS);
    }
  }

  lemma {:induction false} TotalIsAssigned(t: Owners, nodes: Nodes, k: nat)
    requires Coherent(t, nodes) && k <= SLOTS
    ensures Total(t, nodes.Keys, k) == Assigned(t, k)
    decreases k
  {
    hide NodeOk;
    if k == 0 {
      TotalZero(t, nodes.Keys);
    } else {
      TotalIsAssigned(t, nodes, k - 1);
      TotalNext(t, nodes.Keys, k - 1);
    }
  }

  /** The counters of all nodes sum to the number of assigned slots. */
  lemma NumslotsSum(t: Owners, nodes: Nodes)
    requires Coherent(t, nodes)
    ensures Numslots(nodes, nodes.Keys) == Assigned(t, SLOTS)
  {
    hide NodeOk, Total, Numslots, Assigned;
    NumslotsIsTotal(t, nodes, nodes.Keys);
    TotalIsAssigned(t, nodes, SLOTS);
  }

  lemma {:induction false} TotalZero(t: Owners, ids: set<Id>)
    ensures Total(t, ids, 0) == 0
    decreases |ids|
  {
    if ids != {} {
      var n :| n in ids;
      TotalWithout(t, ids, n, 0);
      TotalZero(t, ids - {n});
    }
  }
}
