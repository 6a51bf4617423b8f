/**
  Slot ranges (src/cluster.c): the runs of slots a node serves, found one node at a time or for
  all nodes in a single pass over the table.
 */
module SlotRanges {
  import opened SlotBitmap
  import opened SlotTable
  import opened SlotOps
  import opened Options

  type Range = (nat, nat)

  // ---- Ranges of a set of slots ---------------------------------------------------------------------------

  /** The runs that ended before slot k, and where the run that k would continue began, or -1. */
  datatype Scanned = Scanned(ranges: seq<Range>, start: int)

  function Scan(mine: seq<bool>, k: nat): (r: Scanned)
    requires k <= |mine|
    ensures -1 <= r.start < k
  {
    if k == 0 then Scanned([], -1)
    else
      var s := Scan(mine, k - 1);
      if mine[k - 1] then s.(start := if s.start == -1 then k - 1 else s.start)
      else if s.start == -1 then s
      else Scanned(s.ranges + [(s.start, k - 2)], -1)
  }

  function Ranges(mine: seq<bool>): seq<Range> {
    var s := Scan(mine, |mine|);
    if s.start == -1 then s.ranges else s.ranges + [(s.start, |mine| - 1)]
  }

  ghost predicate Inside(rs: seq<Range>, j: nat) { exists i :: 0 <= i < |rs| && rs[i].0 <= j <= rs[i].1 }

  /** Increasing, apart from each other by at least one slot, and below k. */
  ghost predicate Separate(rs: seq<Range>, k: int) {
    && (forall i :: 0 <= i < |rs| ==> rs[i].0 <= rs[i].1 < k)
    && (forall i, h :: 0 <= i < h < |rs| ==> rs[i].1 + 1 < rs[h].0)
  }

  ghost predicate ScanOk(mine: seq<bool>, k: nat, s: Scanned)
    requires k <= |mine| && -1 <= s.start <= k
  {
    && Separate(s.ranges, if s.start == -1 then k else s.start - 1)
    && (s.start != -1 ==> forall j :: s.start <= j < k ==> mine[j])
    && (s.start == -1 && k > 0 ==> !mine[k - 1])
    && (forall j :: 0 <= j < (if s.start == -1 then k else s.start) ==> (mine[j] <==> Inside(s.ranges, j)))
  }

  lemma InsideMore(rs: seq<Range>, r: Range, j: nat)
    ensures Inside(rs + [r], j) <==> Inside(rs, j) || r.0 <= j <= r.1
  {
    if r.0 <= j <= r.1 { assert (rs + [r])[|rs|] == r; }
    if Inside(rs, j) { var i :| 0 <= i < |rs| && rs[i].0 <= j <= rs[i].1; assert (rs + [r])[i] == rs[i]; }
  }

  lemma SeparateInside(rs: seq<Range>, k: int, j: nat)
    requires Separate(rs, k) && j >= k
    ensures !Inside(rs, j)
  {
  }

  /** A run ends: it becomes a range. */
  lemma Closed(mine: seq<bool>, s: Scanned, k: nat)
    requires k <= |mine| && 0 <= s.start < k && ScanOk(mine, k, s)
    ensures var rs := s.ranges + [(s.start as nat, k - 1)];
            Separate(rs, k) && forall j :: 0 <= j < k ==> (mine[j] <==> Inside(rs, j))
  {
    forall j | 0 <= j < k ensures mine[j] <==> Inside(s.ranges + [(s.start as nat, k - 1)], j) {
      InsideMore(s.ranges, (s.start as nat, k - 1), j);
      if j >= s.start { SeparateInside(s.ranges, s.start - 1, j); }
    }
  }

  lemma ScanStep(mine: seq<bool>, k: nat)
    requires k < |mine| && ScanOk(mine, k, Scan(mine, k))
    ensures ScanOk(mine, k + 1, Scan(mine, k + 1))
  {
    var s, s' := Scan(mine, k), Scan(mine, k + 1);
    if !mine[k] {
      hide Scan, Inside;
      if s.start != -1 { Closed(mine, s, k); }
      SeparateInside(s'.ranges, k, k);
    } else {
      hide Inside;
    }
  }

  lemma {:induction false} ScanMeaning(mine: seq<bool>, k: nat)
    requires k <= |mine|
    ensures ScanOk(mine, k, Scan(mine, k))
    decreases k
  {
    if k > 0 {
      ScanMeaning(mine, k - 1);
      ScanStep(mine, k - 1);
    }
  }

  /** The ranges are the maximal runs: in order, apart, and covering exactly the set. */
  lemma RangesExact(mine: seq<bool>)
    ensures Separate(Ranges(mine), |mine|)
    ensures forall j :: 0 <= j < |mine| ==> (mine[j] <==> Inside(Ranges(mine), j))
  {
    var s := Scan(mine, |mine|);
    ScanMeaning(mine, |mine|);
    hide Scan, Inside;
    if s.start != -1 { Closed(mine, s, |mine|); }
  }

  // ---- The scan for one node -----------------------------------------------------------------------------------

  /** The slot loop of clusterGenNodeDescription. */
  method ScanNode(bitmap: Bitmap) returns (ranges: seq<Range>)
    requires |bitmap| == BYTES
    ensures ranges == Ranges(BitsOf(bitmap))
  {
    hide TestBit, BitsOf;
    ghost var mine := BitsOf(bitmap);
    ranges := [];
    var start := -1;
    var j := 0;
    while j < SLOTS
      invariant 0 <= j <= SLOTS + 1 && |mine| == SLOTS
      invariant j < SLOTS ==> Scan(mine, j) == Scanned(ranges, start)
      invariant j >= SLOTS ==> ranges == Ranges(mine)
    {
      BitsAt(bitmap, j);
      var bit := TestBit(bitmap, j);
      if bit && start == -1 { start := j; }
      if start != -1 && (!bit || j == SLOTS - 1) {
        if bit && j == SLOTS - 1 { j := j + 1; }
        ranges := ranges + [(start, j - 1)];
        start := -1;
      }
      j := j + 1;
    }
  }

  // ---- One pass for all nodes --------------------------------------------------------------------------------------

  ghost function Owned(t: Owners, n: Id): (mine: seq<bool>)
    ensures |mine| == |t|
  {
    seq(|t|, j requires 0 <= j < |t| => t[j] == Some(n))
  }

  /** There are no more ranges than slots. */
  lemma {:induction false} ScanCount(t: Owners, n: Id, k: nat)
    requires k <= |t|
    ensures var s := Scan(Owned(t, n), k); |s.ranges| + (if s.start == -1 then 0 else 1) <= Count(t, n, k)
    decreases k
  {
    if k > 0 { ScanCount(t, n, k - 1); }
  }

  lemma {:induction false} CountGrows(t: Owners, n: Id, k: nat, m: nat)
    requires k <= m <= |t|
    ensures Count(t, n, k) <= Count(t, n, m)
    decreases m
  {
    if k < m { CountGrows(t, n, k, m - 1); }
  }

  function Pairs(pairs: map<Id, seq<Range>>, n: Id): seq<Range> { if n in pairs then pairs[n] else [] }

  /** After slot k - 1: the run under way belongs to `owner` and began at `start`; all other runs are recorded. */
  ghost predicate Passing(t: Owners, filter: set<Id>, k: nat, owner: Option<Id>, start: int,
                          pairs: map<Id, seq<Range>>, n: Id)
    requires k <= |t|
  {
    n !in filter ==> Scan(Owned(t, n), k) == Scanned(Pairs(pairs, n), if owner == Some(n) then start else -1)
  }

  ghost predicate PassingAll(t: Owners, nodes: Nodes, filter: set<Id>, k: nat, owner: Option<Id>, start: int,
                             pairs: map<Id, seq<Range>>)
    requires k <= |t|
  {
    forall n :: n in nodes ==> Passing(t, filter, k, owner, start, pairs, n)
  }

  /** The run under way goes on, or a new one begins after none. */
  lemma PassOn(t: Owners, nodes: Nodes, filter: set<Id>, k: nat, owner: Option<Id>, start: int,
               pairs: map<Id, seq<Range>>)
    requires k < |t| && PassingAll(t, nodes, filter, k, owner, start, pairs) && (owner == None || owner == t[k])
    requires owner != None ==> start != -1
    ensures PassingAll(t, nodes, filter, k + 1, t[k], if owner == None then k else start, pairs)
  {
    forall n | n in nodes ensures Passing(t, filter, k + 1, t[k], if owner == None then k else start, pairs, n) {
      assert Passing(t, filter, k, owner, start, pairs, n);
    }
  }

  /** The run under way ends before slot k, which begins the next one. */
  lemma PassTo(t: Owners, nodes: Nodes, filter: set<Id>, k: nat, owner: Id, start: nat, pairs: map<Id, seq<Range>>)
    requires start < k < |t| && PassingAll(t, nodes, filter, k, Some(owner), start, pairs) && t[k] != Some(owner)
    ensures PassingAll(t, nodes, filter, k + 1, t[k], k, Recorded(pairs, filter, owner, (start, k - 1)))
  {
    var pairs' := Recorded(pairs, filter, owner, (start, k - 1));
    forall n | n in nodes ensures Passing(t, filter, k + 1, t[k], k, pairs', n) {
      assert Passing(t, filter, k, Some(owner), start, pairs, n);
    }
  }

  /** The last run ends with the table. */
  lemma PassEnd(t: Owners, nodes: Nodes, filter: set<Id>, owner: Option<Id>, start: int, pairs: map<Id, seq<Range>>)
    requires PassingAll(t, nodes, filter, |t|, owner, start, pairs) && |t| > 0 && (owner != None ==> start >= 0)
    ensures var pairs' := if owner == None then pairs
                          else Recorded(pairs, filter, owner.value, (start as nat, |t| - 1));
            forall n :: n in nodes && n !in filter ==> Pairs(pairs', n) == Ranges(Owned(t, n))
  {
    var pairs' := if owner == None then pairs else Recorded(pairs, filter, owner.value, (start as nat, |t| - 1));
    forall n | n in nodes && n !in filter ensures Pairs(pairs', n) == Ranges(Owned(t, n)) {
      assert Passing(t, filter, |t|, owner, start, pairs, n);
    }
  }

  function Recorded(pairs: map<Id, seq<Range>>, filter: set<Id>, n: Id, r: Range): map<Id, seq<Range>> {
    if n in filter then pairs else pairs[n := Pairs(pairs, n) + [r]]
  }

  /** The assertion before a pair is stored: there is room in an array of 2 * numslots entries. */
  lemma Room(t: Owners, nodes: Nodes, filter: set<Id>, k: nat, owner: Id, start: int, pairs: map<Id, seq<Range>>)
    requires Coherent(t, nodes) && k <= SLOTS && owner in nodes && owner !in filter && start != -1
    requires PassingAll(t, nodes, filter, k, Some(owner), start, pairs)
    ensures 2 * |Pairs(pairs, owner)| + 1 < 2 * nodes[owner].numslots
  {
    assert Passing(t, filter, k, Some(owner), start, pairs, owner);
    ScanCount(t, owner, k);
    CountGrows(t, owner, k, SLOTS);
    BitmapSizes(t, nodes, owner);
  }

  /** clusterGenNodesSlotsInfo, on a state whose nodes hold no pairs yet. */
  method GenNodesSlotsInfo(c: ClusterState, filter: set<Id>) returns (pairs: map<Id, seq<Range>>)
    requires c.Valid()
    ensures forall n :: n in c.nodes && n !in filter ==> Pairs(pairs, n) == Ranges(Owned(c.slots[..], n))
  {
    hide PassingAll, Coherent, Pairs, Recorded, Ranges, Owned;
    ghost var t, nodes := c.slots[..], c.nodes;
    pairs := map[];
    PassStart(t, nodes, filter);
    var n: Option<Id>, start := None, -1;
    var i := 0;
    while i < SLOTS
      invariant 0 <= i <= SLOTS && -1 <= start < i && (n != None ==> start >= 0 && n.value in c.nodes)
      invariant PassingAll(t, nodes, filter, i, n, start, pairs)
    {
      OwnersKnown(t, nodes, i);
      if n == None {
        PassOn(t, nodes, filter, i, n, start, pairs);
        n, start := c.slots[i], i;
      } else if n != c.slots[i] {
        PassTo(t, nodes, filter, i, n.value, start, pairs);
        if n.value !in filter { Room(t, nodes, filter, i, n.value, start, pairs); }
        pairs := StorePair(c, pairs, filter, n.value, (start, i - 1));
        n, start := c.slots[i], i;
      } else {
        PassOn(t, nodes, filter, i, n, start, pairs);
      }
      i := i + 1;
    }
    PassEnd(t, nodes, filter, n, start, pairs);
    if n != None {
      if n.value !in filter { Room(t, nodes, filter, SLOTS, n.value, start, pairs); }
      pairs := StorePair(c, pairs, filter, n.value, (start, SLOTS - 1));
    }
  }

  /** Storing one pair for an unfiltered node, behind the assertion that it fits. */
  method StorePair(c: ClusterState, pairs: map<Id, seq<Range>>, filter: set<Id>, n: Id, r: Range)
    returns (out: map<Id, seq<Range>>)
    requires n in c.nodes && (n !in filter ==> 2 * |Pairs(pairs, n)| + 1 < 2 * c.nodes[n].numslots)
    ensures out == Recorded(pairs, filter, n, r)
  {
    out := pairs;
    if n !in filter {
      assert 2 * |Pairs(pairs, n)| + 1 < 2 * c.nodes[n].numslots;
      out := pairs[n := Pairs(pairs, n) + [r]];
    }
  }

  lemma PassStart(t: Owners, nodes: Nodes, filter: set<Id>)
    ensures PassingAll(t, nodes, filter, 0, None, -1, map[])
  {
  }

  lemma OwnersKnown(t: Owners, nodes: Nodes, j: nat)
    requires Coherent(t, nodes) && j < SLOTS
    ensures |t| == SLOTS && (t[j].Some? ==> t[j].value in nodes)
  {
  }

  /** Both ways of finding a node's ranges agree. */
  lemma ScansAgree(t: Owners, nodes: Nodes, n: Id)
    requires Coherent(t, nodes) && n in nodes
    ensures |nodes[n].bitmap| == BYTES && Ranges(BitsOf(nodes[n].bitmap)) == Ranges(Owned(t, n))
  {
    hide TestBit, Ranges;
    BitmapSizes(t, nodes, n);
    assert BitsOf(nodes[n].bitmap) == Owned(t, n);
  }

  /** A node's pairs fit in 2 * numslots entries. */
  lemma RangesFit(t: Owners, nodes: Nodes, n: Id)
    requires Coherent(t, nodes) && n in nodes
    ensures 2 * |Ranges(Owned(t, n))| <= 2 * nodes[n].numslots
  {
    ScanCount(t, n, SLOTS);
    BitmapSizes(t, nodes, n);
  }
}
