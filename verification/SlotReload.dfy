/** Saving and loading nodes.conf (src/cluster.c) gives back the same slot table and marks. */
module SlotReload {
  import opened SlotTable
  import opened SlotOps
  import opened SlotRanges
  import opened NumberText
  import opened SlotText
  import SplitArgs
  import opened Options

  // ---- A node's line ---------------------------------------------------------------------------------------

  /** The slot words of a node: its ranges, and for the node itself the marks. */
  ghost function SlotWords(c: Config, n: Id, me: Id, names: Names): seq<string>
    requires Sized(c)
  {
    RangeWords(Ranges(Owned(c.owners, n)))
    + if n == me then MarkWords(c.migrating, c.importing, names, SLOTS) else []
  }

  /** The eight fields before the slots hold no blanks or quotes. */
  ghost predicate HeaderOk(header: seq<string>) {
    |header| == 8 && forall w :: w in header ==> SplitArgs.Word(w) && SplitArgs.Plain(w)
  }

  ghost predicate WordsOk(ws: seq<string>) { forall w :: w in ws ==> SplitArgs.Word(w) && SplitArgs.Plain(w) }

  /** representSlotInfo: each pair is appended after a space. */
  method RepresentSlotInfo(ci: string, pairs: seq<Range>) returns (out: string)
    ensures out == ci + SplitArgs.After(RangeWords(pairs))
  {
    hide RangeWord;
    out := ci;
    var i := 0;
    assert RangeWords([]) == [];
    while i < |pairs|
      invariant 0 <= i <= |pairs|
      invariant out == ci + SplitArgs.After(RangeWords(pairs[..i]))
    {
      assert pairs[..i + 1] == pairs[..i] + [pairs[i]];
      assert RangeWords(pairs[..i + 1]) == RangeWords(pairs[..i]) + [RangeWord(pairs[i])];
      AfterMore(RangeWords(pairs[..i]), RangeWord(pairs[i]));
      out := out + (" " + RangeWord(pairs[i]));
      i := i + 1;
    }
    assert pairs[..i] == pairs;
  }

  lemma {:induction false} AfterMore(ws: seq<string>, w: string)
    ensures SplitArgs.After(ws + [w]) == SplitArgs.After(ws) + (" " + w)
    decreases |ws|
  {
    AfterNone();
    hide SplitArgs.After;
    AfterFirst(ws + [w]);
    if ws == [] {
      assert (ws + [w])[1..] == [] && (ws + [w])[0] == w;
    } else {
      AfterMore(ws[1..], w);
      assert (ws + [w])[1..] == ws[1..] + [w] && (ws + [w])[0] == ws[0];
      AfterFirst(ws);
      Assoc(" " + ws[0], SplitArgs.After(ws[1..]), " " + w);
    }
  }

  lemma Assoc(a: string, b: string, c: string)
    ensures (a + b) + c == a + (b + c)
  {
  }

  lemma AfterNone()
    ensures SplitArgs.After([]) == ""
  {
  }

  lemma AfterFirst(ws: seq<string>)
    requires ws != []
    ensures SplitArgs.After(ws) == " " + ws[0] + SplitArgs.After(ws[1..])
  {
  }

  /** A header followed by appended words is the joined line. */
  lemma {:induction false} LineIsJoined(header: seq<string>, ws: seq<string>)
    requires header != []
    ensures SplitArgs.JoinWords(header) + SplitArgs.After(ws) == SplitArgs.JoinWords(header + ws)
    decreases |header|
  {
    assert (header + ws)[1..] == header[1..] + ws;
    if |header| == 1 {
      assert header[1..] + ws == ws;
    } else {
      LineIsJoined(header[1..], ws);
    }
  }

  ghost function Line(header: seq<string>, words: seq<string>): string {
    SplitArgs.JoinWords(header) + SplitArgs.After(words)
  }

  /** A line of nodes.conf: the first word names the node, the first eight are not slots. */
  ghost function LoadLine(c: Config, line: string, lookup: string -> Id): Option<Config> {
    match SplitArgs.Split(line)
    case Failed => None
    case Arguments(args) =>
      if |args| < 8 || !ValidName(args[0]) then None else LoadWords(c, lookup(args[0]), args[8..], lookup)
  }

  lemma LineLoads(c: Config, header: seq<string>, words: seq<string>, lookup: string -> Id)
    requires HeaderOk(header) && WordsOk(words) && ValidName(header[0])
    ensures LoadLine(c, Line(header, words), lookup) == LoadWords(c, lookup(header[0]), words, lookup)
  {
    hide SplitArgs.Split, SplitArgs.JoinWords, SplitArgs.After, LoadWords, SplitArgs.Word, SplitArgs.Plain, ValidName;
    LineIsJoined(header, words);
    SplitArgs.SplitsBackExactly(header + words);
    assert (header + words)[8..] == words && (header + words)[0] == header[0];
  }

  /** The header of a node's line starts with its name, which is looked up as that node. */
  ghost predicate HeaderOf(header: seq<string>, n: Id, names: Names, lookup: string -> Id) {
    HeaderOk(header) && header[0] == names(n) && ValidName(names(n)) && lookup(names(n)) == n
  }

  // ---- The words are plain ------------------------------------------------------------------------------------

  lemma PlainConcat(a: string, b: string)
    requires SplitArgs.Plain(a) && SplitArgs.Plain(b)
    ensures SplitArgs.Plain(a + b)
  {
  }

  lemma NumberPlain(n: nat)
    ensures SplitArgs.Plain(Number(n)) && SplitArgs.Word(Number(n))
  {
  }

  lemma RangePlain(r: Range)
    ensures SplitArgs.Plain(RangeWord(r)) && SplitArgs.Word(RangeWord(r))
  {
    NumberPlain(r.0);
    NumberPlain(r.1);
    hide Number;
    assert SplitArgs.Plain("-");
    if r.0 != r.1 {
      PlainConcat(Number(r.0), "-");
      PlainConcat(Number(r.0) + "-", Number(r.1));
      assert RangeWord(r)[0] == Number(r.0)[0];
    }
  }

  lemma MarkPlain(j: nat, arrow: char, name: string)
    requires ValidName(name) && (arrow == '<' || arrow == '>')
    ensures SplitArgs.Plain(MarkWord(j, arrow, name)) && SplitArgs.Word(MarkWord(j, arrow, name))
  {
    NumberPlain(j);
    hide Number;
    assert SplitArgs.Plain("[") && SplitArgs.Plain("-") && SplitArgs.Plain([arrow]) && SplitArgs.Plain("]")
           && SplitArgs.Plain(name);
    hide SplitArgs.Plain;
    PlainConcat("[", Number(j));
    PlainConcat("[" + Number(j), "-");
    PlainConcat("[" + Number(j) + "-", [arrow]);
    PlainConcat("[" + Number(j) + "-" + [arrow], "-");
    PlainConcat("[" + Number(j) + "-" + [arrow] + "-", name);
    PlainConcat("[" + Number(j) + "-" + [arrow] + "-" + name, "]");
  }

  lemma {:induction false} MarksPlain(migrating: Owners, importing: Owners, names: Names, lookup: string -> Id, k: nat)
    requires k <= |migrating| == |importing| && NamesOk(names, lookup, migrating) && NamesOk(names, lookup, importing)
    ensures WordsOk(MarkWords(migrating, importing, names, k))
    decreases k
  {
    hide SplitArgs.Plain, SplitArgs.Word, MarkWord, ValidName;
    if k > 0 {
      MarksPlain(migrating, importing, names, lookup, k - 1);
      var j := k - 1;
      if migrating[j].Some? { MarkPlain(j, '>', names(migrating[j].value)); }
      if importing[j].Some? { MarkPlain(j, '<', names(importing[j].value)); }
    }
  }

  lemma RangesPlain(rs: seq<Range>)
    ensures WordsOk(RangeWords(rs))
  {
    hide SplitArgs.Plain, SplitArgs.Word, RangeWord;
    forall w | w in RangeWords(rs) ensures SplitArgs.Word(w) && SplitArgs.Plain(w) {
      var i :| 0 <= i < |rs| && RangeWords(rs)[i] == w;
      RangePlain(rs[i]);
    }
  }

  // ---- The whole file ------------------------------------------------------------------------------------------

  /** What has been loaded once the lines of some nodes have been read. */
  ghost function Restored(c: Config, seen: set<Id>, me: Id): (r: Config)
    requires Sized(c)
    ensures Sized(r)
  {
    Config(seq(SLOTS, j requires 0 <= j < SLOTS =>
             if c.owners[j].Some? && c.owners[j].value in seen then c.owners[j] else None),
           seq(SLOTS, j requires 0 <= j < SLOTS => if me in seen then c.migrating[j] else None),
           seq(SLOTS, j requires 0 <= j < SLOTS =>
             if me in seen && c.migrating[j] == None then c.importing[j] else None))
  }

  lemma OwnersLoad(c: Config, seen: set<Id>, me: Id, n: Id)
    requires Sized(c)
    ensures Filled(Restored(c, seen, me).owners, n, Ranges(Owned(c.owners, n))) == Restored(c, seen + {n}, me).owners
  {
    var rs := Ranges(Owned(c.owners, n));
    RangesExact(Owned(c.owners, n));
    hide Inside, Ranges;
    forall j | 0 <= j < SLOTS
      ensures Filled(Restored(c, seen, me).owners, n, rs)[j] == Restored(c, seen + {n}, me).owners[j]
    {
      assert Owned(c.owners, n)[j] <==> c.owners[j] == Some(n);
    }
  }

  lemma MarksRestore(c: Config, seen: set<Id>, me: Id, owners: Owners)
    requires Sized(c)
    ensures var r := Restored(c, seen, me).(owners := owners);
            && Migrating(r, c.migrating, SLOTS) == Restored(c, seen + {me}, me).migrating
            && Importing(r, c.migrating, c.importing, SLOTS) == Restored(c, seen + {me}, me).importing
  {
  }

  lemma RangesInTable(c: Config, n: Id)
    requires Sized(c)
    ensures var rs := Ranges(Owned(c.owners, n)); forall i :: 0 <= i < |rs| ==> rs[i].0 < SLOTS && rs[i].1 < SLOTS
  {
    RangesExact(Owned(c.owners, n));
    hide Ranges;
  }

  lemma NodeLoads(c: Config, seen: set<Id>, me: Id, n: Id, names: Names, lookup: string -> Id)
    requires Sized(c) && NamesOk(names, lookup, c.migrating) && NamesOk(names, lookup, c.importing)
    ensures LoadWords(Restored(c, seen, me), n, SlotWords(c, n, me, names), lookup) == Some(Restored(c, seen + {n}, me))
  {
    hide Ranges, LoadWords, RangeWords, MarkWords, Filled, Restored, Migrating, Importing, NamesOk;
    var r, rs := Restored(c, seen, me), Ranges(Owned(c.owners, n));
    var r' := r.(owners := Filled(r.owners, n, rs));
    RangesInTable(c, n);
    RangesLoad(r, n, rs, lookup);
    OwnersLoad(c, seen, me, n);
    if n == me {
      var marks := MarkWords(c.migrating, c.importing, names, SLOTS);
      MarksLoad(r', n, c.migrating, c.importing, names, lookup, SLOTS);
      LoadWordsConcat(r, n, RangeWords(rs), marks, lookup);
      MarksRestore(c, seen, me, r'.owners);
    } else {
      assert SlotWords(c, n, me, names) == RangeWords(rs);
      RestoredOther(c, seen, me, n);
    }
  }

  lemma RestoredOther(c: Config, seen: set<Id>, me: Id, n: Id)
    requires Sized(c) && n != me
    ensures Restored(c, seen + {n}, me).migrating == Restored(c, seen, me).migrating
    ensures Restored(c, seen + {n}, me).importing == Restored(c, seen, me).importing
  {
  }

  ghost function EmptyConfig(): (c: Config)
    ensures Sized(c)
  {
    var none: Owners := seq(SLOTS, _ => None);
    Config(none, none, none)
  }

  /** Loading the lines of the nodes in the order they were written. */
  ghost function LoadAll(c: Config, order: seq<Id>, me: Id, names: Names, headers: Id -> seq<string>,
                         lookup: string -> Id): Option<Config>
    requires Sized(c)
    decreases |order|
  {
    if order == [] then Some(EmptyConfig())
    else
      match LoadAll(c, order[..|order| - 1], me, names, headers, lookup)
      case None => None
      case Some(r) =>
        var n := order[|order| - 1];
        LoadLine(r, Line(headers(n), SlotWords(c, n, me, names)), lookup)
  }

  ghost function Seen(order: seq<Id>): set<Id> { set n | n in order }

  lemma WordsPlain(c: Config, n: Id, me: Id, names: Names, lookup: string -> Id)
    requires Sized(c) && NamesOk(names, lookup, c.migrating) && NamesOk(names, lookup, c.importing)
    ensures WordsOk(SlotWords(c, n, me, names))
  {
    hide Ranges, RangeWords, MarkWords, SplitArgs.Word, SplitArgs.Plain;
    RangesPlain(Ranges(Owned(c.owners, n)));
    MarksPlain(c.migrating, c.importing, names, lookup, SLOTS);
  }

  lemma {:induction false} AllLoads(c: Config, order: seq<Id>, me: Id, names: Names, headers: Id -> seq<string>,
                                    lookup: string -> Id)
    requires Sized(c) && NamesOk(names, lookup, c.migrating) && NamesOk(names, lookup, c.importing)
    requires forall n :: n in order ==> HeaderOf(headers(n), n, names, lookup)
    ensures LoadAll(c, order, me, names, headers, lookup) == Some(Restored(c, Seen(order), me))
    decreases |order|
  {
    hide NamesOk, HeaderOk, LoadLine, SlotWords, Line, LoadWords, ValidName;
    if order == [] {
      assert Seen(order) == {};
      assert Restored(c, {}, me) == EmptyConfig();
    } else {
      hide Restored;
      var most, n := order[..|order| - 1], order[|order| - 1];
      AllLoads(c, most, me, names, headers, lookup);
      WordsPlain(c, n, me, names, lookup);
      var seen := Seen(most);
      LineLoads(Restored(c, seen, me), headers(n), SlotWords(c, n, me, names), lookup);
      NodeLoads(c, seen, me, n, names, lookup);
      assert Seen(order) == seen + {n};
    }
  }

  /** Some slot is marked both as migrating and as importing. */
  ghost predicate BothMarks(c: Config)
    requires Sized(c)
  {
    exists j :: 0 <= j < SLOTS && c.migrating[j].Some? && c.importing[j].Some?
  }

  /**
    A saved file loads to the same owners and migrating marks, and to the same state exactly when no slot
    has both marks.
   */
  lemma Reload(c: Config, order: seq<Id>, me: Id, names: Names, headers: Id -> seq<string>, lookup: string -> Id)
    requires Sized(c) && NamesOk(names, lookup, c.migrating) && NamesOk(names, lookup, c.importing)
    requires (forall n :: n in order ==> HeaderOf(headers(n), n, names, lookup)) && me in order
    requires forall j :: 0 <= j < SLOTS && c.owners[j].Some? ==> c.owners[j].value in order
    ensures var r := LoadAll(c, order, me, names, headers, lookup);
            && r.Some? && r.value.owners == c.owners && r.value.migrating == c.migrating
            && (r == Some(c) <==> !BothMarks(c))
  {
    AllLoads(c, order, me, names, headers, lookup);
    hide LoadAll, HeaderOf, NamesOk;
    var r := Restored(c, Seen(order), me);
    assert r.owners == c.owners && r.migrating == c.migrating;
    if BothMarks(c) {
      var j :| 0 <= j < SLOTS && c.migrating[j].Some? && c.importing[j].Some?;
      assert r.importing[j] == None;
    } else {
      assert r.importing == c.importing;
    }
  }

  // ---- A slot with both marks -------------------------------------------------------------------------------

  function ExampleName(n: Id): string { seq(40, _ => if n == 0 then 'a' else if n == 1 then 'b' else 'c') }

  function ExampleHeader(n: Id): seq<string> { [ExampleName(n), "-", "-", "-", "-", "-", "-", "-"] }

  function ExampleLookup(name: string): Id {
    if name == ExampleName(0) then 0 else if name == ExampleName(1) then 1 else 2
  }

  lemma ExampleHeaders(n: Id)
    requires n <= 2
    ensures HeaderOf(ExampleHeader(n), n, ExampleName, ExampleLookup)
  {
    assert ExampleName(0)[0] == 'a' && ExampleName(1)[0] == 'b' && ExampleName(2)[0] == 'c';
    assert SplitArgs.Word("-") && SplitArgs.Plain("-");
    assert SplitArgs.Word(ExampleName(n)) && SplitArgs.Plain(ExampleName(n));
  }

  /** Slot 0 both migrating to node 1 and importing from node 2: the importing mark does not come back. */
  lemma BothMarksExample()
    ensures var none: Owners := seq(SLOTS, _ => None);
            var c := Config(none, none[0 := Some(1)], none[0 := Some(2)]);
            LoadAll(c, [0, 1, 2], 0, ExampleName, ExampleHeader, ExampleLookup) == Some(c.(importing := none))
  {
    hide LoadAll, HeaderOk, ValidName, ExampleName, ExampleHeader, ExampleLookup;
    var none: Owners := seq(SLOTS, _ => None);
    var c := Config(none, none[0 := Some(1)], none[0 := Some(2)]);
    ExampleHeaders(0);
    ExampleHeaders(1);
    ExampleHeaders(2);
    AllLoads(c, [0, 1, 2], 0, ExampleName, ExampleHeader, ExampleLookup);
    assert Restored(c, Seen([0, 1, 2]), 0) == c.(importing := none);
  }

  // ---- Loading one range into the table ----------------------------------------------------------------------------

  /** The loop over one range in clusterLoadConfig. */
  method LoadRange(c: ClusterState, n: Id, start: nat, stop: nat)
    requires c.Valid() && n in c.nodes && start < SLOTS && stop < SLOTS
    modifies c`nodes, c.slots
    ensures c.Valid() && SameNodes(old(c.nodes), c.nodes)
    ensures c.slots[..] == Fill(old(c.slots[..]), n, (start, stop))
  {
    hide Coherent, SameNodes, Upto, Fill;
    ghost var t := c.slots[..];
    ghost var u := Fill(t, n, (start, stop));
    SameSelf(c.nodes);
    FillStarts(t, n, start, stop);
    var k := start;
    while k <= stop
      invariant start <= k && (k <= stop + 1 || k == start) && c.Valid() && SameNodes(old(c.nodes), c.nodes)
                && n in c.nodes
      invariant c.slots[..] == Upto(t, u, k)
    {
      ghost var before := c.nodes;
      UptoStep(t, u, k);
      FillAt(t, n, (start, stop), k);
      var ok := c.AddSlot(n, k);
      SameTrans(old(c.nodes), before, c.nodes);
      k := k + 1;
    }
    FillEnds(t, n, start, stop, k);
  }

  lemma FillAt(t: Owners, n: Id, r: Range, k: nat)
    requires k < |t|
    ensures Fill(t, n, r)[k] == if r.0 <= k <= r.1 && t[k] == None then Some(n) else t[k]
  {
  }

  lemma FillStarts(t: Owners, n: Id, start: nat, stop: nat)
    requires start <= |t|
    ensures Upto(t, Fill(t, n, (start, stop)), start) == t
  {
  }

  lemma FillEnds(t: Owners, n: Id, start: nat, stop: nat, k: nat)
    requires stop < k <= |t|
    ensures Upto(t, Fill(t, n, (start, stop)), k) == Fill(t, n, (start, stop))
  {
  }
}
