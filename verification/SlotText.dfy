/**
  Slots in nodes.conf (src/cluster.c): how ranges and migration marks are printed as words of a
  node's line, and how loading the line reads them back.
 */
module SlotText {
  import opened AofCodec
  import opened NumberText
  import opened SlotTable
  import opened SlotRanges
  import opened Options

  // ---- Numbers as text ---------------------------------------------------------------------------------------

  function ReadNumber(s: string): int { Atoi(Codes(s)) }

  /** A number reads back, whatever other character follows it. */
  lemma NumberReads(n: nat)
    requires n <= INT_MAX
    ensures ReadNumber(Number(n)) == n
  {
    var d := Decimal(n);
    assert Codes(Chars(d)) == d;
    DecimalValue(n);
    assert d + [] == d;
    StrtolDigits(d, []);
    AtoiSmall(d);
  }

  // ---- Words ---------------------------------------------------------------------------------------------------

  type Names = Id -> string

  function RangeWord(r: Range): string {
    if r.0 == r.1 then Number(r.0) else Number(r.0) + "-" + Number(r.1)
  }

  function MarkWord(j: nat, arrow: char, name: string): string {
    "[" + Number(j) + "-" + [arrow] + "-" + name + "]"
  }

  /** What a word of the slot part of a line asks for. */
  datatype Entry = Slots(start: nat, stop: nat) | Mark(slot: nat, migrating: bool, name: string) | Malformed

  function IndexOf(s: string, c: char, from: nat): (i: nat)
    requires from <= |s|
    ensures from <= i <= |s| && (i < |s| ==> s[i] == c) && forall k :: from <= k < i ==> s[k] != c
    decreases |s| - from
  {
    if from == |s| || s[from] == c then from else IndexOf(s, c, from + 1)
  }

  predicate ValidName(s: string) {
    |s| == 40 && forall i :: 0 <= i < |s| ==> ('a' <= s[i] <= 'z' || '0' <= s[i] <= '9')
  }

  predicate SlotNumber(n: int) { 0 <= n < SLOTS }

  function ParseWord(w: string): Entry {
    var p := IndexOf(w, '-', 0);
    if w != "" && w[0] == '[' then
      if p + 3 > |w| then Malformed
      else
        var slot := ReadNumber(w[1..p]);
        var q := IndexOf(w, ']', p + 3);
        if !SlotNumber(slot) || q == |w| || !ValidName(w[p + 3..q]) then Malformed
        else Mark(slot, w[p + 1] == '>', w[p + 3..q])
    else
      var start := ReadNumber(w[..p]);
      var stop := if p < |w| then ReadNumber(w[p + 1..]) else start;
      if SlotNumber(start) && SlotNumber(stop) then Slots(start, stop) else Malformed
  }

  lemma IndexOfIs(s: string, c: char, from: nat, i: nat)
    requires from <= i <= |s| && (i < |s| ==> s[i] == c) && forall k :: from <= k < i ==> s[k] != c
    ensures IndexOf(s, c, from) == i
  {
  }

  lemma RangeShape(a: string, b: string)
    requires '-' !in a && a != ""
    ensures var w := a + "-" + b; IndexOf(w, '-', 0) == |a| && w[..|a|] == a && w[|a| + 1..] == b && w[0] == a[0]
  {
    var w := a + "-" + b;
    assert w[|a|] == '-';
    IndexOfIs(w, '-', 0, |a|);
  }

  lemma NoDash(n: nat)
    ensures '-' !in Number(n) && Number(n)[0] != '['
  {
  }

  lemma WithinSlots(n: nat)
    requires n < SLOTS
    ensures SlotNumber(n)
  {
  }

  lemma RangeReads(r: Range)
    requires r.0 < SLOTS && r.1 < SLOTS
    ensures ParseWord(RangeWord(r)) == Slots(r.0, r.1)
  {
    NumberReads(r.0);
    NumberReads(r.1);
    NoDash(r.0);
    var a, b := Number(r.0), Number(r.1);
    hide Number, ReadNumber, IndexOf;
    assert a != "" && a[0] != '[';
    if r.0 == r.1 {
      IndexOfIs(a, '-', 0, |a|);
      assert a[..|a|] == a;
    } else {
      RangeShape(a, b);
      hide SlotNumber;
      assert SlotNumber(r.0) && SlotNumber(r.1) by { WithinSlots(r.0); WithinSlots(r.1); }
    }
  }

  lemma MarkShape(a: string, arrow: char, name: string)
    requires '-' !in a && ValidName(name)
    ensures var w, p := "[" + a + "-" + [arrow] + "-" + name + "]", |a| + 1;
            && IndexOf(w, '-', 0) == p && |w| == p + 44 && IndexOf(w, ']', p + 3) == p + 43
            && w[0] == '[' && w[1..p] == a && w[p + 1] == arrow && w[p + 3..p + 43] == name
  {
    var w, p := "[" + a + "-" + [arrow] + "-" + name + "]", |a| + 1;
    assert w[1..p] == a && w[p] == '-' && w[p + 1] == arrow && w[p + 43] == ']';
    assert w[p + 3..p + 43] == name;
    assert forall k :: 1 <= k < p ==> w[k] == a[k - 1];
    IndexOfIs(w, '-', 0, p);
    assert forall k :: p + 3 <= k < p + 43 ==> w[k] == name[k - p - 3];
    IndexOfIs(w, ']', p + 3, p + 43);
  }

  lemma MarkReads(j: nat, arrow: char, name: string)
    requires j < SLOTS && ValidName(name)
    ensures ParseWord(MarkWord(j, arrow, name)) == Mark(j, arrow == '>', name)
  {
    NumberReads(j);
    NoDash(j);
    hide Number, ReadNumber, IndexOf;
    MarkShape(Number(j), arrow, name);
    hide ValidName;
  }

  // ---- Loading words ------------------------------------------------------------------------------------------------

  /** The part of the cluster state that the slot words of nodes.conf carry. */
  datatype Config = Config(owners: Owners, migrating: Owners, importing: Owners)

  ghost predicate Sized(c: Config) { |c.owners| == |c.migrating| == |c.importing| == SLOTS }

  /** The loop of clusterAddSlot calls for one range: free slots are taken, others stay. */
  function Fill(o: Owners, n: Id, r: Range): (u: Owners)
    ensures |u| == |o|
  {
    seq(|o|, j requires 0 <= j < |o| => if r.0 <= j <= r.1 && o[j] == None then Some(n) else o[j])
  }

  function ApplyEntry(c: Config, n: Id, e: Entry, lookup: string -> Id): Config {
    match e
    case Slots(start, stop) => c.(owners := Fill(c.owners, n, (start, stop)))
    case Mark(j, migrating, name) =>
      if migrating && j < |c.migrating| then c.(migrating := c.migrating[j := Some(lookup(name))])
      else if !migrating && j < |c.importing| then c.(importing := c.importing[j := Some(lookup(name))])
      else c
    case Malformed => c
  }

  /** The slot words of one node's line, in order; None is a format error. */
  function LoadWords(c: Config, n: Id, words: seq<string>, lookup: string -> Id): Option<Config>
    decreases |words|
  {
    if words == [] then Some(c)
    else
      match LoadWords(c, n, words[..|words| - 1], lookup)
      case None => None
      case Some(c') =>
        var e := ParseWord(words[|words| - 1]);
        if e.Malformed? then None else Some(ApplyEntry(c', n, e, lookup))
  }

  lemma {:induction false} LoadWordsConcat(c: Config, n: Id, a: seq<string>, b: seq<string>, lookup: string -> Id)
    ensures LoadWords(c, n, a + b, lookup)
            == match LoadWords(c, n, a, lookup) case None => None case Some(c') => LoadWords(c', n, b, lookup)
    decreases |b|
  {
    hide ParseWord, ApplyEntry;
    if b == [] {
      assert a + b == a;
    } else {
      LoadWordsConcat(c, n, a, b[..|b| - 1], lookup);
      assert (a + b)[..|a + b| - 1] == a + b[..|b| - 1];
    }
  }

  lemma LoadOne(c: Config, n: Id, ws: seq<string>, w: string, lookup: string -> Id, c': Config)
    requires LoadWords(c, n, ws, lookup) == Some(c') && !ParseWord(w).Malformed?
    ensures LoadWords(c, n, ws + [w], lookup) == Some(ApplyEntry(c', n, ParseWord(w), lookup))
  {
    assert (ws + [w])[..|ws|] == ws;
  }

  // ---- Ranges ---------------------------------------------------------------------------------------------

  function RangeWords(rs: seq<Range>): (ws: seq<string>)
    ensures |ws| == |rs|
  {
    seq(|rs|, i requires 0 <= i < |rs| => RangeWord(rs[i]))
  }

  /** Every free slot inside the ranges goes to n. */
  ghost function Filled(o: Owners, n: Id, rs: seq<Range>): (u: Owners)
    ensures |u| == |o|
  {
    seq(|o|, j requires 0 <= j < |o| => if o[j] == None && Inside(rs, j) then Some(n) else o[j])
  }

  lemma FilledMore(o: Owners, n: Id, rs: seq<Range>, r: Range)
    ensures Fill(Filled(o, n, rs), n, r) == Filled(o, n, rs + [r])
  {
    hide Inside;
    forall j | 0 <= j < |o| ensures Fill(Filled(o, n, rs), n, r)[j] == Filled(o, n, rs + [r])[j] {
      InsideMore(rs, r, j);
    }
  }

  lemma {:induction false} RangesLoad(c: Config, n: Id, rs: seq<Range>, lookup: string -> Id)
    requires forall i :: 0 <= i < |rs| ==> rs[i].0 < SLOTS && rs[i].1 < SLOTS
    ensures LoadWords(c, n, RangeWords(rs), lookup) == Some(c.(owners := Filled(c.owners, n, rs)))
    decreases |rs|
  {
    hide ParseWord, RangeWord, Fill;
    if rs == [] {
      FilledNone(c.owners, n);
    } else {
      var most, r := rs[..|rs| - 1], rs[|rs| - 1];
      RangesLoad(c, n, most, lookup);
      RangeReads(r);
      FilledMore(c.owners, n, most, r);
      assert RangeWords(rs)[..|rs| - 1] == RangeWords(most);
      assert most + [r] == rs;
    }
  }

  lemma FilledNone(o: Owners, n: Id)
    ensures Filled(o, n, []) == o
  {
    assert forall j: nat :: !Inside([], j);
  }

  // ---- Marks ----------------------------------------------------------------------------------------------

  /** The marks of the first k slots: a slot that is migrating is printed as migrating only. */
  function MarkWords(migrating: Owners, importing: Owners, names: Names, k: nat): seq<string>
    requires k <= |migrating| == |importing|
  {
    if k == 0 then []
    else
      var ws, j := MarkWords(migrating, importing, names, k - 1), k - 1;
      if migrating[j].Some? then ws + [MarkWord(j, '>', names(migrating[j].value))]
      else if importing[j].Some? then ws + [MarkWord(j, '<', names(importing[j].value))]
      else ws
  }

  ghost function Migrating(c: Config, migrating: Owners, k: nat): (u: Owners)
    requires |c.migrating| == |migrating|
    ensures |u| == |migrating|
  {
    seq(|migrating|, j requires 0 <= j < |migrating| =>
      if j < k && migrating[j].Some? then migrating[j] else c.migrating[j])
  }

  ghost function Importing(c: Config, migrating: Owners, importing: Owners, k: nat): (u: Owners)
    requires |c.importing| == |migrating| == |importing|
    ensures |u| == |importing|
  {
    seq(|importing|, j requires 0 <= j < |importing| =>
      if j < k && migrating[j] == None && importing[j].Some? then importing[j] else c.importing[j])
  }

  /** Names are valid and looked up as the node they belong to. */
  ghost predicate NamesOk(names: Names, lookup: string -> Id, o: Owners) {
    forall j :: 0 <= j < |o| && o[j].Some? ==> ValidName(names(o[j].value)) && lookup(names(o[j].value)) == o[j].value
  }

  lemma {:induction false} MarksLoad(c: Config, n: Id, migrating: Owners, importing: Owners, names: Names,
                                     lookup: string -> Id, k: nat)
    requires |c.migrating| == |c.importing| == |migrating| == |importing| == SLOTS && k <= SLOTS
    requires NamesOk(names, lookup, migrating) && NamesOk(names, lookup, importing)
    ensures LoadWords(c, n, MarkWords(migrating, importing, names, k), lookup)
            == Some(c.(migrating := Migrating(c, migrating, k), importing := Importing(c, migrating, importing, k)))
    decreases k
  {
    hide ParseWord, MarkWord, ValidName, LoadWords, ApplyEntry;
    if k == 0 {
      NoMarks(c, n, migrating, importing, lookup);
    } else {
      var j := k - 1;
      MarksLoad(c, n, migrating, importing, names, lookup, j);
      MarkStep(c, n, migrating, importing, names, lookup, j);
    }
  }

  lemma NoMarks(c: Config, n: Id, migrating: Owners, importing: Owners, lookup: string -> Id)
    requires |c.migrating| == |c.importing| == |migrating| == |importing|
    ensures LoadWords(c, n, [], lookup) == Some(c)
    ensures Migrating(c, migrating, 0) == c.migrating && Importing(c, migrating, importing, 0) == c.importing
  {
  }

  lemma MarkStep(c: Config, n: Id, migrating: Owners, importing: Owners, names: Names, lookup: string -> Id, j: nat)
    requires |c.migrating| == |c.importing| == |migrating| == |importing| == SLOTS && j < SLOTS
    requires NamesOk(names, lookup, migrating) && NamesOk(names, lookup, importing)
    requires LoadWords(c, n, MarkWords(migrating, importing, names, j), lookup)
             == Some(c.(migrating := Migrating(c, migrating, j), importing := Importing(c, migrating, importing, j)))
    ensures LoadWords(c, n, MarkWords(migrating, importing, names, j + 1), lookup)
            == Some(c.(migrating := Migrating(c, migrating, j + 1),
                       importing := Importing(c, migrating, importing, j + 1)))
  {
    hide ParseWord, MarkWord, ValidName, LoadWords, Migrating, Importing;
    var ws := MarkWords(migrating, importing, names, j);
    var c' := c.(migrating := Migrating(c, migrating, j), importing := Importing(c, migrating, importing, j));
    MarkedMore(c, migrating, importing, j);
    if migrating[j].Some? {
      var name := names(migrating[j].value);
      MarkReads(j, '>', name);
      LoadOne(c, n, ws, MarkWord(j, '>', name), lookup, c');
    } else if importing[j].Some? {
      var name := names(importing[j].value);
      MarkReads(j, '<', name);
      LoadOne(c, n, ws, MarkWord(j, '<', name), lookup, c');
    }
  }

  lemma MarkedMore(c: Config, migrating: Owners, importing: Owners, j: nat)
    requires |c.migrating| == |c.importing| == |migrating| == |importing| && j < |migrating|
    ensures Migrating(c, migrating, j + 1)
            == if migrating[j].Some? then Migrating(c, migrating, j)[j := migrating[j]] else Migrating(c, migrating, j)
    ensures Importing(c, migrating, importing, j + 1)
            == if migrating[j] == None && importing[j].Some?
               then Importing(c, migrating, importing, j)[j := importing[j]]
               else Importing(c, migrating, importing, j)
  {
  }
}
