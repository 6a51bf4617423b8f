/**
  What loading does to a log cut at any byte: which commands run, where the file is cut back to,
  and whether the file that remains can be appended to.
 */
module AofTruncation {
  import opened AofCodec
  import opened AofLoad

  function EncodeAll(items: seq<Item>): Bytes
    decreases |items|
  {
    if items == [] then [] else EncodeAll(items[..|items| - 1]) + Encode(items[|items| - 1])
  }

  /** How many bytes the first k records take. */
  function Offset(items: seq<Item>, k: nat): nat
    requires k <= |items|
  {
    |EncodeAll(items[..k])|
  }

  /** A log this server can have written: sizes within range, commands it knows. */
  ghost predicate LogOk(env: Env, items: seq<Item>) {
    forall x :: x in items ==> Encodable(x) && (x.Cmd? ==> env.kind(x.argv) != Unknown)
  }

  /**
    What running a log leads to: the client, how many records there are up to the last command,
    and how many there were at the last command before the latest MULTI.
   */
  datatype Track = Track(client: Client, valid: nat, before: nat)

  function Run(env: Env, items: seq<Item>): (t: Track)
    ensures t.valid <= |items| && t.before <= |items|
    decreases |items|
  {
    if items == [] then Track(NEW_CLIENT, 0, 0)
    else
      var t := Run(env, items[..|items| - 1]);
      match items[|items| - 1]
      case Note(_) => t
      case Cmd(argv) =>
        Track(Process(env.kind(argv), t.client, argv), |items|, if env.kind(argv) == Multi then t.valid else t.before)
  }

  // ---- Cutting a log ----------------------------------------------------------------------------------

  lemma {:induction false} EncodeAllConcat(a: seq<Item>, b: seq<Item>)
    ensures EncodeAll(a + b) == EncodeAll(a) + EncodeAll(b)
    decreases |b|
  {
    hide Encode;
    if b == [] {
      assert a + b == a;
    } else {
      EncodeAllConcat(a, b[..|b| - 1]);
      assert (a + b)[..|a + b| - 1] == a + b[..|b| - 1];
    }
  }

  lemma Assoc(a: Bytes, b: Bytes, c: Bytes)
    ensures (a + b) + c == a + (b + c)
  {
  }

  lemma EncodeNext(items: seq<Item>, k: nat)
    requires k < |items|
    ensures EncodeAll(items[..k + 1]) == EncodeAll(items[..k]) + Encode(items[k])
  {
    hide Encode;
    assert items[..k + 1][..k] == items[..k];
  }

  lemma SplitAt(items: seq<Item>, k: nat)
    requires k < |items|
    ensures EncodeAll(items) == EncodeAll(items[..k]) + (Encode(items[k]) + EncodeAll(items[k + 1..]))
  {
    hide Encode, EncodeAll;
    EncodeNext(items, k);
    assert items == items[..k + 1] + items[k + 1..];
    EncodeAllConcat(items[..k + 1], items[k + 1..]);
    Assoc(EncodeAll(items[..k]), Encode(items[k]), EncodeAll(items[k + 1..]));
  }

  /** The number of records wholly inside the first c bytes. */
  function Whole(items: seq<Item>, c: nat): (k: nat)
    ensures k <= |items|
    decreases |items|
  {
    if |EncodeAll(items)| <= c then |items| else assert |EncodeAll([])| == 0; Whole(items[..|items| - 1], c)
  }

  lemma {:induction false} WholeIs(items: seq<Item>, c: nat)
    ensures Fits(items, c, Whole(items, c))
    decreases |items|
  {
    if |EncodeAll(items)| <= c {
      assert items[..|items|] == items;
    } else {
      var most := items[..|items| - 1];
      WholeIs(most, c);
      FitsMore(items, c, Whole(most, c));
    }
  }

  ghost predicate Fits(items: seq<Item>, c: nat, k: nat) {
    k <= |items| && Offset(items, k) <= c && (k < |items| ==> c < Offset(items, k + 1))
  }

  lemma FitsMore(items: seq<Item>, c: nat, k: nat)
    requires items != [] && Fits(items[..|items| - 1], c, k) && c < |EncodeAll(items)|
    ensures Fits(items, c, k)
  {
    hide EncodeAll;
    var most := items[..|items| - 1];
    assert most[..k] == items[..k];
    if k < |most| { assert most[..k + 1] == items[..k + 1]; } else { assert items[..k + 1] == items; }
  }

  // ---- Running through the whole records -----------------------------------------------------------------

  /** The loader's progress after the first j records. */
  function ProgressAt(env: Env, items: seq<Item>, j: nat): Progress
    requires j <= |items|
  {
    var t := Run(env, items[..j]);
    Progress(t.client, Offset(items, t.valid), Offset(items, t.before))
  }

  lemma RunNext(env: Env, items: seq<Item>, j: nat)
    requires j < |items| && env.loadTruncated
    ensures ProgressAt(env, items, j + 1)
            == match items[j]
               case Note(_) => ProgressAt(env, items, j)
               case Cmd(argv) => Advance(env, ProgressAt(env, items, j), argv, Offset(items, j + 1))
  {
    hide EncodeAll, Process;
    assert items[..j + 1][..j] == items[..j];
  }

  lemma AtStart(env: Env, items: seq<Item>)
    ensures Offset(items, 0) == 0 && ProgressAt(env, items, 0) == START
  {
    assert items[..0] == [];
  }

  lemma LoadStep(env: Env, items: seq<Item>, file: Bytes, j: nat, p: Progress)
    requires LogOk(env, items) && env.loadTruncated && j < |items| && EncodeAll(items[..j + 1]) <= file
    ensures EncodeAll(items[..j]) <= file
    ensures LoadFrom(env, file, Offset(items, j), p)
            == LoadFrom(env, file, Offset(items, j + 1),
                        if items[j].Note? then p else Advance(env, p, items[j].argv, Offset(items, j + 1)))
  {
    hide Encode, EncodeAll, Advance, ParseRecord;
    var x, off := items[j], Offset(items, j);
    EncodeNext(items, j);
    var tail := file[off + |Encode(x)|..];
    assert file[off..] == Encode(x) + tail;
    assert items[j] in items;
    RecordWhole(x, tail);
  }

  lemma {:induction false} LoadReaches(env: Env, items: seq<Item>, file: Bytes, j: nat)
    requires LogOk(env, items) && env.loadTruncated && j <= |items| && EncodeAll(items[..j]) <= file
    ensures LoadFrom(env, file, 0, START) == LoadFrom(env, file, Offset(items, j), ProgressAt(env, items, j))
    decreases j
  {
    hide EncodeAll, LoadFrom, Advance, ProgressAt, LogOk, Encode, Run;
    if j == 0 {
      AtStart(env, items);
    } else {
      LoadStep(env, items, file, j - 1, ProgressAt(env, items, j - 1));
      LoadReaches(env, items, file, j - 1);
      RunNext(env, items, j - 1);
    }
  }

  lemma PrefixOf(items: seq<Item>, n: nat, k: nat)
    requires n <= k <= |items|
    ensures EncodeAll(items[..n]) <= EncodeAll(items[..k])
  {
    hide EncodeAll;
    assert items[..k] == items[..n] + items[n..k];
    EncodeAllConcat(items[..n], items[n..k]);
  }

  lemma FilePrefix(items: seq<Item>, file: Bytes, n: nat, k: nat)
    requires n <= k <= |items| && Offset(items, k) <= |file| && file <= EncodeAll(items)
    ensures Offset(items, n) <= |file| && file[..Offset(items, n)] == EncodeAll(items[..n])
  {
    hide EncodeAll;
    PrefixOf(items, n, k);
    PrefixOf(items, n, |items|);
    assert items[..|items|] == items;
  }

  // ---- The cut -----------------------------------------------------------------------------------------------

  /** What is left of a cut file after the whole records: the first m bytes of the next one. */
  lemma LastPart(items: seq<Item>, file: Bytes, k: nat)
    requires Fits(items, |file|, k) && file <= EncodeAll(items)
    ensures k == |items| ==> |file| == Offset(items, k)
    ensures k < |items| ==> var m := |file| - Offset(items, k);
                            m < |Encode(items[k])| && file[Offset(items, k)..] == Encode(items[k])[..m]
  {
    hide Encode, EncodeAll;
    assert items[..|items|] == items;
    if k < |items| {
      EncodeNext(items, k);
      SplitAt(items, k);
      var a, b, c := EncodeAll(items[..k]), Encode(items[k]), EncodeAll(items[k + 1..]);
      assert file == (a + (b + c))[..|file|];
      assert file[|a|..] == b[..|file| - |a|];
    }
  }

  /** Where the cut falls: after a whole record, inside an annotation, or inside a command. */
  datatype Cut = Clean | InNote | InCommand

  function CutOf(items: seq<Item>, c: nat, k: nat): Cut
    requires k <= |items|
  {
    if c <= Offset(items, k) || k == |items| then Clean else if items[k].Note? then InNote else InCommand
  }

  /** What loading a log cut at byte c reports: for k whole records and what running them leads to. */
  function Outcome(items: seq<Item>, cut: Cut, t: Track): Result
    requires t.valid <= |items| && t.before <= |items|
  {
    if cut == InCommand then Result(Truncated, t.client.ran, Offset(items, t.valid))
    else if t.client.multi then Result(Truncated, t.client.ran, Offset(items, t.before))
    else Result(Ok, t.client.ran, Offset(items, t.valid))
  }

  lemma CutParses(env: Env, items: seq<Item>, file: Bytes, k: nat)
    requires LogOk(env, items) && Fits(items, |file|, k) && file <= EncodeAll(items)
    ensures var off, cut := Offset(items, k), CutOf(items, |file|, k);
            if off == |file| then cut == Clean
            else off < |file| && cut != Clean
                 && ParseRecord(file[off..]) == if cut == InNote then Done(Skipped, |file| - off) else ReadErr(true)
  {
    hide EncodeAll, EncodeCommand, EncodeNote, ParseRecord;
    LastPart(items, file, k);
    var off := Offset(items, k);
    if off < |file| {
      assert items[k] in items;
      match items[k]
      case Note(time) => NotePart(time, |file| - off);
      case Cmd(argv) => CommandPart(argv, |file| - off);
    }
  }

  lemma LoadEnds(env: Env, items: seq<Item>, file: Bytes, k: nat, p: Progress)
    requires LogOk(env, items) && env.loadTruncated && Fits(items, |file|, k) && file <= EncodeAll(items)
    ensures LoadFrom(env, file, Offset(items, k), p)
            == if CutOf(items, |file|, k) == InCommand then UnexpectedEnd(env, p) else AtEnd(env, p)
  {
    hide EncodeAll, ParseRecord, LogOk;
    CutParses(env, items, file, k);
    var off := Offset(items, k);
    if off < |file| && CutOf(items, |file|, k) == InNote {
      assert LoadFrom(env, file, off, p) == LoadFrom(env, file, |file|, p);
    }
  }

  /**
    A log cut at any byte but the first: exactly the whole commands run, and the file is cut after the last
    of them.
   */
  lemma LoadPrefix(env: Env, items: seq<Item>, file: Bytes)
    requires LogOk(env, items) && env.loadTruncated && file <= EncodeAll(items) && file != []
    ensures var k := Whole(items, |file|);
            Load(env, file) == Outcome(items, CutOf(items, |file|, k), Run(env, items[..k]))
  {
    hide EncodeAll, LoadFrom, Run;
    var k := Whole(items, |file|);
    WholeIs(items, |file|);
    FilePrefix(items, file, k, k);
    LoadReaches(env, items, file, k);
    LoadEnds(env, items, file, k, ProgressAt(env, items, k));
  }

  // ---- Logs without transactions and annotations ---------------------------------------------------------------

  ghost predicate PlainLog(env: Env, items: seq<Item>) {
    forall x :: x in items ==> x.Cmd? && env.kind(x.argv) == Other
  }

  function Commands(items: seq<Item>): seq<seq<Bytes>>
    decreases |items|
  {
    if items == [] then []
    else Commands(items[..|items| - 1]) + if items[|items| - 1].Cmd? then [items[|items| - 1].argv] else []
  }

  lemma {:induction false} PlainRun(env: Env, items: seq<Item>)
    requires PlainLog(env, items)
    ensures Run(env, items) == Track(Client(false, [], Commands(items)), |items|, 0)
    decreases |items|
  {
    if items != [] { PlainRun(env, items[..|items| - 1]); }
  }

  /** Truncation recovery: the commands wholly inside the prefix run, and the file is cut to their length. */
  lemma PlainPrefix(env: Env, items: seq<Item>, file: Bytes)
    requires LogOk(env, items) && PlainLog(env, items) && env.loadTruncated && file <= EncodeAll(items) && file != []
    ensures var k := Whole(items, |file|);
            var r := Load(env, file);
            && r.ran == Commands(items[..k]) && r.validUpTo == Offset(items, k)
            && r.status == (if |file| == Offset(items, k) then Ok else Truncated)
  {
    hide EncodeAll, Load, Run, LogOk;
    var k := Whole(items, |file|);
    WholeIs(items, |file|);
    LoadPrefix(env, items, file);
    PlainRun(env, items[..k]);
    if k < |items| { assert items[k] in items; } else { assert items[..k] == items; }
  }

  lemma WholeOfAll(items: seq<Item>)
    ensures Whole(items, |EncodeAll(items)|) == |items| && items[..|items|] == items
  {
  }

  /** The full encoding reads back as the commands that were written. */
  lemma RoundTrip(env: Env, items: seq<Item>)
    requires LogOk(env, items) && env.loadTruncated && items != []
    ensures EncodeAll(items) != []
    ensures Load(env, EncodeAll(items)) == Outcome(items, Clean, Run(env, items))
    ensures PlainLog(env, items) ==> Load(env, EncodeAll(items)) == Result(Ok, Commands(items), |EncodeAll(items)|)
  {
    assert EncodeAll(items) != [];
    hide EncodeAll, Load, LogOk, PlainLog, Run;
    WholeOfAll(items);
    LoadPrefix(env, items, EncodeAll(items));
    if PlainLog(env, items) { PlainRun(env, items); }
  }

  // ---- Appending after a cut ----------------------------------------------------------------------------------

  /** The file after loading: cut back when the loader says so, else as it was. */
  function Kept(file: Bytes, r: Result): Bytes
    requires r.status == Truncated ==> r.validUpTo <= |file|
  {
    if r.status == Truncated then file[..r.validUpTo] else file
  }

  /** How many whole records the loader keeps. */
  function KeptCount(cut: Cut, k: nat, t: Track): nat {
    if cut == InCommand then t.valid else if t.client.multi then t.before else k
  }

  /** The file that remains ends inside an annotation, or inside an open transaction. */
  predicate Torn(env: Env, items: seq<Item>, c: nat) {
    var k := Whole(items, c);
    var cut, t := CutOf(items, c, k), Run(env, items[..k]);
    if cut == InNote && !t.client.multi then true
    else
      var n := KeptCount(cut, k, t);
      Run(env, items[..n]).client.multi
  }

  /** Annotations change nothing; what an open transaction queues has not run. */
  lemma {:induction false} RunFacts(env: Env, items: seq<Item>)
    ensures var t := Run(env, items);
            && Run(env, items[..t.valid]).client == t.client
            && (t.client.multi ==> Run(env, items[..t.before]).client.ran == t.client.ran)
            && (!t.client.multi ==> t.client.queue == [])
            && t.before <= t.valid
    decreases |items|
  {
    if items != [] {
      var n := |items| - 1;
      var most := items[..n];
      var t := Run(env, most);
      RunFacts(env, most);
      assert most[..t.valid] == items[..t.valid] && most[..t.before] == items[..t.before];
      assert items[..n + 1] == items;
    }
  }

  /** What ran before does not matter to a command. */
  lemma ProcessAfter(k: Kind, before: seq<seq<Bytes>>, c: Client, argv: seq<Bytes>)
    ensures var d := Process(k, c, argv);
            Process(k, Client(c.multi, c.queue, before + c.ran), argv) == Client(d.multi, d.queue, before + d.ran)
  {
    assert before + (c.ran + c.queue) == before + c.ran + c.queue;
    assert before + (c.ran + [argv]) == before + c.ran + [argv];
  }

  /** A client outside a transaction runs what follows as a new one would. */
  lemma {:induction false} RunConcat(env: Env, a: seq<Item>, b: seq<Item>)
    requires !Run(env, a).client.multi
    ensures var x, y := Run(env, a).client, Run(env, b).client;
            Run(env, a + b).client == Client(y.multi, y.queue, x.ran + y.ran)
    decreases |b|
  {
    if b == [] {
      assert a + b == a;
      RunFacts(env, a);
      assert Run(env, a).client.ran + [] == Run(env, a).client.ran;
    } else {
      var most, last := b[..|b| - 1], b[|b| - 1];
      RunConcat(env, a, most);
      assert (a + b)[..|a + b| - 1] == a + most && (a + b)[|a + b| - 1] == last;
      if last.Cmd? {
        var x, y := Run(env, a).client, Run(env, most).client;
        ProcessAfter(env.kind(last.argv), x.ran, y, last.argv);
      }
      hide Process;
    }
  }

  /** What is kept is a number of whole records, which run to what the loader ran, unless it ends in an annotation. */
  lemma KeptIs(env: Env, items: seq<Item>, file: Bytes)
    requires LogOk(env, items) && env.loadTruncated && file <= EncodeAll(items) && file != []
    ensures var k, r := Whole(items, |file|), Load(env, file);
            var cut, t := CutOf(items, |file|, k), Run(env, items[..k]);
            var n := KeptCount(cut, k, t);
            && n <= k && r.ran == Run(env, items[..n]).client.ran
            && (r.status == Truncated ==> r.validUpTo <= |file|)
            && (Kept(file, r) == EncodeAll(items[..n]) || (cut == InNote && !t.client.multi))
  {
    hide EncodeAll, Load, LogOk, Run, Encode;
    var k := Whole(items, |file|);
    var t := Run(env, items[..k]);
    var n := KeptCount(CutOf(items, |file|, k), k, t);
    WholeIs(items, |file|);
    LoadPrefix(env, items, file);
    RunFacts(env, items[..k]);
    assert items[..k][..t.valid] == items[..t.valid] && items[..k][..t.before] == items[..t.before];
    FilePrefix(items, file, n, k);
    FilePrefix(items, file, k, k);
    assert items[..|items|] == items && file[..|file|] == file;
  }

  lemma LogOkPrefix(env: Env, items: seq<Item>, n: nat, more: seq<Item>)
    requires LogOk(env, items) && LogOk(env, more) && n <= |items|
    ensures LogOk(env, items[..n] + more)
  {
  }

  /** A log cut anywhere but in a torn place can be appended to: what follows runs as from a new client. */
  lemma AppendSafe(env: Env, items: seq<Item>, file: Bytes, more: seq<Item>)
    requires LogOk(env, items) && LogOk(env, more) && env.loadTruncated && file <= EncodeAll(items) && file != []
    requires !Torn(env, items, |file|)
    ensures var r := Load(env, file);
            && (r.status == Truncated ==> r.validUpTo <= |file|)
            && Load(env, Kept(file, r) + EncodeAll(more)).ran == r.ran + Run(env, more).client.ran
  {
    hide EncodeAll, Load, LogOk, Run, Encode;
    KeptIs(env, items, file);
    var k := Whole(items, |file|);
    var n := KeptCount(CutOf(items, |file|, k), k, Run(env, items[..k]));
    var log := items[..n] + more;
    EncodeAllConcat(items[..n], more);
    LogOkPrefix(env, items, n, more);
    RunConcat(env, items[..n], more);
    LoadRan(env, log);
  }

  lemma LoadRan(env: Env, items: seq<Item>)
    requires LogOk(env, items) && env.loadTruncated
    ensures Load(env, EncodeAll(items)).ran == Run(env, items).client.ran
  {
    if items == [] {
      assert EncodeAll(items) == [];
    } else {
      hide LogOk, EncodeAll, Load, Run;
      RoundTrip(env, items);
    }
  }

  // ---- A torn file loses what is appended ---------------------------------------------------------------------

  /** The cut annotation swallows the next header line; what follows it is a format error. */
  lemma NoteSwallows(time: nat, m: nat, argv: seq<Bytes>)
    requires time <= LONG_MAX && 0 < m < |EncodeNote(time)| && Encodable(Cmd(argv))
    ensures var s := EncodeNote(time)[..m] + EncodeCommand(argv);
            && ParseRecord(s) == Done(Skipped, m + |Header(STAR, |argv|)|)
            && m + |Header(STAR, |argv|)| < |s|
            && ParseRecord(s[m + |Header(STAR, |argv|)|..]) == FmtErr
  {
    hide EncodeArgs, Decimal;
    var h, args := Header(STAR, |argv|), EncodeArgs(argv);
    var part := EncodeNote(time)[..m];
    SwallowedLine(time, m, |argv|, args);
    assert part + EncodeCommand(argv) == (part + h) + args;
    assert ((part + h) + args)[|part + h|..] == args;
    ArgsStart(argv);
  }

  lemma ArgsStart(argv: seq<Bytes>)
    requires argv != []
    ensures EncodeArgs(argv) != [] && EncodeArgs(argv)[0] == DOLLAR
  {
  }

  lemma SwallowedLine(time: nat, m: nat, n: nat, t: Bytes)
    requires time <= LONG_MAX && n <= LONG_MAX && 0 < m < |EncodeNote(time)|
    ensures var part, h := EncodeNote(time)[..m], Header(STAR, n);
            Fgets((part + h) + t) == |part + h| && part[0] == HASH
  {
    var part, h := EncodeNote(time)[..m], Header(STAR, n);
    NoteLine(time);
    HeaderShape(STAR, n);
    var before := part + ([STAR] + Decimal(n) + [CR]);
    assert part == (TS + Decimal(time) + [CR])[..m];
    assert NoFeed(before);
    LineWhole(before, t, LINE_MAX - 1);
    assert before + [LF] + t == (part + h) + t;
  }

  lemma TornNote(env: Env, items: seq<Item>, file: Bytes, argv: seq<Bytes>)
    requires LogOk(env, items) && env.loadTruncated && file <= EncodeAll(items) && Encodable(Cmd(argv))
    requires CutOf(items, |file|, Whole(items, |file|)) == InNote
    ensures Load(env, file + EncodeCommand(argv)).ran == Run(env, items[..Whole(items, |file|)]).client.ran
    ensures Load(env, file + EncodeCommand(argv)).status == Failed
  {
    hide *;
    var k, longer := Whole(items, |file|), file + EncodeCommand(argv);
    TornNoteAt(env, items, file, k, argv);
    LoadReaches(env, items, longer, k);
    LoadIsFrom(env, longer);
    SkipThenFail(env, longer, Offset(items, k), |file| + |Header(STAR, |argv|)|, ProgressAt(env, items, k));
    ProgressRan(env, items, k);
  }

  lemma LoadIsFrom(env: Env, file: Bytes)
    ensures file != [] ==> Load(env, file) == LoadFrom(env, file, 0, START)
  {
    hide LoadFrom;
  }

  lemma SkipThenFail(env: Env, file: Bytes, off: nat, next: nat, p: Progress)
    requires off < next < |file| && ParseRecord(file[off..]) == Done(Skipped, next - off)
             && ParseRecord(file[next..]) == FmtErr
    ensures LoadFrom(env, file, off, p) == Result(Failed, p.client.ran, p.validUpTo)
  {
    hide ParseRecord;
    assert LoadFrom(env, file, next, p) == Result(Failed, p.client.ran, p.validUpTo);
  }

  lemma ProgressRan(env: Env, items: seq<Item>, k: nat)
    requires k <= |items|
    ensures ProgressAt(env, items, k).client == Run(env, items[..k]).client
  {
    hide Run;
  }

  lemma TornNoteAt(env: Env, items: seq<Item>, file: Bytes, k: nat, argv: seq<Bytes>)
    requires LogOk(env, items) && file <= EncodeAll(items) && Encodable(Cmd(argv))
    requires k == Whole(items, |file|) && CutOf(items, |file|, k) == InNote
    ensures var off, longer, next := Offset(items, k), file + EncodeCommand(argv), |file| + |Header(STAR, |argv|)|;
            && off < |file| && next < |longer| && EncodeAll(items[..k]) <= longer
            && ParseRecord(longer[off..]) == Done(Skipped, next - off) && ParseRecord(longer[next..]) == FmtErr
  {
    hide EncodeAll, EncodeCommand, EncodeNote, ParseRecord, Header;
    WholeIs(items, |file|);
    LastPart(items, file, k);
    FilePrefix(items, file, k, k);
    var off, longer := Offset(items, k), file + EncodeCommand(argv);
    assert items[k] in items;
    var m := |file| - off;
    NoteSwallows(items[k].time, m, argv);
    var part := EncodeNote(items[k].time)[..m];
    assert longer[off..] == part + EncodeCommand(argv);
    assert longer[|file| + |Header(STAR, |argv|)|..] == longer[off..][m + |Header(STAR, |argv|)|..];
  }

  /**
    Whatever ordinary command is appended to a torn file, the next load does not run it; if the
    cut is in an annotation, which the first load accepts, the next load fails.
   */
  lemma TornLoses(env: Env, items: seq<Item>, file: Bytes, argv: seq<Bytes>)
    requires LogOk(env, items) && env.loadTruncated && file <= EncodeAll(items) && file != []
    requires Encodable(Cmd(argv)) && env.kind(argv) == Other && Torn(env, items, |file|)
    ensures var r := Load(env, file);
            && (r.status == Truncated ==> r.validUpTo <= |file|)
            && var next := Load(env, Kept(file, r) + EncodeCommand(argv));
               && next.ran == r.ran
               && (r.status == Ok ==> next.status == Failed)
  {
    hide EncodeAll, Load, LogOk, Run, EncodeCommand, Encodable;
    KeptIs(env, items, file);
    var k, r := Whole(items, |file|), Load(env, file);
    var cut, t := CutOf(items, |file|, k), Run(env, items[..k]);
    if cut == InNote && !t.client.multi {
      LoadPrefix(env, items, file);
      TornNote(env, items, file, argv);
    } else {
      LoadPrefix(env, items, file);
      var n := KeptCount(cut, k, t);
      LogOkPrefix(env, items, n, []);
      assert items[..n] + [] == items[..n];
      QueuedForEver(env, items[..n], argv);
    }
  }

  lemma QueuedForEver(env: Env, items: seq<Item>, argv: seq<Bytes>)
    requires LogOk(env, items) && env.loadTruncated && Encodable(Cmd(argv)) && env.kind(argv) == Other
    requires Run(env, items).client.multi
    ensures Load(env, EncodeAll(items) + EncodeCommand(argv)).ran == Run(env, items).client.ran
  {
    hide Load, EncodeCommand, Encodable, Run;
    var log := items + [Cmd(argv)];
    assert log[..|items|] == items;
    LoadRan(env, log);
    RunQueued(env, items, argv);
  }

  lemma RunQueued(env: Env, items: seq<Item>, argv: seq<Bytes>)
    requires Run(env, items).client.multi && env.kind(argv) == Other
    ensures Run(env, items + [Cmd(argv)]).client.ran == Run(env, items).client.ran
  {
    assert (items + [Cmd(argv)])[..|items|] == items;
  }

  // ---- Where a log is torn ----------------------------------------------------------------------------------

  /** MULTI never comes inside a transaction. */
  ghost predicate NoNesting(env: Env, items: seq<Item>) {
    forall j :: 0 <= j < |items| && items[j].Cmd? && env.kind(items[j].argv) == Multi
      ==> !Run(env, items[..j]).client.multi
  }

  lemma {:induction false} BeforeIsClosed(env: Env, items: seq<Item>)
    requires NoNesting(env, items)
    ensures var t := Run(env, items); t.client.multi ==> !Run(env, items[..t.before]).client.multi
    decreases |items|
  {
    if items != [] {
      var n := |items| - 1;
      var most := items[..n];
      var t := Run(env, most);
      NoNestingPrefix(env, items);
      BeforeIsClosed(env, most);
      RunFacts(env, most);
      assert most[..t.valid] == items[..t.valid] && most[..t.before] == items[..t.before];
      assert items[n].Cmd? && env.kind(items[n].argv) == Multi ==> !t.client.multi;
      hide NoNesting;
    }
  }

  lemma NoNestingPrefix(env: Env, items: seq<Item>)
    requires items != [] && NoNesting(env, items)
    ensures NoNesting(env, items[..|items| - 1])
  {
    var most := items[..|items| - 1];
    forall j | 0 <= j < |most| ensures most[..j] == items[..j] && most[j] == items[j] {}
    hide Run;
  }

  /** Without nested transactions: a cut inside a command of an open one, or inside an annotation outside of one. */
  lemma TornExactly(env: Env, items: seq<Item>, c: nat)
    requires NoNesting(env, items)
    ensures var k := Whole(items, c);
            var cut, multi := CutOf(items, c, k), Run(env, items[..k]).client.multi;
            Torn(env, items, c) <==> (cut == InCommand && multi) || (cut == InNote && !multi)
  {
    hide EncodeAll, Run, Encode;
    var k := Whole(items, c);
    var t := Run(env, items[..k]);
    forall j | 0 <= j < k ensures items[..k][..j] == items[..j] {}
    BeforeIsClosed(env, items[..k]);
    RunFacts(env, items[..k]);
    assert items[..k][..t.valid] == items[..t.valid] && items[..k][..t.before] == items[..t.before];
  }

  // ---- Transactions, on the log alone -------------------------------------------------------------------------

  ghost predicate IsKind(env: Env, x: Item, k: Kind) { x.Cmd? && env.kind(x.argv) == k }

  /** The position of the first EXEC, or the length if there is none. */
  function FirstExec(env: Env, items: seq<Item>): (e: nat)
    ensures e <= |items| && (e < |items| ==> items[e].Cmd? && env.kind(items[e].argv) == Exec)
    ensures forall i :: 0 <= i < e ==> !IsKind(env, items[i], Exec)
  {
    if items == [] || (items[0].Cmd? && env.kind(items[0].argv) == Exec) then 0 else 1 + FirstExec(env, items[1..])
  }

  /**
    The commands of a log that take effect, in order: those outside of transactions, and those between a MULTI
    and the next EXEC.  What follows a MULTI without an EXEC does not count.
   */
  function Committed(env: Env, items: seq<Item>): seq<seq<Bytes>> {
    if items == [] then []
    else
      var x, rest := items[0], items[1..];
      if x.Note? || env.kind(x.argv) == Exec then Committed(env, rest)
      else if env.kind(x.argv) == Multi then
        var e := FirstExec(env, rest);
        if e == |rest| then [] else Commands(rest[..e]) + Committed(env, rest[e + 1..])
      else [x.argv] + Committed(env, rest)
  }

  /** A transaction that is still open has queued its commands and run none. */
  lemma {:induction false} OpenTransaction(env: Env, multi: Item, body: seq<Item>)
    requires IsKind(env, multi, Multi) && forall i :: 0 <= i < |body| ==> !IsKind(env, body[i], Exec)
    ensures Run(env, [multi] + body).client == Client(true, Commands(body), [])
    decreases |body|
  {
    var items := [multi] + body;
    if body == [] {
      assert items == [multi] && [multi][..0] == [];
    } else {
      OpenTransaction(env, multi, body[..|body| - 1]);
      assert items[..|items| - 1] == [multi] + body[..|body| - 1] && items[|items| - 1] == body[|body| - 1];
      assert !IsKind(env, body[|body| - 1], Exec);
    }
  }

  /** EXEC runs exactly what was queued. */
  lemma ClosedTransaction(env: Env, multi: Item, body: seq<Item>, exec: Item)
    requires IsKind(env, multi, Multi) && IsKind(env, exec, Exec)
    requires forall i :: 0 <= i < |body| ==> !IsKind(env, body[i], Exec)
    ensures Run(env, [multi] + body + [exec]).client == Client(false, [], Commands(body))
  {
    OpenTransaction(env, multi, body);
    var items := [multi] + body + [exec];
    assert items[..|items| - 1] == [multi] + body && items[|items| - 1] == exec;
    assert [] + Commands(body) == Commands(body);
  }

  lemma OneRecord(env: Env, x: Item)
    requires x.Cmd? ==> env.kind(x.argv) != Unknown
    ensures !IsKind(env, x, Multi) ==>
              Run(env, [x]).client == Client(false, [], if x.Cmd? && env.kind(x.argv) == Other then [x.argv] else [])
  {
    assert [x][..0] == [];
    if x.Cmd? { assert [] + [x.argv] == [x.argv]; }
  }

  lemma CommittedBlock(env: Env, items: seq<Item>)
    requires items != [] && IsKind(env, items[0], Multi)
    ensures var rest := items[1..];
            var e := FirstExec(env, rest);
            Committed(env, items) == if e == |rest| then [] else Commands(rest[..e]) + Committed(env, rest[e + 1..])
  {
    hide FirstExec, Commands;
  }

  lemma BlockSplits<T>(items: seq<T>, e: nat)
    requires e + 1 < |items|
    ensures items == [items[0]] + items[1..][..e] + [items[1..][e]] + items[1..][e + 1..]
  {
  }

  lemma FirstRest<T>(items: seq<T>)
    requires items != []
    ensures items == [items[0]] + items[1..]
  {
  }

  lemma RecordCommitted(env: Env, items: seq<Item>)
    requires items != [] && LogOk(env, items) && !IsKind(env, items[0], Multi)
    ensures !Run(env, [items[0]]).client.multi
    ensures Committed(env, items) == Run(env, [items[0]]).client.ran + Committed(env, items[1..])
  {
    assert items[0] in items;
    hide Run;
    OneRecord(env, items[0]);
    assert [] + Committed(env, items[1..]) == Committed(env, items[1..]);
  }

  lemma {:induction false} RunCommitted(env: Env, items: seq<Item>)
    requires LogOk(env, items)
    ensures Run(env, items).client.ran == Committed(env, items)
    decreases |items|
  {
    if items != [] {
      hide Run, Committed, FirstExec, Commands;
      var x, rest := items[0], items[1..];
      if IsKind(env, x, Multi) {
        CommittedBlock(env, items);
        var e := FirstExec(env, rest);
        if e == |rest| {
          OpenTransaction(env, x, rest);
          FirstRest(items);
        } else {
          ClosedTransaction(env, x, rest[..e], rest[e]);
          RunCommitted(env, rest[e + 1..]);
          RunConcat(env, [x] + rest[..e] + [rest[e]], rest[e + 1..]);
          BlockSplits(items, e);
        }
      } else {
        RecordCommitted(env, items);
        RunCommitted(env, rest);
        RunConcat(env, [x], rest);
        FirstRest(items);
      }
    }
  }

  /**
    What a load runs, on the log alone: of any log cut at any byte, the commands of its whole records that take
    effect, in order.
   */
  lemma LoadCommitted(env: Env, items: seq<Item>, file: Bytes)
    requires LogOk(env, items) && env.loadTruncated && file <= EncodeAll(items) && file != []
    ensures Load(env, file).ran == Committed(env, items[..Whole(items, |file|)])
    ensures file == EncodeAll(items) ==> Load(env, file).ran == Committed(env, items)
  {
    hide EncodeAll, Load, Run, Committed;
    var k := Whole(items, |file|);
    LoadPrefix(env, items, file);
    LogOkPrefix(env, items, k, []);
    assert items[..k] + [] == items[..k];
    RunCommitted(env, items[..k]);
    if file == EncodeAll(items) { WholeOfAll(items); }
  }

  /** MULTI, commands and EXEC written one after the other load as exactly those commands. */
  lemma TransactionLoads(env: Env, multi: Item, body: seq<Item>, exec: Item)
    requires env.loadTruncated && LogOk(env, [multi] + body + [exec])
    requires IsKind(env, multi, Multi) && IsKind(env, exec, Exec)
    requires forall i :: 0 <= i < |body| ==> !IsKind(env, body[i], Exec)
    ensures Load(env, EncodeAll([multi] + body + [exec])).ran == Commands(body)
  {
    var items := [multi] + body + [exec];
    ClosedTransaction(env, multi, body, exec);
    hide Run, Load, EncodeAll, LogOk;
    LoadRan(env, items);
  }

  // ---- aof-load-truncated no ----------------------------------------------------------------------------------

  lemma {:induction false} StrictFrom(env: Env, file: Bytes, pos: nat, p: Progress, q: Progress)
    requires pos <= |file| && p.client == q.client && !env.loadTruncated
    ensures var r, s := LoadFrom(env.(loadTruncated := true), file, pos, p), LoadFrom(env, file, pos, q);
            s.ran == r.ran && s.status == if r.status == Truncated then Failed else r.status
    decreases |file| - pos
  {
    hide ParseRecord, Process;
    var lax := env.(loadTruncated := true);
    if pos < |file| {
      match ParseRecord(file[pos..]) {
        case Done(Skipped, used) => StrictFrom(env, file, pos + used, p, q);
        case Done(Command(argv), used) =>
          if env.kind(argv) != Unknown {
            StrictFrom(env, file, pos + used, Advance(lax, p, argv, pos + used), Advance(env, q, argv, pos + used));
          }
        case _ =>
      }
    }
  }

  /** Without aof-load-truncated the same commands run, and what would be cut off is a failure instead. */
  lemma StrictLoad(env: Env, file: Bytes)
    requires !env.loadTruncated
    ensures var r, s := Load(env.(loadTruncated := true), file), Load(env, file);
            s.ran == r.ran && s.status == if r.status == Truncated then Failed else r.status
  {
    hide LoadFrom;
    if file != [] { StrictFrom(env, file, 0, START, START); }
  }

  // ---- Both kinds of torn log, in bytes ----------------------------------------------------------------------

  const MULTI: seq<Bytes> := [[77, 85, 76, 84, 73]]
  const PING: seq<Bytes> := [[80, 73, 78, 71]]

  function ExampleEnv(): Env { Env((argv: seq<Bytes>) => if argv == MULTI then Multi else Other, true) }

  /** The log cut one byte into its last record. */
  function CutInLast(a: Item, b: Item): Bytes { EncodeAll([a]) + Encode(b)[..1] }

  lemma CutInLastIs(a: Item, b: Item)
    requires |Encode(a)| > 1 && |Encode(b)| > 1
    ensures var file := CutInLast(a, b); file != [] && file <= EncodeAll([a, b]) && Whole([a, b], |file|) == 1
    ensures CutOf([a, b], |CutInLast(a, b)|, 1) == if b.Note? then InNote else InCommand
  {
    hide Encode;
    var items, file := [a, b], CutInLast(a, b);
    assert items[..1] == [a] && items[..2] == items && items[..0] == [];
    EncodeNext(items, 0);
    EncodeNext(items, 1);
    WholeIs(items, |file|);
  }

  /** "MULTI" and a cut "PING": a "PING" appended after loading is queued for ever. */
  lemma CutInMultiExample()
    ensures var env, file := ExampleEnv(), CutInLast(Cmd(MULTI), Cmd(PING));
            var r := Load(env, file);
            && r == Result(Truncated, [], |EncodeCommand(MULTI)|) && r.validUpTo <= |file|
            && Load(env, Kept(file, r) + EncodeCommand(PING)).ran == []
  {
    var env, items, file := ExampleEnv(), [Cmd(MULTI), Cmd(PING)], CutInLast(Cmd(MULTI), Cmd(PING));
    assert MULTI != PING by { assert |MULTI[0]| != |PING[0]|; }
    assert |Encode(Cmd(MULTI))| > 1 && |Encode(Cmd(PING))| > 1 by { hide Decimal, EncodeArgs; }
    CutInLastIs(Cmd(MULTI), Cmd(PING));
    assert items[..1] == [Cmd(MULTI)] && [Cmd(MULTI)][..0] == [];
    assert EncodeAll([Cmd(MULTI)]) == [] + EncodeCommand(MULTI) == EncodeCommand(MULTI);
    assert Run(env, items[..1]) == Track(Client(true, [], []), 1, 0);
    hide EncodeAll, EncodeCommand, Load, Run;
    LoadPrefix(env, items, file);
    TornLoses(env, items, file, PING);
  }

  /** "PING" and a cut annotation: the load succeeds, and fails once another "PING" has been appended. */
  lemma CutInNoteExample()
    ensures var env, file := ExampleEnv(), CutInLast(Cmd(PING), Note(1));
            && Load(env, file) == Result(Ok, [PING], |EncodeCommand(PING)|)
            && Load(env, file + EncodeCommand(PING)).status == Failed
            && Load(env, file + EncodeCommand(PING)).ran == [PING]
  {
    var env, items, file := ExampleEnv(), [Cmd(PING), Note(1)], CutInLast(Cmd(PING), Note(1));
    assert MULTI != PING by { assert |MULTI[0]| != |PING[0]|; }
    assert |Encode(Cmd(PING))| > 1 && |Encode(Note(1))| > 1 by { hide Decimal, EncodeArgs; }
    CutInLastIs(Cmd(PING), Note(1));
    assert items[..1] == [Cmd(PING)] && [Cmd(PING)][..0] == [];
    assert EncodeAll([Cmd(PING)]) == [] + EncodeCommand(PING) == EncodeCommand(PING);
    assert Run(env, items[..1]) == Track(Client(false, [], [] + [PING]), 1, 0);
    hide EncodeAll, EncodeCommand, Load, Run;
    LoadPrefix(env, items, file);
    TornLoses(env, items, file, PING);
  }
}
