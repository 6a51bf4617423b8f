/**
  The manifest as a text file (src/aof.c): one line for each append-only file, and the loader that
  stops the server on anything it does not like.  What is written is not always what is read.
 */
module AofManifestText {
  import opened ArgsRepr
  import opened NumberText
  import opened Options
  import opened SplitArgs
  import AclRules
  import AofCodec

  const LINE_MAX: nat := 1024               // MANIFEST_MAX_LINE
  const NUL: char := '\0'

  /** aofInfo. */
  datatype Info = Info(name: string, seqno: int, kind: char)

  /** aofManifest, with the names of the files. */
  datatype Manifest = Manifest(base: Option<Info>, history: seq<Info>, incrs: seq<Info>, baseSeq: int, incrSeq: int)

  datatype Error = EmptyFile | LineTooLong | BadFormat | NotAFilename | DuplicateBase | NonMonotonic | UnknownType

  datatype Result<T> = Ok(value: T) | Bad(error: Error)

  // ---- Writing ----------------------------------------------------------------------------------

  /** pathIsBaseName. */
  predicate BaseName(s: string) { '/' !in s && '\\' !in s }

  /** What getNewBaseFileNameAndMarkPreAsHistory and getNewIncrAofName make of a configured name. */
  ghost predicate Issued(e: Info) {
    && Bytes(e.name) && e.name != "" && NUL !in e.name && BaseName(e.name)
    && 1 <= e.seqno <= AofCodec.LONG_MAX && e.kind in {'b', 'h', 'i'}
  }

  /** aofInfoFormat, without the line feed. */
  function Line(e: Info): string
    requires Issued(e)
  {
    "file" + (" " + (Shown(e.name) + (" " + Numbered(e))))
  }

  function Numbered(e: Info): string
    requires e.seqno >= 0
  {
    JoinWords(["seq", Number(e.seqno), "type", [e.kind]])
  }

  ghost predicate AllIssued(es: seq<Info>) { forall i :: 0 <= i < |es| ==> Issued(es[i]) }

  function Lines(es: seq<Info>): string
    requires AllIssued(es)
    decreases |es|
  {
    if es == [] then "" else Line(es[0]) + ("\n" + Lines(es[1..]))
  }

  /** The order of getAofManifestAsString: the BASE, HISTORY, the INCR files. */
  function Entries(m: Manifest): seq<Info> {
    (if m.base.Some? then [m.base.value] else []) + m.history + m.incrs
  }

  // ---- Reading ----------------------------------------------------------------------------------

  /** How much fgets takes with a buffer for max characters: up to a line feed. */
  function Taken(s: string, max: nat): (n: nat)
    ensures n <= |s| && n <= max && (s != "" && max > 0 ==> n > 0)
    decreases max
  {
    if s == "" || max == 0 then 0 else if s[0] == '\n' then 1 else 1 + Taken(s[1..], max - 1)
  }

  predicate Trimmed(c: char) { c == ' ' || c == '\t' || c == '\r' || c == '\n' }

  /** sdstrim. */
  function Trim(s: string): string
    decreases |s|
  {
    if s == "" then ""
    else if Trimmed(s[0]) then Trim(s[1..])
    else if Trimmed(s[|s| - 1]) then Trim(s[..|s| - 1])
    else s
  }

  /** What the words of a line have set so far. */
  datatype Fields = Fields(name: Option<string>, seqno: int, kind: char)

  /** The loop over keys and values; None if a name is a path. */
  function Assign(args: seq<string>, f: Fields): Option<Fields>
    decreases |args|
  {
    if |args| < 2 then Some(f)
    else
      var key, value := AclRules.Lower(args[0]), args[1];
      if key == "file" then if BaseName(value) then Assign(args[2..], f.(name := Some(value))) else None
      else if key == "seq" then Assign(args[2..], f.(seqno := AofCodec.Strtol(Codes(value))))
      else if key == "type" then Assign(args[2..], f.(kind := if value == "" then NUL else value[0]))
      else Assign(args[2..], f)
  }

  function ParseLine(line: string): Result<Info> {
    match Split(line)
    case Failed => Bad(BadFormat)
    case Arguments(args) =>
      if |args| < 6 || |args| % 2 == 1 then Bad(BadFormat)
      else
        match Assign(args, Fields(None, 0, NUL))
        case None => Bad(NotAFilename)
        case Some(f) =>
          if f.name == None || f.seqno == 0 || f.kind == NUL then Bad(BadFormat)
          else Ok(Info(f.name.value, f.seqno, f.kind))
  }

  function Admit(m: Manifest, e: Info): Result<Manifest> {
    if e.kind == 'b' then
      if m.base.Some? then Bad(DuplicateBase) else Ok(m.(base := Some(e), baseSeq := e.seqno))
    else if e.kind == 'h' then Ok(m.(history := m.history + [e]))
    else if e.kind == 'i' then
      if e.seqno <= m.incrSeq then Bad(NonMonotonic) else Ok(m.(incrs := m.incrs + [e], incrSeq := e.seqno))
    else Bad(UnknownType)
  }

  /** A line read by fgets that is no comment. */
  function AdmitLine(m: Manifest, buf: string): Result<Manifest>
    requires buf != ""
  {
    if buf[|buf| - 1] != '\n' then Bad(LineTooLong)
    else
      var line := Trim(buf);
      if line == "" then Bad(BadFormat)
      else
        match ParseLine(line)
        case Bad(e) => Bad(e)
        case Ok(e) => Admit(m, e)
  }

  /** aofLoadManifestFromFile on the text that is left; `seen` after the first line. */
  function Load(text: string, m: Manifest, seen: bool): Result<Manifest>
    decreases |text|
  {
    if text == "" then if seen then Ok(m) else Bad(EmptyFile)
    else
      var n := Taken(text, LINE_MAX);
      if text[0] == '#' then Load(text[n..], m, true)
      else
        match AdmitLine(m, text[..n])
        case Bad(e) => Bad(e)
        case Ok(m') => Load(text[n..], m', true)
  }

  function Nothing(): Manifest { Manifest(None, [], [], 0, 0) }

  // ---- One line ---------------------------------------------------------------------------------

  lemma EscapedPrint(c: char)
    requires c as int < 256
    ensures forall i :: 0 <= i < |EscapedChar(c)| ==> IsPrint(EscapedChar(c)[i])
  {
  }

  lemma {:induction false} EscapedPrintable(w: string)
    requires Bytes(w)
    ensures forall i :: 0 <= i < |Escaped(w)| ==> IsPrint(Escaped(w)[i])
    decreases |w|
  {
    hide EscapedChar, IsPrint;
    if w != "" {
      EscapedPrintable(w[..|w| - 1]);
      EscapedPrint(w[|w| - 1]);
    }
  }

  lemma ShownPrintable(w: string)
    requires Bytes(w)
    ensures '\n' !in Shown(w)
  {
    EscapedPrintable(w);
    assert !IsPrint('\n');
    hide Escaped;
  }

  lemma NumberedForm(e: Info)
    requires e.seqno >= 0
    ensures Numbered(e) == "seq" + (" " + (Number(e.seqno) + (" " + ("type" + (" " + [e.kind])))))
  {
    var a, b, c, d := "seq", Number(e.seqno), "type", [e.kind];
    JoinMore([a, b, c, d]);
    assert [a, b, c, d][1..] == [b, c, d];
    JoinMore([b, c, d]);
    assert [b, c, d][1..] == [c, d];
    JoinMore([c, d]);
    assert [c, d][1..] == [d];
    JoinLast(d);
    hide JoinWords, Number;
  }

  lemma NumberedShape(e: Info)
    requires Issued(e)
    ensures var t := Numbered(e);
            t != "" && '\n' !in t && '\\' !in t && '"' !in t && '\'' !in t && t[|t| - 1] == e.kind
  {
    NumberedForm(e);
    var b := Number(e.seqno);
    assert '\n' !in b && '\\' !in b && '"' !in b && '\'' !in b;
    hide Number, Numbered, Bytes;
  }

  lemma LineShape(e: Info)
    requires Issued(e)
    ensures Line(e) != "" && '\n' !in Line(e) && Line(e)[0] == 'f'
    ensures !Trimmed(Line(e)[|Line(e)| - 1]) && !Trimmed(Line(e)[0])
  {
    ShownPrintable(e.name);
    NumberedShape(e);
    hide Shown, Numbered, Bytes;
  }

  lemma {:induction false} TakesLine(h: string, t: string, max: nat)
    requires '\n' !in h
    ensures Taken(h + ("\n" + t), max) == if |h| < max then |h| + 1 else max
    decreases |h|
  {
    var s := h + ("\n" + t);
    if h == "" {
      assert s[0] == '\n';
    } else if max > 0 {
      assert s[0] == h[0] && h[0] in h && s[1..] == h[1..] + ("\n" + t);
      TakesLine(h[1..], t, max - 1);
    }
  }

  lemma TrimLine(h: string)
    requires h != "" && !Trimmed(h[0]) && !Trimmed(h[|h| - 1])
    ensures Trim(h + "\n") == h
  {
    assert (h + "\n")[..|h|] == h;
    assert Trim(h) == h;
  }

  /** A line of the file that is no comment, up to its line feed. */
  lemma LoadStep(h: string, rest: string, m: Manifest, seen: bool)
    requires h != "" && '\n' !in h && h[0] != '#'
    ensures var r := AdmitLine(m, h + "\n");
            Load(h + ("\n" + rest), m, seen)
            == if |h| >= LINE_MAX then Bad(LineTooLong) else if r.Bad? then Bad(r.error) else Load(rest, r.value, true)
  {
    hide AdmitLine;
    var text := h + ("\n" + rest);
    TakesLine(h, rest, LINE_MAX);
    hide Taken;
    if |h| < LINE_MAX {
      assert text[..|h| + 1] == h + "\n" && text[|h| + 1..] == rest;
    } else {
      assert text[..LINE_MAX] == h[..LINE_MAX];
      assert h[LINE_MAX - 1] in h;
      CutLine(m, h[..LINE_MAX]);
    }
  }

  lemma CutLine(m: Manifest, buf: string)
    requires buf != "" && buf[|buf| - 1] != '\n'
    ensures AdmitLine(m, buf) == Bad(LineTooLong)
  {
  }

  lemma AdmitWritten(m: Manifest, h: string)
    requires h != "" && !Trimmed(h[0]) && !Trimmed(h[|h| - 1])
    ensures var x := ParseLine(h); AdmitLine(m, h + "\n") == if x.Bad? then Bad(x.error) else Admit(m, x.value)
  {
    TrimLine(h);
    hide Trim, ParseLine, Admit;
  }

  /** Reading a written line: too long, or what its words give. */
  lemma LoadLine(e: Info, rest: string, m: Manifest, seen: bool)
    requires Issued(e)
    ensures var x := ParseLine(Line(e));
            var r := if x.Bad? then Bad(x.error) else Admit(m, x.value);
            Load(Line(e) + ("\n" + rest), m, seen)
            == if |Line(e)| >= LINE_MAX then Bad(LineTooLong)
               else if r.Bad? then Bad(r.error)
               else Load(rest, r.value, true)
  {
    hide Line, ParseLine, Admit, AdmitLine, Load, Issued, Trimmed;
    LineShape(e);
    LoadStep(Line(e), rest, m, seen);
    AdmitWritten(m, Line(e));
  }

  /** The words of a written line. */
  function Words(e: Info): seq<string>
    requires e.seqno >= 0
  {
    ["file", e.name, "seq", Number(e.seqno), "type", [e.kind]]
  }

  lemma PlainWords(e: Info)
    requires Issued(e)
    ensures forall w :: w in ["seq", Number(e.seqno), "type", [e.kind]] ==> Word(w) && Plain(w)
  {
    var n := Number(e.seqno);
    assert forall c :: c in n ==> exists i :: 0 <= i < |n| && n[i] == c;
    hide Number;
    assert Plain(n) && Word(n);
    assert Plain("seq") && Plain("type") && Plain([e.kind]);
  }

  lemma FileWord()
    ensures Word("file") && Plain("file")
  {
  }

  lemma SplitNumbered(s: string, i: nat, e: Info)
    requires Issued(e) && i <= |s| && s[i..] == Numbered(e)
    ensures SplitFrom(s, i) == Arguments(["seq", Number(e.seqno), "type", [e.kind]])
  {
    PlainWords(e);
    hide JoinWords, SplitFrom, Plain, Word, Number;
    SplitPlain(s, i, ["seq", Number(e.seqno), "type", [e.kind]]);
  }

  ghost predicate Framed(s: string, key: string, value: string, rest: string) {
    s == key + (" " + (value + (" " + rest)))
  }

  /** Where the rest of such a line begins. */
  ghost function Past(key: string, name: string): nat
    requires Bytes(name)
  {
    |key| + 1 + |Shown(name)| + 1
  }

  lemma SplitFirstTwo(s: string, key: string, name: string, rest: string)
    requires Word(key) && Plain(key) && Bytes(name) && Readable(name) && Framed(s, key, Shown(name), rest)
    ensures Past(key, name) <= |s| && s[Past(key, name)..] == rest
    ensures Split(s) == Cons(key, Cons(name, SplitFrom(s, Past(key, name))))
  {
    hide SplitFrom, Shown, Readable, Plain, Word, Bytes, Cons;
    assert s[0..] == s;
    SplitMore(s, 0, key, Shown(name) + (" " + rest));
    SplitShown(s, |key| + 1, name, rest);
  }

  lemma ConsWords(e: Info)
    requires e.seqno >= 0
    ensures Cons("file", Cons(e.name, Arguments(["seq", Number(e.seqno), "type", [e.kind]]))) == Arguments(Words(e))
  {
    hide Number;
    assert ["file"] + ([e.name] + ["seq", Number(e.seqno), "type", [e.kind]]) == Words(e);
  }

  lemma LineFramed(e: Info)
    requires Issued(e)
    ensures Framed(Line(e), "file", Shown(e.name), Numbered(e))
  {
  }

  lemma IssuedFacts(e: Info)
    requires Issued(e)
    ensures Bytes(e.name) && e.seqno >= 0
  {
  }

  lemma SplitLine(e: Info)
    requires Issued(e) && Readable(e.name)
    ensures Split(Line(e)) == Arguments(Words(e))
  {
    hide *;
    IssuedFacts(e);
    LineFramed(e);
    FileWord();
    SplitFirstTwo(Line(e), "file", e.name, Numbered(e));
    SplitNumbered(Line(e), Past("file", e.name), e);
    ConsWords(e);
  }

  lemma SeqnoReads(n: nat)
    requires n <= AofCodec.LONG_MAX
    ensures AofCodec.Strtol(Codes(Number(n))) == n
  {
    var d := AofCodec.Decimal(n);
    assert Codes(Chars(d)) == d;
    AofCodec.DecimalValue(n);
    assert d + [] == d;
    AofCodec.StrtolDigits(d, []);
  }

  lemma KeysLower()
    ensures AclRules.Lower("file") == "file" && AclRules.Lower("seq") == "seq" && AclRules.Lower("type") == "type"
  {
  }

  lemma AssignWords(e: Info)
    requires Issued(e)
    ensures Assign(Words(e), Fields(None, 0, NUL)) == Some(Fields(Some(e.name), e.seqno, e.kind))
  {
    SeqnoReads(e.seqno);
    KeysLower();
    hide Number, Codes, AclRules.Lower, Bytes;
    var w := Words(e);
    assert w[2..] == ["seq", Number(e.seqno), "type", [e.kind]];
    assert w[2..][2..] == ["type", [e.kind]];
    assert w[2..][2..][2..] == [];
    var f := Fields(Some(e.name), 0, NUL);
    assert Assign(w, Fields(None, 0, NUL)) == Assign(w[2..], f);
    assert Assign(w[2..], f) == Assign(w[2..][2..], f.(seqno := e.seqno));
  }

  /** A line whose name is readable reads back. */
  lemma LineReads(e: Info)
    requires Issued(e) && Readable(e.name)
    ensures ParseLine(Line(e)) == Ok(e)
  {
    SplitLine(e);
    AssignWords(e);
    hide Split, Assign, Line, Readable;
  }

  // ---- A name with a single quote and nothing that needs double ones -----------------------------

  lemma {:induction false} CollectNoQuote(s: string, i: nat, q: Quote, cur: string)
    requires i <= |s| && q != Double && '\\' !in s && '"' !in s && '\'' !in cur
    ensures var a := Collect(s, i, q, cur); a.Argument? ==> '\'' !in a.text
    decreases |s| - i
  {
    if i < |s| {
      assert s[i] in s;
      if s[i] == '\'' {
        if q == Unquoted { CollectNoQuote(s, i + 1, Single, cur); }
      } else {
        CollectNoQuote(s, i + 1, q, cur + [s[i]]);
      }
    }
  }

  ghost predicate NoQuotes(args: seq<string>) { forall i :: 0 <= i < |args| ==> '\'' !in args[i] }

  lemma {:induction false} SplitNoQuote(s: string, i: nat)
    requires i <= |s| && '\\' !in s && '"' !in s
    ensures SplitFrom(s, i).Arguments? ==> NoQuotes(SplitFrom(s, i).args)
    decreases |s| - i
  {
    var j := SkipBlanks(s, i);
    if j < |s| {
      CollectNoQuote(s, j, Unquoted, "");
      CollectAdvances(s, j);
      var a := Collect(s, j, Unquoted, "");
      hide Collect, SkipBlanks;
      if a.Argument? { SplitNoQuote(s, a.next); }
    }
  }

  lemma {:induction false} AssignNoQuote(args: seq<string>, f: Fields)
    requires NoQuotes(args) && (f.name.Some? ==> '\'' !in f.name.value)
    ensures var r := Assign(args, f); r.Some? && r.value.name.Some? ==> '\'' !in r.value.name.value
    decreases |args|
  {
    hide AclRules.Lower, AofCodec.Strtol, Codes;
    if |args| >= 2 {
      var key, value := AclRules.Lower(args[0]), args[1];
      assert '\'' !in value;
      if key == "file" {
        if BaseName(value) { AssignNoQuote(args[2..], f.(name := Some(value))); }
      } else if key == "seq" {
        AssignNoQuote(args[2..], f.(seqno := AofCodec.Strtol(Codes(value))));
      } else if key == "type" {
        AssignNoQuote(args[2..], f.(kind := if value == "" then NUL else value[0]));
      } else {
        AssignNoQuote(args[2..], f);
      }
    }
  }

  lemma RawLine(e: Info)
    requires Issued(e) && !NeedsRepr(e.name)
    ensures '\\' !in Line(e) && '"' !in Line(e)
  {
    assert forall c :: c in e.name ==> exists i :: 0 <= i < |e.name| && e.name[i] == c;
    assert '\\' !in e.name && '"' !in e.name;
    assert Shown(e.name) == e.name;
    NumberedShape(e);
    hide Shown, Numbered, NeedsRepr, Bytes;
  }

  /** Whatever a line with an unreadable name gives, it is not that name. */
  lemma LineLosesQuote(e: Info)
    requires Issued(e) && !Readable(e.name)
    ensures '\'' in e.name
    ensures ParseLine(Line(e)).Ok? ==> '\'' !in ParseLine(Line(e)).value.name
  {
    RawLine(e);
    var s := Line(e);
    hide Line;
    SplitNoQuote(s, 0);
    if Split(s).Arguments? { AssignNoQuote(Split(s).args, Fields(None, 0, NUL)); }
    hide SplitFrom, Assign;
  }

  // ---- Whole manifests --------------------------------------------------------------------------

  /** A manifest of the server: at most one BASE, HISTORY, and INCR files with ascending numbers. */
  ghost predicate WellFormed(m: Manifest) {
    && AllIssued(Entries(m))
    && (m.base.Some? ==> m.base.value.kind == 'b')
    && (forall i :: 0 <= i < |m.history| ==> m.history[i].kind == 'h')
    && (forall i :: 0 <= i < |m.incrs| ==> m.incrs[i].kind == 'i')
    && (forall i, j :: 0 <= i < j < |m.incrs| ==> m.incrs[i].seqno < m.incrs[j].seqno)
  }

  /** The same files; the counters restart from them. */
  function Restarted(m: Manifest): Manifest {
    m.(baseSeq := if m.base.Some? then m.base.value.seqno else 0,
       incrSeq := if m.incrs == [] then 0 else m.incrs[|m.incrs| - 1].seqno)
  }

  /** The line reads back: its name does, and fgets takes the line whole. */
  ghost predicate Legible(e: Info)
    requires Issued(e)
  {
    Readable(e.name) && |Line(e)| < LINE_MAX
  }

  ghost predicate AllLegible(es: seq<Info>)
    requires AllIssued(es)
  {
    forall i :: 0 <= i < |es| ==> Legible(es[i])
  }

  function AdmitAll(m: Manifest, es: seq<Info>): Result<Manifest>
    decreases |es|
  {
    if es == [] then Ok(m)
    else
      match AdmitAll(m, es[..|es| - 1])
      case Bad(x) => Bad(x)
      case Ok(m') => Admit(m', es[|es| - 1])
  }

  lemma {:induction false} AdmitFirst(m: Manifest, e: Info, es: seq<Info>)
    ensures var r := Admit(m, e); AdmitAll(m, [e] + es) == if r.Bad? then Bad(r.error) else AdmitAll(r.value, es)
    decreases |es|
  {
    hide Admit;
    if es == [] {
      assert ([e] + es)[..0] == [] && AdmitAll(m, []) == Ok(m);
    } else {
      assert ([e] + es)[..|es|] == [e] + es[..|es| - 1];
      AdmitFirst(m, e, es[..|es| - 1]);
    }
  }

  /** Written lines that are all legible are admitted one after the other. */
  lemma {:induction false} LoadLegible(es: seq<Info>, m: Manifest, seen: bool)
    requires AllIssued(es) && AllLegible(es) && (es != [] || seen)
    ensures Load(Lines(es), m, seen) == AdmitAll(m, es)
    decreases |es|
  {
    hide Issued, Line, Readable, ParseLine, Admit;
    if es != [] {
      var e, rest := es[0], es[1..];
      assert Legible(e);
      LineReads(e);
      LoadLine(e, Lines(rest), m, seen);
      assert es == [e] + rest;
      AdmitFirst(m, e, rest);
      hide Load;
      if Admit(m, e).Ok? { LoadLegible(rest, Admit(m, e).value, true); }
    }
  }

  lemma {:induction false} AdmitHistory(m: Manifest, hs: seq<Info>)
    requires forall i :: 0 <= i < |hs| ==> hs[i].kind == 'h'
    ensures AdmitAll(m, hs) == Ok(m.(history := m.history + hs))
    decreases |hs|
  {
    if hs == [] {
      assert m.history + hs == m.history;
    } else {
      AdmitHistory(m, hs[..|hs| - 1]);
      assert m.history + hs == m.history + hs[..|hs| - 1] + [hs[|hs| - 1]];
    }
  }

  lemma {:induction false} AdmitIncrs(m: Manifest, es: seq<Info>)
    requires forall i :: 0 <= i < |es| ==> es[i].kind == 'i' && m.incrSeq < es[i].seqno
    requires forall i, j :: 0 <= i < j < |es| ==> es[i].seqno < es[j].seqno
    ensures AdmitAll(m, es) == Ok(m.(incrs := m.incrs + es,
                                     incrSeq := if es == [] then m.incrSeq else es[|es| - 1].seqno))
    decreases |es|
  {
    if es == [] {
      assert m.incrs + es == m.incrs;
    } else {
      AdmitIncrs(m, es[..|es| - 1]);
      assert m.incrs + es == m.incrs + es[..|es| - 1] + [es[|es| - 1]];
    }
  }

  lemma {:induction false} AdmitConcat(m: Manifest, a: seq<Info>, b: seq<Info>)
    ensures var r := AdmitAll(m, a); AdmitAll(m, a + b) == if r.Bad? then Bad(r.error) else AdmitAll(r.value, b)
    decreases |b|
  {
    hide Admit;
    if b == [] {
      assert a + b == a;
    } else {
      assert (a + b)[..|a + b| - 1] == a + b[..|b| - 1];
      AdmitConcat(m, a, b[..|b| - 1]);
    }
  }

  lemma AdmitBase(m: Manifest)
    requires m.base.Some? ==> m.base.value.kind == 'b'
    ensures var bs := if m.base.Some? then [m.base.value] else [];
            AdmitAll(Nothing(), bs)
            == Ok(Nothing().(base := m.base, baseSeq := if m.base.Some? then m.base.value.seqno else 0))
  {
    if m.base.Some? { assert [m.base.value][..0] == [] && AdmitAll(Nothing(), []) == Ok(Nothing()); }
  }

  lemma IncrsPositive(m: Manifest, i: nat)
    requires WellFormed(m) && i < |m.incrs|
    ensures m.incrs[i].seqno > 0
  {
    var k := (if m.base.Some? then 1 else 0) + |m.history| + i;
    assert Entries(m)[k] == m.incrs[i] && Issued(Entries(m)[k]);
  }

  lemma {:induction false} AdmitParts(m: Manifest, a: seq<Info>, b: seq<Info>, c: seq<Info>, x: Manifest, y: Manifest)
    requires AdmitAll(m, a) == Ok(x) && AdmitAll(x, b) == Ok(y)
    ensures AdmitAll(m, a + b + c) == AdmitAll(y, c)
  {
    hide AdmitAll;
    AdmitConcat(m, a, b);
    AdmitConcat(m, a + b, c);
  }

  lemma FirstHistory(start: Manifest, hs: seq<Info>)
    requires start.history == [] && forall i :: 0 <= i < |hs| ==> hs[i].kind == 'h'
    ensures AdmitAll(start, hs) == Ok(start.(history := hs))
  {
    hide AdmitAll;
    AdmitHistory(start, hs);
    assert start.history + hs == hs;
  }

  lemma FirstIncrs(start: Manifest, es: seq<Info>)
    requires start.incrs == [] && start.incrSeq == 0
    requires forall i :: 0 <= i < |es| ==> es[i].kind == 'i' && 0 < es[i].seqno
    requires forall i, j :: 0 <= i < j < |es| ==> es[i].seqno < es[j].seqno
    ensures AdmitAll(start, es) == Ok(start.(incrs := es, incrSeq := if es == [] then 0 else es[|es| - 1].seqno))
  {
    hide AdmitAll;
    AdmitIncrs(start, es);
    assert start.incrs + es == es;
  }

  lemma AdmitEntries(m: Manifest)
    requires WellFormed(m)
    ensures AdmitAll(Nothing(), Entries(m)) == Ok(Restarted(m))
  {
    var bs := if m.base.Some? then [m.base.value] else [];
    var start := Nothing().(base := m.base, baseSeq := if m.base.Some? then m.base.value.seqno else 0);
    forall i | 0 <= i < |m.incrs| ensures m.incrs[i].seqno > 0 { IncrsPositive(m, i); }
    hide AdmitAll, AllIssued;
    AdmitBase(m);
    FirstHistory(start, m.history);
    FirstIncrs(start.(history := m.history), m.incrs);
    AdmitParts(Nothing(), bs, m.history, m.incrs, start, start.(history := m.history));
  }

  // ---- What is lost ---------------------------------------------------------------------------------

  ghost function Quoted(e: Info): nat { if '\'' in e.name then 1 else 0 }

  ghost function QuotedIn(es: seq<Info>): nat
    decreases |es|
  {
    if es == [] then 0 else QuotedIn(es[..|es| - 1]) + Quoted(es[|es| - 1])
  }

  /** How many files of the manifest have a single quote in their name. */
  ghost function QuotedNames(m: Manifest): nat {
    (if m.base.Some? then Quoted(m.base.value) else 0) + QuotedIn(m.history) + QuotedIn(m.incrs)
  }

  lemma {:induction false} QuotedConcat(a: seq<Info>, b: seq<Info>)
    ensures QuotedIn(a + b) == QuotedIn(a) + QuotedIn(b)
    decreases |b|
  {
    hide Quoted;
    if b == [] {
      assert a + b == a;
    } else {
      assert (a + b)[..|a + b| - 1] == a + b[..|b| - 1];
      QuotedConcat(a, b[..|b| - 1]);
    }
  }

  lemma QuotedOne(e: Info)
    ensures QuotedIn([e]) == Quoted(e)
  {
    assert [e][..0] == [] && QuotedIn([]) == 0;
  }

  lemma AdmitCounts(m: Manifest, e: Info)
    ensures Admit(m, e).Ok? ==> QuotedNames(Admit(m, e).value) == QuotedNames(m) + Quoted(e)
  {
    hide Quoted;
    QuotedOne(e);
    QuotedConcat(m.history, [e]);
    QuotedConcat(m.incrs, [e]);
    hide QuotedIn;
  }

  /** A manifest that loads has lost a quoted name for each unreadable one. */
  lemma {:induction false} LoadCounts(es: seq<Info>, m: Manifest, seen: bool)
    requires AllIssued(es) && Load(Lines(es), m, seen).Ok?
    ensures forall i :: 0 <= i < |es| ==> |Line(es[i])| < LINE_MAX
    ensures QuotedNames(Load(Lines(es), m, seen).value) <= QuotedNames(m) + QuotedIn(es)
    ensures (exists i :: 0 <= i < |es| && !Readable(es[i].name)) ==>
              QuotedNames(Load(Lines(es), m, seen).value) < QuotedNames(m) + QuotedIn(es)
    decreases |es|
  {
    hide Issued, Line, Readable, ParseLine, Admit, QuotedNames, Quoted, Load;
    if es == [] {
      LoadNothing(m, seen);
    } else {
      var e, rest := es[0], es[1..];
      assert Issued(e) && es == [e] + rest;
      LoadLine(e, Lines(rest), m, seen);
      var x := ParseLine(Line(e)).value;
      LineCounts(e);
      AdmitCounts(m, x);
      LoadCounts(rest, Admit(m, x).value, true);
      QuotedConcat([e], rest);
      QuotedOne(e);
    }
  }

  lemma LoadNothing(m: Manifest, seen: bool)
    ensures Load("", m, seen) == if seen then Ok(m) else Bad(EmptyFile)
  {
  }

  lemma LineCounts(e: Info)
    requires Issued(e) && ParseLine(Line(e)).Ok?
    ensures var x := ParseLine(Line(e)).value; Quoted(x) <= Quoted(e) && (!Readable(e.name) ==> Quoted(x) < Quoted(e))
  {
    hide ParseLine, Line, Issued, Readable;
    if Readable(e.name) { LineReads(e); } else { LineLosesQuote(e); }
  }

  lemma RestartedCounts(m: Manifest)
    ensures QuotedNames(Restarted(m)) == QuotedIn(Entries(m))
  {
    var bs := if m.base.Some? then [m.base.value] else [];
    if m.base.Some? { QuotedOne(m.base.value); }
    QuotedConcat(bs, m.history);
    QuotedConcat(bs + m.history, m.incrs);
    hide Quoted;
  }

  /**
    A manifest written and read again is the same if and only if it lists a file, no name holds a single quote
    without something that makes sdsneedsrepr put it in double quotes, and no line is longer than fgets takes.
   */
  lemma ManifestReadsBack(m: Manifest)
    requires WellFormed(m)
    ensures Load(Lines(Entries(m)), Nothing(), false) == Ok(Restarted(m)) <==>
            Entries(m) != [] && AllLegible(Entries(m))
  {
    var es := Entries(m);
    var r := Load(Lines(es), Nothing(), false);
    AdmitEntries(m);
    RestartedCounts(m);
    assert QuotedNames(Nothing()) == 0;
    hide Issued, Line, Readable, Load, QuotedNames, QuotedIn, AdmitAll, Entries, Nothing, Restarted;
    if es == [] {
      LoadNothing(Nothing(), false);
    } else if AllLegible(es) {
      LoadLegible(es, Nothing(), false);
    } else if r.Ok? {
      LoadCounts(es, Nothing(), false);
      var i :| 0 <= i < |es| && !Legible(es[i]);
      assert !Readable(es[i].name);
    }
  }

  // ---- One quote stops the server -----------------------------------------------------------------

  lemma {:induction false} CollectUnclosed(s: string, i: nat, cur: string)
    requires i <= |s| && '\'' !in s[i..]
    ensures Collect(s, i, Single, cur) == Unbalanced
    decreases |s| - i
  {
    if i < |s| {
      assert s[i] == s[i..][0] && s[i] in s[i..];
      assert s[i + 1..] == s[i..][1..];
      assert i + 1 < |s| ==> s[i + 1] in s[i..];
      CollectUnclosed(s, i + 1, cur + [s[i]]);
    }
  }

  lemma {:induction false} CollectOneQuote(s: string, i: nat, a: string, rest: string, cur: string)
    requires i <= |s| && Plain(a) && s[i..] == a + ("'" + rest) && '\'' !in rest
    ensures Collect(s, i, Unquoted, cur) == Unbalanced
    decreases |a|
  {
    assert s[i] == s[i..][0];
    assert s[i + 1..] == s[i..][1..];
    if a == "" {
      assert s[i + 1..] == rest;
      CollectUnclosed(s, i + 1, cur);
    } else {
      assert s[i] == a[0] && a[0] in a;
      CollectOneQuote(s, i + 1, a[1..], rest, cur + [a[0]]);
    }
  }

  lemma SplitOneQuote(s: string, i: nat, a: string, rest: string)
    requires i <= |s| && Plain(a) && (a == "" || Word(a)) && s[i..] == a + ("'" + rest) && '\'' !in rest
    ensures SplitFrom(s, i) == Failed
  {
    CollectOneQuote(s, i, a, rest, "");
    assert s[i] == s[i..][0];
    assert SkipBlanks(s, i) == i;
    hide Collect;
  }

  lemma OneQuoteShape(e: Info, a: string, b: string)
    requires Issued(e) && !NeedsRepr(e.name) && e.name == a + ("'" + b) && '\'' !in a && '\'' !in b
    ensures Plain(a) && (a == "" || Word(a)) && '\'' !in Numbered(e)
    ensures Line(e) == "file" + (" " + (a + ("'" + (b + (" " + Numbered(e))))))
  {
    assert !NeedsRepr(a) by {
      forall i | 0 <= i < |a| ensures !(a[i] == '\\' || a[i] == '"' || !IsPrint(a[i]) || IsSpace(a[i])) {
        assert a[i] == e.name[i];
      }
    }
    UnquotedPlain(a);
    NumberedShape(e);
    assert Shown(e.name) == e.name;
    hide Number, Numbered, NeedsRepr, Bytes, Shown, Plain, Word;
    assert (a + ("'" + b)) + (" " + Numbered(e)) == a + ("'" + (b + (" " + Numbered(e))));
  }

  /** A name with one single quote and nothing else unusual: the line is refused, and the server stops. */
  lemma OneQuoteStops(e: Info, a: string, b: string)
    requires Issued(e) && !NeedsRepr(e.name) && e.name == a + ("'" + b) && '\'' !in a && '\'' !in b
    ensures ParseLine(Line(e)) == Bad(BadFormat)
  {
    OneQuoteShape(e, a, b);
    var s, tail := Line(e), b + (" " + Numbered(e));
    assert '\'' !in tail;
    FileWord();
    hide Line, Numbered, SplitFrom, Plain, Word, NeedsRepr;
    assert s[0..] == s;
    SplitMore(s, 0, "file", a + ("'" + tail));
    SplitOneQuote(s, 5, a, tail);
  }

  /** With appendfilename "it's", the INCR file of a server that has just started. */
  function QuotedFile(): Info { Info("it" + ("'" + "s.1.incr.aof"), 1, 'i') }

  lemma QuotedFileIssued()
    ensures Issued(QuotedFile())
  {
    var a, b := "it", "s.1.incr.aof";
    assert Bytes(a) && Bytes(b) && BaseName(a) && BaseName(b) && NUL !in a && NUL !in b;
  }

  lemma QuotedFileRaw()
    ensures !NeedsRepr(QuotedFile().name)
  {
    var a, b := "it", "s.1.incr.aof";
    assert !NeedsRepr(a) && !NeedsRepr(b);
    var n := a + ("'" + b);
    forall i | 0 <= i < |n| ensures !(n[i] == '\\' || n[i] == '"' || !IsPrint(n[i]) || IsSpace(n[i])) {
      assert n[i] == if i < 2 then a[i] else if i == 2 then '\'' else b[i - 3];
    }
  }

  lemma QuoteExample()
    ensures WellFormed(Nothing().(incrs := [QuotedFile()]))
    ensures AllIssued([QuotedFile()]) && Load(Lines([QuotedFile()]), Nothing(), false).Bad?
  {
    QuotedFileIssued();
    QuotedFileRaw();
    var e := QuotedFile();
    assert e.name == "it" + ("'" + "s.1.incr.aof") && e.kind == 'i';
    assert '\'' !in "it" && '\'' !in "s.1.incr.aof";
    hide QuotedFile, Issued, NeedsRepr;
    assert Entries(Nothing().(incrs := [e])) == [e];
    OneQuoteStops(e, "it", "s.1.incr.aof");
    assert [e][1..] == [] && Lines([]) == "";
    LoadLine(e, "", Nothing(), false);
    hide Load, ParseLine, Line;
  }

  // ---- Whatever loads is in order ------------------------------------------------------------------

  /** The files of each kind, the INCR files ascending, the counters at their ends, and no name a path. */
  ghost predicate Ordered(m: Manifest) {
    && (m.base.Some? ==> m.base.value.kind == 'b')
    && (forall i :: 0 <= i < |m.history| ==> m.history[i].kind == 'h')
    && (forall i :: 0 <= i < |m.incrs| ==> m.incrs[i].kind == 'i' && 0 < m.incrs[i].seqno)
    && (forall i, j :: 0 <= i < j < |m.incrs| ==> m.incrs[i].seqno < m.incrs[j].seqno)
    && (forall i :: 0 <= i < |Entries(m)| ==> BaseName(Entries(m)[i].name) && Entries(m)[i].seqno != 0)
    && Restarted(m) == m
  }

  lemma {:induction false} AssignBaseName(args: seq<string>, f: Fields)
    requires f.name.Some? ==> BaseName(f.name.value)
    ensures var r := Assign(args, f); r.Some? && r.value.name.Some? ==> BaseName(r.value.name.value)
    decreases |args|
  {
    hide AclRules.Lower, AofCodec.Strtol, Codes, BaseName;
    if |args| >= 2 {
      var key, value := AclRules.Lower(args[0]), args[1];
      if key == "file" {
        if BaseName(value) { AssignBaseName(args[2..], f.(name := Some(value))); }
      } else if key == "seq" {
        AssignBaseName(args[2..], f.(seqno := AofCodec.Strtol(Codes(value))));
      } else if key == "type" {
        AssignBaseName(args[2..], f.(kind := if value == "" then NUL else value[0]));
      } else {
        AssignBaseName(args[2..], f);
      }
    }
  }

  /** What an accepted line holds: three or more pairs of words, a name that is no path, and a number. */
  lemma ParsedName(line: string)
    ensures ParseLine(line).Ok? ==> BaseName(ParseLine(line).value.name) && ParseLine(line).value.seqno != 0
    ensures ParseLine(line).Ok? ==> '/' !in ParseLine(line).value.name && '\\' !in ParseLine(line).value.name
    ensures ParseLine(line).Ok? ==> Split(line).Arguments? && |Split(line).args| >= 6 && |Split(line).args| % 2 == 0
  {
    hide Split, Assign;
    if Split(line).Arguments? { AssignBaseName(Split(line).args, Fields(None, 0, NUL)); }
  }

  lemma AdmitOrdered(m: Manifest, e: Info)
    requires Ordered(m) && BaseName(e.name) && e.seqno != 0
    ensures Admit(m, e).Ok? ==> Ordered(Admit(m, e).value)
  {
    hide BaseName;
    if Admit(m, e).Ok? {
      var r := Admit(m, e).value;
      forall i | 0 <= i < |Entries(r)| ensures BaseName(Entries(r)[i].name) && Entries(r)[i].seqno != 0 {
        assert Entries(r)[i] == e || Entries(r)[i] in Entries(m);
      }
    }
  }

  /** Whatever text the loader accepts, the manifest it gives is in order. */
  lemma {:induction false} LoadOrdered(text: string, m: Manifest, seen: bool)
    requires Ordered(m)
    ensures Load(text, m, seen).Ok? ==> Ordered(Load(text, m, seen).value)
    decreases |text|
  {
    hide Ordered, ParseLine, Trim, Taken, Admit;
    if text != "" {
      var n := Taken(text, LINE_MAX);
      if text[0] == '#' {
        LoadOrdered(text[n..], m, true);
      } else if AdmitLine(m, text[..n]).Ok? {
        var line := Trim(text[..n]);
        ParsedName(line);
        AdmitOrdered(m, ParseLine(line).value);
        LoadOrdered(text[n..], AdmitLine(m, text[..n]).value, true);
      }
    }
  }

  // ---- The functions of the program -----------------------------------------------------------------

  lemma {:induction false} LinesMore(es: seq<Info>, e: Info)
    requires AllIssued(es) && Issued(e)
    ensures AllIssued(es + [e]) && Lines(es + [e]) == Lines(es) + (Line(e) + "\n")
    decreases |es|
  {
    hide Line, Issued;
    if es == [] {
      assert (es + [e])[1..] == [] && es + [e] == [e];
      assert "" + (Line(e) + "\n") == Line(e) + ("\n" + "");
    } else {
      assert (es + [e])[1..] == es[1..] + [e];
      LinesMore(es[1..], e);
      var a, b, c := Line(es[0]), Lines(es[1..]), Line(e) + "\n";
      assert a + ("\n" + (b + c)) == (a + ("\n" + b)) + c;
    }
  }

  /** The lines of a list, added to the text. */
  method FormatList(buf: string, before: seq<Info>, es: seq<Info>) returns (text: string)
    requires AllIssued(before + es) && AllIssued(before) && buf == Lines(before)
    ensures text == Lines(before + es)
  {
    hide Issued, Line, Lines;
    text := buf;
    assert before + es[..0] == before;
    var i := 0;
    while i < |es|
      invariant 0 <= i <= |es|
      invariant AllIssued(before + es[..i]) && text == Lines(before + es[..i])
    {
      var e := es[i];
      assert (before + es)[|before| + i] == e;
      LinesMore(before + es[..i], e);
      assert before + es[..i] + [e] == before + es[..i + 1];
      text := text + (Line(e) + "\n");
      i := i + 1;
    }
    assert before + es[..i] == before + es;
  }

  /** getAofManifestAsString. */
  method GetAofManifestAsString(m: Manifest) returns (buf: string)
    requires AllIssued(Entries(m))
    ensures buf == Lines(Entries(m))
  {
    hide Issued, Line;
    var base := if m.base.Some? then [m.base.value] else [];
    assert forall i :: 0 <= i < |base| ==> base[i] == Entries(m)[i];
    assert forall i :: 0 <= i < |base + m.history| ==> (base + m.history)[i] == Entries(m)[i];
    buf := FormatList("", [], base);
    assert [] + base == base;
    buf := FormatList(buf, base, m.history);
    buf := FormatList(buf, base + m.history, m.incrs);
  }

  /** The loop over the words of a line. */
  method AssignFields(args: seq<string>) returns (f: Option<Fields>)
    ensures f == Assign(args, Fields(None, 0, NUL))
  {
    hide AclRules.Lower, AofCodec.Strtol, Codes, BaseName;
    var g := Fields(None, 0, NUL);
    var i := 0;
    assert args[0..] == args;
    while i + 1 < |args|
      invariant 0 <= i <= |args| && Assign(args[i..], g) == Assign(args, Fields(None, 0, NUL))
    {
      var key, value := AclRules.Lower(args[i]), args[i + 1];
      assert args[i..][0] == args[i] && args[i..][1] == value && args[i..][2..] == args[i + 2..];
      if key == "file" {
        if !BaseName(value) { return None; }
        g := g.(name := Some(value));
      } else if key == "seq" {
        g := g.(seqno := AofCodec.Strtol(Codes(value)));
      } else if key == "type" {
        g := g.(kind := if value == "" then NUL else value[0]);
      }
      i := i + 2;
    }
    return Some(g);
  }

  /** One line that is no comment. */
  method ReadLine(line: string) returns (r: Result<Info>)
    ensures r == ParseLine(line)
  {
    hide Split, Assign;
    var argv := Split(line);
    if argv.Failed? || |argv.args| < 6 || |argv.args| % 2 == 1 { return Bad(BadFormat); }
    var f := AssignFields(argv.args);
    if f == None { return Bad(NotAFilename); }
    var Fields(name, seqno, kind) := f.value;
    if name == None || seqno == 0 || kind == NUL { return Bad(BadFormat); }
    return Ok(Info(name.value, seqno, kind));
  }

  /** aofLoadManifestFromFile, on the text of the file. */
  method LoadManifestFromFile(text: string) returns (r: Result<Manifest>)
    ensures r == Load(text, Nothing(), false)
    ensures r.Ok? ==> Ordered(r.value)
  {
    hide ParseLine, Trim, Taken, Ordered;
    OrderedNothing();
    LoadOrdered(text, Nothing(), false);
    var rest, m, seen := text, Nothing(), false;
    while rest != ""
      invariant Load(rest, m, seen) == Load(text, Nothing(), false)
      decreases |rest|
    {
      var n := Taken(rest, LINE_MAX);                                            // fgets
      var buf := rest[..n];
      if buf[0] != '#' {
        if buf[|buf| - 1] != '\n' { return Bad(LineTooLong); }
        var line := Trim(buf);
        if line == "" { return Bad(BadFormat); }
        var info := ReadLine(line);
        if info.Bad? { return Bad(info.error); }
        var e := info.value;
        if e.kind == 'b' {
          if m.base.Some? { return Bad(DuplicateBase); }
          m := m.(base := Some(e), baseSeq := e.seqno);
        } else if e.kind == 'h' {
          m := m.(history := m.history + [e]);
        } else if e.kind == 'i' {
          if e.seqno <= m.incrSeq { return Bad(NonMonotonic); }
          m := m.(incrs := m.incrs + [e], incrSeq := e.seqno);
        } else {
          return Bad(UnknownType);
        }
      }
      rest, seen := rest[n..], true;
    }
    if !seen { return Bad(EmptyFile); }
    return Ok(m);
  }

  lemma OrderedNothing()
    ensures Ordered(Nothing())
  {
  }
}
