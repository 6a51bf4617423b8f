/**
  The records of an append-only file (src/aof.c): how a command is written as an array of
  bulk strings, and how the loader reads one record from the bytes that are left.
 */
module AofCodec {

  type Byte = b: int | 0 <= b < 256
  type Bytes = seq<Byte>

  const CR: Byte := 13
  const LF: Byte := 10
  const HASH: Byte := 35
  const DOLLAR: Byte := 36
  const STAR: Byte := 42
  const CRLF: Bytes := [CR, LF]
  const TS: Bytes := [HASH, 84, 83, 58]     // "#TS:"

  const LINE_MAX: nat := 1024               // AOF_ANNOTATION_LINE_MAX_LEN
  const INT_MAX: int := 0x7fff_ffff
  const LONG_MAX: int := 0x7fff_ffff_ffff_ffff

  // ---- Decimal numbers --------------------------------------------------------------------------

  predicate IsDigit(b: Byte) { 48 <= b < 58 }

  function Decimal(n: nat): (s: Bytes)
    ensures |s| > 0 && forall i :: 0 <= i < |s| ==> IsDigit(s[i])
    ensures n > 0 ==> s[0] != 48
  {
    if n < 10 then [48 + n] else Decimal(n / 10) + [48 + n % 10]
  }

  ghost predicate Digits(s: Bytes) { forall i :: 0 <= i < |s| ==> IsDigit(s[i]) }

  function Value(s: Bytes): (n: nat)
    requires Digits(s)
    decreases |s|
  {
    if s == [] then 0 else Value(s[..|s| - 1]) * 10 + (s[|s| - 1] - 48)
  }

  lemma {:induction false} DecimalValue(n: nat)
    ensures Value(Decimal(n)) == n
  {
    if n >= 10 {
      DecimalValue(n / 10);
      assert Decimal(n)[..|Decimal(n)| - 1] == Decimal(n / 10);
    } else {
      assert Value([]) == 0 && Decimal(n)[..0] == [];
    }
  }

  /** The leading digits of a number make a smaller number, and not zero. */
  lemma {:induction false} ValuePrefix(s: Bytes, m: nat)
    requires Digits(s) && m <= |s|
    ensures Value(s[..m]) <= Value(s)
    ensures 0 < m && s[0] != 48 ==> Value(s[..m]) >= 1
    decreases |s|
  {
    if m < |s| {
      var most := s[..|s| - 1];
      ValuePrefix(most, m);
      assert most[..m] == s[..m];
    } else {
      assert s[..m] == s;
      if |s| == 1 {
        assert s[..0] == [];
      } else if |s| > 1 {
        ValuePrefix(s[..|s| - 1], |s| - 1);
        assert s[..|s| - 1][..|s| - 1] == s[..|s| - 1];
      }
    }
  }

  lemma Pow10Six(k: nat)
    ensures Pow10(k + 6) == 1_000_000 * Pow10(k)
  {
    assert Pow10(k + 2) == 100 * Pow10(k);
    assert Pow10(k + 4) == 100 * Pow10(k + 2);
    assert Pow10(k + 6) == 100 * Pow10(k + 4);
  }

  lemma Pow10Values()
    ensures Pow10(19) == 10_000_000_000_000_000_000
  {
    Pow10Six(0);
    Pow10Six(6);
    Pow10Six(12);
    assert Pow10(19) == 10 * Pow10(18);
  }

  /** A number below 10^k has at most k digits. */
  lemma {:induction false} DecimalLength(n: nat)
    requires n <= LONG_MAX
    ensures |Decimal(n)| <= 19
  {
    Pow10Values();
    DecimalShort(n, 19);
  }

  function Pow10(k: nat): nat { if k == 0 then 1 else 10 * Pow10(k - 1) }

  lemma {:induction false} DecimalShort(n: nat, k: nat)
    requires 1 <= k && n < Pow10(k)
    ensures |Decimal(n)| <= k
    decreases k
  {
    if k == 1 { assert Pow10(1) == 10 * Pow10(0); }
    if n >= 10 { DecimalShort(n / 10, k - 1); }
  }

  // ---- Numbers as the loader reads them -------------------------------------------------------------

  predicate IsBlank(b: Byte) { b == 32 || 9 <= b <= 13 }

  function SkipBlanks(s: Bytes): (i: nat)
    ensures i <= |s|
  {
    if s != [] && IsBlank(s[0]) then 1 + SkipBlanks(s[1..]) else 0
  }

  function DigitRun(s: Bytes): (n: nat)
    ensures n <= |s| && Digits(s[..n])
  {
    if s == [] || !IsDigit(s[0]) then 0
    else
      var n := DigitRun(s[1..]);
      assert s[..n + 1] == [s[0]] + s[1..][..n];
      n + 1
  }

  /** strtol in base 10: blanks, a sign, digits; saturating at 64 bits. */
  function Strtol(s: Bytes): int
  {
    var t := s[SkipBlanks(s)..];
    var negative := t != [] && t[0] == 45;
    var u := if t != [] && (t[0] == 45 || t[0] == 43) then t[1..] else t;
    var n: int := Value(u[..DigitRun(u)]);
    if negative then (if n > LONG_MAX + 1 then 0 - LONG_MAX - 1 else 0 - n) else if n > LONG_MAX then LONG_MAX else n
  }

  /** atoi: the low 32 bits of strtol, as a signed number. */
  function Atoi(s: Bytes): int {
    var n := Strtol(s) % 0x1_0000_0000;
    if n > INT_MAX then n - 0x1_0000_0000 else n
  }

  lemma AtoiSmall(s: Bytes)
    requires 0 <= Strtol(s) <= INT_MAX
    ensures Atoi(s) == Strtol(s)
  {
  }

  lemma {:induction false} DigitRunIs(d: Bytes, t: Bytes)
    requires Digits(d) && (t == [] || !IsDigit(t[0]))
    ensures DigitRun(d + t) == |d| && (d + t)[..|d|] == d
    decreases |d|
  {
    if d == [] {
      assert d + t == t;
    } else {
      DigitRunIs(d[1..], t);
      assert (d + t)[1..] == d[1..] + t;
    }
  }

  /** Digits, then the end or something else: the number they spell. */
  lemma StrtolDigits(d: Bytes, t: Bytes)
    requires d != [] && Digits(d) && Value(d) <= LONG_MAX && (t == [] || !IsDigit(t[0]))
    ensures Strtol(d + t) == Value(d)
  {
    DigitRunIs(d, t);
    assert (d + t)[0] == d[0];
    assert (d + t)[0..] == d + t;
  }

  // ---- Lines ------------------------------------------------------------------------------------------

  /** The length of the line fgets reads from the bytes left: up to a line feed, the end, or 1023 bytes. */
  function LineLength(s: Bytes, max: nat): (n: nat)
    ensures n <= |s| && n <= max && (s != [] && max > 0 ==> n > 0)
    decreases max
  {
    if s == [] || max == 0 then 0 else if s[0] == LF then 1 else 1 + LineLength(s[1..], max - 1)
  }

  function Fgets(s: Bytes): (n: nat)
    ensures n <= |s| && (s != [] ==> n > 0)
  {
    LineLength(s, LINE_MAX - 1)
  }

  /** fgets ran into the end of the file. */
  predicate HitsEnd(s: Bytes) {
    var n := Fgets(s);
    n == |s| && n < LINE_MAX - 1 && (s == [] || s[n - 1] != LF)
  }

  ghost predicate NoFeed(s: Bytes) { LF !in s }

  lemma {:induction false} LineWhole(h: Bytes, t: Bytes, max: nat)
    requires NoFeed(h) && |h| < max
    ensures LineLength(h + [LF] + t, max) == |h| + 1
    decreases |h|
  {
    if h != [] {
      LineWhole(h[1..], t, max - 1);
      assert (h + [LF] + t)[1..] == h[1..] + [LF] + t;
    }
  }

  lemma {:induction false} LinePart(h: Bytes, max: nat)
    requires NoFeed(h) && |h| <= max
    ensures LineLength(h, max) == |h|
    decreases |h|
  {
    if h != [] { LinePart(h[1..], max - 1); }
  }

  // ---- Records ----------------------------------------------------------------------------------------

  /** A timestamp annotation or a command. */
  datatype Item = Note(time: nat) | Cmd(argv: seq<Bytes>)

  function Header(mark: Byte, n: nat): (h: Bytes)
    ensures |h| >= 4
  {
    [mark] + Decimal(n) + CRLF
  }

  function EncodeArg(a: Bytes): Bytes { Header(DOLLAR, |a|) + (a + CRLF) }

  function EncodeArgs(args: seq<Bytes>): Bytes {
    if args == [] then [] else EncodeArg(args[0]) + EncodeArgs(args[1..])
  }

  function EncodeCommand(argv: seq<Bytes>): Bytes { Header(STAR, |argv|) + EncodeArgs(argv) }

  function EncodeNote(time: nat): Bytes { TS + Decimal(time) + CRLF }

  function Encode(x: Item): (e: Bytes)
    ensures |e| > 0
  {
    match x
    case Note(time) => EncodeNote(time)
    case Cmd(argv) => EncodeCommand(argv)
  }

  /** Within the program's own integer ranges: an int count, object lengths, a clock. */
  ghost predicate Encodable(x: Item) {
    match x
    case Note(time) => time <= LONG_MAX
    case Cmd(argv) => 1 <= |argv| <= INT_MAX && ArgsEncodable(argv)
  }

  ghost predicate ArgsEncodable(args: seq<Bytes>) { forall a :: a in args ==> |a| <= LONG_MAX }

  datatype Parsed<T> = Done(value: T, used: nat) | ReadErr(eof: bool) | FmtErr

  /** One argument: its length line, its bytes, and two bytes discarded. */
  function ParseArg(s: Bytes): (r: Parsed<Bytes>)
    ensures r.Done? ==> 0 < r.used <= |s|
  {
    if s == [] then ReadErr(true)
    else
      var n := Fgets(s);
      if s[0] != DOLLAR then FmtErr
      else
        var len := Strtol(s[1..n]);
        if len < 0 || n + len + 2 > |s| then ReadErr(true) else Done(s[n..n + len], n + len + 2)
  }

  function ParseArgs(s: Bytes, count: nat): (r: Parsed<seq<Bytes>>)
    ensures r.Done? ==> r.used <= |s|
    decreases count
  {
    if count == 0 then Done([], 0)
    else
      match ParseArg(s)
      case ReadErr(eof) => ReadErr(eof)
      case FmtErr => FmtErr
      case Done(a, used) =>
        match ParseArgs(s[used..], count - 1)
        case ReadErr(eof) => ReadErr(eof)
        case FmtErr => FmtErr
        case Done(rest, more) => Done([a] + rest, used + more)
  }

  datatype Record = Skipped | Command(argv: seq<Bytes>)

  /** One turn of the loader's loop over the bytes left, which are not at an end. */
  function ParseRecord(s: Bytes): (r: Parsed<Record>)
    requires s != []
    ensures r.Done? ==> 0 < r.used <= |s|
  {
    var n := Fgets(s);
    if s[0] == HASH then Done(Skipped, n)
    else if s[0] != STAR then FmtErr
    else if n == 1 || s[1] == 0 then ReadErr(HitsEnd(s))
    else
      var argc := Atoi(s[1..n]);
      if argc < 1 then FmtErr
      else
        match ParseArgs(s[n..], argc)
        case ReadErr(eof) => ReadErr(eof)
        case FmtErr => FmtErr
        case Done(argv, used) => Done(Command(argv), n + used)
  }

  // ---- Reading header lines -----------------------------------------------------------------------------

  lemma HeaderShape(mark: Byte, n: nat)
    requires mark != LF && n <= LONG_MAX
    ensures var h := Header(mark, n);
            h == [mark] + Decimal(n) + [CR] + [LF] && NoFeed([mark] + Decimal(n) + [CR]) && 4 <= |h| <= 22
  {
    DecimalLength(n);
  }

  /** A whole header line: read to its end, with the number it was written with. */
  lemma HeaderWhole(mark: Byte, n: nat, t: Bytes)
    requires mark != LF && n <= LONG_MAX
    ensures var s, h := Header(mark, n) + t, Header(mark, n);
            Fgets(s) == |h| && s[0] == mark && Strtol(s[1..|h|]) == n && s[|h|..] == t && IsDigit(s[1])
  {
    var s, h := Header(mark, n) + t, Header(mark, n);
    HeaderShape(mark, n);
    assert s == ([mark] + Decimal(n) + [CR]) + [LF] + t;
    LineWhole([mark] + Decimal(n) + [CR], t, LINE_MAX - 1);
    assert s[1..|h|] == Decimal(n) + CRLF;
    DecimalValue(n);
    StrtolDigits(Decimal(n), CRLF);
    assert s[1] == Decimal(n)[0];
  }

  /** A header line cut short: it is read to the end of the file, with a number no greater. */
  lemma HeaderPart(mark: Byte, n: nat, m: nat)
    requires mark != LF && n <= LONG_MAX && 0 < m < |Header(mark, n)|
    ensures var s := Header(mark, n)[..m];
            && Fgets(s) == m && HitsEnd(s) && s[0] == mark
            && (m > 1 ==> 0 <= Strtol(s[1..m]) <= n && (n > 0 ==> Strtol(s[1..m]) > 0) && IsDigit(s[1]))
  {
    hide Strtol;
    var h := Header(mark, n);
    var s, d := h[..m], Decimal(n);
    HeaderShape(mark, n);
    var line := [mark] + d + [CR];
    PrefixOfPrefix(line, h, m);
    LinePart(s, LINE_MAX - 1);
    assert s[m - 1] == line[m - 1] && line[m - 1] in line;
    if m > 1 {
      hide Fgets, HitsEnd, Header;
      assert s[1..m] == (d + [CR])[..m - 1];
      assert s[1] == d[0];
      NumberPart(n, m - 1);
    }
  }

  lemma PrefixOfPrefix(line: Bytes, h: Bytes, m: nat)
    requires h == line + [LF] && m <= |line|
    ensures h[..m] == line[..m]
  {
  }

  /** The first m bytes of a number and its carriage return. */
  lemma NumberPart(n: nat, m: nat)
    requires n <= LONG_MAX && 0 < m <= |Decimal(n)| + 1
    ensures var v := Strtol((Decimal(n) + [CR])[..m]); 0 <= v <= n && (n > 0 ==> v > 0)
  {
    hide Strtol;
    var d := Decimal(n);
    hide Decimal;
    DecimalValue(n);
    if m <= |d| {
      ValuePrefix(d, m);
      assert (d + [CR])[..m] == d[..m] + [];
      StrtolDigits(d[..m], []);
    } else {
      assert (d + [CR])[..m] == d + [CR];
      ValuePrefix(d, |d|);
      assert d[..|d|] == d;
      StrtolDigits(d, [CR]);
    }
  }

  // ---- Reading records ------------------------------------------------------------------------------------

  lemma ArgWhole(a: Bytes, t: Bytes)
    requires |a| <= LONG_MAX
    ensures ParseArg(EncodeArg(a) + t) == Done(a, |EncodeArg(a)|)
  {
    hide Header, Fgets, Strtol;
    var h, body := Header(DOLLAR, |a|), a + CRLF;
    HeaderWhole(DOLLAR, |a|, body + t);
    assert EncodeArg(a) + t == h + (body + t);
    assert (body + t)[..|a|] == a;
    var s := h + (body + t);
    assert s[|h|..|h| + |a|] == s[|h|..][..|a|];
  }

  lemma ArgPart(a: Bytes, m: nat)
    requires |a| <= LONG_MAX && m < |EncodeArg(a)|
    ensures ParseArg(EncodeArg(a)[..m]) == ReadErr(true)
  {
    hide Header, Fgets, Strtol;
    var h, body := Header(DOLLAR, |a|), a + CRLF;
    var s := EncodeArg(a)[..m];
    if 0 < m < |h| {
      HeaderPart(DOLLAR, |a|, m);
      assert s == h[..m];
    } else if |h| <= m {
      HeaderWhole(DOLLAR, |a|, body[..m - |h|]);
      assert s == h + body[..m - |h|];
    }
  }

  lemma {:induction false} ArgsWhole(args: seq<Bytes>, t: Bytes)
    requires ArgsEncodable(args)
    ensures ParseArgs(EncodeArgs(args) + t, |args|) == Done(args, |EncodeArgs(args)|)
    decreases |args|
  {
    hide EncodeArg, ParseArg, ParseArgs;
    if args == [] {
      NoArgs(EncodeArgs(args) + t);
    } else {
      var a, rest := args[0], args[1..];
      assert args == [a] + rest;
      var e, r := EncodeArg(a), EncodeArgs(rest);
      assert EncodeArgs(args) == e + r;
      hide EncodeArgs;
      Regroup(e, r, t);
      ArgWhole(a, r + t);
      ArgsWhole(rest, t);
      ArgsNext(e + (r + t), |args|, a, |e|, rest, |r|);
    }
  }

  lemma NoArgs(s: Bytes)
    ensures ParseArgs(s, 0) == Done([], 0)
  {
  }

  lemma ArgsNext(s: Bytes, count: nat, a: Bytes, used: nat, rest: seq<Bytes>, more: nat)
    requires count > 0 && ParseArg(s) == Done(a, used) && used <= |s|
             && ParseArgs(s[used..], count - 1) == Done(rest, more)
    ensures ParseArgs(s, count) == Done([a] + rest, used + more)
  {
  }

  lemma Regroup(a: Bytes, b: Bytes, c: Bytes)
    ensures (a + b) + c == a + (b + c) && (a + (b + c))[|a|..] == b + c
  {
  }

  lemma {:induction false} ArgsPart(args: seq<Bytes>, m: nat)
    requires ArgsEncodable(args) && m < |EncodeArgs(args)|
    ensures ParseArgs(EncodeArgs(args)[..m], |args|) == ReadErr(true)
    decreases |args|
  {
    hide EncodeArg, ParseArg;
    var a, rest := args[0], args[1..];
    var s, e := EncodeArgs(args)[..m], EncodeArg(a);
    if m < |e| {
      assert s == e[..m];
      ArgPart(a, m);
    } else {
      var tail := EncodeArgs(rest)[..m - |e|];
      assert s == e + tail && s[|e|..] == tail;
      ArgWhole(a, tail);
      ArgsPart(rest, m - |e|);
    }
  }

  lemma NothingLeft(count: nat)
    requires count > 0
    ensures ParseArgs([], count) == ReadErr(true)
  {
  }

  /** A record that is all there is read as what was written. */
  lemma RecordWhole(x: Item, t: Bytes)
    requires Encodable(x)
    ensures ParseRecord(Encode(x) + t) == Done(if x.Cmd? then Command(x.argv) else Skipped, |Encode(x)|)
  {
    match x
    case Note(time) =>
      hide Fgets, EncodeNote, EncodeCommand;
      NoteWhole(time, t);
    case Cmd(argv) =>
      hide EncodeCommand, ParseRecord;
      CommandWhole(argv, t);
  }

  lemma CommandWhole(argv: seq<Bytes>, t: Bytes)
    requires 1 <= |argv| <= INT_MAX && ArgsEncodable(argv)
    ensures var s := EncodeCommand(argv) + t; s != [] && ParseRecord(s) == Done(Command(argv), |EncodeCommand(argv)|)
  {
    hide Header, Fgets, Strtol, Atoi, EncodeArgs, ParseArgs, HitsEnd, ArgsEncodable;
    var h, tail := Header(STAR, |argv|), EncodeArgs(argv) + t;
    HeaderWhole(STAR, |argv|, tail);
    assert EncodeCommand(argv) + t == h + tail;
    AtoiSmall((h + tail)[1..|h|]);
    ArgsWhole(argv, t);
  }

  lemma NoteLine(time: nat)
    requires time <= LONG_MAX
    ensures var line := TS + Decimal(time) + [CR];
            EncodeNote(time) == line + [LF] && NoFeed(line) && |line| < 30 && line[0] == HASH
  {
    DecimalLength(time);
  }

  lemma NoteWhole(time: nat, t: Bytes)
    requires time <= LONG_MAX
    ensures var s := EncodeNote(time) + t; Fgets(s) == |EncodeNote(time)| && s[0] == HASH
  {
    NoteLine(time);
    LineWhole(TS + Decimal(time) + [CR], t, LINE_MAX - 1);
  }

  /** An annotation cut short is skipped to the end of the file. */
  lemma NotePart(time: nat, m: nat)
    requires time <= LONG_MAX && 0 < m < |EncodeNote(time)|
    ensures ParseRecord(EncodeNote(time)[..m]) == Done(Skipped, m)
  {
    NoteLine(time);
    var line := TS + Decimal(time) + [CR];
    assert EncodeNote(time)[..m] == line[..m];
    LinePart(line[..m], LINE_MAX - 1);
  }

  /** A command cut short anywhere is a read error at the end of the file. */
  lemma CommandPart(argv: seq<Bytes>, m: nat)
    requires Encodable(Cmd(argv)) && 0 < m < |EncodeCommand(argv)|
    ensures ParseRecord(EncodeCommand(argv)[..m]) == ReadErr(true)
  {
    hide Header, Fgets, Strtol, Atoi, EncodeArgs, ParseArgs, HitsEnd, ArgsEncodable;
    var h := Header(STAR, |argv|);
    var s := EncodeCommand(argv)[..m];
    if m < |h| {
      HeaderPart(STAR, |argv|, m);
      assert s == h[..m];
      if m > 1 {
        assert s[m..] == [];
        AtoiSmall(s[1..m]);
        NothingLeft(Strtol(s[1..m]));
      }
    } else {
      var tail := EncodeArgs(argv)[..m - |h|];
      assert s == h + tail;
      HeaderWhole(STAR, |argv|, tail);
      AtoiSmall(s[1..|h|]);
      ArgsPart(argv, m - |h|);
    }
  }

  // ---- Writing -----------------------------------------------------------------------------------------------

  /** Bytes that are not a record: neither '*' nor '#' first, no positive count, or an argument without its '$'. */
  lemma Malformed(s: Bytes, n: nat, t: Bytes)
    requires s != [] && s[0] != 42 && s[0] != 35
    requires 1 <= n <= INT_MAX && t != [] && t[0] != 36
    ensures ParseRecord(s) == FmtErr
    ensures ParseRecord(Header(STAR, 0) + t) == FmtErr
    ensures ParseRecord(Header(STAR, n) + t) == FmtErr
  {
    hide Header, Fgets, Strtol, Atoi, HitsEnd;
    HeaderWhole(STAR, 0, t);
    AtoiSmall((Header(STAR, 0) + t)[1..|Header(STAR, 0)|]);
    HeaderWhole(STAR, n, t);
    AtoiSmall((Header(STAR, n) + t)[1..|Header(STAR, n)|]);
    assert (Header(STAR, n) + t)[|Header(STAR, n)|..] == t;
  }

  /** The format in bytes: "*2\r\n$3\r\nGET\r\n$1\r\nk\r\n" and "#TS:7\r\n". */
  lemma Format()
    ensures EncodeCommand([[71, 69, 84], [107]])
            == [42, 50, 13, 10, 36, 51, 13, 10, 71, 69, 84, 13, 10, 36, 49, 13, 10, 107, 13, 10]
    ensures EncodeNote(7) == [35, 84, 83, 58, 55, 13, 10]
  {
    var args: seq<Bytes> := [[71, 69, 84], [107]];
    assert args[1..] == [[107]] && args[1..][1..] == [];
    assert EncodeArg([107]) == [36, 49, 13, 10, 107, 13, 10];
    assert EncodeArg([71, 69, 84]) == [36, 51, 13, 10, 71, 69, 84, 13, 10];
    assert EncodeArgs([[107]]) == EncodeArg([107]) + [];
  }

  lemma {:induction false} EncodeArgsMore(args: seq<Bytes>, a: Bytes)
    ensures EncodeArgs(args + [a]) == EncodeArgs(args) + EncodeArg(a)
    decreases |args|
  {
    hide EncodeArg;
    if args == [] {
      assert args + [a] == [a] && EncodeArgs([a]) == EncodeArg(a) + EncodeArgs([]);
    } else {
      EncodeArgsMore(args[1..], a);
      assert (args + [a])[1..] == args[1..] + [a];
    }
  }

  lemma CatArg(out: Bytes, args: Bytes, head: Bytes, a: Bytes)
    ensures (((out + args) + head) + a) + CRLF == out + (args + (head + (a + CRLF)))
  {
  }

  /** catAppendOnlyGenericCommand. */
  method CatAppendOnlyGenericCommand(dst: Bytes, argv: seq<Bytes>) returns (out: Bytes)
    ensures out == dst + EncodeCommand(argv)
  {
    out := dst + Header(STAR, |argv|);
    var j := 0;
    while j < |argv|
      invariant 0 <= j <= |argv|
      invariant out == dst + Header(STAR, |argv|) + EncodeArgs(argv[..j])
    {
      hide Header;
      assert argv[..j + 1] == argv[..j] + [argv[j]];
      EncodeArgsMore(argv[..j], argv[j]);
      var head := Header(DOLLAR, |argv[j]|);
      CatArg(dst + Header(STAR, |argv|), EncodeArgs(argv[..j]), head, argv[j]);
      out := ((out + head) + argv[j]) + CRLF;
      j := j + 1;
    }
    assert argv[..j] == argv;
  }
}
