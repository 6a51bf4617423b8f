/**
  sdscatrepr (src/sds.c) writes a string in quotes so that sdssplitargs reads it back: for every
  list of byte strings.  sdsneedsrepr tells which strings need the quotes, and misses some.
 */
module ArgsRepr {
  import opened SplitArgs

  /** Every character is a byte. */
  ghost predicate Bytes(s: string) { forall i :: 0 <= i < |s| ==> s[i] as int < 256 }

  /** isprint in the C locale. */
  predicate IsPrint(c: char) { ' ' <= c <= '~' }

  function HexDigit(v: nat): (c: char)
    requires v < 16
    ensures IsHex(c) && HexValue(c) == v
  {
    if v < 10 then ('0' as int + v) as char else ('a' as int + v - 10) as char
  }

  /** One character of the representation. */
  function EscapedChar(c: char): (e: string)
    requires c as int < 256
    ensures e != ""
  {
    if c == '\\' || c == '"' then ['\\', c]
    else if c == '\n' then "\\n"
    else if c == '\r' then "\\r"
    else if c == '\t' then "\\t"
    else if c == 7 as char then "\\a"
    else if c == 8 as char then "\\b"
    else if IsPrint(c) then [c]
    else ['\\', 'x', HexDigit(c as int / 16), HexDigit(c as int % 16)]
  }

  function Escaped(s: string): string
    requires Bytes(s)
    decreases |s|
  {
    if s == "" then "" else Escaped(s[..|s| - 1]) + EscapedChar(s[|s| - 1])
  }

  function Repr(s: string): string
    requires Bytes(s)
  {
    "\"" + Escaped(s) + "\""
  }

  /** sdscatrepr. */
  method CatRepr(s: string, p: string) returns (r: string)
    requires Bytes(p)
    ensures r == s + Repr(p)
  {
    hide EscapedChar;
    r := s + "\"";
    var i := 0;
    while i < |p|
      invariant 0 <= i <= |p|
      invariant Bytes(p[..i]) && r == s + "\"" + Escaped(p[..i])
    {
      assert p[..i + 1][..i] == p[..i];
      r := r + EscapedChar(p[i]);
      i := i + 1;
    }
    assert p[..i] == p;
    r := r + "\"";
  }

  // ---- Reading a quoted string back -------------------------------------------------------------

  lemma {:induction false} EscapedFirst(c: char, w: string)
    requires c as int < 256 && Bytes(w)
    ensures Bytes([c] + w) && Escaped([c] + w) == EscapedChar(c) + Escaped(w)
    decreases |w|
  {
    hide EscapedChar;
    var s := [c] + w;
    if w == "" {
      assert s[..0] == "" && s[|s| - 1] == c;
    } else {
      var most, last := w[..|w| - 1], w[|w| - 1];
      EscapedFirst(c, most);
      assert s[..|s| - 1] == [c] + most && s[|s| - 1] == last;
      var e := EscapedChar(last);
      assert (EscapedChar(c) + Escaped(most)) + e == EscapedChar(c) + (Escaped(most) + e);
    }
  }

  /** An escape inside double quotes gives the character back. */
  lemma CollectEscape(s: string, i: nat, c: char, after: string, cur: string)
    requires i <= |s| && c as int < 256 && s[i..] == EscapedChar(c) + after && after != ""
    ensures i + |EscapedChar(c)| <= |s| && s[i + |EscapedChar(c)|..] == after
    ensures Collect(s, i, Double, cur) == Collect(s, i + |EscapedChar(c)|, Double, cur + [c])
  {
    var e := EscapedChar(c);
    assert forall k :: 0 <= k < |e| ==> s[i + k] == s[i..][k] == e[k];
    assert |s| - i == |e| + |after|;
    assert s[i + |e|..] == s[i..][|e|..] == after;
  }

  /** The closing quote. */
  lemma CollectClosing(s: string, i: nat, after: string, cur: string)
    requires i <= |s| && s[i..] == "\"" + after
    ensures Collect(s, i, Double, cur)
            == if after == "" || IsSpace(after[0]) then Argument(cur, i + 1) else Unbalanced
  {
    assert s[i] == s[i..][0] == '"';
    assert after == s[i..][1..] == s[i + 1..];
    assert after != "" ==> s[i + 1] == after[0];
  }

  /** A string in quotes: its characters, if a blank or nothing follows. */
  lemma {:induction false} CollectQuoted(s: string, i: nat, w: string, after: string, cur: string)
    requires i <= |s| && Bytes(w) && s[i..] == Escaped(w) + ("\"" + after)
    ensures Collect(s, i, Double, cur)
            == if after == "" || IsSpace(after[0]) then Argument(cur + w, i + |Escaped(w)| + 1) else Unbalanced
    decreases |w|
  {
    hide Collect, EscapedChar, IsSpace;
    if w == "" {
      assert cur + w == cur && s[i..] == "\"" + after;
      CollectClosing(s, i, after, cur);
    } else {
      var c, rest := w[0], w[1..];
      assert w == [c] + rest;
      EscapedFirst(c, rest);
      hide Escaped;
      assert s[i..] == EscapedChar(c) + (Escaped(rest) + ("\"" + after));
      CollectEscape(s, i, c, Escaped(rest) + ("\"" + after), cur);
      CollectQuoted(s, i + |EscapedChar(c)|, rest, after, cur + [c]);
      assert (cur + [c]) + rest == cur + w;
    }
  }

  lemma SplitBlank(s: string, i: nat)
    requires i < |s| && IsSpace(s[i])
    ensures SplitFrom(s, i) == SplitFrom(s, i + 1)
  {
    hide Collect;
  }

  lemma SplitOpens(s: string, i: nat)
    requires i < |s| && s[i] == '"'
    ensures var a := Collect(s, i + 1, Double, "");
            SplitFrom(s, i) == if a.Unbalanced? then Failed else Cons(a.text, SplitFrom(s, a.next))
  {
    assert SkipBlanks(s, i) == i;
    assert Collect(s, i, Unquoted, "") == Collect(s, i + 1, Double, "");
    hide Collect, SkipBlanks;
  }

  lemma ReprParts(s: string, i: nat, w: string, after: string)
    requires i <= |s| && Bytes(w) && s[i..] == Repr(w) + after
    ensures i + |Repr(w)| <= |s| && s[i + |Repr(w)|..] == after && s[i] == '"'
    ensures s[i + 1..] == Escaped(w) + ("\"" + after) && |Repr(w)| == |Escaped(w)| + 2
  {
    hide Escaped;
    assert s[i] == s[i..][0];
    assert s[i + 1..] == s[i..][1..];
    assert s[i + |Repr(w)|..] == s[i..][|Repr(w)|..];
  }

  /** A quoted string at position i is the next argument; nothing but a blank may follow it. */
  lemma SplitQuoted(s: string, i: nat, w: string, after: string)
    requires i <= |s| && Bytes(w) && s[i..] == Repr(w) + after
    ensures i + |Repr(w)| <= |s| && s[i + |Repr(w)|..] == after
    ensures SplitFrom(s, i)
            == if after == "" || IsSpace(after[0]) then Cons(w, SplitFrom(s, i + |Repr(w)|)) else Failed
  {
    hide Collect, SplitFrom, Escaped, Repr, IsSpace, Cons;
    ReprParts(s, i, w, after);
    SplitOpens(s, i);
    CollectQuoted(s, i + 1, w, after, "");
    assert "" + w == w;
  }

  // ---- Which strings need quotes ----------------------------------------------------------------

  /** sdsneedsrepr. */
  predicate NeedsRepr(s: string) {
    exists i :: 0 <= i < |s| && (s[i] == '\\' || s[i] == '"' || !IsPrint(s[i]) || IsSpace(s[i]))
  }

  /** A string as the append-only file manifest shows it: in quotes if sdsneedsrepr says so. */
  function Shown(s: string): string
    requires Bytes(s)
  {
    if NeedsRepr(s) then Repr(s) else s
  }

  /** The strings that are shown in a form that reads back. */
  ghost predicate Readable(s: string) { NeedsRepr(s) || (s != "" && '\'' !in s) }

  lemma UnquotedPlain(s: string)
    requires !NeedsRepr(s)
    ensures Plain(s) <==> '\'' !in s
    ensures s != "" ==> Word(s)
  {
    assert IsSpecial('\'');
    assert forall i :: 0 <= i < |s| ==> s[i] in s && IsPrint(s[i]) && !IsSpace(s[i]);
    assert forall c :: c in s ==> exists i :: 0 <= i < |s| && s[i] == c;
  }

  /** One shown string reads back exactly when it is readable. */
  lemma ShownReads(w: string)
    requires Bytes(w)
    ensures Split(Shown(w)) == Arguments([w]) <==> Readable(w)
  {
    var s := Shown(w);
    assert s[0..] == s;
    if NeedsRepr(w) {
      assert s + "" == s;
      SplitQuoted(s, 0, w, "");
      SplitNothing(s);
      assert [w] + [] == [w];
    } else if w == "" {
      SplitNothing(s);
    } else {
      UnquotedPlain(w);
      JoinLast(w);
      SplitsBackExactly([w]);
    }
  }

  /** A shown string in front of others, after a blank. */
  lemma SplitShown(s: string, i: nat, w: string, rest: string)
    requires i <= |s| && Bytes(w) && Readable(w) && s[i..] == Shown(w) + (" " + rest)
    ensures i + |Shown(w)| + 1 <= |s| && s[i + |Shown(w)| + 1..] == rest
    ensures SplitFrom(s, i) == Cons(w, SplitFrom(s, i + |Shown(w)| + 1))
  {
    hide SplitFrom, Repr, Collect, Plain, Word;
    if NeedsRepr(w) {
      SplitQuoted(s, i, w, " " + rest);
      var k := i + |Repr(w)|;
      assert s[k] == s[k..][0] == ' ';
      SplitBlank(s, k);
      assert s[k + 1..] == s[k..][1..] == rest;
    } else {
      UnquotedPlain(w);
      SplitMore(s, i, w, rest);
    }
  }

  function Reprs(words: seq<string>): (r: seq<string>)
    requires forall w :: w in words ==> Bytes(w)
    ensures |r| == |words|
  {
    seq(|words|, i requires 0 <= i < |words| => Repr(words[i]))
  }

  lemma {:induction false} SplitReprs(s: string, i: nat, words: seq<string>)
    requires (forall w :: w in words ==> Bytes(w)) && i <= |s| && s[i..] == JoinWords(Reprs(words))
    ensures SplitFrom(s, i) == Arguments(words)
    decreases |words|
  {
    hide SplitFrom, Repr, Bytes;
    if words == [] {
      SplitNothing(s);
    } else {
      var w, rest := words[0], words[1..];
      assert w in words && forall v :: v in rest ==> v in words;
      assert Reprs(words)[1..] == Reprs(rest);
      SplitQuoted(s, i, w, After(Reprs(rest)));
      var k := i + |Repr(w)|;
      if rest == [] {
        SplitNothing(s);
      } else {
        assert s[k] == s[k..][0] == ' ';
        SplitBlank(s, k);
        assert s[k + 1..] == s[k..][1..] == JoinWords(Reprs(rest));
        SplitReprs(s, k + 1, rest);
      }
      assert words == [w] + rest;
    }
  }

  /** Any byte strings, each in the form sdscatrepr gives it, split back into themselves. */
  lemma ReprsReadBack(words: seq<string>)
    requires forall w :: w in words ==> Bytes(w)
    ensures Split(JoinWords(Reprs(words))) == Arguments(words)
  {
    var s := JoinWords(Reprs(words));
    assert s[0..] == s;
    SplitReprs(s, 0, words);
  }

  // ---- Single quotes ----------------------------------------------------------------------------

  lemma {:induction false} CollectSingle(s: string, i: nat, w: string, after: string, cur: string)
    requires i <= |s| && s[i..] == w + ("'" + after) && '\'' !in w && (w == "" || w[|w| - 1] != '\\')
    ensures Collect(s, i, Single, cur)
            == if after == "" || IsSpace(after[0]) then Argument(cur + w, i + |w| + 1) else Unbalanced
    decreases |w|
  {
    assert s[i] == s[i..][0];
    if w == "" {
      assert after == s[i..][1..] == s[i + 1..] && cur + w == cur;
      assert after != "" ==> s[i + 1] == after[0];
    } else {
      assert s[i] == w[0] && w[0] in w;
      assert s[i + 1..] == s[i..][1..] == w[1..] + ("'" + after);
      assert |w| > 1 ==> s[i + 1] == s[i..][1] == w[1] && w[1] in w;
      hide IsSpace;
      CollectSingle(s, i + 1, w[1..], after, cur + [w[0]]);
      assert (cur + [w[0]]) + w[1..] == cur + w;
    }
  }

  lemma SplitOpensSingle(s: string)
    requires s != "" && s[0] == '\''
    ensures var a := Collect(s, 1, Single, "");
            Split(s) == if a.Unbalanced? then Failed else Cons(a.text, SplitFrom(s, a.next))
  {
    assert SkipBlanks(s, 0) == 0;
    assert Collect(s, 0, Unquoted, "") == Collect(s, 1, Single, "");
    hide Collect, SkipBlanks;
  }

  /** In single quotes everything but a quote stands for itself. */
  lemma SingleQuoted(w: string)
    requires '\'' !in w && (w == "" || w[|w| - 1] != '\\')
    ensures Split("'" + w + "'") == Arguments([w])
  {
    hide Collect, SplitFrom, IsSpace;
    var s := "'" + w + "'";
    assert s[1..] == w + ("'" + "");
    SplitOpensSingle(s);
    CollectSingle(s, 1, w, "", "");
    assert "" + w == w && [w] + [] == [w];
    SplitNothing(s);
  }

  /** A quote inside them is written with a backslash. */
  lemma SingleEscape(s: string, i: nat, cur: string)
    requires i + 1 < |s| && s[i] == '\\' && s[i + 1] == '\''
    ensures Collect(s, i, Single, cur) == Collect(s, i + 2, Single, cur + "'")
  {
  }
}
