/**
  sdssplitargs (src/sds.c), which the ACL code uses to cut `command_rules` into rules:
  arguments are separated by blanks and may be quoted.
 */
module SplitArgs {

  /** isspace in the C locale. */
  predicate IsSpace(c: char) { c == ' ' || ('\t' <= c <= '\r') }

  /** The characters that end an unquoted argument or open a quote. */
  predicate IsSpecial(c: char) { c == ' ' || c == '\n' || c == '\r' || c == '\t' || c == '"' || c == '\'' }

  predicate IsHex(c: char) { '0' <= c <= '9' || 'a' <= c <= 'f' || 'A' <= c <= 'F' }

  function HexValue(c: char): int
    requires IsHex(c)
  {
    if c <= '9' then c as int - '0' as int
    else if c >= 'a' then c as int - 'a' as int + 10
    else c as int - 'A' as int + 10
  }

  function Escape(c: char): char {
    match c
    case 'n' => '\n'
    case 'r' => '\r'
    case 't' => '\t'
    case 'b' => 8 as char
    case 'a' => 7 as char
    case _ => c
  }

  datatype Quote = Unquoted | Double | Single

  datatype Argument = Unbalanced | Argument(text: string, next: nat)

  /** The argument from position i on, after `cur` has been collected. */
  function Collect(s: string, i: nat, q: Quote, cur: string): (a: Argument)
    requires i <= |s|
    ensures a.Argument? ==> i <= a.next <= |s| && |cur| <= |a.text|
    decreases |s| - i
  {
    match q
    case Double =>
      if i == |s| then Unbalanced
      else if i + 3 < |s| && s[i] == '\\' && s[i + 1] == 'x' && IsHex(s[i + 2]) && IsHex(s[i + 3]) then
        Collect(s, i + 4, q, cur + [(HexValue(s[i + 2]) * 16 + HexValue(s[i + 3])) as char])
      else if i + 1 < |s| && s[i] == '\\' then Collect(s, i + 2, q, cur + [Escape(s[i + 1])])
      else if s[i] == '"' then
        if i + 1 < |s| && !IsSpace(s[i + 1]) then Unbalanced else Argument(cur, i + 1)
      else Collect(s, i + 1, q, cur + [s[i]])
    case Single =>
      if i == |s| then Unbalanced
      else if i + 1 < |s| && s[i] == '\\' && s[i + 1] == '\'' then Collect(s, i + 2, q, cur + ['\''])
      else if s[i] == '\'' then
        if i + 1 < |s| && !IsSpace(s[i + 1]) then Unbalanced else Argument(cur, i + 1)
      else Collect(s, i + 1, q, cur + [s[i]])
    case Unquoted =>
      if i == |s| then Argument(cur, i)
      else if s[i] == ' ' || s[i] == '\n' || s[i] == '\r' || s[i] == '\t' then Argument(cur, i + 1)
      else if s[i] == '"' then Collect(s, i + 1, Double, cur)
      else if s[i] == '\'' then Collect(s, i + 1, Single, cur)
      else Collect(s, i + 1, q, cur + [s[i]])
  }

  function SkipBlanks(s: string, i: nat): (j: nat)
    requires i <= |s|
    ensures i <= j <= |s| && (j < |s| ==> !IsSpace(s[j]))
    decreases |s| - i
  {
    if i < |s| && IsSpace(s[i]) then SkipBlanks(s, i + 1) else i
  }

  datatype Arguments = Failed | Arguments(args: seq<string>)

  /** All arguments from position i on. */
  function SplitFrom(s: string, i: nat): Arguments
    requires i <= |s|
    decreases |s| - i
  {
    var j := SkipBlanks(s, i);
    if j == |s| then Arguments([])
    else
      match Collect(s, j, Unquoted, "")
      case Unbalanced => Failed
      case Argument(text, next) =>
        CollectAdvances(s, j);
        match SplitFrom(s, next)
        case Failed => Failed
        case Arguments(args) => Arguments([text] + args)
  }

  function Split(s: string): Arguments { SplitFrom(s, 0) }

  lemma CollectAdvances(s: string, j: nat)
    requires j < |s| && !IsSpace(s[j])
    ensures var a := Collect(s, j, Unquoted, ""); a.Argument? ==> j < a.next
  {
  }

  // ---- Joining words without special characters and splitting again -----------------------------

  function JoinWords(words: seq<string>): string
    decreases |words|, 0
  {
    if words == [] then "" else words[0] + After(words[1..])
  }

  /** What follows a word: nothing, or a space and the rest. */
  function After(rest: seq<string>): (after: string)
    decreases |rest|, 1
  {
    if rest == [] then "" else " " + JoinWords(rest)
  }

  ghost predicate Plain(w: string) { forall c :: c in w ==> !IsSpecial(c) }

  /** An argument that starts with a visible character. */
  ghost predicate Word(w: string) { w != "" && !IsSpace(w[0]) }

  lemma {:induction false} CollectPlain(s: string, i: nat, w: string, after: string, cur: string)
    requires i <= |s| && s[i..] == w + after && Plain(w) && (after == "" || after[0] == ' ')
    ensures Collect(s, i, Unquoted, cur) == Argument(cur + w, i + |w| + (if after == "" then 0 else 1))
    decreases |w|
  {
    if w == "" {
      assert after == "" ==> i == |s|;
      assert after != "" ==> s[i] == s[i..][0] == ' ';
      assert cur + w == cur;
    } else {
      assert s[i] == s[i..][0] == w[0] && w[0] in w;
      assert s[i + 1..] == s[i..][1..] == w[1..] + after;
      CollectPlain(s, i + 1, w[1..], after, cur + [w[0]]);
      assert (cur + [w[0]]) + w[1..] == cur + w;
    }
  }

  /** An argument in front of the others. */
  function Cons(w: string, rest: Arguments): Arguments {
    if rest.Failed? then Failed else Arguments([w] + rest.args)
  }

  /** The last word of a text. */
  lemma SplitLast(s: string, i: nat, w: string)
    requires i <= |s| && s[i..] == w && Word(w) && Plain(w)
    ensures SplitFrom(s, i) == Arguments([w])
  {
    hide Collect, Plain;
    assert s[i] == s[i..][0] && SkipBlanks(s, i) == i;
    assert w + "" == w && "" + w == w;
    CollectPlain(s, i, w, "", "");
    hide SkipBlanks;
    assert SplitFrom(s, |s|) == Arguments([]) by { SplitNothing(s); }
    assert [w] + [] == [w];
  }

  lemma SplitNothing(s: string)
    ensures SplitFrom(s, |s|) == Arguments([])
  {
  }

  /** A word, a space, and more. */
  lemma SplitMore(s: string, i: nat, w: string, rest: string)
    requires i <= |s| && s[i..] == w + (" " + rest) && Word(w) && Plain(w)
    ensures i + |w| + 1 <= |s| && s[i + |w| + 1..] == rest && SplitFrom(s, i) == Cons(w, SplitFrom(s, i + |w| + 1))
  {
    hide Collect, Plain;
    assert s[i] == s[i..][0] && SkipBlanks(s, i) == i;
    assert "" + w == w;
    CollectPlain(s, i, w, " " + rest, "");
    hide SkipBlanks;
    assert s[i + |w| + 1..] == s[i..][|w| + 1..];
  }

  lemma JoinLast(w: string)
    ensures JoinWords([w]) == w
  {
    assert [w][1..] == [];
    assert w + "" == w;
  }

  lemma JoinMore(words: seq<string>)
    requires |words| > 1
    ensures JoinWords(words) == words[0] + (" " + JoinWords(words[1..]))
  {
  }

  /** Words without special characters, joined by single spaces, split into themselves. */
  lemma {:induction false} SplitPlain(s: string, i: nat, words: seq<string>)
    requires i <= |s| && s[i..] == JoinWords(words)
    requires forall w :: w in words ==> Word(w) && Plain(w)
    ensures SplitFrom(s, i) == Arguments(words)
    decreases |words|
  {
    hide SplitFrom, Plain, Word, After;
    if words == [] {
      assert i == |s|;
      SplitNothing(s);
    } else if |words| == 1 {
      assert words == [words[0]];
      JoinLast(words[0]);
      SplitLast(s, i, words[0]);
    } else {
      var w, rest := words[0], words[1..];
      JoinMore(words);
      hide JoinWords;
      assert w in words && forall v :: v in rest ==> v in words;
      SplitMore(s, i, w, JoinWords(rest));
      SplitPlain(s, i + |w| + 1, rest);
      assert words == [w] + rest;
    }
  }

  // ---- ... and only such words do -------------------------------------------------------------

  /** The number of special characters in s[i..j]. */
  ghost function Specials(s: string, i: nat, j: nat): nat
    requires i <= j <= |s|
    decreases j - i
  {
    if i == j then 0 else (if IsSpecial(s[i]) then 1 else 0) + Specials(s, i + 1, j)
  }

  lemma {:induction false} SpecialsConcat(s: string, i: nat, j: nat, k: nat)
    requires i <= j <= k <= |s|
    ensures Specials(s, i, k) == Specials(s, i, j) + Specials(s, j, k)
    decreases j - i
  {
    if i < j { SpecialsConcat(s, i + 1, j, k); }
  }

  /** A closing quote is consumed without adding to the argument. */
  lemma {:induction false} QuotedLoss(s: string, i: nat, q: Quote, cur: string)
    requires i <= |s| && q != Unquoted
    ensures var a := Collect(s, i, q, cur); a.Argument? ==> a.next - i >= |a.text| - |cur| + 1
    decreases |s| - i
  {
    if i < |s| {
      if q == Double {
        if i + 3 < |s| && s[i] == '\\' && s[i + 1] == 'x' && IsHex(s[i + 2]) && IsHex(s[i + 3]) {
          QuotedLoss(s, i + 4, q, cur + [(HexValue(s[i + 2]) * 16 + HexValue(s[i + 3])) as char]);
        } else if i + 1 < |s| && s[i] == '\\' {
          QuotedLoss(s, i + 2, q, cur + [Escape(s[i + 1])]);
        } else if s[i] != '"' {
          QuotedLoss(s, i + 1, q, cur + [s[i]]);
        }
      } else {
        if i + 1 < |s| && s[i] == '\\' && s[i + 1] == '\'' {
          QuotedLoss(s, i + 2, q, cur + ['\'']);
        } else if s[i] != '\'' {
          QuotedLoss(s, i + 1, q, cur + [s[i]]);
        }
      }
    }
  }

  /** Characters consumed beyond those of the argument: none only at the end, one only for a blank. */
  lemma {:induction false} CollectLoss(s: string, i: nat, cur: string)
    requires i <= |s|
    ensures var a := Collect(s, i, Unquoted, cur);
            a.Argument? ==>
              var loss := a.next - i - (|a.text| - |cur|);
              && loss >= 0
              && (loss == 0 ==> a.next == |s| && Specials(s, i, a.next) == 0)
              && (loss == 1 ==> Specials(s, i, a.next) <= 1)
    decreases |s| - i
  {
    if i < |s| {
      if s[i] == '"' {
        QuotedLoss(s, i + 1, Double, cur);
      } else if s[i] == '\'' {
        QuotedLoss(s, i + 1, Single, cur);
      } else if !IsSpecial(s[i]) {
        CollectLoss(s, i + 1, cur + [s[i]]);
      }
    }
  }

  ghost function Total(words: seq<string>): nat
    decreases |words|
  {
    if words == [] then 0 else |words[0]| + Total(words[1..])
  }

  lemma {:induction false} SplitLoss(s: string, i: nat)
    requires i <= |s|
    ensures var r := SplitFrom(s, i);
            r.Arguments? && r.args != [] ==>
              && |s| - i >= Total(r.args) + |r.args| - 1
              && (|s| - i == Total(r.args) + |r.args| - 1 ==> Specials(s, i, |s|) <= |r.args| - 1)
    decreases |s| - i
  {
    var j := SkipBlanks(s, i);
    if j < |s| {
      var a := Collect(s, j, Unquoted, "");
      if a.Argument? {
        CollectLoss(s, j, "");
        CollectAdvances(s, j);
        hide Collect;
        SplitLoss(s, a.next);
        var rest := SplitFrom(s, a.next);
        if rest.Arguments? {
          assert ([a.text] + rest.args)[1..] == rest.args;
          SpecialsConcat(s, j, a.next, |s|);
          if rest.args == [] && a.next == |s| { assert Specials(s, |s|, |s|) == 0; }
        }
      }
    }
  }

  ghost function Count(s: string): nat { Specials(s, 0, |s|) }

  lemma {:induction false} SpecialsShift(a: string, i: nat, j: nat, s: string, k: nat)
    requires i <= j <= |a| && k + j <= |s| && forall x :: i <= x < j ==> s[k + x] == a[x]
    ensures Specials(s, k + i, k + j) == Specials(a, i, j)
    decreases j - i
  {
    if i < j {
      assert s[k + i] == a[i];
      SpecialsShift(a, i + 1, j, s, k);
    }
  }

  lemma CountConcat(a: string, b: string)
    ensures Count(a + b) == Count(a) + Count(b)
  {
    SpecialsShift(a, 0, |a|, a + b, 0);
    SpecialsShift(b, 0, |b|, a + b, |a|);
    SpecialsConcat(a + b, 0, |a|, |a + b|);
  }

  lemma {:induction false} CountZero(w: string, i: nat)
    requires i <= |w| && Specials(w, i, |w|) == 0
    ensures forall k :: i <= k < |w| ==> !IsSpecial(w[k])
    decreases |w| - i
  {
    if i < |w| { CountZero(w, i + 1); }
  }

  ghost function TotalSpecials(words: seq<string>): nat
    decreases |words|
  {
    if words == [] then 0 else Count(words[0]) + TotalSpecials(words[1..])
  }

  lemma {:induction false} JoinWordsCounts(words: seq<string>)
    requires words != []
    ensures |JoinWords(words)| == Total(words) + |words| - 1
    ensures Count(JoinWords(words)) == TotalSpecials(words) + |words| - 1
    decreases |words|
  {
    var w, rest := words[0], words[1..];
    CountConcat(w, After(rest));
    if rest != [] {
      JoinWordsCounts(rest);
      CountConcat(" ", JoinWords(rest));
      assert Count(" ") == 1;
    } else {
      assert Count("") == 0;
    }
  }

  lemma {:induction false} NoSpecialsPlain(words: seq<string>)
    requires TotalSpecials(words) == 0
    ensures forall w :: w in words ==> Plain(w)
    decreases |words|
  {
    if words != [] {
      CountZero(words[0], 0);
      NoSpecialsPlain(words[1..]);
      forall w | w in words ensures Plain(w) { if w != words[0] { assert w in words[1..]; } }
    }
  }

  /** Words joined by spaces split into themselves exactly when none holds a blank or a quote. */
  lemma SplitsBackExactly(words: seq<string>)
    requires forall w :: w in words ==> Word(w)
    ensures Split(JoinWords(words)) == Arguments(words) <==> forall w :: w in words ==> Plain(w)
  {
    var s := JoinWords(words);
    assert s[0..] == s;
    if forall w :: w in words ==> Plain(w) {
      SplitPlain(s, 0, words);
    } else if Split(s) == Arguments(words) {
      SplitLoss(s, 0);
      JoinWordsCounts(words);
      NoSpecialsPlain(words);
    }
  }
}
