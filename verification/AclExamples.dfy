/**
  First arguments with a blank (src/acl.c): accepted and logged like any other, but the log reads back
  as other words.  One makes the description of the selector panic, one silently changes the rule.
 */
module AclExamples {
  import opened AclRules
  import opened AclText
  import opened AclSelector
  import opened Options
  import SplitArgs

  /** A server that knows GET only. */
  function OnlyGet(): Table { Table(map["get" := Command(0, {}, {}, false)], {}) }

  lemma OnlyGetIsValid()
    ensures AclRules.Valid(OnlyGet())
  {
    NoBar("get");
    assert Lower("get") == "get";
    assert "get"[0] != '@' && '|' !in "get";
    assert |"get" + "|"| == 4;
    assert CommandOk(OnlyGet(), "get");
  }

  lemma LastBarIs(s: string, p: nat)
    requires p < |s| && s[p] == '|' && forall i :: p < i < |s| ==> s[i] != '|'
    ensures LastBar(s) == p
  {
    var q := LastBar(s);
    hide LastBar;
    assert s[p] in s;
    assert forall i :: q < i < |s| ==> s[i] == s[q + 1..][i - q - 1];
  }

  lemma GetBody(arg: string)
    requires '|' !in arg && Lower(arg) == arg
    ensures var b := "get|" + arg; LastBar(b) == 3 && b[..3] == "get" && b[4..] == arg && Lower(b) == b
  {
    hide LastBar;
    var b := "get|" + arg;
    assert forall i :: 4 <= i < |b| ==> b[i] == arg[i - 4];
    LastBarIs(b, 3);
    assert b[..3] == "get" && b[4..] == arg;
    assert forall i :: 4 <= i < |b| ==> LowerChar(b[i]) == Lower(arg)[i - 4] == b[i];
    assert Lower(b) == b;
  }

  /** "get|" and a first argument in lower case is a rule that reads back. */
  lemma FirstArgOfGet(arg: string)
    requires arg != "" && '|' !in arg && Lower(arg) == arg
    ensures var r := Rule(true, "get|" + arg);
            RuleOk(OnlyGet(), r) && Interpret(OnlyGet(), Text(r)) == Apply(r)
  {
    hide Lower, LastBar, AclRules.Valid, Interpret;
    var b := "get|" + arg;
    GetBody(arg);
    OnlyGetIsValid();
    assert "get" in OnlyGet().commands;
    assert IsFirstArg(OnlyGet(), b);
    RuleReadsBack(OnlyGet(), Rule(true, b));
  }

  lemma EffectOfGet(arg: string, p: Perms)
    requires arg != "" && '|' !in arg && Lower(arg) == arg
    ensures Effect(OnlyGet(), p, Rule(true, "get|" + arg)) == Perms(p.bits, p.args + {(0, arg)})
  {
    hide Lower, LastBar, AclRules.Valid, Effect;
    var b := "get|" + arg;
    GetBody(arg);
    OnlyGetIsValid();
    assert "get" in OnlyGet().commands && IsFirstArg(OnlyGet(), b);
    FirstArgEffect(OnlyGet(), p, b);
  }

  lemma TwoWords(a: string, b: string)
    requires SplitArgs.Word(a) && SplitArgs.Plain(a) && SplitArgs.Word(b) && SplitArgs.Plain(b)
    ensures SplitArgs.Split(a + " " + b) == SplitArgs.Arguments([a, b])
  {
    hide SplitArgs.Split, SplitArgs.Word, SplitArgs.Plain;
    SplitArgs.SplitsBackExactly([a, b]);
    assert [a, b][1..] == [b] && [b][1..] == [];
    assert SplitArgs.JoinWords([b]) == b + "" == b;
    assert SplitArgs.JoinWords([a, b]) == a + (" " + b) == a + " " + b;
  }

  /** What the operation "+get|a" and a blank and `rest` leave in a new selector. */
  ghost function AfterBlank(rest: string): AclRules.Selector {
    AclRules.SetSelector(OnlyGet(), Created(), "+get|a " + rest)
  }

  lemma BlankIsLogged(rest: string)
    requires '|' !in rest && Lower(rest) == rest
    ensures Interpret(OnlyGet(), "+get|a " + rest) == Apply(Rule(true, "get|a " + rest))
    ensures AfterBlank(rest) == AclRules.Selector(Perms({}, {(0, "a " + rest)}), [Rule(true, "get|a " + rest)])
    ensures TextAfter("", Interpret(OnlyGet(), "+get|a " + rest)) == "+get|a " + rest
  {
    hide Lower, Interpret, Effect;
    var arg := "a " + rest;
    assert Lower(arg) == arg by { LowerBlank(rest); }
    assert "get|" + arg == "get|a " + rest;
    assert Text(Rule(true, "get|a " + rest)) == "+get|a " + rest;
    FirstArgOfGet(arg);
    EffectOfGet(arg, Base(false));
    assert {} + {(0, arg)} == {(0, arg)};
  }

  lemma LowerBlank(rest: string)
    requires Lower(rest) == rest
    ensures Lower("a " + rest) == "a " + rest
  {
    assert forall i :: 2 <= i < |"a " + rest| ==> ("a " + rest)[i] == rest[i - 2] == Lower(rest)[i - 2];
  }

  // ---- Single words ------------------------------------------------------------------------------------------

  lemma GetWord()
    ensures SplitArgs.Word("+get|a") && SplitArgs.Plain("+get|a")
    ensures "get|" + "a" == "get|a" && Text(Rule(true, "get|a")) == "+get|a" && Lower("a") == "a" && '|' !in "a"
  {
  }

  lemma LetterB()
    ensures SplitArgs.Word("b") && SplitArgs.Plain("b") && Lower("b") == "b" && '|' !in "b"
    ensures Interpret(OnlyGet(), "b") == NotACommandRule && !IsKeyword("b")
  {
    assert |Lower("b")| == 1;
  }

  lemma AllKeys()
    ensures SplitArgs.Word("allkeys") && SplitArgs.Plain("allkeys") && Lower("allkeys") == "allkeys"
            && '|' !in "allkeys"
    ensures Interpret(OnlyGet(), "allkeys") == NotACommandRule && IsKeyword("allkeys")
  {
    assert |Lower("allkeys")| == 7 && Lower("allkeys") == "allkeys";
  }

  lemma RebuiltMore(t: Table, s: AclRules.Selector, words: seq<string>, w: string, x: AclRules.Selector)
    requires Rebuilt(t, s, words, KeywordsOnly) == Some(x)
    ensures Rebuilt(t, s, words + [w], KeywordsOnly)
            == if Accepted(t, w, IsKeyword(w)) then Some(SetSelector(t, x, w)) else None
  {
    hide Accepted, SetSelector, IsKeyword;
    assert (words + [w])[..|words|] == words;
  }

  /** The word "+get|a" alone. */
  lemma GetRebuilt()
    ensures Rebuilt(OnlyGet(), Created(), ["+get|a"], KeywordsOnly)
            == Some(AclRules.Selector(Perms({}, {(0, "a")}), [Rule(true, "get|a")]))
  {
    hide Lower, Interpret, Effect, Rebuilt;
    GetWord();
    FirstArgOfGet("a");
    EffectOfGet("a", Base(false));
    assert {} + {(0, "a")} == {(0, "a")};
    var r := Rule(true, "get|a");
    assert Interpret(OnlyGet(), "+get|a") == Apply(r);
    assert Log([], r) == [r];
    assert SetSelector(OnlyGet(), Created(), "+get|a") == AclRules.Selector(Perms({}, {(0, "a")}), [r]);
    NothingRebuilt();
    RebuiltMore(OnlyGet(), Created(), [], "+get|a", Created());
    assert [] + ["+get|a"] == ["+get|a"];
  }

  lemma NothingRebuilt()
    ensures Rebuilt(OnlyGet(), Created(), [], KeywordsOnly) == Some(Created())
  {
  }

  /** The text splits at the blank. */
  lemma BlankSplits(rest: string)
    requires SplitArgs.Word(rest) && SplitArgs.Plain(rest)
    ensures SplitArgs.Split("+get|a " + rest) == SplitArgs.Arguments(["+get|a", rest])
  {
    hide *;
    GetWord();
    assert "+get|a" + " " + rest == "+get|a " + rest;
    TwoWords("+get|a", rest);
  }

  lemma BlankRebuilt(rest: string)
    requires Interpret(OnlyGet(), rest) == NotACommandRule
    ensures Rebuilt(OnlyGet(), Created(), ["+get|a", rest], KeywordsOnly)
            == if IsKeyword(rest) then Some(AclRules.Selector(Perms({}, {(0, "a")}), [Rule(true, "get|a")])) else None
  {
    hide Interpret, IsKeyword, Rebuilt, Created;
    GetRebuilt();
    var x := AclRules.Selector(Perms({}, {(0, "a")}), [Rule(true, "get|a")]);
    RebuiltMore(OnlyGet(), Created(), ["+get|a"], rest, x);
    assert ["+get|a"] + [rest] == ["+get|a", rest];
  }

  // ---- Both failures -----------------------------------------------------------------------------------------

  lemma BlankDescribed(rest: string)
    requires SplitArgs.Word(rest) && SplitArgs.Plain(rest) && Interpret(OnlyGet(), rest) == NotACommandRule
    ensures Describable(OnlyGet(), "+get|a " + rest, {}) <==> IsKeyword(rest)
  {
    hide Interpret, IsKeyword, Rebuilt, SplitArgs.Split, SplitArgs.Word, SplitArgs.Plain;
    BlankSplits(rest);
    BlankRebuilt(rest);
    assert Created() == AclRules.Selector(Base(RESERVED in {}), []);
  }

  /** "+get|a b" is accepted and logged; then the word "b" is refused, and the description panics. */
  lemma BlankPanics()
    ensures Interpret(OnlyGet(), "+get|a " + "b") == Apply(Rule(true, "get|a " + "b"))
    ensures TextAfter("", Interpret(OnlyGet(), "+get|a " + "b")) == "+get|a " + "b"
    ensures !Describable(OnlyGet(), "+get|a " + "b", AfterBlank("b").perms.bits)
  {
    hide *;
    LetterB();
    BlankIsLogged("b");
    BlankDescribed("b");
  }

  /** "+get|a allkeys" is accepted and logged; the description passes, but describes another rule. */
  lemma BlankChanges()
    ensures Describable(OnlyGet(), "+get|a " + "allkeys", AfterBlank("allkeys").perms.bits)
    ensures AfterBlank("allkeys").perms.args == {(0, "a " + "allkeys")}
    ensures var r := Rebuilt(OnlyGet(), Created(), ["+get|a", "allkeys"], KeywordsOnly);
            r.Some? && r.value.perms.args == {(0, "a")}
  {
    hide *;
    AllKeys();
    BlankIsLogged("allkeys");
    BlankDescribed("allkeys");
    BlankRebuilt("allkeys");
  }

  /** The same in terms of the log: it reads back as other words. */
  lemma BlankReadsOther()
    ensures var rules := [Rule(true, "get|a b")]; SplitArgs.Split(Join(rules)) != SplitArgs.Arguments(Texts(rules))
  {
    var rules := [Rule(true, "get|a b")];
    assert ' ' in rules[0].body && SplitArgs.IsSpecial(' ');
    hide SplitArgs.Split, Join, Texts;
    LogReadsBack(rules);
  }
}
