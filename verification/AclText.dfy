/**
  The command rules of a selector as text (src/acl.c): the string `command_rules`, the loop
  that deletes superseded rules from it in place, and splitting it back into rules.
 */
module AclText {
  import opened AclRules

  function Text(r: Rule): string { (if r.allow then "+" else "-") + r.body }

  /** Each rule followed by a space. */
  function Spaced(rules: seq<Rule>): string
    decreases |rules|
  {
    if rules == [] then "" else Spaced(rules[..|rules| - 1]) + Text(rules[|rules| - 1]) + " "
  }

  /** The rules separated by single spaces. */
  function Join(rules: seq<Rule>): string {
    if rules == [] then "" else Spaced(rules[..|rules| - 1]) + Text(rules[|rules| - 1])
  }

  ghost predicate NoSpaces(rules: seq<Rule>) { forall r :: r in rules ==> ' ' !in r.body }

  lemma {:induction false} SpacedConcat(a: seq<Rule>, b: seq<Rule>)
    ensures Spaced(a + b) == Spaced(a) + Spaced(b)
    decreases |b|
  {
    hide Text;
    if b == [] {
      assert a + b == a;
    } else {
      var most, last := b[..|b| - 1], b[|b| - 1];
      SpacedConcat(a, most);
      assert (a + b)[..|a + b| - 1] == a + most && (a + b)[|a + b| - 1] == last;
      assert Spaced(b) == Spaced(most) + Text(last) + " ";
      assert Spaced(a + b) == Spaced(a + most) + Text(last) + " ";
      hide Spaced;
      Assoc(Spaced(a), Spaced(most), Text(last));
      Assoc(Spaced(a), Spaced(most) + Text(last), " ");
    }
  }

  lemma Assoc(a: string, b: string, c: string)
    ensures (a + b) + c == a + (b + c)
  {
  }

  lemma JoinConcat(a: seq<Rule>, b: seq<Rule>)
    requires b != []
    ensures Join(a + b) == Spaced(a) + Join(b)
  {
    hide Text;
    var most, last := b[..|b| - 1], b[|b| - 1];
    assert (a + b)[..|a + b| - 1] == a + most;
    SpacedConcat(a, most);
    Assoc(Spaced(a), Spaced(most), Text(last));
    hide Spaced;
  }

  /** A list of rules in the text: its first rule ends at the end or at a space. */
  lemma JoinFirst(t: Rule, rest: seq<Rule>)
    ensures Join([t] + rest) == if rest == [] then Text(t) else Text(t) + " " + Join(rest)
  {
    hide Text;
    assert [t][..0] == [] && [t] + [] == [t];
    assert Spaced([t]) == Text(t) + " ";
    if rest != [] {
      hide Join, Spaced;
      JoinConcat([t], rest);
    }
  }

  lemma RemoveLast(rules: seq<Rule>, last: Rule, body: string)
    ensures Remove(rules + [last], body) == Remove(rules, body) + if Supersedes(body, last.body) then [] else [last]
  {
    hide Supersedes;
    assert (rules + [last])[..|rules|] == rules;
  }

  lemma {:induction false} RemoveFirst(t: Rule, rest: seq<Rule>, body: string)
    ensures Remove([t] + rest, body) == (if Supersedes(body, t.body) then [] else [t]) + Remove(rest, body)
    decreases |rest|
  {
    if rest == [] {
      assert Remove([], body) == [];
      hide Remove, Supersedes;
      RemoveLast([], t, body);
      assert [t] + rest == [] + [t];
    } else {
      hide Remove, Supersedes;
      var most, last := rest[..|rest| - 1], rest[|rest| - 1];
      RemoveFirst(t, most, body);
      RemoveLast(most, last, body);
      RemoveLast([t] + most, last, body);
      assert most + [last] == rest && [t] + most + [last] == [t] + rest;
    }
  }

  /** strchr(s + from, ' '), or the end of the string. */
  function FindSpace(s: string, from: nat): (e: nat)
    requires from <= |s|
    ensures from <= e <= |s| && (e < |s| ==> s[e] == ' ')
    ensures forall i :: from <= i < e ==> s[i] != ' '
    decreases |s| - from
  {
    if from == |s| || s[from] == ' ' then from else FindSpace(s, from + 1)
  }

  lemma FindSpaceIs(s: string, from: nat, e: nat)
    requires from <= e <= |s| && (e < |s| ==> s[e] == ' ')
    requires forall i :: from <= i < e ==> s[i] != ' '
    ensures FindSpace(s, from) == e
  {
  }

  /** Where the scan stands: the text before it, the rule at it, and the rest of the text. */
  ghost predicate At(out: string, i: nat, before: string, t: Rule, after: string) {
    i == |before| && out == before + Text(t) + after && (after == "" || after[0] == ' ') && ' ' !in t.body
  }

  lemma RuleAt(out: string, i: nat, before: string, t: Rule, after: string)
    requires At(out, i, before, t, after)
    ensures i < |out| && FindSpace(out, i + 1) == i + |Text(t)| <= |out|
    ensures out[i + 1..i + |Text(t)|] == t.body && out[..i] == before && out[i + |Text(t)|..] == after
  {
    var e := i + |Text(t)|;
    assert out[i..e] == Text(t);
    assert forall k :: i < k < e ==> out[k] == t.body[k - i - 1];
    assert e < |out| ==> out[e] == after[0];
    FindSpaceIs(out, i + 1, e);
  }

  /** The comparison of the source: equal up to the shorter length, and equal or cut off at a '|'. */
  predicate Compares(existing: string, newRule: string) {
    var n := if |existing| < |newRule| then |existing| else |newRule|;
    && existing[..n] == newRule[..n]
    && (|existing| == |newRule| || (|existing| > |newRule| && existing[|newRule|] == '|'))
  }

  lemma ComparesIsSupersedes(existing: string, newRule: string)
    ensures Compares(existing, newRule) <==> Supersedes(newRule, existing)
  {
  }

  /** The state of the scan: rules kept so far, rules still ahead. */
  ghost predicate Scan(out: string, i: nat, kept: seq<Rule>, rest: seq<Rule>) {
    if rest == [] then out == Join(kept) && i == |out|
    else out == Spaced(kept) + Join(rest) && i == |Spaced(kept)|
  }

  lemma ScanAt(out: string, i: nat, kept: seq<Rule>, rest: seq<Rule>)
    requires Scan(out, i, kept, rest) && rest != [] && ' ' !in rest[0].body
    ensures At(out, i, Spaced(kept), rest[0], if |rest| == 1 then "" else " " + Join(rest[1..]))
  {
    hide Spaced, Text, Join;
    assert rest == [rest[0]] + rest[1..];
    JoinFirst(rest[0], rest[1..]);
    if |rest| > 1 {
      Assoc(Text(rest[0]), " ", Join(rest[1..]));
      Assoc(Spaced(kept), Text(rest[0]), " " + Join(rest[1..]));
    } else {
      assert Spaced(kept) + Text(rest[0]) == Spaced(kept) + Text(rest[0]) + "";
    }
  }

  /** Deleting the rule at the scan position, with the space after it or, for the last one, before it. */
  lemma ScanDelete(out: string, i: nat, kept: seq<Rule>, rest: seq<Rule>, out': string, i': nat)
    requires rest != [] && i == |Spaced(kept)| <= |out| && out[..i] == Spaced(kept)
    requires if |rest| > 1 then out' == out[..i] + Join(rest[1..]) && i' == i
             else i' == (if i == 0 then 0 else i - 1) && out' == out[..i']
    ensures Scan(out', i', kept, rest[1..])
  {
    if |rest| == 1 && kept != [] {
      assert Spaced(kept) == Join(kept) + " ";
      assert out' == Spaced(kept)[..i'] == Join(kept);
    }
  }

  lemma ScanKeep(out: string, i: nat, kept: seq<Rule>, rest: seq<Rule>)
    requires Scan(out, i, kept, rest) && rest != []
    requires i + |Text(rest[0])| <= |out|
    ensures Scan(out, if |rest| == 1 then |out| else i + |Text(rest[0])| + 1, kept + [rest[0]], rest[1..])
  {
    var t := rest[0];
    assert (kept + [t])[..|kept|] == kept;
    assert rest == [t] + rest[1..];
    JoinFirst(t, rest[1..]);
    hide Text, Join;
    if |rest| == 1 {
      JoinConcat(kept, [t]);
      JoinFirst(t, []);
      assert [t] + [] == [t];
    } else {
      Assoc(Spaced(kept), Text(t) + " ", Join(rest[1..]));
      Assoc(Spaced(kept), Text(t), " ");
      assert Spaced(kept + [t]) == Spaced(kept) + Text(t) + " ";
    }
  }

  /** One turn of the deletion loop: the rule at the scan position is deleted or stepped over. */
  lemma ScanStep(out: string, i: nat, kept: seq<Rule>, rest: seq<Rule>, newRule: string)
    requires Scan(out, i, kept, rest) && i < |out| && NoSpaces(rest)
    ensures rest != [] && i < FindSpace(out, i + 1) <= |out|
    ensures var ruleEnd := FindSpace(out, i + 1);
            var copyPosition := if ruleEnd == |out| && i != 0 then i - 1 else i;
            var copyEnd := if ruleEnd < |out| then ruleEnd + 1 else ruleEnd;
            if Compares(out[i + 1..ruleEnd], newRule)
            then Remove(rest, newRule) == Remove(rest[1..], newRule)
                 && Scan(out[..copyPosition] + out[copyEnd..], copyPosition, kept, rest[1..])
            else Remove(rest, newRule) == [rest[0]] + Remove(rest[1..], newRule)
                 && Scan(out, copyEnd, kept + [rest[0]], rest[1..])
  {
    hide Text, Join, Spaced, Compares, Remove, At, FindSpace, Supersedes, Scan;
    assert rest != [] by { ScanNonempty(out, i, kept, rest); }
    assert rest[0] in rest && rest == [rest[0]] + rest[1..];
    var ruleEnd := FindSpace(out, i + 1);
    ghost var after := if |rest| == 1 then "" else " " + Join(rest[1..]);
    ScanAt(out, i, kept, rest);
    RuleAt(out, i, Spaced(kept), rest[0], after);
    RemoveFirst(rest[0], rest[1..], newRule);
    ComparesIsSupersedes(out[i + 1..ruleEnd], newRule);
    if Compares(out[i + 1..ruleEnd], newRule) {
      assert [] + Remove(rest[1..], newRule) == Remove(rest[1..], newRule);
      ScanDeleted(out, i, kept, rest, ruleEnd, after);
    } else {
      ScanKeep(out, i, kept, rest);
    }
  }

  lemma ScanNonempty(out: string, i: nat, kept: seq<Rule>, rest: seq<Rule>)
    requires Scan(out, i, kept, rest) && i < |out|
    ensures rest != []
  {
    hide Join, Spaced;
  }

  lemma ScanDeleted(out: string, i: nat, kept: seq<Rule>, rest: seq<Rule>, ruleEnd: nat, after: string)
    requires rest != [] && after == (if |rest| == 1 then "" else " " + Join(rest[1..]))
    requires i < ruleEnd <= |out| && i == |Spaced(kept)| && out[..i] == Spaced(kept) && out[ruleEnd..] == after
    ensures var copyPosition := if ruleEnd == |out| && i != 0 then i - 1 else i;
            var copyEnd := if ruleEnd < |out| then ruleEnd + 1 else ruleEnd;
            Scan(out[..copyPosition] + out[copyEnd..], copyPosition, kept, rest[1..])
  {
    hide Join, Spaced, Scan;
    var copyPosition := if ruleEnd == |out| && i != 0 then i - 1 else i;
    var copyEnd := if ruleEnd < |out| then ruleEnd + 1 else ruleEnd;
    assert |after| == |out| - ruleEnd;
    if ruleEnd < |out| {
      assert out[copyEnd..] == after[1..] == Join(rest[1..]);
    } else {
      assert out[copyEnd..] == "" && out[..copyPosition] + "" == out[..copyPosition];
    }
    ScanDelete(out, i, kept, rest, out[..copyPosition] + out[copyEnd..], copyPosition);
  }

  /** The loop invariant of the deletion. */
  ghost predicate Deleting(out: string, i: nat, kept: seq<Rule>, rest: seq<Rule>, rules: seq<Rule>, newRule: string) {
    NoSpaces(rest) && Scan(out, i, kept, rest) && kept + Remove(rest, newRule) == Remove(rules, newRule)
  }

  lemma DeletingStep(out: string, i: nat, kept: seq<Rule>, rest: seq<Rule>, rules: seq<Rule>, newRule: string)
    requires Deleting(out, i, kept, rest, rules, newRule) && i < |out|
    ensures rest != [] && i < FindSpace(out, i + 1) <= |out|
    ensures var ruleEnd := FindSpace(out, i + 1);
            var copyPosition := if ruleEnd == |out| && i != 0 then i - 1 else i;
            var copyEnd := if ruleEnd < |out| then ruleEnd + 1 else ruleEnd;
            if Compares(out[i + 1..ruleEnd], newRule)
            then Deleting(out[..copyPosition] + out[copyEnd..], copyPosition, kept, rest[1..], rules, newRule)
            else Deleting(out, copyEnd, kept + [rest[0]], rest[1..], rules, newRule)
  {
    hide Scan, Compares, Remove, FindSpace;
    ScanStep(out, i, kept, rest, newRule);
    assert kept + ([rest[0]] + Remove(rest[1..], newRule)) == (kept + [rest[0]]) + Remove(rest[1..], newRule);
  }

  lemma DeletingEnds(out: string, i: nat, kept: seq<Rule>, rest: seq<Rule>, rules: seq<Rule>, newRule: string)
    requires Deleting(out, i, kept, rest, rules, newRule) && i >= |out|
    ensures out == Join(Remove(rules, newRule)) && i == |out|
  {
    assert forall r: Rule :: |Text(r)| > 0;
    assert rest == [] && kept + [] == kept;
  }

  lemma DeletingStarts(rules: seq<Rule>, newRule: string)
    requires NoSpaces(rules)
    ensures Deleting(Join(rules), 0, [], rules, rules, newRule)
  {
    assert [] + Remove(rules, newRule) == Remove(rules, newRule);
  }

  /** The text after the scan from i on: a word that the rule supersedes is deleted, any other stepped over. */
  function Deleted(text: string, i: nat, newRule: string): string
    requires i <= |text|
    decreases |text| - i
  {
    if i == |text| then text
    else
      var ruleEnd := FindSpace(text, i + 1);                                      // the sign is skipped
      var copyPosition := if ruleEnd == |text| && i != 0 then i - 1 else i;
      var copyEnd := if ruleEnd < |text| then ruleEnd + 1 else ruleEnd;
      if Compares(text[i + 1..ruleEnd], newRule)
      then Deleted(text[..copyPosition] + text[copyEnd..], copyPosition, newRule)
      else Deleted(text, copyEnd, newRule)
  }

  lemma {:induction false} DeletedScan(out: string, i: nat, kept: seq<Rule>, rest: seq<Rule>, rules: seq<Rule>,
                                       newRule: string)
    requires Deleting(out, i, kept, rest, rules, newRule) && i <= |out|
    ensures Deleted(out, i, newRule) == Join(Remove(rules, newRule))
    decreases |rest|
  {
    hide Deleting, FindSpace, Compares, Join, Remove;
    if i == |out| {
      DeletingEnds(out, i, kept, rest, rules, newRule);
    } else {
      DeletingStep(out, i, kept, rest, rules, newRule);
      var ruleEnd := FindSpace(out, i + 1);
      var copyPosition := if ruleEnd == |out| && i != 0 then i - 1 else i;
      var copyEnd := if ruleEnd < |out| then ruleEnd + 1 else ruleEnd;
      if Compares(out[i + 1..ruleEnd], newRule) {
        DeletedScan(out[..copyPosition] + out[copyEnd..], copyPosition, kept, rest[1..], rules, newRule);
      } else {
        DeletedScan(out, copyEnd, kept + [rest[0]], rest[1..], rules, newRule);
      }
    }
  }

  /** On rules without spaces, deleting from the text is removing from the list. */
  lemma DeletedIsRemove(rules: seq<Rule>, newRule: string)
    requires NoSpaces(rules)
    ensures Deleted(Join(rules), 0, newRule) == Join(Remove(rules, newRule))
  {
    hide Deleted, Join, Remove, Deleting;
    DeletingStarts(rules, newRule);
    DeletedScan(Join(rules), 0, [], rules, rules, newRule);
  }

  /** One turn of the loop: the word at i is deleted by a memmove, or stepped over. */
  method DeleteOrSkip(text: string, at: nat, newRule: string) returns (out: string, i: nat)
    requires at < |text|
    ensures i <= |out| && |out| - i < |text| - at && Deleted(out, i, newRule) == Deleted(text, at, newRule)
  {
    hide Compares, FindSpace;
    var ruleEnd := FindSpace(text, at + 1);
    var copyPosition := if ruleEnd == |text| && at != 0 then at - 1 else at;
    var copyEnd := if ruleEnd < |text| then ruleEnd + 1 else ruleEnd;
    if Compares(text[at + 1..ruleEnd], newRule) {
      out, i := text[..copyPosition] + text[copyEnd..], copyPosition;
    } else {
      out, i := text, copyEnd;
    }
  }

  /** ACLSelectorRemoveCommandRule: deletes superseded words from the text, one memmove each. */
  method RemoveCommandRule(text: string, newRule: string) returns (out: string)
    ensures out == Deleted(text, 0, newRule)
    ensures forall rules :: NoSpaces(rules) && text == Join(rules) ==> out == Join(Remove(rules, newRule))
  {
    hide Deleted, Join, Remove, NoSpaces;
    out := text;
    var i: nat := 0;                             // existing_rule
    while i < |out|
      invariant i <= |out| && Deleted(out, i, newRule) == Deleted(text, 0, newRule)
      decreases |out| - i
    {
      out, i := DeleteOrSkip(out, i, newRule);
    }
    Scanned(out, newRule);
    forall rules | NoSpaces(rules) && text == Join(rules) ensures out == Join(Remove(rules, newRule)) {
      DeletedIsRemove(rules, newRule);
    }
  }

  lemma Scanned(text: string, newRule: string)
    ensures Deleted(text, |text|, newRule) == text
  {
  }

  // ---- Reading the text back -----------------------------------------------------------------------

  lemma NotAll(t: Table, r: Rule)
    requires Valid(t) && RuleOk(t, r) && Lower(r.body) == r.body
    ensures var low := Lower(Text(r));
            low == Text(r) && low != "allcommands" && low != "nocommands" && low != "+@all" && low != "-@all"
  {
    var low := Lower(Text(r));
    assert forall i :: 0 < i < |low| ==> low[i] == LowerChar(r.body[i - 1]) == Lower(r.body)[i - 1];
    assert low == Text(r);
    assert low[0] == '+' || low[0] == '-';
    BodyStart(t, r);
    assert r.body != "@all" by { assert "@all"[1..] == "all"; assert '|' !in "@all"; }
    assert low[1..] == r.body && "+@all"[1..] == "@all" && "-@all"[1..] == "@all";
  }

  lemma BodyStart(t: Table, r: Rule)
    requires Valid(t) && RuleOk(t, r)
    ensures r.body != "" && (r.body[0] == '@' ==> IsCategory(t, r.body))
  {
    if IsCommand(t, r.body) {
      assert CommandOk(t, r.body);
    } else if IsFirstArg(t, r.body) {
      assert CommandOk(t, r.body[..LastBar(r.body)]);
    }
  }

  lemma BarReadsBack(t: Table, b: string)
    requires Valid(t) && '|' in b && (IsCommand(t, b) || IsFirstArg(t, b))
    ensures var c := b[..LastBar(b)];
            && c in t.commands && !t.commands[c].isSub && LastBar(b) + 1 < |b|
            && (t.commands[c].subcommands != {} ==> b in t.commands)
  {
    if IsCommand(t, b) {
      assert CommandOk(t, b);
    }
  }

  /** A rule read back from its text is the same rule. */
  lemma RuleReadsBack(t: Table, r: Rule)
    requires Valid(t) && RuleOk(t, r) && Lower(r.body) == r.body
    ensures Interpret(t, Text(r)) == Apply(r)
  {
    var op := Text(r);
    assert op[1..] == r.body;
    NotAll(t, r);
    BodyStart(t, r);
    hide Lower, Valid, LastBar;
    if IsCategory(t, r.body) {
      LowerAt(op);
    } else {
      LastBarTail(op);
      if r.allow && '|' in op {
        LowerTail(op);
        BarReadsBack(t, r.body);
      } else if r.allow {
        NoBar(r.body);
      }
    }
  }

  lemma NoBar(b: string)
    ensures '|' !in b ==> LastBar(b) == |b|
  {
  }
}
