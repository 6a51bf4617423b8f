/**
  What an ACL operation on commands means (src/acl.c), by its text and by the permissions before and
  after: which texts are accepted, which bits and first arguments change, and which error is given.
 */
module AclMeaning {
  import opened AclRules
  import opened AclText
  import opened AclSelector

  // ---- Case ---------------------------------------------------------------------------------------------------

  lemma LowerKeeps(op: string)
    ensures Lower(Lower(op)) == Lower(op) && |Lower(op)| == |op|
    ensures forall i :: 0 <= i < |op| ==>
              && (Lower(op)[i] == '+' <==> op[i] == '+') && (Lower(op)[i] == '-' <==> op[i] == '-')
              && (Lower(op)[i] == '@' <==> op[i] == '@') && (Lower(op)[i] == '|' <==> op[i] == '|')
  {
    LowerIdempotent(op);
  }

  lemma LowerTails(op: string, i: nat, j: nat)
    requires i <= j <= |op|
    ensures Lower(Lower(op)[i..j]) == Lower(op[i..j]) == Lower(op)[i..j]
  {
    LowerSlice(op, i, j);
    LowerIdempotent(op[i..j]);
  }

  lemma LowerHead(op: string)
    requires op != ""
    ensures Lower(op) == [LowerChar(op[0])] + Lower(op[1..])
  {
    LowerSlice(op, 1, |op|);
    assert op[1..|op|] == op[1..] && Lower(op)[1..|op|] == Lower(op)[1..];
  }

  lemma SameBars(op: string)
    ensures '|' in Lower(op) <==> '|' in op
  {
    LowerKeeps(op);
    assert forall i :: 0 <= i < |op| ==> op[i] in op && Lower(op)[i] in Lower(op);
  }

  /** Two texts that agree on their signs, bars and lower-case parts. */
  lemma SameRequest(t: Table, op: string, low: string)
    requires Lower(low) == Lower(op) && |low| == |op| && ('|' in low <==> '|' in op) && LastBar(low) == LastBar(op)
    requires op != "" ==> (low[0] == '+' <==> op[0] == '+') && (low[0] == '-' <==> op[0] == '-')
    requires |op| > 1 ==> (low[1] == '@' <==> op[1] == '@') && Lower(low[2..]) == Lower(op[2..])
    requires op != "" ==> Lower(low[1..]) == Lower(op[1..])
    requires 0 < LastBar(op) < |op| ==> Lower(low[1..LastBar(op)]) == Lower(op[1..LastBar(op)])
    ensures Interpret(t, op) == Interpret(t, low)
  {
    hide Lower, LastBar;
  }

  /** Case does not matter. */
  lemma AnyCase(t: Table, op: string)
    ensures Interpret(t, op) == Interpret(t, Lower(op))
  {
    hide Interpret;
    LowerKeeps(op);
    LowerBar(op);
    SameBars(op);
    if op != "" { SameTail(op); }
    if 0 < LastBar(op) < |op| { LowerTails(op, 1, LastBar(op)); }
    SameRequest(t, op, Lower(op));
  }

  lemma SameTail(op: string)
    requires op != ""
    ensures Lower(Lower(op)[1..]) == Lower(op[1..])
    ensures |op| > 1 ==> Lower(Lower(op)[2..]) == Lower(op[2..])
  {
    LowerTails(op, 1, |op|);
    assert Lower(op)[1..|op|] == Lower(op)[1..] && op[1..|op|] == op[1..];
    if |op| > 1 {
      LowerTails(op, 2, |op|);
      assert Lower(op)[2..|op|] == Lower(op)[2..] && op[2..|op|] == op[2..];
    }
  }

  // ---- Accepted operations ------------------------------------------------------------------------------------

  lemma RuleOf(t: Table, op: string)
    requires Interpret(t, op).Apply?
    ensures op != "" && (op[0] == '+' || op[0] == '-')
    ensures Interpret(t, op).rule == Rule(op[0] == '+', Lower(op[1..])) && Lower(op) == Text(Interpret(t, op).rule)
  {
    hide LastBar, Lower;
    assert op != "";
    LowerHead(op);
  }

  lemma BodyLower(op: string, r: Rule)
    requires Lower(op) == Text(r)
    ensures Lower(r.body) == r.body
  {
    LowerHead(op);
    LowerIdempotent(op[1..]);
    assert Text(r)[1..] == r.body == Lower(op[1..]);
  }

  /** An operation is taken as a rule if and only if its text is, but for case, that of the well-formed rule. */
  lemma AcceptedExactly(t: Table, op: string, r: Rule)
    requires AclRules.Valid(t)
    ensures Interpret(t, op) == Apply(r) <==> RuleOk(t, r) && Lower(op) == Text(r)
  {
    hide AclRules.Valid, RuleOk, Interpret, Lower, Text;
    if Interpret(t, op) == Apply(r) {
      InterpretOk(t, op);
      RuleOf(t, op);
    }
    if RuleOk(t, r) && Lower(op) == Text(r) {
      BodyLower(op, r);
      RuleReadsBack(t, r);
      AnyCase(t, op);
    }
  }

  lemma BarAt(s: string, p: nat)
    requires p < |s| && s[p] == '|' && '|' !in s[p + 1..]
    ensures LastBar(s) == p
  {
    hide LastBar;
    var q := LastBar(s);
    assert '|' in s;
    assert forall i :: p < i < |s| ==> s[p + 1..][i - p - 1] == s[i];
    assert forall i :: q < i < |s| ==> s[q + 1..][i - q - 1] == s[i];
  }

  /** The text of an operation on a name with a '|', and its parts. */
  lemma BarredParts(n: string, rest: string)
    requires '|' !in rest
    ensures var low := "+" + n + "|" + rest;
            && '|' in low && LastBar(low) == |n| + 1 && low[1..|n| + 1] == n && low[1..] == n + "|" + rest
            && (n == "" || n[0] != '@' ==> low[1] != '@')
  {
    var low := "+" + n + "|" + rest;
    assert low[|n| + 1] == '|';
    assert low[|n| + 2..] == rest;
    BarAt(low, |n| + 1);
  }

  /** Below a subcommand there is nothing, and a '|' needs a name after it. */
  lemma RefusedBelow(t: Table, op: string, n: string, rest: string)
    requires AclRules.Valid(t) && n in t.commands && '|' !in rest && Lower(op) == "+" + n + "|" + rest
    ensures t.commands[n].isSub ==> Interpret(t, op) == Refused(IsChild)
    ensures !t.commands[n].isSub && rest == "" ==> Interpret(t, op) == Refused(Invalid)
    ensures !t.commands[n].isSub && t.commands[n].subcommands != {} && rest != "" && n + "|" + rest !in t.commands ==>
              Interpret(t, op) == Refused(NoEntry)
  {
    assert n[0] != '@' by { assert CommandOk(t, n); }
    hide AclRules.Valid, Interpret;
    AnyCase(t, op);
    BarredParts(n, rest);
    LowerIdempotent(op);
    LowerTails(op, 1, |n| + 1);
    SameTail(op);
    LowerHead(op);
    BarredRequest(t, Lower(op), n, rest);
  }

  lemma BarredRequest(t: Table, low: string, n: string, rest: string)
    requires Lower(low) == low == "+" + n + "|" + rest && '|' in low && low[1] != '@' && n in t.commands
    requires LastBar(low) == |n| + 1 && Lower(low[1..|n| + 1]) == n && Lower(low[1..]) == n + "|" + rest
    ensures t.commands[n].isSub ==> Interpret(t, low) == Refused(IsChild)
    ensures !t.commands[n].isSub && rest == "" ==> Interpret(t, low) == Refused(Invalid)
    ensures !t.commands[n].isSub && t.commands[n].subcommands != {} && rest != "" && n + "|" + rest !in t.commands ==>
              Interpret(t, low) == Refused(NoEntry)
  {
    hide Lower, LastBar;
    assert |low| == |n| + 2 + |rest|;
    assert low != "allcommands" && low != "+@all" && low != "nocommands" && low != "-@all";
  }

  /** A name or a category that is not in the tables is refused, under either sign. */
  lemma RefusedUnknown(t: Table, op: string, n: string)
    requires Lower(op) == "+" + n || Lower(op) == "-" + n
    ensures n !in t.commands && '|' !in n && (n == "" || n[0] != '@') ==> Interpret(t, op) == Refused(NoEntry)
    ensures Lower(op)[0] == '-' && n !in t.commands && (n == "" || n[0] != '@') ==>
              Interpret(t, op) == Refused(NoEntry)
    ensures n != "" && n[0] == '@' && n != "@all" && n[1..] !in t.categories ==> Interpret(t, op) == Refused(NoEntry)
  {
    AnyCase(t, op);
    LowerIdempotent(op);
    SameTail(op);
    LowerHead(op);
    var low := Lower(op);
    assert low[1..] == n && Lower(op[1..]) == n;
    assert '|' in low <==> '|' in n by { assert forall i :: 0 <= i < |n| ==> n[i] == low[i + 1]; }
    if |op| > 1 {
      LowerTails(op, 2, |op|);
      assert low[2..|op|] == low[2..] == n[1..] && Lower(low[2..]) == low[2..];
    }
    assert low != "allcommands" && low != "nocommands" && (low == "+@all" || low == "-@all" ==> n == "@all");
    hide Lower, LastBar;
  }

  // ---- Permissions --------------------------------------------------------------------------------------------

  function Sign(allow: bool): string { if allow then "+" else "-" }

  /** The bit is that of the command or of one of its subcommands. */
  ghost predicate Within(t: Table, n: string, i: nat) {
    n in t.commands && (i == t.commands[n].id
                        || exists s :: s in t.commands[n].subcommands && s in t.commands && i == t.commands[s].id)
  }

  /** Naming a command writes its bit and those of its subcommands, and forgets its first arguments. */
  lemma CommandMeans(t: Table, s: AclRules.Selector, op: string, n: string, allow: bool)
    requires AclRules.Valid(t) && n in t.commands && Lower(op) == Sign(allow) + n
    ensures var p, q := s.perms, SetSelector(t, s, op).perms;
            && (forall i :: i in q.bits <==> if Within(t, n, i) then allow else i in p.bits)
            && (forall a :: a in q.args <==> a in p.args && a.0 != t.commands[n].id)
  {
    var r := Rule(allow, n);
    CommandEffect(t, s.perms, n, allow);
    AcceptedExactly(t, op, r);
    hide AclRules.Valid, Interpret, Effect, Lower, RuleOk, Log, Within, CommandIds;
    forall i ensures i in CommandIds(t, n) <==> Within(t, n, i) { IdsMean(t, n, i); }
  }

  lemma IdsMean(t: Table, n: string, i: nat)
    requires n in t.commands
    ensures i in CommandIds(t, n) <==> Within(t, n, i)
  {
  }

  /** Naming a category does the same for each command and subcommand in it. */
  lemma CategoryMeans(t: Table, s: AclRules.Selector, op: string, cat: string, allow: bool)
    requires AclRules.Valid(t) && cat in t.categories && Lower(op) == Sign(allow) + "@" + cat
    ensures var p, q := s.perms, SetSelector(t, s, op).perms;
            && (forall i :: i in q.bits <==>
                  if exists n :: n in t.commands && cat in t.commands[n].categories && Within(t, n, i)
                  then allow else i in p.bits)
            && (forall a :: a in q.args <==>
                  && a in p.args
                  && forall n :: n in t.commands && cat in t.commands[n].categories ==> a.0 != t.commands[n].id)
  {
    var b := "@" + cat;
    var r := Rule(allow, b);
    assert b[1..] == cat && Sign(allow) + "@" + cat == Sign(allow) + b;
    CategoryEffect(t, s.perms, b, allow);
    AcceptedExactly(t, op, r);
    hide AclRules.Valid, Interpret, Effect, Lower, RuleOk, Log, Within, Touched, IdsOf;
    forall i ensures i in Touched(t, Members(t, cat)) <==>
        exists n :: n in t.commands && cat in t.commands[n].categories && Within(t, n, i)
    {
      TouchedMeans(t, cat, i);
    }
    forall i ensures i in IdsOf(t, Members(t, cat)) <==>
        exists n :: n in t.commands && cat in t.commands[n].categories && i == t.commands[n].id
    {
      MembersMean(t, cat, i);
    }
  }

  lemma TouchedMeans(t: Table, cat: string, i: nat)
    ensures i in Touched(t, Members(t, cat)) <==>
            exists n :: n in t.commands && cat in t.commands[n].categories && Within(t, n, i)
  {
    assert forall n :: n in t.commands ==> (i in CommandIds(t, n) <==> Within(t, n, i));
    hide CommandIds, Within;
  }

  lemma MembersMean(t: Table, cat: string, i: nat)
    ensures i in IdsOf(t, Members(t, cat)) <==>
            exists n :: n in t.commands && cat in t.commands[n].categories && i == t.commands[n].id
  {
  }

  /** A first argument is added to those of its command; no bit changes. */
  lemma FirstArgMeans(t: Table, s: AclRules.Selector, op: string, n: string, arg: string)
    requires AclRules.Valid(t) && n in t.commands && !t.commands[n].isSub && t.commands[n].subcommands == {}
    requires arg != "" && '|' !in arg && Lower(op) == "+" + n + "|" + arg
    ensures var p, q := s.perms, SetSelector(t, s, op).perms;
            q.bits == p.bits && q.args == p.args + {(t.commands[n].id, arg)}
  {
    hide AclRules.Valid, Interpret, Effect, Lower, RuleOk, LastBar, Log;
    var b := n + "|" + arg;
    assert "+" + n + "|" + arg == Text(Rule(true, b));
    BodyLower(op, Rule(true, b));
    FirstArgParts(n, arg);
    assert b[|n|] == '|';
    FirstArgEffect(t, s.perms, b);
    AcceptedExactly(t, op, Rule(true, b));
  }

  lemma FirstArgParts(n: string, arg: string)
    requires '|' !in arg && Lower(n + "|" + arg) == n + "|" + arg
    ensures var b := n + "|" + arg;
            LastBar(b) == |n| && b[..|n|] == n && b[|n| + 1..] == arg && Lower(b[|n| + 1..]) == arg
  {
    hide LastBar;
    var b := n + "|" + arg;
    assert b[|n|] == '|' && b[|n| + 1..] == arg == b[|n| + 1..|b|];
    BarAt(b, |n|);
    LowerSlice(b, |n| + 1, |b|);
  }

  /** The words for everything and for nothing set every bit alike, and forget all first arguments and the log. */
  lemma AllMeans(t: Table, s: AclRules.Selector, op: string)
    ensures var q := SetSelector(t, s, op);
            && (Lower(op) in {"allcommands", "+@all"} ==>
                  (forall i: nat :: i in q.perms.bits <==> i < BITS) && q.perms.args == {} && q.rules == [])
            && (Lower(op) in {"nocommands", "-@all"} ==>
                  q.perms.bits == {} && q.perms.args == {} && q.rules == [])
  {
    AllOrNothing(t, op);
    hide Interpret, Lower;
    assert forall i: nat :: i < BITS ==> IsBit(i);
  }

  // ---- The log ------------------------------------------------------------------------------------------------

  lemma {:induction false} RemoveConcat(a: seq<Rule>, b: seq<Rule>, body: string)
    ensures Remove(a + b, body) == Remove(a, body) + Remove(b, body)
    decreases |b|
  {
    hide Supersedes;
    if b == [] {
      assert a + b == a && Remove(b, body) == [];
    } else {
      var most, last := b[..|b| - 1], b[|b| - 1];
      hide Remove;
      RemoveConcat(a, most, body);
      RemoveLast(a + most, last, body);
      RemoveLast(most, last, body);
      assert a + most + [last] == a + b && most + [last] == b;
    }
  }

  /** Each logged rule stays in its place unless the new one is the same text or, cut at a '|', a prefix of it. */
  lemma RemovesExactly(a: seq<Rule>, x: Rule, b: seq<Rule>, body: string)
    ensures Remove(a + [x] + b, body)
            == Remove(a, body) + (if x.body == body || body + "|" <= x.body then [] else [x]) + Remove(b, body)
  {
    assert Supersedes(body, x.body) <==> x.body == body || body + "|" <= x.body by {
      if Supersedes(body, x.body) && x.body != body { PrefixAt(x.body, |body|); }
      if body + "|" <= x.body { assert x.body[..|body|] == body && x.body[|body|] == '|'; }
    }
    hide Supersedes, Remove;
    RemoveConcat(a + [x], b, body);
    RemoveLast(a, x, body);
  }
}
