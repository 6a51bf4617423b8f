/**
  ACL command rules (src/acl.c): what a single rule does to a selector's permission bitmap
  and first-argument table, and why the compacted log of rules replays to the same result.
 */
module AclRules {

  const BITS: nat := 1024           // USER_COMMAND_BITS_COUNT
  const RESERVED: nat := BITS - 1   // set only by +@all: future commands are allowed

  /** A command or subcommand, by its full lower-case name ("get", "config", "config|get"). */
  datatype Command = Command(id: nat, categories: set<string>, subcommands: set<string>, isSub: bool)

  datatype Table = Table(commands: map<string, Command>, categories: set<string>)

  function LowerChar(c: char): (r: char)
    ensures 'A' <= c <= 'Z' ==> 'a' <= r <= 'z' && r as int - 'a' as int == c as int - 'A' as int
  {
    if 'A' <= c <= 'Z' then c - 'A' + 'a' else c
  }

  function Lower(s: string): (r: string)
    ensures |r| == |s| && forall i :: 0 <= i < |s| ==> r[i] == LowerChar(s[i])
  {
    seq(|s|, i requires 0 <= i < |s| => LowerChar(s[i]))
  }

  ghost predicate CommandOk(t: Table, n: string)
    requires n in t.commands
  {
    var c := t.commands[n];
    && c.id < RESERVED
    && n != "" && n[0] != '@' && Lower(n) == n
    && ('|' in n <==> c.isSub)
    && (c.isSub ==>
          && c.subcommands == {} && LastBar(n) + 1 < |n|
          && n[..LastBar(n)] in t.commands && !t.commands[n[..LastBar(n)]].isSub)
    && c.subcommands <= t.commands.Keys
    && (forall s :: s in c.subcommands ==> t.commands[s].isSub && n + "|" <= s)
    && (forall s :: s in t.commands && n + "|" <= s ==> s in c.subcommands)
  }

  /** A command table: distinct ids below the reserved bit, subcommands listed by their container. */
  ghost predicate Valid(t: Table) {
    && (forall n :: n in t.commands ==> CommandOk(t, n))
    && (forall n, m | n in t.commands && m in t.commands :: t.commands[n].id == t.commands[m].id ==> n == m)
    && (forall c :: c in t.categories ==> '|' !in c && Lower(c) == c && c != "all")
  }

  // ---- Rules ----------------------------------------------------------------------------------

  /** One rule of the log: its sign and what follows the sign. */
  datatype Rule = Rule(allow: bool, body: string)

  /** The position of the last '|', or the length if there is none. */
  function LastBar(s: string): (p: nat)
    ensures p <= |s| && (p < |s| <==> '|' in s)
    ensures p < |s| ==> s[p] == '|' && '|' !in s[p + 1..]
  {
    if s == "" then 0
    else if s[|s| - 1] == '|' then |s| - 1
    else
      var p := LastBar(s[..|s| - 1]);
      if p == |s| - 1 then |s| else p
  }

  predicate IsCategory(t: Table, b: string) { b != "" && b[0] == '@' && b[1..] in t.categories }
  predicate IsCommand(t: Table, b: string) { b in t.commands }

  /** "cmd|arg" for a command without subcommands. */
  predicate IsFirstArg(t: Table, b: string) {
    var p := LastBar(b);
    && p < |b| && b[..p] in t.commands && p + 1 < |b|
    && !t.commands[b[..p]].isSub && t.commands[b[..p]].subcommands == {}
  }

  ghost predicate RuleOk(t: Table, r: Rule) {
    IsCategory(t, r.body) || IsCommand(t, r.body) || (IsFirstArg(t, r.body) && r.allow)
  }

  // ---- Effects --------------------------------------------------------------------------------

  /** The bitmap, and the allowed first arguments (lower-cased) by command id. */
  datatype Perms = Perms(bits: set<nat>, args: set<(nat, string)>)

  /** ACLChangeSelectorPerm: the command's own bit and those of its subcommands. */
  ghost function CommandIds(t: Table, n: string): set<nat>
    requires n in t.commands
  {
    {t.commands[n].id} + (set s | s in t.commands[n].subcommands && s in t.commands :: t.commands[s].id)
  }

  /** The commands and subcommands of a category. */
  ghost function Members(t: Table, cat: string): set<string> {
    set n | n in t.commands && cat in t.commands[n].categories
  }

  /** The ids whose bit the rule writes. */
  ghost function Touch(t: Table, b: string): set<nat> {
    if IsCategory(t, b) then set n, i | n in Members(t, b[1..]) && i in CommandIds(t, n) :: i
    else if IsCommand(t, b) then CommandIds(t, b)
    else {}
  }

  /** The ids whose first arguments the rule resets. */
  ghost function Reset(t: Table, b: string): set<nat> {
    if IsCategory(t, b) then set n | n in Members(t, b[1..]) :: t.commands[n].id
    else if IsCommand(t, b) then {t.commands[b].id}
    else {}
  }

  /** The first argument the rule adds. */
  ghost function Added(t: Table, b: string): set<(nat, string)> {
    if !IsCategory(t, b) && !IsCommand(t, b) && IsFirstArg(t, b)
    then {(t.commands[b[..LastBar(b)]].id, Lower(b[LastBar(b) + 1..]))}
    else {}
  }

  ghost function Effect(t: Table, p: Perms, r: Rule): Perms {
    Perms(if r.allow then p.bits + Touch(t, r.body) else p.bits - Touch(t, r.body),
          (set a | a in p.args && a.0 !in Reset(t, r.body)) + Added(t, r.body))
  }

  ghost function Replay(t: Table, p: Perms, rules: seq<Rule>): Perms
    decreases |rules|
  {
    if rules == [] then p else Effect(t, Replay(t, p, rules[..|rules| - 1]), rules[|rules| - 1])
  }

  ghost predicate IsBit(i: nat) { i < BITS }

  ghost function AllBits(): set<nat> { set i: nat | 0 <= i < BITS && IsBit(i) }

  ghost function Base(all: bool): Perms { Perms(if all then AllBits() else {}, {}) }

  // ---- The log ----------------------------------------------------------------------------------

  /** Does a new rule supersede an existing one: the same body, or a subcommand or first argument of it? */
  predicate Supersedes(newBody: string, existing: string) {
    existing == newBody || (|existing| > |newBody| && existing[..|newBody|] == newBody && existing[|newBody|] == '|')
  }

  function Remove(rules: seq<Rule>, body: string): (r: seq<Rule>)
    ensures forall x :: x in r ==> x in rules
    decreases |rules|
  {
    if rules == [] then []
    else
      var most, last := Remove(rules[..|rules| - 1], body), rules[|rules| - 1];
      if Supersedes(body, last.body) then most else most + [last]
  }

  /** ACLUpdateCommandRules on the log as a list. */
  function Log(rules: seq<Rule>, r: Rule): seq<Rule> { Remove(rules, r.body) + [r] }

  // ---- Removing superseded rules does not change the replay --------------------------------------

  /** Two states that a rule with this body makes equal. */
  ghost predicate Alike(t: Table, p: Perms, q: Perms, body: string) {
    && (forall i :: i !in Touch(t, body) ==> (i in p.bits <==> i in q.bits))
    && (forall a: (nat, string) :: a.0 !in Reset(t, body) && a !in Added(t, body) ==> (a in p.args <==> a in q.args))
  }

  /** First arguments are kept only for commands that are not subcommands. */
  ghost predicate ArgsOk(t: Table, p: Perms) {
    forall a :: a in p.args ==> forall n :: n in t.commands && t.commands[n].id == a.0 ==> !t.commands[n].isSub
  }

  lemma EffectAlike(t: Table, p: Perms, q: Perms, r: Rule, body: string)
    requires Alike(t, p, q, body)
    ensures Alike(t, Effect(t, p, r), Effect(t, q, r), body)
  {
    hide Touch, Reset, Added;
  }

  lemma SameRuleEqual(t: Table, p: Perms, q: Perms, r: Rule)
    requires Alike(t, p, q, r.body)
    ensures Effect(t, p, r) == Effect(t, q, r)
  {
    hide Touch, Reset, Added;
    assert Effect(t, p, r).bits == Effect(t, q, r).bits;
    assert Effect(t, p, r).args == Effect(t, q, r).args;
  }

  lemma BarPosition(t: Table, b: string, k: nat)
    requires Valid(t) && IsFirstArg(t, b) && k < |b| && b[k] == '|'
    ensures k == LastBar(b)
  {
    hide LastBar;
    var p := LastBar(b);
    assert '|' !in b[..p] by { assert CommandOk(t, b[..p]); }
    hide Valid, CommandOk, Lower;
    OnlyBar(b, p, k);
  }

  lemma OnlyBar(b: string, p: nat, k: nat)
    requires p < |b| && k < |b| && b[k] == '|' && '|' !in b[..p] && '|' !in b[p + 1..]
    ensures k == p
  {
    assert forall i :: 0 <= i < p ==> b[..p][i] == b[i];
    assert forall i :: p < i < |b| ==> b[p + 1..][i - p - 1] == b[i];
  }

  /** A superseded rule touches nothing that the superseding rule does not overwrite. */
  lemma SupersededAlike(t: Table, p: Perms, x: Rule, r: Rule)
    requires Valid(t) && RuleOk(t, x) && RuleOk(t, r) && Supersedes(r.body, x.body) && ArgsOk(t, p)
    ensures Alike(t, Effect(t, p, x), p, r.body)
  {
    if x.body == r.body {
      hide Touch, Reset, Added, ArgsOk, Valid, RuleOk;
    } else {
      SupersededKind(t, x.body, r.body);
      hide Valid, Touch, Reset, Added, ArgsOk;
      if IsCommand(t, x.body) { SubcommandAlike(t, p, x, r.body); } else { FirstArgAlike(t, p, x, r.body); }
    }
  }

  lemma SupersededKind(t: Table, x: string, n: string)
    requires Valid(t) && x != n && Supersedes(n, x)
    ensures n + "|" <= x && !IsCategory(t, x)
  {
    assert x[|n|] == '|' && n <= x;
    assert forall i :: 0 < i < |x| ==> x[1..][i - 1] == x[i];
  }

  lemma SubcommandAlike(t: Table, p: Perms, x: Rule, n: string)
    requires Valid(t) && ArgsOk(t, p) && x.body in t.commands && n + "|" <= x.body && !IsCategory(t, x.body)
    requires IsCategory(t, n) || IsCommand(t, n) || IsFirstArg(t, n)
    ensures Alike(t, Effect(t, p, x), p, n)
  {
    SupersededCommand(t, x.body, n);
    hide Valid, CommandIds;
    CoveredAlike(t, p, x, n);
  }

  lemma FirstArgAlike(t: Table, p: Perms, x: Rule, n: string)
    requires Valid(t) && ArgsOk(t, p) && IsFirstArg(t, x.body) && !IsCommand(t, x.body) && !IsCategory(t, x.body)
    requires n + "|" <= x.body
    ensures Alike(t, Effect(t, p, x), p, n)
  {
    assert x.body[|n|] == '|' && x.body[..|n|] == n;
    BarPosition(t, x.body, |n|);
    assert CommandOk(t, n);
    hide Valid, CommandOk, CommandIds;
    CoveredAlike(t, p, x, n);
  }

  lemma PrefixBar(n: string)
    ensures LastBar(n) < |n| ==> n[..LastBar(n)] + "|" <= n
  {
    hide LastBar;
    if LastBar(n) < |n| { PrefixAt(n, LastBar(n)); }
  }

  lemma PrefixAt(n: string, p: nat)
    requires p < |n| && n[p] == '|'
    ensures n[..p] + "|" <= n
  {
    assert n[..p + 1] == n[..p] + "|";
  }

  /** The writes and resets of x are covered by those of r; what it adds, r resets. */
  lemma CoveredAlike(t: Table, p: Perms, x: Rule, body: string)
    requires ArgsOk(t, p) && Touch(t, x.body) <= Touch(t, body)
    requires forall a :: a in p.args && a.0 in Reset(t, x.body) ==> a.0 in Reset(t, body)
    requires forall a :: a in Added(t, x.body) ==> a.0 in Reset(t, body)
    ensures Alike(t, Effect(t, p, x), p, body)
  {
    hide Touch, Reset, Added, ArgsOk;
  }

  lemma SupersededCommand(t: Table, x: string, n: string)
    requires Valid(t) && x in t.commands && n + "|" <= x
    requires IsCategory(t, n) || IsCommand(t, n) || IsFirstArg(t, n)
    ensures IsCommand(t, n) && !IsCategory(t, n) && x in t.commands[n].subcommands && t.commands[x].isSub
    ensures t.commands[x].subcommands == {} && CommandIds(t, x) == {t.commands[x].id}
            && CommandIds(t, x) <= CommandIds(t, n)
  {
    assert CommandOk(t, x);
    assert x[|n|] == '|';
    assert n != "" ==> n[0] == x[0];
    var p := LastBar(n);
    PrefixBar(n);
    assert n[..p] in t.commands ==> CommandOk(t, n[..p]);
    assert !IsFirstArg(t, n);
    assert CommandOk(t, n);
  }

  lemma EffectArgs(t: Table, p: Perms, r: Rule)
    requires Valid(t) && ArgsOk(t, p) && RuleOk(t, r)
    ensures ArgsOk(t, Effect(t, p, r))
  {
    forall a, n | a in Effect(t, p, r).args && n in t.commands && t.commands[n].id == a.0 ensures !t.commands[n].isSub {
      if a !in p.args { assert a in Added(t, r.body); }
    }
  }

  lemma AlikeTransitive(t: Table, p: Perms, q: Perms, s: Perms, body: string)
    requires Alike(t, p, q, body) && Alike(t, q, s, body)
    ensures Alike(t, p, s, body)
  {
    hide Touch, Reset, Added;
  }

  ghost predicate RulesOk(t: Table, rules: seq<Rule>) { forall x :: x in rules ==> RuleOk(t, x) }

  lemma {:induction false} ReplayArgs(t: Table, p: Perms, rules: seq<Rule>)
    requires Valid(t) && ArgsOk(t, p) && RulesOk(t, rules)
    ensures ArgsOk(t, Replay(t, p, rules))
    decreases |rules|
  {
    hide ArgsOk, Valid, RuleOk;
    if rules != [] {
      ReplayArgs(t, p, rules[..|rules| - 1]);
      EffectArgs(t, Replay(t, p, rules[..|rules| - 1]), rules[|rules| - 1]);
    }
  }

  lemma {:induction false} RemoveAlike(t: Table, p: Perms, rules: seq<Rule>, r: Rule)
    requires Valid(t) && ArgsOk(t, p) && RulesOk(t, rules) && RuleOk(t, r)
    ensures Alike(t, Replay(t, p, rules), Replay(t, p, Remove(rules, r.body)), r.body)
    decreases |rules|
  {
    hide ArgsOk, Valid, RuleOk, Effect, Supersedes;
    if rules != [] {
      var most, last := rules[..|rules| - 1], rules[|rules| - 1];
      var a, b := Replay(t, p, most), Replay(t, p, Remove(most, r.body));
      RemoveAlike(t, p, most, r);
      if Supersedes(r.body, last.body) {
        ReplayArgs(t, p, most);
        SupersededAlike(t, a, last, r);
        AlikeTransitive(t, Effect(t, a, last), a, b, r.body);
      } else {
        EffectAlike(t, a, b, last, r.body);
        assert (Remove(most, r.body) + [last])[..|Remove(most, r.body)|] == Remove(most, r.body);
      }
    } else {
      assert Alike(t, p, p, r.body);
    }
  }

  /** The compacted log replays to what applying the rule to the replay of the old log gives. */
  lemma LogReplays(t: Table, p: Perms, rules: seq<Rule>, r: Rule)
    requires Valid(t) && ArgsOk(t, p) && RulesOk(t, rules) && RuleOk(t, r)
    ensures Replay(t, p, Log(rules, r)) == Effect(t, Replay(t, p, rules), r)
  {
    hide ArgsOk, Valid, RuleOk;
    RemoveAlike(t, p, rules, r);
    SameRuleEqual(t, Replay(t, p, rules), Replay(t, p, Remove(rules, r.body)), r);
    assert Log(rules, r)[..|Remove(rules, r.body)|] == Remove(rules, r.body);
  }

  // ---- Operations as text -----------------------------------------------------------------------

  datatype Error = NoEntry | IsChild | Invalid

  /** What an operation given to ACLSetSelector asks for, as far as commands are concerned. */
  datatype Request =
    | AllCommands
    | NoCommands
    | Apply(rule: Rule)
    | Refused(error: Error)
    | NotACommandRule      // keys, channels, or nothing known

  function Interpret(t: Table, op: string): Request {
    var low := Lower(op);
    if low == "allcommands" || low == "+@all" then AllCommands
    else if low == "nocommands" || low == "-@all" then NoCommands
    else if op == "" || (op[0] != '+' && op[0] != '-') then NotACommandRule
    else if |op| > 1 && op[1] == '@' then
      if Lower(op[2..]) in t.categories then Apply(Rule(op[0] == '+', Lower(op[1..]))) else Refused(NoEntry)
    else if op[0] == '-' || '|' !in op then
      if Lower(op[1..]) in t.commands then Apply(Rule(op[0] == '+', Lower(op[1..]))) else Refused(NoEntry)
    else
      var p := LastBar(op);
      var container := Lower(op[1..p]);
      if container !in t.commands then Refused(NoEntry)
      else if t.commands[container].isSub then Refused(IsChild)
      else if p + 1 == |op| then Refused(Invalid)
      else if t.commands[container].subcommands != {} && Lower(op[1..]) !in t.commands then Refused(NoEntry)
      else Apply(Rule(true, Lower(op[1..])))
  }

  /** A selector's command state: permissions and the log as a list. */
  datatype Selector = Selector(perms: Perms, rules: seq<Rule>)

  ghost function SetSelector(t: Table, s: Selector, op: string): Selector {
    match Interpret(t, op)
    case AllCommands => Selector(Base(true), [])
    case NoCommands => Selector(Base(false), [])
    case Apply(r) => Selector(Effect(t, s.perms, r), Log(s.rules, r))
    case _ => s
  }

  ghost function Created(): Selector { Selector(Base(false), []) }

  ghost function SetAll(t: Table, ops: seq<string>): Selector
    decreases |ops|
  {
    if ops == [] then Created() else SetSelector(t, SetAll(t, ops[..|ops| - 1]), ops[|ops| - 1])
  }

  lemma LowerSlice(s: string, i: nat, j: nat)
    requires i <= j <= |s|
    ensures Lower(s)[i..j] == Lower(s[i..j])
  {
  }

  lemma LowerIdempotent(s: string)
    ensures Lower(Lower(s)) == Lower(s)
  {
  }

  lemma LowerBar(s: string)
    ensures LastBar(Lower(s)) == LastBar(s)
    decreases |s|
  {
    if s != "" {
      LowerSlice(s, 0, |s| - 1);
      LowerBar(s[..|s| - 1]);
    }
  }

  /** The text after the sign, in lower case, splits at the same '|'. */
  lemma LowerTail(op: string)
    requires op != "" && op[0] != '|' && '|' in op
    ensures var b, p := Lower(op[1..]), LastBar(op);
            LastBar(b) == p - 1 && b[..p - 1] == Lower(op[1..p]) && |b| == |op| - 1
  {
    LastBarTail(op);
    LowerBar(op[1..]);
    LowerSlice(op[1..], 0, LastBar(op[1..]));
  }

  /** An accepted operation is a well-formed rule, written in lower case. */
  lemma InterpretOk(t: Table, op: string)
    requires Valid(t) && Interpret(t, op).Apply?
    ensures RuleOk(t, Interpret(t, op).rule) && Lower(Interpret(t, op).rule.body) == Interpret(t, op).rule.body
  {
    hide Valid, Lower, LastBar;
    LowerIdempotent(op[1..]);
    if |op| > 1 && op[1] == '@' {
      LowerAt(op);
    } else if op[0] == '+' && '|' in op {
      LowerTail(op);
    }
  }

  lemma LowerAt(op: string)
    requires |op| > 1 && op[1] == '@'
    ensures var b := Lower(op[1..]); b != "" && b[0] == '@' && b[1..] == Lower(op[2..])
  {
    LowerSlice(op[1..], 1, |op| - 1);
    assert op[1..][1..] == op[2..];
  }

  lemma LastBarTail(op: string)
    requires op != "" && op[0] != '|'
    ensures '|' in op <==> '|' in op[1..]
    ensures '|' in op ==> LastBar(op) == LastBar(op[1..]) + 1 && op[1..LastBar(op)] == op[1..][..LastBar(op) - 1]
    decreases |op|
  {
    if |op| > 1 {
      LastBarTail(op[..|op| - 1]);
      assert op[1..][..|op| - 2] == op[..|op| - 1][1..];
    }
  }

  // ---- Every history of operations -----------------------------------------------------------------

  /** The log is well formed and replays, from +@all or -@all by the reserved bit, to the permissions. */
  ghost predicate SelectorOk(t: Table, s: Selector) {
    && RulesOk(t, s.rules)
    && (forall r :: r in s.rules ==> Lower(r.body) == r.body)
    && s.perms == Replay(t, Base(RESERVED in s.perms.bits), s.rules)
  }

  lemma ReservedUntouched(t: Table, p: Perms, r: Rule)
    requires Valid(t) && RuleOk(t, r)
    ensures RESERVED in Effect(t, p, r).bits <==> RESERVED in p.bits
  {
    if RESERVED in Touch(t, r.body) {
      if IsCategory(t, r.body) {
        var n, i :| n in Members(t, r.body[1..]) && i in CommandIds(t, n) && i == RESERVED;
        IdsBelowReserved(t, n);
      } else {
        IdsBelowReserved(t, r.body);
      }
    }
  }

  lemma IdBelowReserved(t: Table, n: string)
    requires Valid(t) && n in t.commands
    ensures t.commands[n].id < RESERVED
  {
    assert CommandOk(t, n);
  }

  lemma IdsBelowReserved(t: Table, n: string)
    requires Valid(t) && n in t.commands
    ensures forall i :: i in CommandIds(t, n) ==> i < RESERVED
  {
    IdBelowReserved(t, n);
    forall s | s in t.commands[n].subcommands && s in t.commands ensures t.commands[s].id < RESERVED {
      IdBelowReserved(t, s);
    }
    hide Valid;
  }

  lemma SetSelectorOk(t: Table, s: Selector, op: string)
    requires Valid(t) && SelectorOk(t, s)
    ensures SelectorOk(t, SetSelector(t, s, op))
  {
    var req := Interpret(t, op);
    hide Interpret, Valid;
    if req.Apply? {
      var r, base := req.rule, Base(RESERVED in s.perms.bits);
      InterpretOk(t, op);
      LogReplays(t, base, s.rules, r);
      ReservedUntouched(t, s.perms, r);
      hide Effect, Replay, Base;
    } else if req.AllCommands? || req.NoCommands? {
      ReservedInBase();
    }
  }

  lemma ReservedInBase()
    ensures RESERVED in Base(true).bits && RESERVED !in Base(false).bits
  {
    assert IsBit(RESERVED);
  }

  /** After any sequence of operations the log replays to the very same bitmap and first arguments. */
  lemma {:induction false} HistoryReplays(t: Table, ops: seq<string>)
    requires Valid(t)
    ensures SelectorOk(t, SetAll(t, ops))
    decreases |ops|
  {
    hide SelectorOk, SetSelector, Valid;
    if ops == [] {
      CreatedOk(t);
    } else {
      HistoryReplays(t, ops[..|ops| - 1]);
      SetSelectorOk(t, SetAll(t, ops[..|ops| - 1]), ops[|ops| - 1]);
    }
  }

  lemma CreatedOk(t: Table)
    ensures SelectorOk(t, Created())
  {
    ReservedInBase();
  }
}
