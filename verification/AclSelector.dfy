/**
  The ACL selector object (src/acl.c) with its bitmap, first-argument table and textual log,
  each updated in place, proved against the list-level specification in AclRules.
 */
module AclSelector {
  import opened AclRules
  import opened AclText
  import opened Options
  import opened SetLoops
  import SplitArgs

  // ---- The text of a log and its words -----------------------------------------------------------

  function Texts(rules: seq<Rule>): (words: seq<string>)
    ensures |words| == |rules| && forall i :: 0 <= i < |rules| ==> words[i] == Text(rules[i])
  {
    seq(|rules|, i requires 0 <= i < |rules| => Text(rules[i]))
  }

  lemma {:induction false} JoinIsJoinWords(rules: seq<Rule>)
    ensures Join(rules) == SplitArgs.JoinWords(Texts(rules))
    decreases |rules|
  {
    if rules != [] {
      var t, rest := rules[0], rules[1..];
      assert rules == [t] + rest;
      JoinFirst(t, rest);
      JoinIsJoinWords(rest);
      assert Texts(rules)[1..] == Texts(rest);
      assert Text(t) + "" == Text(t);
      Assoc(Text(t), " ", Join(rest));
    }
  }

  /** No rule holds a blank or a quote. */
  ghost predicate PlainRules(rules: seq<Rule>) { forall r :: r in rules ==> SplitArgs.Plain(r.body) }

  /** The log reads back as the same rules exactly when no rule holds a blank or a quote. */
  lemma LogReadsBack(rules: seq<Rule>)
    ensures SplitArgs.Split(Join(rules)) == SplitArgs.Arguments(Texts(rules)) <==> PlainRules(rules)
  {
    JoinIsJoinWords(rules);
    forall w | w in Texts(rules) ensures SplitArgs.Word(w) {}
    SplitArgs.SplitsBackExactly(Texts(rules));
    forall r | r in rules ensures SplitArgs.Plain(Text(r)) <==> SplitArgs.Plain(r.body) { TextPlain(r); }
    forall r | r in rules ensures Text(r) in Texts(rules) {
      var i :| 0 <= i < |rules| && rules[i] == r;
      assert Texts(rules)[i] == Text(r);
    }
  }

  lemma TextPlain(r: Rule)
    ensures SplitArgs.Plain(Text(r)) <==> SplitArgs.Plain(r.body)
  {
    assert forall c :: c in Text(r) <==> c == Text(r)[0] || c in r.body;
  }

  // ---- A compacted log ------------------------------------------------------------------------------

  /** No rule is superseded by a later one. */
  ghost predicate Compact(rules: seq<Rule>) {
    forall i, j :: 0 <= i < j < |rules| ==> !Supersedes(rules[j].body, rules[i].body)
  }

  ghost predicate Spares(body: string, rules: seq<Rule>) { forall x :: x in rules ==> !Supersedes(body, x.body) }

  lemma CompactAppend(rules: seq<Rule>, r: Rule)
    requires Compact(rules) && Spares(r.body, rules)
    ensures Compact(rules + [r])
  {
    hide Supersedes;
  }

  /** Removal keeps a log compact: what stays keeps its order, and none of it is superseded. */
  lemma {:induction false} RemoveCompact(rules: seq<Rule>, body: string)
    requires Compact(rules)
    ensures Compact(Remove(rules, body)) && Spares(body, Remove(rules, body))
    decreases |rules|
  {
    if rules != [] {
      var most, last := rules[..|rules| - 1], rules[|rules| - 1];
      RemoveCompact(most, body);
      assert Spares(last.body, Remove(most, body)) by {
        hide Supersedes;
        forall x | x in Remove(most, body) ensures !Supersedes(last.body, x.body) {
          var i :| 0 <= i < |most| && most[i] == x;
        }
      }
      hide Compact, Supersedes;
      CompactAppend(Remove(most, body), last);
    }
  }

  /** Removal leaves alone a log it does not supersede. */
  lemma {:induction false} RemoveNothing(rules: seq<Rule>, body: string)
    requires Spares(body, rules)
    ensures Remove(rules, body) == rules
    decreases |rules|
  {
    hide Supersedes;
    if rules != [] {
      RemoveNothing(rules[..|rules| - 1], body);
      assert rules == rules[..|rules| - 1] + [rules[|rules| - 1]];
    }
  }

  lemma EmptyLog()
    ensures Compact([]) && PlainRules([]) && Join([]) == ""
  {
  }

  lemma LogCompact(rules: seq<Rule>, r: Rule)
    requires Compact(rules)
    ensures Compact(Log(rules, r))
  {
    RemoveCompact(rules, r.body);
    CompactAppend(Remove(rules, r.body), r);
  }

  /** Applying the rules of a compacted log in order, from the state its reserved bit names, is Replay. */
  lemma {:induction false} ApplyInOrder(t: Table, s: AclRules.Selector, k: nat)
    requires AclRules.Valid(t) && SelectorOk(t, s) && Compact(s.rules) && k < |s.rules|
    ensures var base := Base(RESERVED in s.perms.bits);
            SetSelector(t, AclRules.Selector(Replay(t, base, s.rules[..k]), s.rules[..k]), Text(s.rules[k]))
            == AclRules.Selector(Replay(t, base, s.rules[..k + 1]), s.rules[..k + 1])
  {
    RuleReadsBack(t, s.rules[k]);
    var before, after := s.rules[..k], s.rules[..k + 1];
    assert after[..k] == before && after == before + [after[k]];
    forall x | x in before ensures !Supersedes(after[k].body, x.body) {
      var i :| 0 <= i < k && before[i] == x;
    }
    RemoveNothing(before, after[k].body);
    hide Interpret, Effect, Remove, Supersedes, AclRules.Valid;
  }

  // ---- Reloading a log ---------------------------------------------------------------------------------

  /** The selector after the first k rules of the log of s have been applied again. */
  ghost function Loaded(t: Table, s: AclRules.Selector, k: nat): AclRules.Selector
    requires k <= |s.rules|
  {
    AclRules.Selector(Replay(t, Base(RESERVED in s.perms.bits), s.rules[..k]), s.rules[..k])
  }

  /** The operations on keys and channels that ACLSetSelector accepts without looking at their length. */
  predicate IsKeyword(op: string) {
    Lower(op) in {"allkeys", "~*", "resetkeys", "allchannels", "&*", "resetchannels"}
  }

  /** Which words, by their place and text, the rest of ACLSetSelector accepts: those about keys and channels. */
  type Elsewhere = (nat, string) -> bool

  /**
    When ACLSetSelector is not told the length of a word, every pattern of keys or channels is refused, because the
    terminator counts as a blank.
   */
  predicate KeywordsOnly(i: nat, word: string) { IsKeyword(word) }

  /** Does ACLSetSelector accept the word, given what its other part says? */
  predicate Accepted(t: Table, word: string, elsewhere: bool) {
    match Interpret(t, word)
    case Refused(_) => false
    case NotACommandRule => elsewhere
    case _ => true
  }

  /** Words applied in order; None as soon as one is refused. */
  ghost function Rebuilt(t: Table, s: AclRules.Selector, words: seq<string>,
                         other: Elsewhere): Option<AclRules.Selector>
    decreases |words|
  {
    if words == [] then Some(s)
    else
      match Rebuilt(t, s, words[..|words| - 1], other)
      case None => None
      case Some(x) =>
        var w := words[|words| - 1];
        if Accepted(t, w, other(|words| - 1, w)) then Some(SetSelector(t, x, w)) else None
  }

  /** What recomputing a selector from its text gives; None if an assertion fails. */
  ghost function Recomputed(t: Table, text: string, future: bool, other: Elsewhere): Option<AclRules.Selector> {
    match SplitArgs.Split(text)
    case Failed => None
    case Arguments(words) => Rebuilt(t, AclRules.Selector(Base(future), []), words, other)
  }

  /** What ACLDescribeSelectorCommandRules checks: the text splits, every word is accepted, and the bitmap comes out. */
  ghost predicate Describable(t: Table, text: string, bits: set<nat>) {
    var argv := SplitArgs.Split(text);
    && argv.Arguments?
    && var r := Rebuilt(t, AclRules.Selector(Base(RESERVED in bits), []), argv.args, KeywordsOnly);
       r.Some? && r.value.perms.bits == bits
  }

  /** The words for all commands and for none, in any case. */
  lemma AllOrNothing(t: Table, op: string)
    ensures Lower(op) in {"allcommands", "+@all"} ==> Interpret(t, op) == AllCommands
    ensures Lower(op) in {"nocommands", "-@all"} ==> Interpret(t, op) == NoCommands
  {
  }

  lemma LoadStarts(t: Table, s: AclRules.Selector, future: bool)
    ensures var op := if future then "+@all" else "-@all";
            Interpret(t, op) == (if future then AllCommands else NoCommands)
            && SetSelector(t, s, op) == AclRules.Selector(Base(future), [])
  {
    assert Lower("+@all") == "+@all" && Lower("-@all") == "-@all";
  }

  lemma LoadStep(t: Table, s: AclRules.Selector, k: nat)
    requires AclRules.Valid(t) && SelectorOk(t, s) && Compact(s.rules) && k < |s.rules|
    ensures SetSelector(t, Loaded(t, s, k), Text(s.rules[k])) == Loaded(t, s, k + 1)
    ensures forall other: bool :: Accepted(t, Text(s.rules[k]), other)
  {
    hide AclRules.Valid, Compact, Interpret, Replay, SetSelector;
    ApplyInOrder(t, s, k);
    RuleReadsBack(t, s.rules[k]);
  }

  lemma {:induction false} RebuiltUpto(t: Table, s: AclRules.Selector, k: nat, other: Elsewhere)
    requires AclRules.Valid(t) && SelectorOk(t, s) && Compact(s.rules) && k <= |s.rules|
    ensures Rebuilt(t, Loaded(t, s, 0), Texts(s.rules)[..k], other) == Some(Loaded(t, s, k))
    decreases k
  {
    hide AclRules.Valid, SelectorOk, Compact, Interpret, Replay, SetSelector, Loaded, Accepted, Text;
    if k > 0 {
      RebuiltUpto(t, s, k - 1, other);
      LoadStep(t, s, k - 1);
      assert Accepted(t, Text(s.rules[k - 1]), other(k - 1, Text(s.rules[k - 1])));
      assert Texts(s.rules)[..k][..k - 1] == Texts(s.rules)[..k - 1];
    }
  }

  /** A compacted log in agreement with its permissions rebuilds them, and itself. */
  lemma RebuiltLog(t: Table, s: AclRules.Selector, other: Elsewhere)
    requires AclRules.Valid(t) && SelectorOk(t, s) && Compact(s.rules)
    ensures Rebuilt(t, AclRules.Selector(Base(RESERVED in s.perms.bits), []), Texts(s.rules), other) == Some(s)
  {
    hide AclRules.Valid, Compact, Rebuilt, Text;
    RebuiltUpto(t, s, |s.rules|, other);
    assert Texts(s.rules)[..|s.rules|] == Texts(s.rules) && s.rules[..|s.rules|] == s.rules && s.rules[..0] == [];
  }

  /** Without blanks and quotes the description never panics. */
  lemma PlainIsDescribable(t: Table, s: AclRules.Selector)
    requires AclRules.Valid(t) && SelectorOk(t, s) && Compact(s.rules) && PlainRules(s.rules)
    ensures Describable(t, Join(s.rules), s.perms.bits)
  {
    hide AclRules.Valid, SelectorOk, Compact, Rebuilt, Join, Texts, Base;
    LogReadsBack(s.rules);
    RebuiltLog(t, s, KeywordsOnly);
  }

  // ---- First-argument tables ----------------------------------------------------------------------

  /** allowed_firstargs: for each command id the arguments as given, compared without case. */
  type FirstArgs = map<nat, seq<string>>

  ghost function ArgsOf(fa: FirstArgs): set<(nat, string)> {
    set id, k | id in fa && 0 <= k < |fa[id]| :: (id, Lower(fa[id][k]))
  }

  ghost function Without(args: set<(nat, string)>, ids: set<nat>): set<(nat, string)> {
    set a | a in args && a.0 !in ids
  }

  lemma WithoutTwice(args: set<(nat, string)>, a: set<nat>, b: set<nat>)
    ensures Without(Without(args, a), b) == Without(args, a + b)
  {
  }

  lemma ResetArgs(fa: FirstArgs, id: nat)
    ensures ArgsOf(fa - {id}) == Without(ArgsOf(fa), {id})
  {
    var fa' := fa - {id};
    forall a | a in ArgsOf(fa) && a.0 != id ensures a in ArgsOf(fa') {
      var i, k :| i in fa && 0 <= k < |fa[i]| && a == (i, Lower(fa[i][k]));
      assert i in fa' && fa'[i] == fa[i];
    }
  }

  lemma AddArg(fa: FirstArgs, id: nat, arg: string)
    ensures var items := if id in fa then fa[id] else [];
            ArgsOf(fa[id := items + [arg]]) == ArgsOf(fa) + {(id, Lower(arg))}
  {
    var items := if id in fa then fa[id] else [];
    var fa' := fa[id := items + [arg]];
    assert fa'[id][|items|] == arg;
    forall a | a in ArgsOf(fa) ensures a in ArgsOf(fa') {
      var i, k :| i in fa && 0 <= k < |fa[i]| && a == (i, Lower(fa[i][k]));
      assert fa'[i][k] == fa[i][k];
    }
    forall a | a in ArgsOf(fa') ensures a in ArgsOf(fa) + {(id, Lower(arg))} {
      var i, k :| i in fa' && 0 <= k < |fa'[i]| && a == (i, Lower(fa'[i][k]));
      if i == id && k == |items| { } else { assert i in fa && fa[i][k] == fa'[i][k]; }
    }
  }

  // ---- Sets of bits ----------------------------------------------------------------------------------

  ghost function Written(bits: set<nat>, ids: set<nat>, value: bool): set<nat> {
    if value then bits + ids else bits - ids
  }

  ghost function IdsOf(t: Table, names: set<string>): set<nat> {
    set s | s in names && s in t.commands :: t.commands[s].id
  }

  lemma WrittenNothing(t: Table, bits: set<nat>, value: bool)
    ensures Written(bits, IdsOf(t, {}), value) == bits
  {
    assert IdsOf(t, {}) == {};
  }

  lemma WrittenTwice(bits: set<nat>, a: set<nat>, b: set<nat>, value: bool)
    ensures Written(Written(bits, a, value), b, value) == Written(bits, a + b, value)
  {
  }

  lemma IdsOfMore(t: Table, names: set<string>, n: string)
    requires n in t.commands
    ensures IdsOf(t, names + {n}) == IdsOf(t, names) + {t.commands[n].id}
  {
  }

  ghost function Touched(t: Table, names: set<string>): set<nat> {
    set n, i | n in names && n in t.commands && i in CommandIds(t, n) :: i
  }

  lemma TouchedMore(t: Table, names: set<string>, n: string)
    requires n in t.commands
    ensures Touched(t, names + {n}) == Touched(t, names) + CommandIds(t, n)
  {
    hide CommandIds;
  }

  /** The permissions after ACLChangeSelectorPerm on each of the named commands. */
  ghost function Changed(t: Table, p: Perms, names: set<string>, allow: bool): Perms {
    Perms(Written(p.bits, Touched(t, names), allow), Without(p.args, IdsOf(t, names)))
  }

  lemma ChangedNothing(t: Table, p: Perms, allow: bool)
    ensures Changed(t, p, {}, allow) == p
  {
    assert Touched(t, {}) == {} && IdsOf(t, {}) == {};
    assert Without(p.args, {}) == p.args;
  }

  lemma ChangedMore(t: Table, p: Perms, names: set<string>, n: string, allow: bool)
    requires n in t.commands
    ensures var q := Changed(t, p, names, allow);
            Changed(t, p, names + {n}, allow)
            == Perms(Written(q.bits, CommandIds(t, n), allow), Without(q.args, {t.commands[n].id}))
  {
    hide Touched, CommandIds, IdsOf, Written, Without;
    TouchedMore(t, names, n);
    IdsOfMore(t, names, n);
    WrittenTwice(p.bits, Touched(t, names), CommandIds(t, n), allow);
    WithoutTwice(p.args, IdsOf(t, names), {t.commands[n].id});
  }

  lemma CommandIdsSplit(t: Table, n: string)
    requires n in t.commands
    ensures CommandIds(t, n) == {t.commands[n].id} + IdsOf(t, t.commands[n].subcommands)
  {
  }

  // ---- What each kind of rule does ---------------------------------------------------------------------

  lemma CommandEffect(t: Table, p: Perms, n: string, allow: bool)
    requires AclRules.Valid(t) && n in t.commands
    ensures Effect(t, p, Rule(allow, n))
            == Perms(Written(p.bits, CommandIds(t, n), allow), Without(p.args, {t.commands[n].id}))
    ensures RuleOk(t, Rule(allow, n))
  {
    assert CommandOk(t, n);
    hide CommandIds, AclRules.Valid;
    assert !IsCategory(t, n);
  }

  lemma LowerName(t: Table, n: string)
    requires AclRules.Valid(t) && n in t.commands
    ensures Lower(n) == n
  {
    assert CommandOk(t, n);
  }

  lemma CategoryEffect(t: Table, p: Perms, b: string, allow: bool)
    requires IsCategory(t, b)
    ensures Effect(t, p, Rule(allow, b)) == Changed(t, p, Members(t, b[1..]), allow)
    ensures RuleOk(t, Rule(allow, b))
  {
    var m := Members(t, b[1..]);
    assert Touch(t, b) == Touched(t, m) && Reset(t, b) == IdsOf(t, m);
    hide Touched, IdsOf, Touch, Reset, Members;
  }

  lemma EmptyCategory(t: Table, b: string)
    requires IsCategory(t, b)
    ensures Members(t, b[1..]) == {} ==> Touch(t, b) == {}
  {
  }

  lemma FirstArgEffect(t: Table, p: Perms, b: string)
    requires AclRules.Valid(t) && IsFirstArg(t, b)
    ensures Effect(t, p, Rule(true, b))
            == Perms(p.bits, p.args + {(t.commands[b[..LastBar(b)]].id, Lower(b[LastBar(b) + 1..]))})
    ensures RuleOk(t, Rule(true, b))
  {
    hide LastBar;
    FirstArgOnly(t, b);
    hide AclRules.Valid;
    assert Touch(t, b) == {} && Reset(t, b) == {};
    assert (set a | a in p.args && a.0 !in Reset(t, b)) == p.args;
  }

  /** A first argument is neither a category nor a command. */
  lemma FirstArgOnly(t: Table, b: string)
    requires AclRules.Valid(t) && IsFirstArg(t, b)
    ensures !IsCategory(t, b) && !IsCommand(t, b)
  {
    hide LastBar;
    var c := b[..LastBar(b)];
    assert CommandOk(t, c) && c != "" && c[0] == b[0];
    PrefixBar(b);
    assert c + "|" <= b && t.commands[c].subcommands == {};
  }

  /** The same for the text as given, in any case. */
  lemma FirstArgOf(t: Table, p: Perms, text: string)
    requires AclRules.Valid(t) && IsFirstArg(t, Lower(text))
    ensures LastBar(text) < |text| && Lower(text[..LastBar(text)]) in t.commands && RuleOk(t, Rule(true, Lower(text)))
    ensures Effect(t, p, Rule(true, Lower(text)))
            == Perms(p.bits, p.args + {(t.commands[Lower(text[..LastBar(text)])].id, Lower(text[LastBar(text) + 1..]))})
  {
    hide AclRules.Valid, Effect, Lower, RuleOk, LastBar;
    var b, q := Lower(text), LastBar(text);
    FirstArgEffect(t, p, b);
    LowerParts(text);
    assert LastBar(b) == q && q < |text|;
    assert b[..q] == Lower(text[..q]) && Lower(b[q + 1..]) == Lower(text[q + 1..]);
    hide IsFirstArg;
  }

  lemma LowerParts(text: string)
    ensures var q, b := LastBar(text), Lower(text);
            && LastBar(b) == q && |b| == |text|
            && (q < |text| ==> b[..q] == Lower(text[..q]) && Lower(b[q + 1..]) == Lower(text[q + 1..]))
  {
    hide LastBar;
    var q, b := LastBar(text), Lower(text);
    LowerBar(text);
    if q < |text| {
      LowerSlice(text, 0, q);
      LowerSlice(text, q + 1, |text|);
      LowerIdempotent(text[q + 1..]);
    }
  }

  /** A full bitmap stays full under a rule that denies nothing. */
  lemma FullStays(t: Table, p: Perms, r: Rule)
    requires AclRules.Valid(t) && RuleOk(t, r) && p.bits == AllBits() && (r.allow || Touch(t, r.body) == {})
    ensures Effect(t, p, r).bits == AllBits()
  {
    forall i | i in Touch(t, r.body) ensures i in AllBits() {
      if IsCategory(t, r.body) {
        var n :| n in Members(t, r.body[1..]) && i in CommandIds(t, n);
        IdsBelowReserved(t, n);
      } else {
        IdsBelowReserved(t, r.body);
      }
      assert IsBit(i);
    }
  }

  /** command_rules after ACLUpdateCommandRules, and after any operation. */
  function Updated(text: string, r: Rule): string {
    var kept := Deleted(text, 0, r.body);
    (if kept == "" then "" else kept + " ") + Text(r)
  }

  function TextAfter(text: string, req: Request): string {
    match req
    case AllCommands => ""
    case NoCommands => ""
    case Apply(r) => Updated(text, r)
    case _ => text
  }

  lemma TextsPlain(rules: seq<Rule>)
    requires PlainRules(rules)
    ensures forall w :: w in Texts(rules) ==> SplitArgs.Plain(w)
  {
    forall w | w in Texts(rules) ensures SplitArgs.Plain(w) {
      var i :| 0 <= i < |rules| && Texts(rules)[i] == w;
      TextPlain(rules[i]);
    }
  }

  lemma RequestPlain(t: Table, op: string)
    requires SplitArgs.Plain(op)
    ensures Interpret(t, op).Apply? ==> SplitArgs.Plain(Interpret(t, op).rule.body)
  {
    if op != "" { PlainLower(op); }
    hide SplitArgs.Plain;
  }

  lemma {:induction false} RefusedForEver(t: Table, s: AclRules.Selector, words: seq<string>, k: nat, other: Elsewhere)
    requires k <= |words| && Rebuilt(t, s, words[..k], other) == None
    ensures Rebuilt(t, s, words, other) == None
    decreases |words|
  {
    hide Accepted, SetSelector;
    if k == |words| {
      assert words[..k] == words;
    } else {
      assert words[..|words| - 1][..k] == words[..k];
      RefusedForEver(t, s, words[..|words| - 1], k, other);
    }
  }

  lemma PlainLower(op: string)
    requires SplitArgs.Plain(op) && op != ""
    ensures SplitArgs.Plain(Lower(op[1..]))
  {
    forall c | c in Lower(op[1..]) ensures !SplitArgs.IsSpecial(c) {
      var i :| 0 <= i < |op| - 1 && Lower(op[1..])[i] == c;
      assert op[i + 1] in op && c == LowerChar(op[i + 1]);
    }
  }

  lemma JoinAppend(rules: seq<Rule>, r: Rule)
    ensures Join(rules + [r]) == if Join(rules) == "" then Text(r) else Join(rules) + " " + Text(r)
  {
    assert (rules + [r])[..|rules|] == rules;
    if rules != [] {
      var most, last := rules[..|rules| - 1], rules[|rules| - 1];
      assert Text(last) != "";
      assert Join(rules) != "";
    }
  }

  lemma PlainLog(rules: seq<Rule>, r: Rule)
    requires PlainRules(rules) && SplitArgs.Plain(r.body)
    ensures PlainRules(Log(rules, r)) && NoSpaces(rules)
  {
    assert SplitArgs.IsSpecial(' ');
  }

  // ---- The object ---------------------------------------------------------------------------------

  class Selector {
    const table: Table              // server.orig_commands
    const allowed: array<bool>      // allowed_commands, bit by bit
    var allCommands: bool           // SELECTOR_FLAG_ALLCOMMANDS
    var firstArgs: FirstArgs        // allowed_firstargs
    var commandRules: string        // command_rules
    ghost var rules: seq<Rule>      // the log as a list

    ghost function Bits(): set<nat>
      reads allowed
    {
      set i: nat | 0 <= i < allowed.Length && allowed[i]
    }

    ghost function Value(): AclRules.Selector
      reads this, allowed
    {
      AclRules.Selector(Perms(Bits(), ArgsOf(firstArgs)), rules)
    }

    ghost predicate Valid()
      reads this, allowed
    {
      && AclRules.Valid(table) && allowed.Length == BITS
      && SelectorOk(table, Value()) && Compact(rules)
      && (allCommands ==> Bits() == AllBits())
    }

    /** The text spells out the log, and no rule holds a blank or a quote. */
    ghost predicate Faithful()
      reads this
    {
      commandRules == Join(rules) && PlainRules(rules)
    }

    /** ACLCreateSelector. */
    constructor (t: Table)
      requires AclRules.Valid(t)
      ensures Valid() && Faithful() && fresh(allowed) && table == t && Value() == Created() && commandRules == ""
    {
      table := t;
      allowed := new bool[BITS](_ => false);
      allCommands, firstArgs, commandRules, rules := false, map[], "", [];
      new;
      assert Bits() == {} && ArgsOf(firstArgs) == {};
      CreatedOk(table);
    }

    /** ACLSetSelectorCommandBit. */
    method SetCommandBit(id: nat, value: bool)
      requires allowed.Length == BITS
      modifies this`allCommands, allowed
      ensures Bits() == if id >= BITS then old(Bits()) else Written(old(Bits()), {id}, value)
      ensures allCommands == (old(allCommands) && (value || id >= BITS))
    {
      if id >= BITS { return; }
      allowed[id] := value;
      if !value { allCommands := false; }
    }

    /** ACLAddAllowedFirstArg: a case-insensitive duplicate is not added again. */
    method AddAllowedFirstArg(id: nat, sub: string)
      modifies this`firstArgs
      ensures ArgsOf(firstArgs) == old(ArgsOf(firstArgs)) + {(id, Lower(sub))}
    {
      var items := if id in firstArgs then firstArgs[id] else [];
      var i := 0;
      while i < |items|
        invariant 0 <= i <= |items| && firstArgs == old(firstArgs)
      {
        if Lower(items[i]) == Lower(sub) {
          assert (id, Lower(firstArgs[id][i])) in ArgsOf(firstArgs);
          return;
        }
        i := i + 1;
      }
      AddArg(firstArgs, id, sub);
      firstArgs := firstArgs[id := items + [sub]];
    }

    /** The loop over a container's subcommands in ACLChangeSelectorPerm, in any order. */
    method SetSubcommandBits(subs: set<string>, allow: bool)
      requires AclRules.Valid(table) && allowed.Length == BITS && subs <= table.commands.Keys
      modifies this`allCommands, allowed
      ensures Bits() == Written(old(Bits()), IdsOf(table, subs), allow)
      ensures allCommands == (old(allCommands) && (allow || subs == {}))
    {
      ghost var before := Bits();
      assert forall n :: n in table.commands ==> CommandOk(table, n) && table.commands[n].id < BITS;
      assert Split(subs, {}, subs);
      hide *;
      WrittenNothing(table, before, allow);
      var todo := subs;
      ghost var done: set<string> := {};
      while todo != {}
        invariant Split(subs, done, todo)
        invariant Bits() == Written(before, IdsOf(table, done), allow)
        invariant allCommands == (old(allCommands) && (allow || done == {}))
        decreases |todo|
      {
        var sub :| sub in todo;
        SplitStep(subs, done, todo, sub);
        var id := table.commands[sub].id;
        SetCommandBit(id, allow);
        IdsOfMore(table, done, sub);
        WrittenTwice(before, IdsOf(table, done), {id}, allow);
        todo, done := todo - {sub}, done + {sub};
      }
      SplitEnd(subs, done, todo);
    }

    /** ACLChangeSelectorPerm: the command's bit, its first arguments, its subcommands' bits. */
    method ChangeSelectorPerm(name: string, allow: bool)
      requires AclRules.Valid(table) && allowed.Length == BITS && name in table.commands
      modifies this`allCommands, this`firstArgs, allowed
      ensures Bits() == Written(old(Bits()), CommandIds(table, name), allow)
      ensures ArgsOf(firstArgs) == Without(old(ArgsOf(firstArgs)), {table.commands[name].id})
      ensures allCommands == (old(allCommands) && allow)
    {
      var cmd := table.commands[name];
      assert CommandOk(table, name);
      hide AclRules.Valid, CommandOk, ArgsOf, IdsOf;
      assert CommandIds(table, name) == {cmd.id} + IdsOf(table, cmd.subcommands) by { CommandIdsSplit(table, name); }
      SetCommandBit(cmd.id, allow);
      ResetArgs(firstArgs, cmd.id);
      firstArgs := firstArgs - {cmd.id};
      SetSubcommandBits(cmd.subcommands, allow);
    }

    /** ACLChangeSelectorPerm on each of some commands, in any order. */
    method ChangeEach(names: set<string>, allow: bool)
      requires AclRules.Valid(table) && allowed.Length == BITS && names <= table.commands.Keys
      modifies this`allCommands, this`firstArgs, allowed
      ensures Perms(Bits(), ArgsOf(firstArgs))
              == Changed(table, Perms(old(Bits()), old(ArgsOf(firstArgs))), names, allow)
      ensures allCommands == (old(allCommands) && (allow || names == {}))
    {
      ghost var before := Perms(Bits(), ArgsOf(firstArgs));
      assert Split(names, {}, names);
      hide *;
      ChangedNothing(table, before, allow);
      var todo := names;
      ghost var done: set<string> := {};
      while todo != {}
        invariant Split(names, done, todo)
        invariant Perms(Bits(), ArgsOf(firstArgs)) == Changed(table, before, done, allow)
        invariant allCommands == (old(allCommands) && (allow || done == {}))
        decreases |todo|
      {
        var name :| name in todo;
        SplitStep(names, done, todo, name);
        ChangedMore(table, before, done, name, allow);
        ChangeSelectorPerm(name, allow);
        todo, done := todo - {name}, done + {name};
      }
      SplitEnd(names, done, todo);
    }

    /** ACLSetSelectorCommandBitsForCategory: every command and subcommand of the category. */
    method SetBitsForCategory(category: string, allow: bool)
      requires AclRules.Valid(table) && allowed.Length == BITS
      modifies this`allCommands, this`firstArgs, allowed
      ensures Perms(Bits(), ArgsOf(firstArgs))
              == Changed(table, Perms(old(Bits()), old(ArgsOf(firstArgs))), Members(table, category), allow)
      ensures allCommands == (old(allCommands) && (allow || Members(table, category) == {}))
    {
      var members := set n | n in table.commands && category in table.commands[n].categories;
      assert members == Members(table, category);
      hide *;
      ChangeEach(members, allow);
    }

    /** ACLUpdateCommandRules: the superseded words go, the new rule comes last. */
    method UpdateCommandRules(rule: string, allow: bool)
      modifies this`commandRules, this`rules
      ensures rules == Log(old(rules), Rule(allow, Lower(rule)))
      ensures commandRules == Updated(old(commandRules), Rule(allow, Lower(rule)))
      ensures old(Faithful()) && SplitArgs.Plain(Lower(rule)) ==> Faithful()
    {
      var newRule := Lower(rule);
      ghost var r := Rule(allow, newRule);
      if Faithful() && SplitArgs.Plain(newRule) { PlainLog(rules, r); }
      hide Join, Remove, SplitArgs.Plain, PlainRules, NoSpaces, Deleted;
      commandRules := RemoveCommandRule(commandRules, newRule);
      JoinAppend(Remove(rules, newRule), r);
      if commandRules != "" { commandRules := commandRules + " "; }
      commandRules := commandRules + ((if allow then "+" else "-") + newRule);
      rules := Log(rules, r);
    }

    /** The object as ACLSetSelector leaves it after a rule: permissions, log, text and flag. */
    twostate predicate Applied(r: Rule)
      reads this, allowed
    {
      && RuleOk(table, r)
      && Value() == AclRules.Selector(Effect(table, old(Value()).perms, r), Log(old(rules), r))
      && commandRules == Updated(old(commandRules), r)
      && (old(Faithful()) && SplitArgs.Plain(r.body) ==> Faithful())
      && (allCommands ==> old(allCommands) && (r.allow || Touch(table, r.body) == {}))
    }

    method ApplyCommand(name: string, allow: bool)
      requires Valid() && name in table.commands
      modifies this`allCommands, this`firstArgs, this`commandRules, this`rules, allowed
      ensures Applied(Rule(allow, name))
    {
      hide AclRules.Valid, RuleOk, Bits, ArgsOf, Effect, Join, PlainRules, Updated,
           Log, Written, Without, CommandIds, Touch, SelectorOk, Compact, Lower, SplitArgs.Plain;
      LowerName(table, name);
      CommandEffect(table, Perms(Bits(), ArgsOf(firstArgs)), name, allow);
      ChangeSelectorPerm(name, allow);
      UpdateCommandRules(name, allow);
    }

    method ApplyCategory(body: string, allow: bool)
      requires Valid() && IsCategory(table, body) && Lower(body) == body
      modifies this`allCommands, this`firstArgs, this`commandRules, this`rules, allowed
      ensures Applied(Rule(allow, body))
    {
      hide AclRules.Valid, RuleOk, Bits, ArgsOf, Effect, Join, PlainRules, Updated,
           Log, Changed, Touch, Members, SelectorOk, Compact, Lower, SplitArgs.Plain;
      CategoryEffect(table, Perms(Bits(), ArgsOf(firstArgs)), body, allow);
      EmptyCategory(table, body);
      UpdateCommandRules(body, allow);
      SetBitsForCategory(body[1..], allow);
    }

    method ApplyFirstArg(text: string)
      requires Valid() && IsFirstArg(table, Lower(text))
      modifies this`allCommands, this`firstArgs, this`commandRules, this`rules, allowed
      ensures Applied(Rule(true, Lower(text)))
    {
      hide AclRules.Valid, RuleOk, ArgsOf, Effect, Join, PlainRules, Updated,
           Log, Touch, SelectorOk, Compact, Lower, Bits, IsFirstArg, LastBar, SplitArgs.Plain;
      FirstArgOf(table, Value().perms, text);
      var p := LastBar(text);
      AddAllowedFirstArg(table.commands[Lower(text[..p])].id, text[p + 1..]);
      UpdateCommandRules(text, true);
    }

    ghost predicate Cleared(value: bool)
      reads this, allowed
    {
      && Value() == AclRules.Selector(Base(value), []) && commandRules == "" && allCommands == value
      && firstArgs == map[] && forall i :: 0 <= i < allowed.Length ==> allowed[i] == value
    }

    /** +@all and -@all. */
    method SetAllCommands(value: bool)
      requires Valid()
      modifies this`allCommands, this`firstArgs, this`commandRules, this`rules, allowed
      ensures Cleared(value)
    {
      forall i | 0 <= i < allowed.Length { allowed[i] := value; }
      allCommands, firstArgs, commandRules, rules := value, map[], "", [];
      assert ArgsOf(firstArgs) == {};
      assert Bits() == Base(value).bits by { assert forall i: nat :: i < BITS ==> IsBit(i); }
    }

    /** The command branches of ACLSetSelector. */
    method Dispatch(op: string) returns (req: Request)
      requires Valid()
      modifies this`allCommands, this`firstArgs, this`commandRules, this`rules, allowed
      ensures req == Interpret(table, op)
      ensures req.Apply? ==> Applied(req.rule)
      ensures req.AllCommands? ==> Cleared(true)
      ensures req.NoCommands? ==> Cleared(false)
      ensures Lower(op) in {"allcommands", "+@all"} ==> Cleared(true)
      ensures Lower(op) in {"nocommands", "-@all"} ==> Cleared(false)
      ensures req.Refused? || req.NotACommandRule? ==> unchanged(this, allowed)
    {
      hide Applied, Cleared, Valid, Lower, LastBar;
      var low := Lower(op);
      if low == "allcommands" || low == "+@all" {
        SetAllCommands(true);
        return AllCommands;
      }
      if low == "nocommands" || low == "-@all" {
        SetAllCommands(false);
        return NoCommands;
      }
      if op == "" || (op[0] != '+' && op[0] != '-') { return NotACommandRule; }
      var allow, body := op[0] == '+', Lower(op[1..]);
      if |op| > 1 && op[1] == '@' {
        if Lower(op[2..]) !in table.categories { return Refused(NoEntry); }
        LowerAt(op);
        LowerIdempotent(op[1..]);
        ApplyCategory(body, allow);
        return Apply(Rule(allow, body));
      }
      if !allow || '|' !in op {
        if body !in table.commands { return Refused(NoEntry); }
        ApplyCommand(body, allow);
        return Apply(Rule(allow, body));
      }
      var p := LastBar(op);
      var container := Lower(op[1..p]);
      LowerTail(op);
      if container !in table.commands { return Refused(NoEntry); }
      if table.commands[container].isSub { return Refused(IsChild); }
      if p + 1 == |op| { return Refused(Invalid); }
      if table.commands[container].subcommands != {} {
        if body !in table.commands { return Refused(NoEntry); }
        ApplyCommand(body, true);
      } else {
        ApplyFirstArg(op[1..]);
      }
      return Apply(Rule(true, body));
    }

    /** ACLSetSelector, as far as commands are concerned. */
    method SetSelector(op: string) returns (req: Request)
      requires Valid()
      modifies this`allCommands, this`firstArgs, this`commandRules, this`rules, allowed
      ensures Valid() && req == Interpret(table, op)
      ensures Value() == AclRules.SetSelector(table, old(Value()), op)
      ensures commandRules == TextAfter(old(commandRules), req)
      ensures old(Faithful()) && (req.Apply? ==> SplitArgs.Plain(req.rule.body)) ==> Faithful()
      ensures req.AllCommands? || req.NoCommands? ==> Faithful()
      ensures Lower(op) in {"allcommands", "+@all"} ==>
                (forall i :: 0 <= i < BITS ==> allowed[i]) && firstArgs == map[] && commandRules == ""
      ensures Lower(op) in {"nocommands", "-@all"} ==>
                (forall i :: 0 <= i < BITS ==> !allowed[i]) && firstArgs == map[] && commandRules == ""
    {
      hide Lower, LastBar, SplitArgs.Plain, Interpret, Effect, AclRules.Valid, Replay, Supersedes, Join, Bits, ArgsOf,
           Log, RuleOk, Touch, SelectorOk, PlainRules, Compact, Updated;
      SetSelectorOk(table, Value(), op);
      AllOrNothing(table, op);
      req := Dispatch(op);
      if req.Apply? {
        LogCompact(old(rules), req.rule);
        if allCommands { FullStays(table, old(Value()).perms, req.rule); }
      } else if req.AllCommands? || req.NoCommands? {
        EmptyLog();
      }
    }

    /** Start from +@all or -@all and apply the words one by one; `ok` unless one is refused. */
    method Load(future: bool, words: seq<string>, other: Elsewhere) returns (ok: bool)
      requires Valid()
      modifies this`allCommands, this`firstArgs, this`commandRules, this`rules, allowed
      ensures Valid()
      ensures var r := Rebuilt(table, AclRules.Selector(Base(future), []), words, other);
              (ok <==> r.Some?) && (ok ==> Value() == r.value)
      ensures (forall w :: w in words ==> SplitArgs.Plain(w)) ==> Faithful()
    {
      hide Valid, Interpret, AclRules.SetSelector, Base, Faithful, SplitArgs.Plain, TextAfter;
      LoadStarts(table, Value(), future);
      var req := SetSelector(if future then "+@all" else "-@all");
      ghost var start := AclRules.Selector(Base(future), []);
      var i := 0;
      while i < |words|
        invariant 0 <= i <= |words| && Valid()
        invariant Rebuilt(table, start, words[..i], other) == Some(Value())
        invariant (forall w :: w in words ==> SplitArgs.Plain(w)) ==> Faithful()
      {
        assert words[..i + 1][..i] == words[..i];
        if SplitArgs.Plain(words[i]) { RequestPlain(table, words[i]); }
        req := SetSelector(words[i]);
        if !Accepted(table, words[i], other(i, words[i])) {
          RefusedForEver(table, start, words, i + 1, other);
          return false;
        }
        i := i + 1;
      }
      assert words[..i] == words;
      return true;
    }

    /**
      The loop body of ACLRecomputeCommandBitsFromCommandRulesAllUsers: `ok` unless an assertion fails.
      Reloading a text that spells its log changes nothing.
     */
    method Recompute(other: Elsewhere) returns (ok: bool)
      requires Valid()
      modifies this`allCommands, this`firstArgs, this`commandRules, this`rules, allowed
      ensures Valid()
      ensures ok <==> Recomputed(table, old(commandRules), RESERVED in old(Bits()), other).Some?
      ensures ok ==> Value() == Recomputed(table, old(commandRules), RESERVED in old(Bits()), other).value
      ensures old(Faithful()) ==> ok && Faithful() && Value() == old(Value()) && commandRules == old(commandRules)
    {
      if Faithful() {
        LogReadsBack(rules);
        RebuiltLog(table, Value(), other);
        TextsPlain(rules);
      }
      hide AclRules.Valid, SelectorOk, Compact, PlainRules, SplitArgs.Split, Join, Rebuilt, Base, SplitArgs.Plain;
      var argv := SplitArgs.Split(commandRules);
      if argv.Failed? { return false; }
      ok := Load(allowed[RESERVED], argv.args, other);
    }

    /** ACLDescribeSelectorCommandRules: the text, and whether one of its checks fails. */
    method Describe() returns (text: string, panics: bool)
      requires Valid()
      ensures panics <==> !Describable(table, commandRules, Bits())
      ensures Faithful() ==> !panics
      ensures text == (if RESERVED in Bits() then "+@all" else "-@all")
                      + (if commandRules == "" then "" else " " + commandRules)
    {
      if Faithful() { PlainIsDescribable(table, Value()); }
      hide AclRules.Valid, SelectorOk, Compact, PlainRules, SplitArgs.Split, Join, Rebuilt, Base;
      var fake := new Selector(table);
      var argv := SplitArgs.Split(commandRules);
      text := if allowed[RESERVED] then "+@all" else "-@all";
      if commandRules != "" { text := text + (" " + commandRules); }
      if argv.Failed? { return text, true; }
      var ok := fake.Load(allowed[RESERVED], argv.args, KeywordsOnly);
      if !ok { return text, true; }
      var same := SameBitmap(fake);
      panics := !same;
    }

    /** The memcmp of two bitmaps. */
    method SameBitmap(other: Selector) returns (same: bool)
      requires allowed.Length == other.allowed.Length == BITS
      ensures same <==> other.Bits() == Bits()
    {
      same := true;
      var i := 0;
      while i < BITS
        invariant 0 <= i <= BITS
        invariant same <==> forall j :: 0 <= j < i ==> other.allowed[j] == allowed[j]
      {
        if other.allowed[i] != allowed[i] { same := false; }
        i := i + 1;
      }
      assert forall j: nat :: j < BITS ==> (j in Bits() <==> allowed[j]) && (j in other.Bits() <==> other.allowed[j]);
    }
  }
}
