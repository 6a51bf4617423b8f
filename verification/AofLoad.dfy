/**
  Loading an append-only file (src/aof.c): the loader's loop over the records of one file,
  what a cut at any byte leaves behind, and when it is safe to go on appending to the result.
 */
module AofLoad {
  import opened AofCodec

  datatype Kind = Multi | Exec | Other | Unknown

  /** The command table, and the option aof-load-truncated. */
  datatype Env = Env(kind: seq<Bytes> -> Kind, loadTruncated: bool)

  /** The fake client: an open transaction with its queue, and the commands that took effect. */
  datatype Client = Client(multi: bool, queue: seq<seq<Bytes>>, ran: seq<seq<Bytes>>)

  const NEW_CLIENT := Client(false, [], [])

  function Process(k: Kind, c: Client, argv: seq<Bytes>): Client {
    if c.multi && k != Exec then c.(queue := c.queue + [argv])
    else
      match k
      case Multi => Client(true, [], c.ran)
      case Exec => if c.multi then Client(false, [], c.ran + c.queue) else c
      case Other => c.(ran := c.ran + [argv])
      case Unknown => c
  }

  datatype Progress = Progress(client: Client, validUpTo: nat, validBeforeMulti: nat)

  const START := Progress(NEW_CLIENT, 0, 0)

  function Advance(env: Env, p: Progress, argv: seq<Bytes>, next: nat): Progress {
    Progress(Process(env.kind(argv), p.client, argv),
             if env.loadTruncated then next else p.validUpTo,
             if env.kind(argv) == Multi then p.validUpTo else p.validBeforeMulti)
  }

  datatype Status = Empty | Ok | Truncated | Failed

  datatype Result = Result(status: Status, ran: seq<seq<Bytes>>, validUpTo: nat)

  function UnexpectedEnd(env: Env, p: Progress): Result {
    Result(if env.loadTruncated then Truncated else Failed, p.client.ran, p.validUpTo)
  }

  /** The end of the file without an error: an open transaction is reverted. */
  function AtEnd(env: Env, p: Progress): Result {
    if p.client.multi then UnexpectedEnd(env, p.(validUpTo := p.validBeforeMulti))
    else Result(Ok, p.client.ran, p.validUpTo)
  }

  function LoadFrom(env: Env, file: Bytes, pos: nat, p: Progress): Result
    requires pos <= |file|
    decreases |file| - pos
  {
    if pos == |file| then AtEnd(env, p)
    else
      match ParseRecord(file[pos..])
      case FmtErr => Result(Failed, p.client.ran, p.validUpTo)
      case ReadErr(eof) => if eof then UnexpectedEnd(env, p) else Result(Failed, p.client.ran, p.validUpTo)
      case Done(Skipped, used) => LoadFrom(env, file, pos + used, p)
      case Done(Command(argv), used) =>
        if env.kind(argv) == Unknown then Result(Failed, p.client.ran, p.validUpTo)
        else LoadFrom(env, file, pos + used, Advance(env, p, argv, pos + used))
  }

  function Load(env: Env, file: Bytes): Result {
    if file == [] then Result(Empty, [], 0) else LoadFrom(env, file, 0, START)
  }

  // ---- The loader's loop -----------------------------------------------------------------------------

  /** The loop over the arguments of one command. */
  method ReadArgs(s: Bytes, argc: nat) returns (r: Parsed<seq<Bytes>>)
    ensures r == ParseArgs(s, argc)
  {
    hide ParseArg;
    var argv: seq<Bytes> := [];
    var pos := 0;
    ghost var whole := ParseArgs(s, argc);
    assert s[0..] == s;
    ContinueStart(whole);
    while |argv| < argc
      invariant |argv| <= argc && pos <= |s|
      invariant whole == Continue(argv, pos, ParseArgs(s[pos..], argc - |argv|))
      decreases argc - |argv|
    {
      match ParseArg(s[pos..]) {
        case ReadErr(eof) => return ReadErr(eof);
        case FmtErr => return FmtErr;
        case Done(a, used) =>
          assert s[pos..][used..] == s[pos + used..];
          ContinueStep(argv, pos, a, used, ParseArgs(s[pos + used..], argc - |argv| - 1));
          argv, pos := argv + [a], pos + used;
      }
    }
    assert argv + [] == argv;
    return Done(argv, pos);
  }

  /** What is left to parse, after some arguments. */
  ghost function Continue(argv: seq<Bytes>, pos: nat, r: Parsed<seq<Bytes>>): Parsed<seq<Bytes>> {
    if r.Done? then Done(argv + r.value, pos + r.used) else r
  }

  lemma ContinueStart(r: Parsed<seq<Bytes>>)
    ensures r == Continue([], 0, r)
  {
    if r.Done? { assert [] + r.value == r.value; }
  }

  lemma ContinueStep(argv: seq<Bytes>, pos: nat, a: Bytes, used: nat, r: Parsed<seq<Bytes>>)
    ensures Continue(argv, pos, Continue([a], used, r)) == Continue(argv + [a], pos + used, r)
  {
    if r.Done? { assert argv + ([a] + r.value) == argv + [a] + r.value; }
  }

  /** One record of the file. */
  method ReadRecord(s: Bytes) returns (r: Parsed<Record>)
    requires s != []
    ensures r == ParseRecord(s)
  {
    hide ParseArgs, Fgets, Atoi, HitsEnd;
    var n := Fgets(s);
    if s[0] == HASH { return Done(Skipped, n); }
    if s[0] != STAR { return FmtErr; }
    if n == 1 || s[1] == 0 { return ReadErr(HitsEnd(s)); }
    var argc := Atoi(s[1..n]);
    if argc < 1 { return FmtErr; }
    var args := ReadArgs(s[n..], argc);
    match args {
      case FmtErr => return FmtErr;
      case ReadErr(eof) => return ReadErr(eof);
      case Done(argv, used) => return Done(Command(argv), n + used);
    }
  }

  /** loadSingleAppendOnlyFile on a file without an RDB preamble. */
  method LoadSingleFile(env: Env, file: Bytes) returns (r: Result)
    ensures r == Load(env, file)
  {
    hide ParseRecord, Process;
    if file == [] { return Result(Empty, [], 0); }
    var client := NEW_CLIENT;
    var validUpTo, validBeforeMulti, pos := 0, 0, 0;
    while pos < |file|
      invariant pos <= |file|
      invariant Load(env, file) == LoadFrom(env, file, pos, Progress(client, validUpTo, validBeforeMulti))
    {
      var record := ReadRecord(file[pos..]);
      match record {
        case FmtErr => return Result(Failed, client.ran, validUpTo);
        case ReadErr(eof) =>
          if !eof { return Result(Failed, client.ran, validUpTo); }
          return UnexpectedEnd(env, Progress(client, validUpTo, validBeforeMulti));
        case Done(Skipped, used) => pos := pos + used;
        case Done(Command(argv), used) =>
          var kind := env.kind(argv);
          if kind == Unknown { return Result(Failed, client.ran, validUpTo); }
          if kind == Multi { validBeforeMulti := validUpTo; }
          client := Process(kind, client, argv);
          pos := pos + used;
          if env.loadTruncated { validUpTo := pos; }
      }
    }
    if client.multi { return UnexpectedEnd(env, Progress(client, validBeforeMulti, validBeforeMulti)); }
    return Result(Ok, client.ran, validUpTo);
  }
}
