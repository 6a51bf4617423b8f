/**
  Rewriting the append-only file never loses or repeats history: in every state of every
  run, including between any two file operations of a handler, exactly when two things a
  caller can check hold, and no file that a restart would replay is ever touched.
 */
module AofRewriteSafety {
  import opened AofManifest
  import opened AofRewrite

  // ---- Replay under file operations -------------------------------------------------------------

  lemma {:induction false} ReplayFrame(files: Files, files': Files, incrs: seq<nat>)
    requires forall i :: i in incrs ==> Content(files', Incr(i)) == Content(files, Incr(i))
    ensures ReplayIncrs(files', incrs) == ReplayIncrs(files, incrs)
    decreases |incrs|
  {
    if incrs != [] { ReplayFrame(files, files', incrs[..|incrs| - 1]); }
  }

  lemma ReplayAppend(files: Files, incrs: seq<nat>, log: Log)
    requires Increasing(incrs) && incrs != []
    ensures ReplayIncrs(Append(files, Incr(incrs[|incrs| - 1]), log), incrs) == ReplayIncrs(files, incrs) + log
  {
    var last := incrs[|incrs| - 1];
    ReplayFrame(files, Append(files, Incr(last), log), incrs[..|incrs| - 1]);
  }

  lemma ReplayNext(files: Files, incrs: seq<nat>, i: nat)
    ensures ReplayIncrs(files, incrs + [i]) == ReplayIncrs(files, incrs) + Content(files, Incr(i))
  {
    assert (incrs + [i])[..|incrs|] == incrs;
  }

  // ---- The invariant ----------------------------------------------------------------------------

  ghost predicate Increasing(incrs: seq<nat>) { forall i, j :: 0 <= i < j < |incrs| ==> incrs[i] < incrs[j] }

  /** Names in HISTORY carry smaller numbers than every live file of their kind. */
  ghost predicate Outdated(f: FileName, m: Manifest)
    requires m.incrs != []
  {
    match f
    case Base(i) => m.base.BaseAt? && i < m.base.seqno
    case Incr(i) => i < m.incrs[0]
    case Temp => false
  }

  ghost predicate Shape(m: Manifest) {
    && m.incrs != [] && Increasing(m.incrs)
    && forall f :: f in m.history ==> Outdated(f, m)
  }

  ghost predicate Counters(m: Manifest) {
    m.incrs != [] && m.incrSeq == m.incrs[|m.incrs| - 1] && m.baseSeq == if m.base.BaseAt? then m.base.seqno else 0
  }

  /** What replaying the in-memory manifest gives: what was executed, with the carried rest repeated. */
  ghost function Logical(s: State): Log
    requires s.cut <= |s.executed|
  {
    s.executed[..s.cut] + s.carry + s.executed[s.cut..]
  }

  ghost predicate MemOk(s: State) {
    && Shape(s.mem) && Counters(s.mem) && s.fd == s.mem.incrSeq
    && Loadable(s.files, s.mem)
    && s.cut <= |s.executed| && Replay(s.files, s.mem) + s.buf == Logical(s)
  }

  /** The manifest on disk: that of memory, perhaps with an empty INCR file more, or one ahead. */
  ghost predicate SameLive(s: State) {
    && s.disk.base == s.mem.base
    && (s.disk.incrs == s.mem.incrs
        || (s.disk.incrs == s.mem.incrs + [s.mem.incrSeq + 1] && NewIncr(s) in s.files && s.files[NewIncr(s)] == []))
  }

  ghost predicate DiskOk(s: State) {
    && Shape(s.disk)
    && if s.phase == Undo(true) then s.disk == Rewritten(s.mem)
       else if s.broken then s.disk.base == BaseAt(s.mem.baseSeq + 1) && NewBase(s) !in s.files
       else SameLive(s)
  }

  /** The file opened for the rewrite and the buffer hold what the snapshot lacks, after the carried rest. */
  ghost predicate ChildOk(s: State) {
    !s.child.NoChild? ==>
      && !s.broken && |s.child.snapshot| <= |s.executed|
      && s.child.snapshot == s.executed[..|s.child.snapshot|]
      && Content(s.files, Incr(s.fd)) + s.buf == s.child.carried + s.executed[|s.child.snapshot|..]
  }

  ghost predicate PhaseOk(s: State) {
    match s.phase
    case Idle => s.child.Finished? ==> Temp in s.files && s.files[Temp] == s.child.snapshot
    case Opened => s.child.NoChild? && NewIncr(s) in s.files && s.files[NewIncr(s)] == []
    case Forking => s.child.NoChild? && !s.broken && Content(s.files, Incr(s.fd)) == []
    case Renamed => s.child.Finished? && NewBase(s) in s.files && s.files[NewBase(s)] == s.child.snapshot
    case Undo(_) => s.child.Finished? && NewBase(s) in s.files && s.files[NewBase(s)] == s.child.snapshot
    case Deleting => s.child.Finished? ==> Temp in s.files && s.files[Temp] == s.child.snapshot
  }

  ghost predicate Inv(s: State) { MemOk(s) && DiskOk(s) && ChildOk(s) && PhaseOk(s) }

  // ---- The property, in terms of the invariant -----------------------------------------------------

  /** The unwritten rest that the manifest on disk would replay twice. */
  function Repeated(s: State): Log { if s.phase == Undo(true) && s.child.Finished? then s.child.carried else s.carry }

  lemma SameLiveReplay(s: State)
    requires MemOk(s) && SameLive(s)
    ensures Replay(s.files, s.disk) == Replay(s.files, s.mem) && Loadable(s.files, s.disk)
  {
    if s.disk.incrs != s.mem.incrs { ReplayNext(s.files, s.mem.incrs, s.mem.incrSeq + 1); }
  }

  lemma AheadReplay(s: State)
    requires MemOk(s)
    ensures Replay(s.files, Rewritten(s.mem)) == Content(s.files, NewBase(s)) + Content(s.files, Incr(s.fd))
    ensures NewBase(s) in s.files ==> Loadable(s.files, Rewritten(s.mem))
  {
    var r := Rewritten(s.mem);
    assert r.incrs == [s.fd] && r.base == BaseAt(s.mem.baseSeq + 1);
    assert Incr(s.fd) in Live(s.mem);
    assert [s.fd][..0] == [] && ReplayIncrs(s.files, []) == [];
    hide Content, Live;
    assert ReplayIncrs(s.files, [s.fd]) == [] + Content(s.files, Incr(s.fd)) == Content(s.files, Incr(s.fd));
  }

  lemma ExactlyWhen(s: State)
    requires Inv(s)
    ensures NothingLostOrRepeated(s) <==> !s.broken && Repeated(s) == []
  {
    if s.phase == Undo(true) {
      ExactlyAhead(s);
    } else if s.broken {
      assert NewBase(s) in Live(s.disk);
    } else {
      SameLiveReplay(s);
      hide Replay, Loadable, Shape, SameLive;
      Inserted(s.executed, s.cut, s.carry);
    }
  }

  /** Something in the middle of a log is noticed exactly when it is not empty. */
  lemma Inserted(log: Log, k: nat, carried: Log)
    requires k <= |log|
    ensures log[..k] + carried + log[k..] == log <==> carried == []
  {
    assert log == log[..k] + log[k..];
    if carried == [] { assert log[..k] + carried == log[..k]; } else { assert |log[..k] + carried + log[k..]| > |log|; }
  }

  lemma ExactlyAhead(s: State)
    requires Inv(s) && s.phase == Undo(true)
    ensures NothingLostOrRepeated(s) <==> !s.broken && Repeated(s) == []
  {
    AheadReplay(s);
    var k, fd := |s.child.snapshot|, Content(s.files, Incr(s.fd));
    assert Content(s.files, NewBase(s)) == s.executed[..k];
    assert fd + s.buf == s.child.carried + s.executed[k..];
    hide Replay, Loadable, Shape, Content;
    Grouped(s.executed[..k], fd, s.buf, s.child.carried, s.executed[k..]);
    Inserted(s.executed, k, s.child.carried);
  }

  lemma Grouped(a: Log, b: Log, c: Log, d: Log, e: Log)
    requires b + c == d + e
    ensures a + b + c == a + d + e
  {
    assert a + b + c == a + (b + c) && a + d + e == a + (d + e);
  }

  // ---- Steps ---------------------------------------------------------------------------------------

  lemma ExecuteStep(s: State, cmd: Command)
    requires Inv(s) && s.phase.Idle?
    ensures Inv(Apply(s, Execute(cmd)))
  {
    var t := Apply(s, Execute(cmd));
    assert t.executed[..s.cut] == s.executed[..s.cut] && t.executed[s.cut..] == s.executed[s.cut..] + [cmd];
    assert Replay(t.files, t.mem) + t.buf == (Replay(s.files, s.mem) + s.buf) + [cmd];
    assert Logical(t) == Logical(s) + [cmd];
    if !s.child.NoChild? {
      var k := |s.child.snapshot|;
      assert t.executed[..k] == s.executed[..k] && t.executed[k..] == s.executed[k..] + [cmd];
      assert Content(t.files, Incr(t.fd)) + t.buf == (Content(s.files, Incr(s.fd)) + s.buf) + [cmd];
    }
  }

  lemma FlushedMem(s: State, k: nat)
    requires MemOk(s) && k <= |s.buf|
    ensures MemOk(Flushed(s, k))
  {
    var t := Flushed(s, k);
    var b, r := BaseLog(s.files, s.mem.base), ReplayIncrs(s.files, s.mem.incrs);
    ReplayAppend(s.files, s.mem.incrs, s.buf[..k]);
    assert BaseLog(t.files, t.mem.base) == b && Loadable(t.files, t.mem);
    hide ReplayIncrs, BaseLog, Shape, Loadable;
    assert s.buf == s.buf[..k] + s.buf[k..];
    Moved(b, r, s.buf[..k], s.buf[k..]);
  }

  lemma Moved(a: Log, b: Log, c: Log, d: Log)
    ensures a + (b + c) + d == a + b + (c + d)
  {
  }

  lemma FlushedInv(s: State, k: nat)
    requires Inv(s) && s.phase.Idle? && k <= |s.buf|
    ensures Inv(Flushed(s, k))
  {
    FlushedMem(s, k);
    var t := Flushed(s, k);
    assert NewIncr(s) != Incr(s.fd);
    hide MemOk, Replay, Logical, Shape;
    assert Content(s.files, Incr(s.fd)) + s.buf[..k] + s.buf[k..] == Content(s.files, Incr(s.fd)) + s.buf;
  }

  lemma OpenStep(s: State, k: nat, ok: bool)
    requires Inv(s) && Enabled(s, BeginRewrite(k, ok))
    ensures Inv(Apply(s, BeginRewrite(k, ok)))
  {
    FlushedInv(s, k);
    if ok {
      var t := Flushed(s, k);
      var u := Apply(s, BeginRewrite(k, ok));
      assert forall i :: i in t.mem.incrs ==> i <= t.mem.incrSeq;
      ReplayFrame(t.files, u.files, t.mem.incrs);
    }
  }

  lemma NewIncrShape(m: Manifest)
    requires Shape(m) && Counters(m)
    ensures Shape(WithNewIncr(m)) && Counters(WithNewIncr(m))
  {
    assert forall i :: 0 <= i < |m.incrs| ==> m.incrs[i] <= m.incrSeq;
    forall f | f in m.history ensures Outdated(f, WithNewIncr(m)) { assert Outdated(f, m); }
  }

  lemma LiveNewIncr(m: Manifest)
    ensures Live(WithNewIncr(m)) == Live(m) + {Incr(m.incrSeq + 1)}
  {
  }

  lemma NewIncrReplay(s: State)
    requires NewIncr(s) in s.files && s.files[NewIncr(s)] == []
    ensures Replay(s.files, WithNewIncr(s.mem)) == Replay(s.files, s.mem)
    ensures Loadable(s.files, s.mem) ==> Loadable(s.files, WithNewIncr(s.mem))
  {
    ReplayNext(s.files, s.mem.incrs, s.mem.incrSeq + 1);
    LiveNewIncr(s.mem);
  }

  lemma PersistOpenStep(s: State, out: Outcome)
    requires Inv(s) && s.phase.Opened?
    ensures Inv(Apply(s, PersistOpen(out)))
  {
    var t := Apply(s, PersistOpen(out));
    NewIncrShape(s.mem);
    NewIncrReplay(s);
    hide Replay, Shape, Loadable;
    match out {
      case Written => PersistedOpen(s);
      case FailedBefore => UnpersistedOpen(s);
      case FailedAfter => HalfPersistedOpen(s);
    }
  }

  lemma UnpersistedOpen(s: State)
    requires Inv(s) && s.phase.Opened?
    ensures Inv(Apply(s, PersistOpen(FailedBefore)))
  {
    hide Replay, Shape, Loadable, Content;
  }

  lemma HalfPersistedOpen(s: State)
    requires Inv(s) && s.phase.Opened? && Shape(WithNewIncr(s.mem))
    ensures Inv(Apply(s, PersistOpen(FailedAfter)))
  {
    var t := Apply(s, PersistOpen(FailedAfter));
    hide Replay, Shape, Loadable, Content;
    assert SameLive(t);
    hide SameLive;
  }

  lemma PersistedOpen(s: State)
    requires Inv(s) && s.phase.Opened?
    requires Shape(WithNewIncr(s.mem)) && Counters(WithNewIncr(s.mem))
    requires Replay(s.files, WithNewIncr(s.mem)) == Replay(s.files, s.mem) && Loadable(s.files, WithNewIncr(s.mem))
    ensures Inv(Apply(s, PersistOpen(Written)))
  {
    var t := Apply(s, PersistOpen(Written));
    hide Replay, Shape, Loadable;
    assert MemOk(t) by { hide DiskOk, ChildOk, PhaseOk, Content; }
    assert SameLive(t);
    hide MemOk, SameLive;
    assert DiskOk(t);
  }

  lemma ForkStep(s: State, ok: bool)
    requires Inv(s) && s.phase.Forking?
    ensures Inv(Apply(s, Fork(ok)))
  {
  }

  /** Writing, replacing or removing the child's temporary file. */
  lemma TempStep(s: State, t: State)
    requires Inv(s)
    requires t == s.(files := t.files, child := t.child)
    requires t.files - {Temp} == s.files - {Temp}
    requires t.child.NoChild?
             || (!s.child.NoChild? && t.child.snapshot == s.child.snapshot && t.child.carried == s.child.carried)
    requires PhaseOk(t)
    ensures Inv(t)
  {
    assert forall f :: f != Temp ==> Content(t.files, f) == Content(s.files, f) && (f in t.files <==> f in s.files) by {
      forall f | f != Temp ensures Content(t.files, f) == Content(s.files, f) && (f in t.files <==> f in s.files) {
        assert f in t.files - {Temp} <==> f in s.files - {Temp};
        assert f in s.files ==> (t.files - {Temp})[f] == (s.files - {Temp})[f];
      }
    }
    ReplayFrame(s.files, t.files, s.mem.incrs);
  }

  /** Changing files that the in-memory manifest does not name. */
  lemma MemFrame(s: State, files: Files)
    requires MemOk(s)
    requires forall f :: f in Live(s.mem) ==> f in files && f in s.files && files[f] == s.files[f]
    ensures Replay(files, s.mem) == Replay(s.files, s.mem) && Loadable(files, s.mem)
    ensures Content(files, Incr(s.fd)) == Content(s.files, Incr(s.fd))
  {
    hide Shape, Logical;
    assert forall i :: i in s.mem.incrs ==> Incr(i) in Live(s.mem);
    ReplayFrame(s.files, files, s.mem.incrs);
    assert Incr(s.fd) in Live(s.mem);
  }

  lemma NotLive(s: State)
    requires MemOk(s)
    ensures NewBase(s) !in Live(s.mem) && NewIncr(s) !in Live(s.mem) && Temp !in Live(s.mem)
    ensures Incr(s.fd) in Live(s.mem)
    ensures forall f :: f in s.mem.history ==> f !in Live(s.mem) && f != NewIncr(s) && f != NewBase(s) && f != Temp
  {
    hide Replay, Logical;
    assert forall i :: i in s.mem.incrs ==> s.mem.incrs[0] <= i <= s.mem.incrSeq;
    forall f | f in s.mem.history ensures f !in Live(s.mem) && f != NewIncr(s) && f != NewBase(s) && f != Temp {
      assert Outdated(f, s.mem);
    }
  }

  lemma RenameStep(s: State, ok: bool)
    requires Inv(s) && Enabled(s, Rename(ok))
    ensures Inv(Apply(s, Rename(ok)))
  {
    var t := Apply(s, Rename(ok));
    if ok {
      NotLive(s);
      MemFrame(s, t.files);
      hide Replay, Shape, Loadable, Live;
    } else {
      TempStep(s, t);
    }
  }

  lemma RewrittenShape(m: Manifest)
    requires Shape(m) && Counters(m)
    ensures Shape(Rewritten(m)) && Counters(Rewritten(m)) && Rewritten(m).incrSeq == m.incrSeq
  {
    var r := Rewritten(m);
    assert r.incrs == [m.incrSeq];
    forall f | f in r.history ensures Outdated(f, r) {
      if f in m.history { assert Outdated(f, m); }
    }
  }

  /** The rewritten manifest replays the snapshot, the carried rest, and what came since. */
  lemma RewrittenReplay(s: State)
    requires MemOk(s) && ChildOk(s) && s.child.Finished? && NewBase(s) in s.files
             && s.files[NewBase(s)] == s.child.snapshot
    ensures var k := |s.child.snapshot|;
            k <= |s.executed|
            && Replay(s.files, Rewritten(s.mem)) + s.buf == s.executed[..k] + s.child.carried + s.executed[k..]
    ensures Loadable(s.files, Rewritten(s.mem))
  {
    AheadReplay(s);
    hide Replay, Shape, Loadable, Rewritten, MemOk;
    var k := |s.child.snapshot|;
    assert s.child.snapshot + Content(s.files, Incr(s.fd)) + s.buf ==
           s.child.snapshot + (Content(s.files, Incr(s.fd)) + s.buf);
    assert s.executed[..k] + (s.child.carried + s.executed[k..]) == s.executed[..k] + s.child.carried + s.executed[k..];
  }

  lemma PersistDoneStep(s: State, out: Outcome)
    requires Inv(s) && s.phase.Renamed?
    ensures Inv(Apply(s, PersistDone(out)))
  {
    hide Inv, Apply;
    if out.Written? { DoneWritten(s); } else { DoneFailed(s, out); }
  }

  lemma DoneWritten(s: State)
    requires Inv(s) && s.phase.Renamed?
    ensures Inv(Apply(s, PersistDone(Written)))
  {
    var t := Apply(s, PersistDone(Written));
    RewrittenShape(s.mem);
    RewrittenReplay(s);
    hide Replay, Shape, Loadable, Counters, Rewritten;
    assert MemOk(t) by { hide DiskOk, PhaseOk, ChildOk; }
  }

  lemma DoneFailed(s: State, out: Outcome)
    requires Inv(s) && s.phase.Renamed? && !out.Written?
    ensures Inv(Apply(s, PersistDone(out)))
  {
    RewrittenShape(s.mem);
    RewrittenReplay(s);
    hide Replay, Shape, Loadable, Counters, Rewritten;
  }

  lemma UnlinkStep(s: State)
    requires Inv(s) && s.phase.Undo?
    ensures Inv(Apply(s, UnlinkNewBase))
  {
    var t := Apply(s, UnlinkNewBase);
    NotLive(s);
    MemFrame(s, t.files);
    hide Replay, Shape, Loadable, Live;
  }

  lemma DeleteStep(s: State)
    requires Inv(s) && Enabled(s, DeleteOne)
    ensures Inv(Apply(s, DeleteOne))
  {
    var t := Apply(s, DeleteOne);
    NotLive(s);
    assert s.mem.history[0] in s.mem.history;
    MemFrame(s, t.files);
    assert Shape(t.mem) by {
      forall f | f in t.mem.history ensures Outdated(f, t.mem) { assert Outdated(f, s.mem); }
    }
    assert Live(t.mem) == Live(s.mem);
    hide Shape, Loadable, Live;
  }

  lemma PersistGcStep(s: State, out: Outcome)
    requires Inv(s) && Enabled(s, PersistGc(out))
    ensures Inv(Apply(s, PersistGc(out)))
  {
    hide Replay, Shape, Loadable, Live;
  }

  lemma LoadedShape(m: Manifest)
    requires Shape(m)
    ensures Shape(Loaded(m)) && Counters(Loaded(m)) && Live(Loaded(m)) == Live(m)
  {
    forall f | f in m.history ensures Outdated(f, Loaded(m)) { assert Outdated(f, m); }
  }

  lemma CrashStep(s: State)
    requires Inv(s) && !s.broken
    ensures Inv(Apply(s, Crash))
  {
    var t := Apply(s, Crash);
    assert Loadable(s.files, s.disk) by {
      if s.phase == Undo(true) { AheadReplay(s); } else { SameLiveReplay(s); }
    }
    LoadedShape(s.disk);
    assert Logical(t) == t.executed;
    assert Replay(t.files, t.mem) == Replay(s.files, s.disk) && Loadable(t.files, t.mem);
    hide Shape, Loadable, Live, Counters, Replay;
  }

  lemma StepKeepsInv(s: State, a: Step)
    requires Inv(s) && Enabled(s, a)
    ensures Inv(Apply(s, a))
  {
    hide MemOk, DiskOk, ChildOk;
    match a
    case Execute(cmd) => ExecuteStep(s, cmd);
    case Flush(k) => FlushedInv(s, k);
    case BeginRewrite(k, ok) => OpenStep(s, k, ok);
    case PersistOpen(out) => PersistOpenStep(s, out);
    case Fork(ok) => ForkStep(s, ok);
    case ChildWrites(_) => TempStep(s, Apply(s, a));
    case ChildExits(_) => TempStep(s, Apply(s, a));
    case Rename(ok) => RenameStep(s, ok);
    case PersistDone(out) => PersistDoneStep(s, out);
    case UnlinkNewBase => UnlinkStep(s);
    case StartGc => PhaseStep(s, Apply(s, a));
    case DeleteOne => DeleteStep(s);
    case PersistGc(out) => PersistGcStep(s, out);
    case SkipGc => PhaseStep(s, Apply(s, a));
    case Crash => CrashStep(s);
  }

  lemma PhaseStep(s: State, t: State)
    requires Inv(s) && t == s.(phase := t.phase) && !s.phase.Undo? && !t.phase.Undo? && PhaseOk(t)
    ensures Inv(t)
  {
    hide Replay, Shape, Loadable, Live;
  }

  /** A server that has just loaded its files. */
  ghost predicate Initial(s: State) {
    && Shape(s.disk) && s.mem == Loaded(s.disk) && s.fd == s.mem.incrSeq
    && Loadable(s.files, s.disk) && s.executed == Replay(s.files, s.disk) && s.buf == []
    && s.child.NoChild? && s.phase.Idle? && s.cut == 0 && s.carry == [] && !s.broken
  }

  lemma InitialInv(s: State)
    requires Initial(s)
    ensures Inv(s)
  {
    LoadedShape(s.disk);
    assert Logical(s) == s.executed;
  }

  lemma {:induction false} RunKeepsInv(s0: State, steps: seq<Step>)
    requires Inv(s0)
    ensures Inv(Run(s0, steps))
    decreases |steps|
  {
    hide Inv;
    if steps != [] {
      var t, a := Run(s0, steps[..|steps| - 1]), steps[|steps| - 1];
      RunKeepsInv(s0, steps[..|steps| - 1]);
      if Enabled(t, a) { StepKeepsInv(t, a); }
    }
  }

  // ---- Main results ---------------------------------------------------------------------------------

  /**
    In every state of every run, disk and buffer hold exactly what was executed, once, if and
    only if the manifest on disk does not name an unlinked BASE and the last rewrite it
    describes was forked with an empty buffer.
   */
  lemma {:induction false} ReplayIsExact(s0: State, steps: seq<Step>)
    requires Initial(s0)
    ensures var s := Run(s0, steps);
            NothingLostOrRepeated(s) <==> !s.broken && Repeated(s) == []
  {
    InitialInv(s0);
    RunKeepsInv(s0, steps);
    ExactlyWhen(Run(s0, steps));
  }

  /** What the caller can check: the flush before the fork emptied the buffer, and no manifest
      write of a finished rewrite failed after its rename. */
  ghost predicate Careful(s: State, a: Step) {
    && (a.BeginRewrite? ==> a.k == |s.buf|)
    && (a.PersistDone? ==> !a.out.FailedAfter?)
  }

  ghost predicate Clean(s: State) {
    && s.carry == [] && !s.broken && s.phase != Undo(true)
    && (!s.child.NoChild? ==> s.child.carried == [])
    && (s.phase.Opened? || s.phase.Forking? ==> s.buf == [])
  }

  lemma CleanStep(s: State, a: Step)
    requires Clean(s) && Enabled(s, a) && Careful(s, a) && PhaseOk(s)
    ensures Clean(Apply(s, a))
  {
    hide Replay, Loaded, Rewritten;
    match a case _ =>
  }

  lemma {:induction false} CleanRun(s0: State, steps: seq<Step>)
    requires Initial(s0)
    requires forall i :: 0 <= i < |steps| ==> Careful(Run(s0, steps[..i]), steps[i])
    ensures Clean(Run(s0, steps))
    decreases |steps|
  {
    hide MemOk, DiskOk, ChildOk, Clean, Careful;
    if steps != [] {
      var most := steps[..|steps| - 1];
      var t, a := Run(s0, most), steps[|steps| - 1];
      forall i | 0 <= i < |most| ensures Careful(Run(s0, most[..i]), most[i]) { assert most[..i] == steps[..i]; }
      CleanRun(s0, most);
      InitialInv(s0);
      RunKeepsInv(s0, most);
      if Enabled(t, a) { CleanStep(t, a); }
    } else {
      InitialClean(s0);
    }
  }

  lemma InitialClean(s: State)
    requires Initial(s)
    ensures Clean(s)
  {
  }

  /** With those two checks, no state of the run loses or repeats a command. */
  lemma {:induction false} CarefulRunsAreSafe(s0: State, steps: seq<Step>)
    requires Initial(s0)
    requires forall i :: 0 <= i < |steps| ==> Careful(Run(s0, steps[..i]), steps[i])
    ensures NothingLostOrRepeated(Run(s0, steps))
  {
    CleanRun(s0, steps);
    ReplayIsExact(s0, steps);
  }

  /**
    No live file is reused, truncated or unlinked: a step never touches a file the server is
    using, and touches one the manifest on disk names only to truncate an empty INCR file or
    to undo a rewrite whose manifest write failed after its rename.
   */
  lemma {:induction false} LiveFilesUntouched(s0: State, steps: seq<Step>, a: Step, f: FileName)
    requires Initial(s0)
    requires Enabled(Run(s0, steps), a) && f in Touched(Run(s0, steps), a)
    ensures f !in Live(Run(s0, steps).mem)
    ensures var s := Run(s0, steps);
            !s.broken && f in Live(s.disk)
            ==> (a.BeginRewrite? && f in s.files && s.files[f] == []) || s.phase == Undo(true)
  {
    InitialInv(s0);
    RunKeepsInv(s0, steps);
    var s := Run(s0, steps);
    NotLive(s);
    TouchedNames(s, a, f);
    if s.phase != Undo(true) && !s.broken && f in Live(s.disk) {
      assert SameLive(s);
      assert f == NewIncr(s);
    }
  }

  lemma TouchedNames(s: State, a: Step, f: FileName)
    requires Enabled(s, a) && f in Touched(s, a)
    ensures f == Temp || f == NewBase(s) || f in s.mem.history || (f == NewIncr(s) && a.BeginRewrite?)
  {
  }

  // ---- Why both checks are needed --------------------------------------------------------------------

  lemma RunNext(s: State, steps: seq<Step>, a: Step)
    requires Enabled(Run(s, steps), a)
    ensures Run(s, steps + [a]) == Apply(Run(s, steps), a)
  {
    hide Apply, Enabled;
    assert (steps + [a])[..|steps|] == steps;
  }

  /** A rewrite in which nothing fails before its manifest is written. */
  function WholeRewrite(k: nat): seq<Step> {
    [BeginRewrite(k, true)] + [PersistOpen(Written)] + [Fork(true)] + [ChildExits(true)] + [Rename(true)]
  }

  lemma RunWholeRewrite(s0: State, steps: seq<Step>, k: nat)
    requires var s := Run(s0, steps); s.phase.Idle? && s.child.NoChild? && k <= |s.buf|
    ensures var s, t := Run(s0, steps), Run(s0, steps + WholeRewrite(k));
            t.phase.Renamed? && t.child.Finished? && t.child.carried == s.buf[k..] && t.buf == s.buf[k..]
  {
    hide Run, Append, Content;
    var p0 := steps;
    RunNext(s0, p0, BeginRewrite(k, true));
    var p1 := p0 + [BeginRewrite(k, true)];
    RunNext(s0, p1, PersistOpen(Written));
    var p2 := p1 + [PersistOpen(Written)];
    RunNext(s0, p2, Fork(true));
    var p3 := p2 + [Fork(true)];
    RunNext(s0, p3, ChildExits(true));
    var p4 := p3 + [ChildExits(true)];
    RunNext(s0, p4, Rename(true));
    assert p4 + [Rename(true)] == steps + WholeRewrite(k);
  }

  /** Whenever a rewrite is begun, completing it repeats exactly what its flush left in the buffer. */
  lemma {:induction false} UnflushedRestIsRepeated(s0: State, steps: seq<Step>, k: nat)
    requires Initial(s0)
    requires var s := Run(s0, steps); s.phase.Idle? && s.child.NoChild? && k <= |s.buf|
    ensures var s, t := Run(s0, steps), Run(s0, steps + WholeRewrite(k) + [PersistDone(Written)]);
            Repeated(t) == s.buf[k..] && (NothingLostOrRepeated(t) <==> k == |s.buf|)
  {
    hide Initial, NothingLostOrRepeated;
    RunWholeRewrite(s0, steps, k);
    RunNext(s0, steps + WholeRewrite(k), PersistDone(Written));
    ReplayIsExact(s0, steps + WholeRewrite(k) + [PersistDone(Written)]);
    hide Run;
  }

  /** And whenever its manifest write fails after the rename, undoing it makes the files unloadable. */
  lemma {:induction false} UndoAfterRenameLosesBase(s0: State, steps: seq<Step>, k: nat)
    requires Initial(s0)
    requires var s := Run(s0, steps); s.phase.Idle? && s.child.NoChild? && k <= |s.buf|
    ensures var t := Run(s0, steps + WholeRewrite(k) + [PersistDone(FailedAfter)] + [UnlinkNewBase]);
            !Loadable(t.files, t.disk) && !NothingLostOrRepeated(t)
  {
    hide Initial, NothingLostOrRepeated;
    RunWholeRewrite(s0, steps, k);
    RunNext(s0, steps + WholeRewrite(k), PersistDone(FailedAfter));
    RunNext(s0, steps + WholeRewrite(k) + [PersistDone(FailedAfter)], UnlinkNewBase);
    ReplayIsExact(s0, steps + WholeRewrite(k) + [PersistDone(FailedAfter)] + [UnlinkNewBase]);
    hide Run;
  }

  // ---- Both failures from a server that has just started ---------------------------------------------

  /** A server with one empty INCR file. */
  function Started(): State {
    var m := Manifest(NoBase, [1], [], 0, 1);
    State(map[Incr(1) := []], m, m, 1, [], [], NoChild, Idle, 0, [], false)
  }

  lemma StartedRuns()
    ensures Initial(Started())
    ensures var s := Run(Started(), [Execute(7)]); s.phase.Idle? && s.child.NoChild? && s.buf == [7]
  {
    assert [Execute(7)][..0] == [] && Run(Started(), []) == Started();
  }

  /** One command executed and not flushed before the rewrite is in the new BASE and in the buffer. */
  lemma RepeatedExample()
    ensures Repeated(Run(Started(), [Execute(7)] + WholeRewrite(0) + [PersistDone(Written)])) == [7]
    ensures !NothingLostOrRepeated(Run(Started(), [Execute(7)] + WholeRewrite(0) + [PersistDone(Written)]))
  {
    hide Run, Started, NothingLostOrRepeated, Repeated, Initial;
    StartedRuns();
    UnflushedRestIsRepeated(Started(), [Execute(7)], 0);
  }

  /** Even with everything flushed, a manifest write that fails after its rename makes the files unloadable. */
  lemma LostBaseExample()
    ensures var steps := [Execute(7)] + WholeRewrite(1) + [PersistDone(FailedAfter)] + [UnlinkNewBase];
            var t := Run(Started(), steps);
            !Loadable(t.files, t.disk) && !NothingLostOrRepeated(t)
  {
    hide Run, Started, NothingLostOrRepeated, Initial;
    StartedRuns();
    UndoAfterRenameLosesBase(Started(), [Execute(7)], 1);
  }
}
