/**
  HISTORY is complete (src/aof.c): a file that a rewrite takes out of use is listed until it is
  unlinked, across every failure and crash, so that collecting the list leaves no file behind.
 */
module AofHistory {
  import opened AofManifest
  import opened AofRewrite
  import opened AofRewriteSafety

  /** Its number was never installed: what an unfinished rewrite left, under a name the next one takes again. */
  predicate Unborn(f: FileName, m: Manifest) {
    match f
    case Base(n) => n > m.baseSeq
    case Incr(n) => n > m.incrSeq
    case Temp => true
  }

  /** Every file is in use, listed in HISTORY, or was never installed. */
  ghost predicate NoOrphans(files: Files, m: Manifest) {
    forall f :: f in files ==> f in Live(m) || f in m.history || Unborn(f, m)
  }

  /** The same for what a restart would find, while a restart is possible. */
  ghost predicate Complete(s: State) {
    NoOrphans(s.files, s.mem) && (!s.broken ==> NoOrphans(s.files, Loaded(s.disk)))
  }

  // ---- Manifests --------------------------------------------------------------------------------

  lemma FewerFiles(files: Files, files': Files, m: Manifest)
    requires NoOrphans(files, m) && forall f :: f in files' ==> f in files || f in Live(m) || Unborn(f, m)
    ensures NoOrphans(files', m)
  {
    hide Live, Unborn;
  }

  lemma NewIncrAccounts(files: Files, m: Manifest)
    requires NoOrphans(files, m)
    ensures NoOrphans(files, WithNewIncr(m))
  {
    LiveNewIncr(m);
  }

  /** A rewrite retires the old BASE and the old INCR files into HISTORY, and nothing else changes hands. */
  lemma Retired(m: Manifest, f: FileName)
    requires Shape(m) && Counters(m)
    ensures f in Live(m) ==> f in Live(Rewritten(m)) || f in Rewritten(m).history
    ensures f in m.history ==> f in Rewritten(m).history
    ensures f in Rewritten(m).history ==> f in m.history || f in Live(m)
    ensures Live(Rewritten(m)) == {Base(m.baseSeq + 1), Incr(m.incrSeq)}
  {
    var last := |m.incrs| - 1;
    assert Rewritten(m).incrs == [m.incrSeq];
    if f in Live(m) && f.Incr? {
      var i :| 0 <= i <= last && f == Incr(m.incrs[i]);
      assert i < last ==> IncrNames(m.incrs[..last])[i] == f;
    }
    if f in Rewritten(m).history && f !in m.history && f.Incr? {
      var i :| 0 <= i < last && IncrNames(m.incrs[..last])[i] == f;
      assert f == Incr(m.incrs[i]);
    }
  }

  lemma RewrittenAccounts(files: Files, m: Manifest)
    requires NoOrphans(files, m) && Shape(m) && Counters(m)
    ensures NoOrphans(files, Rewritten(m))
  {
    var r := Rewritten(m);
    assert r.baseSeq == m.baseSeq + 1 && r.incrSeq == m.incrSeq;
    forall f | f in files ensures f in Live(r) || f in r.history || Unborn(f, r) {
      Retired(m, f);
    }
  }

  lemma LoadedAgain(m: Manifest)
    requires Counters(m)
    ensures Loaded(m) == m
  {
  }

  // ---- Steps ------------------------------------------------------------------------------------

  lemma NotInstalled(s: State)
    requires Inv(s)
    ensures Unborn(NewBase(s), s.mem) && Unborn(NewIncr(s), s.mem)
    ensures !s.broken && s.phase != Undo(true) ==>
              && Unborn(NewBase(s), Loaded(s.disk))
              && (NewIncr(s) in Live(Loaded(s.disk)) || Unborn(NewIncr(s), Loaded(s.disk)))
  {
    hide Replay, Loadable, Logical, ChildOk, PhaseOk;
  }

  /** A step that changes no manifest: its files are old ones, the temporary one, or not installed yet. */
  lemma FilesComplete(s: State, t: State)
    requires Inv(s) && Complete(s) && t.mem == s.mem && t.disk == s.disk && (s.broken ==> t.broken)
    requires forall f :: f in t.files ==>
               f in s.files || f == Temp || (s.phase != Undo(true) && (f == NewBase(s) || f == NewIncr(s)))
    ensures Complete(t)
  {
    NotInstalled(s);
    hide Inv, NoOrphans, Live, Loaded;
    FewerFiles(s.files, t.files, s.mem);
    if !t.broken { FewerFiles(s.files, t.files, Loaded(s.disk)); }
  }

  /** The steps that write no manifest. */
  predicate FilesOnly(a: Step) {
    match a
    case PersistOpen(out) => out.FailedBefore?
    case PersistDone(out) => out.FailedBefore?
    case PersistGc(out) => out.FailedBefore?
    case DeleteOne => false
    case Crash => false
    case _ => true
  }

  lemma FilesStep(s: State, a: Step)
    requires Inv(s) && Complete(s) && Enabled(s, a) && FilesOnly(a)
    ensures Complete(Apply(s, a))
  {
    assert Incr(s.fd) in s.files by { NotLive(s); }
    var t := Apply(s, a);
    assert t.mem == s.mem && t.disk == s.disk && (s.broken ==> t.broken) by { hide Inv, Complete; }
    hide Inv, Complete, Replay, Live, Loaded, Rewritten, WithNewIncr;
    FilesComplete(s, t);
  }

  /** A step that writes a manifest whose files are all accounted for. */
  lemma ManifestComplete(files: Files, m: Manifest)
    requires NoOrphans(files, m) && Counters(m)
    ensures NoOrphans(files, Loaded(m))
  {
    LoadedAgain(m);
  }

  lemma ManifestStep(s: State, a: Step)
    requires Inv(s) && Complete(s) && Enabled(s, a) && !FilesOnly(a) && !a.DeleteOne? && !a.Crash?
    ensures Complete(Apply(s, a))
  {
    NewIncrShape(s.mem);
    NewIncrAccounts(s.files, s.mem);
    RewrittenShape(s.mem);
    RewrittenAccounts(s.files, s.mem);
    ManifestComplete(s.files, s.mem);
    ManifestComplete(s.files, WithNewIncr(s.mem));
    ManifestComplete(s.files, Rewritten(s.mem));
    hide NoOrphans, Rewritten, WithNewIncr, Loaded, Shape, Counters, Inv;
  }

  lemma DeleteComplete(s: State)
    requires Inv(s) && Complete(s) && Enabled(s, DeleteOne)
    ensures Complete(Apply(s, DeleteOne))
  {
    var t := Apply(s, DeleteOne);
    hide Inv, Loaded;
    assert Live(t.mem) == Live(s.mem);
    assert forall f :: f in s.mem.history && f != s.mem.history[0] ==> f in t.mem.history;
    hide Live;
    if !s.broken { FewerFiles(s.files, t.files, Loaded(s.disk)); }
  }

  lemma StepComplete(s: State, a: Step)
    requires Inv(s) && Complete(s) && Enabled(s, a)
    ensures Complete(Apply(s, a))
  {
    if FilesOnly(a) {
      FilesStep(s, a);
    } else if a.DeleteOne? {
      DeleteComplete(s);
    } else if !a.Crash? {
      ManifestStep(s, a);
    } else {
      hide Inv, NoOrphans, Replay, Loaded;
    }
  }

  // ---- Main results -----------------------------------------------------------------------------

  lemma {:induction false} RunComplete(s0: State, steps: seq<Step>)
    requires Inv(s0) && Complete(s0)
    ensures Complete(Run(s0, steps))
    decreases |steps|
  {
    hide Inv, Complete, Apply, Enabled;
    if steps != [] {
      var t, a := Run(s0, steps[..|steps| - 1]), steps[|steps| - 1];
      RunComplete(s0, steps[..|steps| - 1]);
      RunKeepsInv(s0, steps[..|steps| - 1]);
      if Enabled(t, a) { StepComplete(t, a); }
    }
  }

  /**
    In every state of every run from a server whose files are accounted for, a file on disk is in use, listed in
    HISTORY, or was never installed.
   */
  lemma HistoryIsComplete(s0: State, steps: seq<Step>)
    requires Initial(s0) && NoOrphans(s0.files, s0.mem)
    ensures var s := Run(s0, steps);
            forall f :: f in s.files ==> f in Live(s.mem) || f in s.mem.history || Unborn(f, s.mem)
  {
    InitialInv(s0);
    RunComplete(s0, steps);
  }

  // ---- Collecting -------------------------------------------------------------------------------

  /** aofDelHistoryFiles without a failure: one unlink for each listed file, then the manifest. */
  function Collecting(n: nat): seq<Step>
    decreases n
  {
    if n == 0 then [] else Collecting(n - 1) + [DeleteOne]
  }

  lemma {:induction false} DeletesAll(s: State, n: nat)
    requires s.phase.Deleting? && n <= |s.mem.history|
    ensures var t := Run(s, Collecting(n));
            && t.mem == s.mem.(history := s.mem.history[n..]) && t.phase == s.phase && t.disk == s.disk
            && forall f :: f in t.files <==> f in s.files && f !in s.mem.history[..n]
    decreases n
  {
    if n > 0 {
      DeletesAll(s, n - 1);
      var t := Run(s, Collecting(n - 1));
      RunNext(s, Collecting(n - 1), DeleteOne);
      hide Run;
      assert t.mem.history[1..] == s.mem.history[n..] && t.mem.history[0] == s.mem.history[n - 1];
      assert s.mem.history[..n] == s.mem.history[..n - 1] + [s.mem.history[n - 1]];
    } else {
      assert s.mem.history[0..] == s.mem.history;
    }
  }

  /** From any state of the collection it unlinks exactly the listed files and leaves HISTORY empty, also on disk. */
  lemma CollectsAll(s: State)
    requires s.phase.Deleting?
    ensures var t := Run(s, Collecting(|s.mem.history|) + [PersistGc(Written)]);
            && t.phase.Idle? && t.mem == s.mem.(history := []) && t.disk == t.mem
            && forall f :: f in t.files <==> f in s.files && f !in s.mem.history
  {
    var n := |s.mem.history|;
    hide Run, Collecting, Apply, Enabled;
    var u := Run(s, Collecting(n));
    DeletesAll(s, n);
    assert s.mem.history[n..] == [] && s.mem.history[..n] == s.mem.history;
    Collected(u);
    RunNext(s, Collecting(n), PersistGc(Written));
  }

  lemma Collected(s: State)
    requires s.phase.Deleting? && s.mem.history == []
    ensures Enabled(s, PersistGc(Written))
    ensures var t := Apply(s, PersistGc(Written));
            t.phase.Idle? && t.mem == s.mem && t.disk == s.mem && t.files == s.files
  {
  }

  /** After the collection every file on disk is in use or was never installed. */
  lemma OnlyLiveLeft(s0: State, steps: seq<Step>)
    requires Initial(s0) && NoOrphans(s0.files, s0.mem) && Run(s0, steps).phase.Deleting?
    ensures var s := Run(s0, steps);
            var t := Run(s, Collecting(|s.mem.history|) + [PersistGc(Written)]);
            forall f :: f in t.files ==> f in Live(t.mem) || Unborn(f, t.mem)
  {
    var s := Run(s0, steps);
    HistoryIsComplete(s0, steps);
    CollectsAll(s);
    hide Run;
  }

  // ---- Flushing ---------------------------------------------------------------------------------

  /** In any idle state the whole buffer may be flushed; if nothing was lost before, a restart then loads everything. */
  lemma FlushesAll(s0: State, steps: seq<Step>)
    requires Initial(s0) && Run(s0, steps).phase.Idle?
    ensures var s := Run(s0, steps);
            var t := Run(s0, steps + [Flush(|s.buf|)]);
            && t.buf == []
            && (NothingLostOrRepeated(s) ==> Loadable(t.files, t.disk) && Replay(t.files, t.disk) == s.executed)
  {
    var s := Run(s0, steps);
    var k := |s.buf|;
    RunNext(s0, steps, Flush(k));
    ReplayIsExact(s0, steps);
    ReplayIsExact(s0, steps + [Flush(k)]);
    hide Run, Replay, Loadable, Initial;
    var t := Flushed(s, k);
    assert t.executed == s.executed && t.buf == [] && Replay(t.files, t.disk) + [] == Replay(t.files, t.disk);
  }
}
