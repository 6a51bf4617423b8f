/**
  The background rewrite of the append-only file (src/aof.c) with AOF on throughout, broken
  into its single file operations so that a crash may fall between any two of them.

  Every failure the code handles can happen: a failing open, fork, child, rename, and a
  manifest write that fails before or after its rename.  Writes reach the disk in whole
  commands; a BASE file holds the commands whose dataset it snapshots.
 */
module AofRewrite {
  import opened AofManifest

  type Command = nat
  type Log = seq<Command>
  type Files = map<FileName, Log>

  /** writeAofManifestFile: success, or an error before or after the rename took effect. */
  datatype Outcome = Written | FailedBefore | FailedAfter

  /** The rewriting child: the snapshot it holds and what was unwritten when it was forked. */
  datatype Child = NoChild | Running(snapshot: Log, carried: Log) | Finished(snapshot: Log, carried: Log)

  /** Where the main thread stands: in the event loop, or between two file operations of a handler. */
  datatype Phase =
    | Idle
    | Opened          // openNewIncrAofForAppend: file created, manifest not yet written
    | Forking         // new INCR in use, about to fork
    | Renamed         // backgroundRewriteDoneHandler: new BASE in place, manifest not yet written
    | Undo(ahead: bool)  // manifest write failed; new BASE about to be unlinked
    | Deleting        // aofDelHistoryFiles

  datatype State = State(
    files: Files,
    disk: Manifest,            // the manifest on disk
    mem: Manifest,             // server.aof_manifest
    fd: nat,                   // number of the INCR file open for writing
    buf: Log,                  // server.aof_buf
    executed: Log,             // every command executed so far: the dataset
    child: Child,
    phase: Phase,
    // history, read by no step:
    cut: nat, carry: Log,      // snapshot length and unwritten rest of the last installed rewrite
    broken: bool)              // the manifest on disk names a BASE file that was unlinked

  // ---- Replay -------------------------------------------------------------------------------

  function Content(files: Files, f: FileName): Log { if f in files then files[f] else [] }

  function ReplayIncrs(files: Files, incrs: seq<nat>): Log {
    if incrs == [] then []
    else ReplayIncrs(files, incrs[..|incrs| - 1]) + Content(files, Incr(incrs[|incrs| - 1]))
  }

  function BaseLog(files: Files, b: BaseFile): Log { if b.BaseAt? then Content(files, Base(b.seqno)) else [] }

  /** What a restart would load: the BASE, then the INCR files in order. */
  function Replay(files: Files, m: Manifest): Log { BaseLog(files, m.base) + ReplayIncrs(files, m.incrs) }

  predicate Loadable(files: Files, m: Manifest) { Live(m) <= files.Keys }

  /** The property: what is on disk followed by what is buffered is exactly what was executed. */
  predicate NothingLostOrRepeated(s: State) {
    Loadable(s.files, s.disk) && Replay(s.files, s.disk) + s.buf == s.executed
  }

  // ---- Steps ----------------------------------------------------------------------------------

  datatype Step =
    | Execute(cmd: Command)            // feedAppendOnlyFile
    | Flush(k: nat)                    // flushAppendOnlyFile writes k commands
    | BeginRewrite(k: nat, ok: bool)   // rewriteAppendOnlyFileBackground: flush, then open
    | PersistOpen(out: Outcome)
    | Fork(ok: bool)
    | ChildWrites(part: Log)
    | ChildExits(ok: bool)
    | Rename(ok: bool)
    | PersistDone(out: Outcome)
    | UnlinkNewBase
    | StartGc                          // aof-disable-auto-gc switched off
    | DeleteOne
    | PersistGc(out: Outcome)
    | SkipGc                           // aof-disable-auto-gc on
    | Crash                            // and restart from disk

  predicate Enabled(s: State, a: Step) {
    match a
    case Execute(_) => s.phase.Idle?
    case Flush(k) => s.phase.Idle? && k <= |s.buf|
    case BeginRewrite(k, _) => s.phase.Idle? && s.child.NoChild? && k <= |s.buf|
    case PersistOpen(_) => s.phase.Opened?
    case Fork(_) => s.phase.Forking?
    case ChildWrites(_) => s.child.Running?
    case ChildExits(_) => s.phase.Idle? && s.child.Running?
    case Rename(_) => s.phase.Idle? && s.child.Finished?
    case PersistDone(_) => s.phase.Renamed?
    case UnlinkNewBase => s.phase.Undo?
    case StartGc => s.phase.Idle?
    case DeleteOne => s.phase.Deleting? && s.mem.history != []
    case PersistGc(_) => s.phase.Deleting? && s.mem.history == []
    case SkipGc => s.phase.Deleting?
    case Crash => !s.broken
  }

  function Append(files: Files, f: FileName, log: Log): Files { files[f := Content(files, f) + log] }

  function Flushed(s: State, k: nat): State
    requires k <= |s.buf|
  {
    s.(files := Append(s.files, Incr(s.fd), s.buf[..k]), buf := s.buf[k..])
  }

  function NewIncr(s: State): FileName { Incr(s.mem.incrSeq + 1) }
  function NewBase(s: State): FileName { Base(s.mem.baseSeq + 1) }

  /** The manifest on disk becomes `m`, which describes the in-memory state. */
  function Persisted(s: State, m: Manifest): State { s.(disk := m, broken := false) }

  function Apply(s: State, a: Step): State
    requires Enabled(s, a)
  {
    match a
    case Execute(cmd) => s.(executed := s.executed + [cmd], buf := s.buf + [cmd])
    case Flush(k) => Flushed(s, k)
    case BeginRewrite(k, ok) =>
      var t := Flushed(s, k);
      if ok then t.(files := t.files[NewIncr(t) := []], phase := Opened) else t   // O_TRUNC|O_CREAT
    case PersistOpen(out) =>
      var temp := WithNewIncr(s.mem);
      if out.Written? then Persisted(s, temp).(mem := temp, fd := temp.incrSeq, phase := Forking)
      else if out.FailedAfter? then Persisted(s, temp).(phase := Idle)
      else s.(phase := Idle)
    case Fork(ok) =>
      if ok then s.(child := Running(s.executed, s.buf), phase := Idle) else s.(phase := Idle)
    case ChildWrites(part) => s.(files := s.files[Temp := part])
    case ChildExits(ok) =>
      if ok then s.(files := s.files[Temp := s.child.snapshot], child := Finished(s.child.snapshot, s.child.carried))
      else s.(files := s.files - {Temp}, child := NoChild)
    case Rename(ok) =>
      if ok then s.(files := (s.files - {Temp})[NewBase(s) := Content(s.files, Temp)], phase := Renamed)
      else s.(files := s.files - {Temp}, child := NoChild)
    case PersistDone(out) =>
      var temp := Rewritten(s.mem);
      if out.Written?
      then Persisted(s, temp).(mem := temp, phase := Deleting, child := NoChild,
                               cut := if s.child.Finished? then |s.child.snapshot| else 0,
                               carry := if s.child.Finished? then s.child.carried else [])
      else if out.FailedAfter? then Persisted(s, temp).(phase := Undo(true))
      else s.(phase := Undo(false))
    case UnlinkNewBase =>
      s.(files := s.files - {NewBase(s)}, phase := Idle, child := NoChild,
         broken := s.broken || s.phase.ahead)
    case StartGc => if s.mem.history == [] then s else s.(phase := Deleting)
    case DeleteOne => s.(files := s.files - {s.mem.history[0]}, mem := s.mem.(history := s.mem.history[1..]))
    case PersistGc(out) =>
      if out.FailedBefore? then s.(phase := Idle) else Persisted(s, s.mem).(phase := Idle)
    case SkipGc => s.(phase := Idle)
    case Crash =>
      var m := Loaded(s.disk);
      s.(mem := m, fd := m.incrSeq, buf := [], executed := Replay(s.files, s.disk),
         child := NoChild, phase := Idle, cut := 0, carry := [])
  }

  /** Runs: steps that are not enabled change nothing. */
  function Run(s: State, steps: seq<Step>): State
    decreases |steps|
  {
    if steps == [] then s
    else var t := Run(s, steps[..|steps| - 1]);
         var a := steps[|steps| - 1];
         if Enabled(t, a) then Apply(t, a) else t
  }

  /** The file names a step truncates, overwrites or unlinks. */
  function Touched(s: State, a: Step): set<FileName>
    requires Enabled(s, a)
  {
    match a
    case BeginRewrite(_, ok) => if ok then {NewIncr(s)} else {}
    case ChildWrites(_) => {Temp}
    case ChildExits(_) => {Temp}
    case Rename(ok) => if ok then {Temp, NewBase(s)} else {Temp}
    case UnlinkNewBase => {NewBase(s)}
    case DeleteOne => {s.mem.history[0]}
    case _ => {}
  }
}
