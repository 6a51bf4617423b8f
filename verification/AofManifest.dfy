/**
  The append-only file manifest (src/aof.c): at most one BASE file, the INCR files in order,
  and the HISTORY files left over from earlier rewrites.
 */
module AofManifest {

  /** File names; base and incr names are numbered from their own counters. */
  datatype FileName = Base(seqno: nat) | Incr(seqno: nat) | Temp

  datatype BaseFile = NoBase | BaseAt(seqno: nat)

  datatype Manifest = Manifest(base: BaseFile, incrs: seq<nat>, history: seq<FileName>, baseSeq: nat, incrSeq: nat)

  function IncrNames(incrs: seq<nat>): (names: seq<FileName>)
    ensures |names| == |incrs|
    ensures forall i :: 0 <= i < |incrs| ==> names[i] == Incr(incrs[i])
  {
    seq(|incrs|, i requires 0 <= i < |incrs| => Incr(incrs[i]))
  }

  // ---- What the manifest operations compute ----------------------------------------------

  /** getNewIncrAofName. */
  function WithNewIncr(m: Manifest): Manifest {
    m.(incrs := m.incrs + [m.incrSeq + 1], incrSeq := m.incrSeq + 1)
  }

  /** getNewBaseFileNameAndMarkPreAsHistory. */
  function WithNewBase(m: Manifest): Manifest {
    m.(base := BaseAt(m.baseSeq + 1), baseSeq := m.baseSeq + 1,
       history := (if m.base.BaseAt? then [Base(m.base.seqno)] else []) + m.history)
  }

  /** markRewrittenIncrAofAsHistory while the append-only file is open: all but the last INCR. */
  function WithOldIncrsAsHistory(m: Manifest): Manifest {
    if m.incrs == [] then m
    else m.(incrs := [m.incrs[|m.incrs| - 1]],
            history := IncrNames(m.incrs[..|m.incrs| - 1]) + m.history)
  }

  /** The manifest a successful rewrite installs. */
  function Rewritten(m: Manifest): Manifest { WithOldIncrsAsHistory(WithNewBase(m)) }

  /** aofLoadManifestFromFile: the counters restart from the files listed. */
  function Loaded(m: Manifest): Manifest {
    m.(baseSeq := if m.base.BaseAt? then m.base.seqno else 0,
       incrSeq := if m.incrs == [] then 0 else m.incrs[|m.incrs| - 1])
  }

  /** The files a restart would replay. */
  function Live(m: Manifest): set<FileName> {
    (if m.base.BaseAt? then {Base(m.base.seqno)} else {}) + (set i | i in m.incrs :: Incr(i))
  }

  // ---- The manifest object ---------------------------------------------------------------

  /** struct aofManifest, updated in place. */
  class AofManifestObject {
    var base: BaseFile
    var incrs: seq<nat>           // incr_aof_list
    var history: seq<FileName>    // history_aof_list
    var baseSeq: nat
    var incrSeq: nat
    var dirty: bool

    ghost function Value(): Manifest reads this { Manifest(base, incrs, history, baseSeq, incrSeq) }

    constructor Dup(orig: Manifest, origDirty: bool)
      ensures Value() == orig && dirty == origDirty
    {
      base, incrs, history := orig.base, orig.incrs, orig.history;
      baseSeq, incrSeq, dirty := orig.baseSeq, orig.incrSeq, origDirty;
    }

    method GetNewIncrAofName() returns (name: FileName)
      modifies this
      ensures Value() == WithNewIncr(old(Value())) && dirty
      ensures name == Incr(incrSeq)
    {
      incrSeq := incrSeq + 1;
      incrs := incrs + [incrSeq];
      dirty := true;
      name := Incr(incrSeq);
    }

    method GetNewBaseFileName() returns (name: FileName)
      modifies this
      ensures Value() == WithNewBase(old(Value())) && dirty && name == Base(baseSeq)
    {
      if base.BaseAt? {
        history := [Base(base.seqno)] + history;
      }
      baseSeq := baseSeq + 1;
      base := BaseAt(baseSeq);
      dirty := true;
      name := Base(baseSeq);
    }

    /** The loop walks the INCR list from its tail, pushing each file on the head of HISTORY. */
    method MarkRewrittenIncrAofAsHistory()
      modifies this
      ensures Value() == WithOldIncrsAsHistory(old(Value()))
    {
      if |incrs| == 0 { return; }
      ghost var was := Value();
      var i := |incrs| - 1;                 // the file being written is skipped
      while i > 0
        invariant 0 <= i <= |was.incrs| - 1
        invariant base == was.base && baseSeq == was.baseSeq && incrSeq == was.incrSeq
        invariant incrs == was.incrs[..i] + [was.incrs[|was.incrs| - 1]]
        invariant history == IncrNames(was.incrs[i..|was.incrs| - 1]) + was.history
      {
        i := i - 1;
        history := [Incr(incrs[i])] + history;
        incrs := incrs[..i] + incrs[i + 1..];
      }
      dirty := true;
    }
  }
}
