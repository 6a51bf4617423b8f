/**
  Flushing the AOF buffer (src/aof.c): partial writes, write errors and undoing them with
  ftruncate, on a descriptor opened with or without O_APPEND.
 */
module AofFlush {
  import opened AofCodec

  // ---- Files -------------------------------------------------------------------------------------------------

  /** An open file: its contents, the position of the descriptor, and whether it was opened with O_APPEND. */
  datatype Fd = Fd(file: Bytes, offset: nat, append: bool)

  function Zeros(n: nat): (z: Bytes)
    ensures |z| == n
  {
    seq(n, _ => 0)
  }

  /** Writing past the end leaves zeros in between. */
  function WriteAt(file: Bytes, pos: nat, data: Bytes): Bytes {
    if data == [] then file
    else if pos > |file| then file + Zeros(pos - |file|) + data
    else file[..pos] + data + if pos + |data| < |file| then file[pos + |data|..] else []
  }

  function Write(fd: Fd, data: Bytes): Fd {
    var pos := if fd.append then |fd.file| else fd.offset;
    if data == [] then fd else fd.(file := WriteAt(fd.file, pos, data), offset := pos + |data|)
  }

  function Truncate(fd: Fd, size: nat): Fd {
    fd.(file := if size <= |fd.file| then fd.file[..size] else fd.file + Zeros(size - |fd.file|))
  }

  /** Two writes in a row are one write of both. */
  lemma WriteTwice(fd: Fd, a: Bytes, b: Bytes)
    ensures Write(Write(fd, a), b) == Write(fd, a + b)
  {
    if a == [] {
      assert a + b == b;
    } else if b == [] {
      assert a + b == a;
    } else {
      var pos := if fd.append then |fd.file| else fd.offset;
      WriteAtTwice(fd.file, pos, a, b);
      if fd.append { assert |WriteAt(fd.file, pos, a)| == pos + |a|; }
    }
  }

  lemma WriteNone(fd: Fd, data: Bytes)
    ensures Write(fd, data[..0]) == fd
  {
    assert data[..0] == [];
  }

  lemma WriteNext(fd: Fd, data: Bytes, i: nat, n: nat)
    requires i + n <= |data|
    ensures Write(Write(fd, data[..i]), data[i..i + n]) == Write(fd, data[..i + n])
  {
    WriteTwice(fd, data[..i], data[i..i + n]);
    assert data[..i] + data[i..i + n] == data[..i + n];
  }

  lemma WriteAtTwice(file: Bytes, pos: nat, a: Bytes, b: Bytes)
    requires a != [] && b != []
    ensures WriteAt(WriteAt(file, pos, a), pos + |a|, b) == WriteAt(file, pos, a + b)
  {
    var start := Upto(file, pos);
    Written(file, pos, a);
    Written(file, pos, a + b);
    Written(WriteAt(file, pos, a), pos + |a|, b);
    hide WriteAt, Upto;
    var f := start + a + Rest(file, pos + |a|);
    assert f[..pos + |a|] == start + a;
    assert start + a + b == start + (a + b);
    RestOfRest(start + a, file, pos + |a|, |b|);
  }

  /** The part of a file before a position, zeros past its end. */
  function Upto(file: Bytes, pos: nat): (u: Bytes)
    ensures |u| == pos && (pos <= |file| ==> u == file[..pos])
  {
    if pos <= |file| then file[..pos] else file + Zeros(pos - |file|)
  }

  function Rest(file: Bytes, pos: nat): Bytes { if pos <= |file| then file[pos..] else [] }

  lemma Written(file: Bytes, pos: nat, data: Bytes)
    requires data != []
    ensures WriteAt(file, pos, data) == Upto(file, pos) + data + Rest(file, pos + |data|)
  {
  }

  lemma RestOfRest(start: Bytes, file: Bytes, pos: nat, n: nat)
    requires |start| == pos
    ensures Rest(start + Rest(file, pos), pos + n) == Rest(file, pos + n)
  {
    var f := start + Rest(file, pos);
    if pos + n <= |file| {
      assert f[pos + n..] == file[pos..][n..] == file[pos + n..];
    } else if pos + n <= |f| {
      assert pos + n == |f| && n == 0;
    }
  }

  // ---- The buffer --------------------------------------------------------------------------------------------------

  /** The descriptor, aof_buf and aof_last_incr_size. */
  datatype State = State(fd: Fd, buf: Bytes, size: nat)

  function Fed(s: State, data: Bytes): State { s.(buf := s.buf + data) }

  /** flushAppendOnlyFile when t bytes of the buffer could be written, and ftruncate works or not. */
  function Flushed(s: State, t: nat, truncates: bool): State
    requires t <= |s.buf|
  {
    var fd := Write(s.fd, s.buf[..t]);
    if t == |s.buf| then State(fd, [], s.size + t)
    else if t == 0 then s
    else if truncates then s.(fd := Truncate(fd, s.size))
    else State(fd, s.buf[t..], s.size + t)
  }

  /** File and buffer together hold everything, and the recorded size is the file's. */
  ghost predicate Conserved(s: State, all: Bytes) { s.fd.file + s.buf == all && s.size == |s.fd.file| }

  /** The next write goes to the end of the file. */
  predicate Sound(fd: Fd) { fd.append || fd.offset == |fd.file| }

  lemma WriteAtEnd(fd: Fd, data: Bytes)
    requires Sound(fd)
    ensures Write(fd, data).file == fd.file + data
    ensures Sound(Write(fd, data))
  {
  }

  /** A flush keeps file and buffer together exactly when the next write is sound, or nothing it wrote stays. */
  lemma FlushExact(s: State, t: nat, truncates: bool, all: Bytes)
    requires Conserved(s, all) && t <= |s.buf| && (s.fd.append || s.fd.offset >= |s.fd.file|)
    ensures Conserved(Flushed(s, t, truncates), all) <==> Sound(s.fd) || t == 0 || (t < |s.buf| && truncates)
  {
    assert s.buf == s.buf[..t] + s.buf[t..];
    if Sound(s.fd) {
      WriteAtEnd(s.fd, s.buf[..t]);
      FlushSound(s, t, truncates, all);
    } else if t > 0 {
      assert |Write(s.fd, s.buf[..t]).file| == s.fd.offset + t;
      assert Write(s.fd, s.buf[..t]).file[..s.size] == s.fd.file;
    }
  }

  lemma FlushSound(s: State, t: nat, truncates: bool, all: Bytes)
    requires Conserved(s, all) && t <= |s.buf| && Sound(s.fd)
    ensures Conserved(Flushed(s, t, truncates), all)
    ensures Sound(Flushed(s, t, truncates).fd) <==> s.fd.append || t == 0 || t == |s.buf| || !truncates
  {
    WriteAtEnd(s.fd, s.buf[..t]);
    assert s.buf == s.buf[..t] + s.buf[t..];
    assert s.fd.file + s.buf == s.fd.file + s.buf[..t] + s.buf[t..];
    if t == |s.buf| {
      assert s.buf[..t] == s.buf;
      assert s.fd.file + s.buf + [] == s.fd.file + s.buf;
    } else if t > 0 && truncates {
      assert (s.fd.file + s.buf[..t])[..s.size] == s.fd.file;
    }
  }

  // ---- Runs ---------------------------------------------------------------------------------------------------------

  datatype Step = Feed(data: Bytes) | Flush(written: nat, truncates: bool)

  function Apply(s: State, step: Step): State {
    match step
    case Feed(data) => Fed(s, data)
    case Flush(t, truncates) => Flushed(s, if t <= |s.buf| then t else |s.buf|, truncates)
  }

  function Run(s: State, steps: seq<Step>): State
    decreases |steps|
  {
    if steps == [] then s else Apply(Run(s, steps[..|steps| - 1]), steps[|steps| - 1])
  }

  /** Everything fed in a run. */
  function FedBytes(steps: seq<Step>): Bytes
    decreases |steps|
  {
    if steps == [] then []
    else FedBytes(steps[..|steps| - 1]) + if steps[|steps| - 1].Feed? then steps[|steps| - 1].data else []
  }

  /** A short write is never undone: the descriptor stays at the end of the file. */
  ghost predicate NoUndo(s: State, steps: seq<Step>) {
    forall i :: 0 <= i < |steps| && steps[i].Flush?
      ==> !(0 < steps[i].written < |Run(s, steps[..i]).buf| && steps[i].truncates)
  }

  lemma ApplyConserves(s: State, step: Step, all: Bytes)
    requires Conserved(s, all) && Sound(s.fd)
    ensures Conserved(Apply(s, step), all + if step.Feed? then step.data else [])
    ensures Sound(Apply(s, step).fd) || (step.Flush? && !s.fd.append && 0 < step.written < |s.buf| && step.truncates)
  {
    match step
    case Feed(data) => assert s.fd.file + (s.buf + data) == s.fd.file + s.buf + data;
    case Flush(t, truncates) =>
      FlushSound(s, if t <= |s.buf| then t else |s.buf|, truncates, all);
      assert all + [] == all;
  }

  /**
    On an appending descriptor, or if no short write is undone, every byte fed is in the file or the buffer,
    in order.
   */
  lemma {:induction false} RunConserves(s: State, steps: seq<Step>, all: Bytes)
    requires Conserved(s, all) && Sound(s.fd) && (s.fd.append || NoUndo(s, steps))
    ensures Conserved(Run(s, steps), all + FedBytes(steps)) && Sound(Run(s, steps).fd)
            && Run(s, steps).fd.append == s.fd.append
    decreases |steps|
  {
    hide Apply, Conserved, Sound;
    if steps == [] {
      assert all + [] == all;
    } else {
      var most, last := steps[..|steps| - 1], steps[|steps| - 1];
      if !s.fd.append {
        NoUndoPrefix(s, steps);
        assert last.Flush? ==> !(0 < last.written < |Run(s, most).buf| && last.truncates);
      }
      hide NoUndo;
      RunConserves(s, most, all);
      ApplyConserves(Run(s, most), last, all + FedBytes(most));
      AppendKept(Run(s, most), last);
      FedMore(all, steps);
    }
  }

  lemma FedMore(all: Bytes, steps: seq<Step>)
    requires steps != []
    ensures var most, last := steps[..|steps| - 1], steps[|steps| - 1];
            all + FedBytes(steps) == all + FedBytes(most) + if last.Feed? then last.data else []
  {
    var most, last := steps[..|steps| - 1], steps[|steps| - 1];
    var more := if last.Feed? then last.data else [];
    assert all + FedBytes(most) + more == all + (FedBytes(most) + more);
  }

  lemma NoUndoPrefix(s: State, steps: seq<Step>)
    requires steps != []
    ensures NoUndo(s, steps) ==> NoUndo(s, steps[..|steps| - 1])
  {
    var most := steps[..|steps| - 1];
    forall i | 0 <= i < |most| ensures most[..i] == steps[..i] && most[i] == steps[i] {}
    hide Run;
  }

  lemma AppendKept(s: State, step: Step)
    ensures Apply(s, step).fd.append == s.fd.append
  {
  }

  /** Without O_APPEND a short write that is undone leaves a zero byte in front of the next one. */
  lemma UndoLeavesHole()
    ensures var s := State(Fd([], 0, false), [], 0);
            Run(s, [Feed([1, 2]), Flush(1, true), Flush(2, true)]).fd.file == [0, 1, 2]
  {
    var s := State(Fd([], 0, false), [], 0);
    var steps := [Feed([1, 2]), Flush(1, true), Flush(2, true)];
    assert steps[..2] == [Feed([1, 2]), Flush(1, true)] && steps[..2][..1] == [Feed([1, 2])]
           && [Feed([1, 2])][..0] == [];
    var s1 := State(s.fd, [1, 2], 0);
    assert Run(s, [Feed([1, 2])]) == s1 by { assert Run(s, []) == s; }
    var s2 := State(Fd([], 1, false), [1, 2], 0);
    assert Flushed(s1, 1, true) == s2;
    assert Zeros(1) == [0];
    assert [1, 2][..2] == [1, 2];
    assert Flushed(s2, 2, true).fd.file == [0, 1, 2];
  }

  // ---- The code ----------------------------------------------------------------------------------------------------

  /** What one write call does: so many bytes, an interruption, or an error. */
  datatype Outcome = Wrote(n: nat) | Interrupted | Failed

  class AofBuffer {
    var fd: Fd
    var buf: Bytes               // aof_buf
    var lastIncrSize: nat        // aof_last_incr_size
    var currentSize: nat         // aof_current_size

    ghost function View(): State
      reads this
    {
      State(fd, buf, lastIncrSize)
    }

    constructor (open: Fd)
      ensures fd == open && View() == State(open, [], |open.file|) && Conserved(View(), open.file)
    {
      fd, buf, lastIncrSize, currentSize := open, [], |open.file|, |open.file|;
      new;
      assert open.file + [] == open.file;
    }

    /** The last step of feedAppendOnlyFile. */
    method Feed(data: Bytes)
      modifies this`buf
      ensures View() == Fed(old(View()), data)
    {
      buf := buf + data;
    }

    /** aofWrite: retries short and interrupted writes; the outcomes run out when the rest succeeds at once. */
    method AofWrite(data: Bytes, outcomes: seq<Outcome>) returns (written: int)
      requires data != []
      modifies this`fd
      ensures written == -1 || 0 < written <= |data|
      ensures fd == Write(old(fd), data[..if written == -1 then 0 else written])
    {
      hide Write;
      var total, i := 0, 0;
      WriteNone(fd, data);
      while total < |data|
        invariant 0 <= total <= |data| && i <= |outcomes| && fd == Write(old(fd), data[..total])
        decreases |outcomes| - i, |data| - total
      {
        var n := |data| - total;
        if i < |outcomes| {
          i := i + 1;
          match outcomes[i - 1] {
            case Interrupted => continue;
            case Failed => return if total > 0 then total else -1;
            case Wrote(m) => if m < n { n := m; }
          }
        }
        WriteNext(old(fd), data, total, n);
        fd := Write(fd, data[total..total + n]);
        total := total + n;
      }
      return total;
    }

    /** flushAppendOnlyFile under the policies no and everysec; a flush may be postponed. */
    method Flush(outcomes: seq<Outcome>, truncates: bool, postponed: bool) returns (ghost t: nat)
      modifies this
      ensures t <= |old(buf)| && View() == Flushed(old(View()), t, truncates)
      ensures (postponed || old(buf) == []) ==> t == 0
      ensures currentSize - old(currentSize) == lastIncrSize - old(lastIncrSize)
    {
      t := 0;
      FlushNothing(View(), truncates);
      if buf == [] || postponed { return; }
      var written := AofWrite(buf, outcomes);
      t := if written == -1 then 0 else written;
      assert buf[..0] == [];
      if written != |buf| {
        if written != -1 && truncates {
          fd := Truncate(fd, lastIncrSize);
          written := -1;
        }
        if written > 0 {
          currentSize, lastIncrSize := currentSize + written, lastIncrSize + written;
          buf := buf[written..];
        }
        return;
      }
      currentSize, lastIncrSize := currentSize + written, lastIncrSize + written;
      buf := [];
    }
  }

  lemma FlushNothing(s: State, truncates: bool)
    ensures Flushed(s, 0, truncates) == s
  {
    assert s.buf[..0] == [];
  }
}
