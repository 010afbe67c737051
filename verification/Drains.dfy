/**
  The two reader tasks of `execution/process.run_process`, which share one output budget.
  Each task runs from one `await` to the next without interruption; the event loop may
  otherwise interleave them in any way, and sizes of reads are up to the pipes.
 */
module Drains {
  import opened Bytes

  const READ_SIZE: nat := 16 * 1024
  const STDERR_LIMIT: nat := 64 * 1024

  datatype Stream = Stdout | Stderr

  datatype Task = Reading | Overflowed | AtEnd

  /** The shared counters, the two files, and where each task is. */
  datatype State = State(
    used: nat, stderrUsed: nat, stdout: seq<Byte>, stderr: seq<Byte>, outTask: Task, errTask: Task)

  const START := State(0, 0, [], [], Reading, Reading)

  function Min(a: int, b: int): int {
    if a <= b then a else b
  }

  /** What both budgets leave for the next chunk of a stream. */
  function Available(s: State, limit: nat, from: Stream): int {
    match from
    case Stdout => limit - s.used
    case Stderr => Min(limit - s.used, STDERR_LIMIT - s.stderrUsed)
  }

  /** One turn of a task with the chunk it read; an empty chunk is the end of its stream. */
  function Turn(s: State, limit: nat, from: Stream, chunk: seq<Byte>): State
    requires Available(s, limit, from) >= 0
  {
    var saved := chunk[..Min(|chunk|, Available(s, limit, from))];
    var task := if chunk == [] then AtEnd else if |saved| != |chunk| then Overflowed else Reading;
    match from
    case Stdout => s.(used := s.used + |saved|, stdout := s.stdout + saved, outTask := task)
    case Stderr =>
      s.(used := s.used + |saved|, stderrUsed := s.stderrUsed + |saved|, stderr := s.stderr + saved, errTask := task)
  }

  /** The counters and files as the tasks share them. */
  class SharedCapture {
    const limit: nat
    var used: nat
    var stderrUsed: nat
    var stdout: seq<Byte>
    var stderr: seq<Byte>
    var outTask: Task
    var errTask: Task

    ghost function Contents(): State
      reads this
    {
      State(used, stderrUsed, stdout, stderr, outTask, errTask)
    }

    constructor (limit: nat)
      ensures Contents() == START && this.limit == limit
    {
      this.limit := limit;
      used, stderrUsed, stdout, stderr, outTask, errTask := 0, 0, [], [], Reading, Reading;
    }

    /** The body of `drain` between two reads. */
    method Drain(from: Stream, chunk: seq<Byte>)
      requires Available(Contents(), limit, from) >= 0
      modifies this
      ensures Contents() == Turn(old(Contents()), limit, from, chunk)
    {
      if chunk == [] {
        if from == Stdout { outTask := AtEnd; } else { errTask := AtEnd; }
        assert stdout + [] == stdout && stderr + [] == stderr;
        return;
      }
      var available: int := limit - used;
      if from == Stderr && STDERR_LIMIT - stderrUsed < available {
        available := STDERR_LIMIT - stderrUsed;
      }
      var saved := if available < |chunk| then chunk[..available] else chunk;
      assert saved == chunk[..Min(|chunk|, available)];
      used := used + |saved|;
      if from == Stdout {
        stdout := stdout + saved;
        outTask := if |saved| != |chunk| then Overflowed else Reading;
      } else {
        stderr := stderr + saved;
        stderrUsed := stderrUsed + |saved|;
        errTask := if |saved| != |chunk| then Overflowed else Reading;
      }
    }
  }

  // ---------------------------------------------------------------- interleavings

  /** The two streams that the process writes, and the budget. */
  datatype Output = Output(out: seq<Byte>, err: seq<Byte>, limit: nat)

  function Content(o: Output, from: Stream): seq<Byte> {
    if from == Stdout then o.out else o.err
  }

  function File(s: State, from: Stream): seq<Byte> {
    if from == Stdout then s.stdout else s.stderr
  }

  function TaskOf(s: State, from: Stream): Task {
    if from == Stdout then s.outTask else s.errTask
  }

  /** A read that may come next: what follows in the stream, and nothing only at its end. */
  predicate Readable(s: State, o: Output, from: Stream, chunk: seq<Byte>) {
    var done := |File(s, from)|;
    && TaskOf(s, from) == Reading
    && |chunk| <= READ_SIZE && done + |chunk| <= |Content(o, from)|
    && chunk == Content(o, from)[done..done + |chunk|]
    && (chunk == [] ==> done == |Content(o, from)|)
  }

  /** One turn of whichever task is scheduled. */
  datatype Scheduled = Scheduled(from: Stream, chunk: seq<Byte>)

  predicate Step(s: State, turn: Scheduled, o: Output, next: State) {
    && Readable(s, o, turn.from, turn.chunk)
    && Available(s, o.limit, turn.from) >= 0
    && next == Turn(s, o.limit, turn.from, turn.chunk)
  }

  predicate Interleaving(states: seq<State>, turns: seq<Scheduled>, o: Output) {
    && |states| == |turns| + 1 && states[0] == START
    && forall i | 0 <= i < |turns| :: Step(states[i], turns[i], o, states[i + 1])
  }

  /** The process may write this much. */
  predicate WithinLimits(o: Output) {
    |o.out| + |o.err| <= o.limit && |o.err| <= STDERR_LIMIT
  }

  predicate FileFits(file: seq<Byte>, content: seq<Byte>, task: Task) {
    && |file| <= |content| && file == content[..|file|]
    && (task == AtEnd ==> file == content)
  }

  /** What every interleaving keeps. */
  predicate Inv(s: State, o: Output) {
    && s.used == |s.stdout| + |s.stderr| && s.used <= o.limit
    && s.stderrUsed == |s.stderr| && s.stderrUsed <= STDERR_LIMIT
    && FileFits(s.stdout, o.out, s.outTask) && FileFits(s.stderr, o.err, s.errTask)
    && (s.outTask == Overflowed || s.errTask == Overflowed ==> !WithinLimits(o))
  }

  lemma FileGrows(file: seq<Byte>, content: seq<Byte>, chunk: seq<Byte>, n: nat, task: Task)
    requires FileFits(file, content, Reading) && n <= |chunk| && |file| + |chunk| <= |content|
    requires chunk == content[|file|..|file| + |chunk|] && (task == AtEnd ==> chunk == [] && |file| == |content|)
    ensures FileFits(file + chunk[..n], content, task)
  {
    assert chunk[..n] == content[|file|..|file| + n];
    assert content[..|file|] + content[|file|..|file| + n] == content[..|file| + n];
    assert content[..|content|] == content;
  }

  lemma TurnKeeps(s: State, o: Output, from: Stream, chunk: seq<Byte>)
    requires Inv(s, o) && Readable(s, o, from, chunk)
    ensures Available(s, o.limit, from) >= 0 && Inv(Turn(s, o.limit, from, chunk), o)
  {
    var n := Min(|chunk|, Available(s, o.limit, from));
    var task := TaskOf(Turn(s, o.limit, from, chunk), from);
    FileGrows(File(s, from), Content(o, from), chunk, n, task);
  }

  lemma {:induction false} InterleavingKeeps(states: seq<State>, turns: seq<Scheduled>, o: Output, i: nat)
    requires Interleaving(states, turns, o) && i < |states|
    ensures Inv(states[i], o)
  {
    if i > 0 {
      InterleavingKeeps(states, turns, o, i - 1);
      TurnKeeps(states[i - 1], o, turns[i - 1].from, turns[i - 1].chunk);
    }
  }

  /**
    Under every interleaving the counters say exactly what the files hold, both budgets are
    kept, and each file is the beginning of its stream.
   */
  lemma SharedBudget(states: seq<State>, turns: seq<Scheduled>, o: Output, i: nat)
    requires Interleaving(states, turns, o) && i < |states|
    ensures var s := states[i];
            && s.used == |s.stdout| + |s.stderr| <= o.limit
            && s.stderrUsed == |s.stderr| <= STDERR_LIMIT
            && s.stdout <= o.out && s.stderr <= o.err
  {
    InterleavingKeeps(states, turns, o, i);
  }

  /** The tasks are over: one gave up, or both came to the end of their streams. */
  predicate Over(s: State) {
    s.outTask == Overflowed || s.errTask == Overflowed || (s.outTask == AtEnd && s.errTask == AtEnd)
  }

  predicate Accepted(s: State) {
    s.outTask == AtEnd && s.errTask == AtEnd
  }

  /**
    Whether the output is accepted does not depend on the schedule: whenever the tasks are
    over, it is accepted if and only if both limits allow all of it, and the files then hold
    the streams in full.
   */
  lemma ScheduleIndependent(states: seq<State>, turns: seq<Scheduled>, o: Output)
    requires Interleaving(states, turns, o) && Over(states[|turns|])
    ensures Accepted(states[|turns|]) <==> WithinLimits(o)
    ensures Accepted(states[|turns|]) ==> states[|turns|].stdout == o.out && states[|turns|].stderr == o.err
  {
    InterleavingKeeps(states, turns, o, |turns|);
  }

  function Stopped(t: Task): nat {
    if t == Reading then 0 else 1
  }

  /** Every interleaving comes to an end: it has no more turns than there are bytes, and two. */
  lemma {:induction false} Bounded(states: seq<State>, turns: seq<Scheduled>, o: Output, i: nat)
    requires Interleaving(states, turns, o) && i < |states|
    ensures i <= |states[i].stdout| + |states[i].stderr| + Stopped(states[i].outTask) + Stopped(states[i].errTask)
    ensures i <= |o.out| + |o.err| + 2
  {
    InterleavingKeeps(states, turns, o, i);
    if i > 0 {
      Bounded(states, turns, o, i - 1);
    }
  }

  /** A task that is still reading can always take a turn: the interleavings never get stuck. */
  lemma NeverStuck(states: seq<State>, turns: seq<Scheduled>, o: Output, from: Stream) returns (chunk: seq<Byte>)
    requires Interleaving(states, turns, o) && TaskOf(states[|turns|], from) == Reading
    ensures Readable(states[|turns|], o, from, chunk) && Available(states[|turns|], o.limit, from) >= 0
    ensures Interleaving(
              states + [Turn(states[|turns|], o.limit, from, chunk)], turns + [Scheduled(from, chunk)], o)
  {
    InterleavingKeeps(states, turns, o, |turns|);
    var s := states[|turns|];
    var done := |File(s, from)|;
    var n := Min(READ_SIZE, |Content(o, from)| - done);
    chunk := Content(o, from)[done..done + n];
    TurnKeeps(s, o, from, chunk);
    InterleavingExtends(states, turns, o, Scheduled(from, chunk), Turn(s, o.limit, from, chunk));
  }

  lemma InterleavingExtends(states: seq<State>, turns: seq<Scheduled>, o: Output, turn: Scheduled, next: State)
    requires Interleaving(states, turns, o) && Step(states[|turns|], turn, o, next)
    ensures Interleaving(states + [next], turns + [turn], o)
  {
    var more, past := states + [next], turns + [turn];
    forall i | 0 <= i < |past|
      ensures Step(more[i], past[i], o, more[i + 1])
    {
      if i < |turns| {
        assert more[i] == states[i] && past[i] == turns[i] && more[i + 1] == states[i + 1];
      }
    }
  }
}
