/**
  Pumping bytes through a child's three pipes, and capping what is captured (src/subprocess.cpp:
  86-103, 319-483). The kernel's behaviour is a finite schedule of poll rounds.
 */
module Subprocess {
  import opened Text

  function Footer(): string { "\n[truncated]\n" }

  /** A stream as it is captured: whole if it fits, else its first `cap` bytes and the footer. */
  function Captured(stream: string, cap: nat): string {
    if |stream| <= cap then stream else stream[..cap] + Footer()
  }

  method AppendCapped(dst: string, truncated: bool, data: string, cap: nat, ghost stream: string)
    returns (dst': string, truncated': bool)
    requires dst == Captured(stream, cap) && (truncated <==> |stream| > cap)
    ensures dst' == (if |stream + data| <= cap then stream + data else (stream + data)[..cap] + "\n[truncated]\n")
    ensures dst' == Captured(stream + data, cap) && (truncated' <==> |stream + data| > cap)
  {
    if truncated {
      assert (stream + data)[..cap] == stream[..cap];
      return dst, truncated;
    }
    if |dst| + |data| > cap {
      var take := if cap > |dst| then cap - |dst| else 0;
      assert (stream + data)[..cap] == dst + data[..take];
      return dst + data[..take] + Footer(), true;
    }
    return dst + data, false;
  }

  /** What one write(2) does when the pipe is ready. Wrote(n) transfers n bytes, or all that are left. */
  datatype WriteOutcome = Wrote(n: nat) | WouldBlock | Interrupted | BrokenPipe

  /** What the reads do while a pipe is drained: chunks and interruptions, then why it stopped. */
  datatype ReadStep = Chunk(bytes: string) | ReadInterrupted
  datatype ReadEnd = Empty | EndOfFile | HardError
  datatype ReadRun = ReadRun(steps: seq<ReadStep>, end: ReadEnd)

  /** One pass of the loop: the deadline fires, poll fails, or poll reports which pipes are ready. */
  datatype Round =
    | Deadline
    | PollFails
    | PollInterrupted
    | PollTimesOut
    | Ready(input: Option<WriteOutcome>, output: Option<ReadRun>, errors: Option<ReadRun>)

  /** How the pump ends; StillRunning is a schedule that stops before the loop does. */
  datatype Ending = Finished | TimedOut | PollError | StillRunning

  function StepBytes(step: ReadStep): string {
    match step case Chunk(b) => b case ReadInterrupted => []
  }

  function Bytes(steps: seq<ReadStep>): string {
    if steps == [] then [] else Bytes(steps[..|steps| - 1]) + StepBytes(steps[|steps| - 1])
  }

  lemma BytesNext(steps: seq<ReadStep>, i: nat)
    requires i < |steps|
    ensures Bytes(steps[..i + 1]) == Bytes(steps[..i]) + StepBytes(steps[i])
  {
    assert steps[..i + 1][..i] == steps[..i];
  }

  /** One captured pipe: the buffer, whether it was cut, whether it ended, and all that was read from it. */
  class Capture {
    const cap: nat
    var buf: string
    var truncated: bool
    var eof: bool
    ghost var stream: string

    constructor (cap: nat)
      ensures this.cap == cap && Valid() && stream == [] && !eof
    {
      this.cap := cap;
      buf, truncated, eof := [], false, false;
      stream := [];
      new;
      assert Captured([], cap) == [];
    }

    ghost predicate Valid()
      reads this
    {
      buf == Captured(stream, cap) && (truncated <==> |stream| > cap)
    }

    method Append(bytes: string)
      requires Valid()
      modifies this`buf, this`truncated, this`stream
      ensures Valid() && stream == old(stream) + bytes
    {
      buf, truncated := AppendCapped(buf, truncated, bytes, cap, stream);
      stream := stream + bytes;
    }

    /** The inner loop: read until the pipe is empty, closed or broken. */
    method Drain(run: ReadRun)
      requires Valid()
      modifies this
      ensures Valid() && stream == old(stream) + Bytes(run.steps)
      ensures eof == (old(eof) || run.end != Empty)
    {
      for i := 0 to |run.steps|
        invariant Valid() && eof == old(eof)
        invariant stream == old(stream) + Bytes(run.steps[..i])
      {
        BytesNext(run.steps, i);
        if run.steps[i].Chunk? {
          Append(run.steps[i].bytes);
          Regroup(old(stream), Bytes(run.steps[..i]), run.steps[i].bytes);
        }
      }
      assert run.steps[..|run.steps|] == run.steps;
      match run.end {
        case Empty =>
        case EndOfFile => eof := true;
        case HardError => eof := true;
      }
    }

    /** A pipe that has ended is polled no more. */
    method Serve(ready: Option<ReadRun>)
      requires Valid()
      modifies this
      ensures Valid() && (stream, eof) == Polled((old(stream), old(eof)), ready)
    {
      if !eof && ready.Some? { Drain(ready.value); }
    }
  }

  /** What one round adds to what a pipe has yielded, and whether the pipe has ended. */
  function Polled(before: (string, bool), ready: Option<ReadRun>): (string, bool) {
    if before.1 || ready.None? then before else (before.0 + Bytes(ready.value.steps), ready.value.end != Empty)
  }

  /** What a schedule makes available on a pipe while it is polled: everything up to its end. */
  function Available(rounds: seq<Round>, pick: Round -> Option<ReadRun>): (string, bool) {
    if rounds == [] then ([], false)
    else Polled(Available(rounds[..|rounds| - 1], pick), pick(rounds[|rounds| - 1]))
  }

  /** One more round on a pipe. */
  lemma AvailableNext(schedule: seq<Round>, i: nat, pick: Round -> Option<ReadRun>)
    requires i < |schedule|
    ensures Available(schedule[..i + 1], pick) == Polled(Available(schedule[..i], pick), pick(schedule[i]))
  {
    assert schedule[..i + 1][..i] == schedule[..i];
  }

  /** All that the ready rounds read, whether the pipe had ended or not. */
  function AllRead(rounds: seq<Round>, pick: Round -> Option<ReadRun>): string {
    if rounds == [] then []
    else
      AllRead(rounds[..|rounds| - 1], pick)
      + match pick(rounds[|rounds| - 1]) case Some(run) => Bytes(run.steps) case None => []
  }

  /** The pipe ends, or fails, in this round. */
  predicate Ends(round: Round, pick: Round -> Option<ReadRun>) {
    pick(round).Some? && pick(round).value.end != Empty
  }

  /** While the pipe is open, all that is read is taken. */
  lemma {:induction false} OpenPipeYieldsAll(rounds: seq<Round>, pick: Round -> Option<ReadRun>)
    requires forall k :: 0 <= k < |rounds| ==> !Ends(rounds[k], pick)
    ensures Available(rounds, pick) == (AllRead(rounds, pick), false)
  {
    if rounds != [] {
      var init, last := rounds[..|rounds| - 1], rounds[|rounds| - 1];
      OpenPipeYieldsAll(init, pick);
      assert !Ends(last, pick);
      assert AllRead(init, pick) + [] == AllRead(init, pick);
    }
  }

  /** The first round in which it ends is the last one that is read. */
  lemma {:induction false} EndedPipeYieldsNoMore(rounds: seq<Round>, pick: Round -> Option<ReadRun>, first: nat)
    requires first < |rounds| && Ends(rounds[first], pick)
    requires forall k :: 0 <= k < first ==> !Ends(rounds[k], pick)
    ensures Available(rounds, pick) == (AllRead(rounds[..first + 1], pick), true)
  {
    var init := rounds[..|rounds| - 1];
    if first == |rounds| - 1 {
      OpenPipeYieldsAll(init, pick);
      assert rounds[..first + 1] == rounds;
    } else {
      assert init[..first + 1] == rounds[..first + 1];
      EndedPipeYieldsNoMore(init, pick, first);
    }
  }

  function OutputOf(r: Round): Option<ReadRun> { if r.Ready? then r.output else None }
  function ErrorsOf(r: Round): Option<ReadRun> { if r.Ready? then r.errors else None }

  /** How far the writes have come, and whether there will be no more. */
  datatype Input = Input(written: nat, done: bool, broken: bool)

  /** What one round does to the child's input, `total` bytes long. */
  function Fed(before: Input, total: nat, ready: Option<WriteOutcome>): Input {
    if before.done || ready.None? || before.written > total then before
    else
      match ready.value
      case Wrote(k) => var n := Min(k, total - before.written);
        Input(before.written + n, before.written + n == total, before.broken)
      case BrokenPipe => before.(done := true, broken := true)
      case _ => before
  }

  function Writes(rounds: seq<Round>, total: nat): Input {
    if rounds == [] then Input(0, total == 0, false)
    else Fed(Writes(rounds[..|rounds| - 1], total), total, InputOf(rounds[|rounds| - 1]))
  }

  function InputOf(r: Round): Option<WriteOutcome> { if r.Ready? then r.input else None }

  lemma WritesNext(schedule: seq<Round>, total: nat, i: nat)
    requires i < |schedule|
    ensures Writes(schedule[..i + 1], total) == Fed(Writes(schedule[..i], total), total, InputOf(schedule[i]))
  {
    assert schedule[..i + 1][..i] == schedule[..i];
  }

  /** The loop's exit condition, as a fact about what the schedule has brought so far. */
  predicate AllEnded(rounds: seq<Round>, total: nat) {
    Writes(rounds, total).done && Available(rounds, OutputOf).1 && Available(rounds, ErrorsOf).1
  }

  /** Writing is done exactly when everything is delivered, or the pipe broke. */
  lemma {:induction false} DoneMeansDeliveredOrBroken(rounds: seq<Round>, total: nat)
    ensures Writes(rounds, total).written <= total
    ensures Writes(rounds, total).done <==> Writes(rounds, total).written == total || Writes(rounds, total).broken
    ensures Writes(rounds, total).broken ==> exists k :: 0 <= k < |rounds| && InputOf(rounds[k]) == Some(BrokenPipe)
  {
    if rounds != [] { DoneMeansDeliveredOrBroken(rounds[..|rounds| - 1], total); }
  }

  /** What the kernel has taken, or would have, in all these rounds. */
  function Taken(rounds: seq<Round>): nat {
    if rounds == [] then 0
    else
      Taken(rounds[..|rounds| - 1])
      + match InputOf(rounds[|rounds| - 1]) case Some(Wrote(k)) => k case _ => 0
  }

  predicate NoBreak(rounds: seq<Round>) {
    forall k :: 0 <= k < |rounds| ==> InputOf(rounds[k]) != Some(BrokenPipe)
  }

  /** As long as no write fails hard, the child has got all that the kernel took, up to the whole input. */
  lemma {:induction false} WritesFollowTheKernel(rounds: seq<Round>, total: nat)
    requires NoBreak(rounds)
    ensures Writes(rounds, total) == Input(Min(total, Taken(rounds)), total <= Taken(rounds), false)
  {
    if rounds != [] {
      var init := rounds[..|rounds| - 1];
      WritesFollowTheKernel(init, total);
      assert rounds == init + [rounds[|rounds| - 1]];
    }
  }

  /** After the first hard failure nothing more is written, and there is one that counts only if something was left. */
  lemma {:induction false} WritesStopAtABreak(rounds: seq<Round>, first: nat, total: nat)
    requires first < |rounds| && NoBreak(rounds[..first]) && InputOf(rounds[first]) == Some(BrokenPipe)
    ensures Writes(rounds, total) == Input(Min(total, Taken(rounds[..first])), true, Taken(rounds[..first]) < total)
  {
    if first == |rounds| - 1 {
      WritesFollowTheKernel(rounds[..first], total);
    } else {
      var init := rounds[..|rounds| - 1];
      assert init[..first] == rounds[..first];
      WritesStopAtABreak(init, first, total);
    }
  }

  /** Feeding the child: `delivered` grows by exactly the bytes the kernel took. */
  method Feed(input: string, state: Input, ready: Option<WriteOutcome>, ghost delivered: string)
    returns (state': Input, ghost delivered': string)
    requires state.written <= |input| && delivered == input[..state.written]
    requires state.done <==> state.written == |input| || state.broken
    ensures state' == Fed(state, |input|, ready)
    ensures state.written <= state'.written <= |input| && delivered' == input[..state'.written]
    ensures delivered' == delivered + (
      match ready case Some(Wrote(k)) => if state.done then [] else input[state.written..][..Min(k, |input| - state.written)] case _ => [])
    ensures state'.done <==> state'.written == |input| || state'.broken
  {
    state', delivered' := state, delivered;
    if state.done || ready.None? { return; }
    var left := |input| - state.written;
    match ready.value {
      case Wrote(k) =>
        var n := Min(k, left);
        delivered' := delivered + input[state.written..][..n];
        state' := state.(written := state.written + n);
        if state'.written == |input| { state' := state'.(done := true); }
      case WouldBlock =>
      case Interrupted =>
      case BrokenPipe => state' := state.(done := true, broken := true);
    }
  }

  /** What the loop does once poll has returned. */
  method OneRound(out: Capture, err: Capture, input: string, state: Input, round: Round, ghost delivered: string)
    returns (state': Input, ghost delivered': string)
    requires out != err && out.Valid() && err.Valid()
    requires state.written <= |input| && delivered == input[..state.written]
    requires state.done <==> state.written == |input| || state.broken
    modifies out, err
    ensures out.Valid() && (out.stream, out.eof) == Polled((old(out.stream), old(out.eof)), OutputOf(round))
    ensures err.Valid() && (err.stream, err.eof) == Polled((old(err.stream), old(err.eof)), ErrorsOf(round))
    ensures state' == Fed(state, |input|, InputOf(round))
    ensures state'.written <= |input| && delivered' == input[..state'.written]
    ensures state'.done <==> state'.written == |input| || state'.broken
  {
    state', delivered' := state, delivered;
    if round.Ready? {
      state', delivered' := Feed(input, state, round.input, delivered);
      out.Serve(round.output);
      err.Serve(round.errors);
    }
  }

  /**
   The poll loop, for every schedule. The child is given exactly the first bytes of the input, in
   order and once, as many as the kernel took; each buffer is the capture of what its pipe yielded
   before it ended. The loop stops at the first round where everything has ended, the deadline
   fires or poll fails, and not before.
   */
  method Pump(input: string, cap: nat, schedule: seq<Round>)
    returns (ending: Ending, stdout: string, stderr: string, outTruncated: bool, errTruncated: bool,
             rounds: nat, ghost delivered: string)
    ensures rounds <= |schedule|
    ensures var state := Writes(schedule[..rounds], |input|); state.written <= |input| && delivered == input[..state.written]
    ensures stdout == Captured(Available(schedule[..rounds], OutputOf).0, cap)
    ensures stderr == Captured(Available(schedule[..rounds], ErrorsOf).0, cap)
    ensures outTruncated <==> |Available(schedule[..rounds], OutputOf).0| > cap
    ensures errTruncated <==> |Available(schedule[..rounds], ErrorsOf).0| > cap
    ensures ending.Finished? <==> AllEnded(schedule[..rounds], |input|)
    ensures NoBreak(schedule[..rounds]) ==> delivered == input[..Min(|input|, Taken(schedule[..rounds]))]
    ensures ending.Finished? ==> delivered == input || Writes(schedule[..rounds], |input|).broken
    ensures ending.TimedOut? ==> rounds < |schedule| && schedule[rounds].Deadline?
    ensures ending.PollError? ==> rounds < |schedule| && schedule[rounds].PollFails?
    ensures ending.StillRunning? ==> rounds == |schedule|
    ensures forall k :: 0 <= k < rounds ==> Continues(schedule, k, |input|)
  {
    var out := new Capture(cap);
    var err := new Capture(cap);
    var state := Input(0, input == [], false);
    delivered, rounds := [], 0;
    ending := StillRunning;
    for i := 0 to |schedule|
      invariant rounds == i && ending.StillRunning?
      invariant fresh(out) && fresh(err) && out != err && out.cap == err.cap == cap && out.Valid() && err.Valid()
      invariant (out.stream, out.eof) == Available(schedule[..i], OutputOf)
      invariant (err.stream, err.eof) == Available(schedule[..i], ErrorsOf)
      invariant state == Writes(schedule[..i], |input|)
      invariant state.written <= |input| && delivered == input[..state.written]
      invariant state.done <==> state.written == |input| || state.broken
      invariant forall k :: 0 <= k < i ==> Continues(schedule, k, |input|)
    {
      if out.eof && err.eof && state.done { break; }
      var round := schedule[i];
      if round.Deadline? { ending := TimedOut; break; }
      if round.PollFails? { ending := PollError; break; }
      AvailableNext(schedule, i, OutputOf);
      AvailableNext(schedule, i, ErrorsOf);
      WritesNext(schedule, |input|, i);
      state, delivered := OneRound(out, err, input, state, round, delivered);
      rounds := i + 1;
    }
    if ending.StillRunning? && out.eof && err.eof && state.done { ending := Finished; }
    if NoBreak(schedule[..rounds]) { WritesFollowTheKernel(schedule[..rounds], |input|); }
    return ending, out.buf, err.buf, out.truncated, err.truncated, rounds, delivered;
  }

  /** The loop goes past the `k`-th round. */
  predicate Continues(schedule: seq<Round>, k: nat, total: nat)
    requires k < |schedule|
  {
    !AllEnded(schedule[..k], total) && !schedule[k].Deadline? && !schedule[k].PollFails?
  }
}
