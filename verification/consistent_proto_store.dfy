/** ConsistentProtoStore: a single message kept in up to three files (tmp, override, primary), written by a sequence of
    file-system calls any of which can fail or be the last one before a crash (consistent_proto_store.cc).

    A message is identified with its serialized bytes; `parses` says which byte strings are messages. The file system
    is the abstract one of file_system.h: a rename or a delete either takes effect or reports failure and changes
    nothing, and a file that exists can be begun for reading. */
module ConsistentProtoStore {
  import opened Common

  type Bytes = seq<nat>

  type Parser = Bytes -> bool

  datatype Disk = Disk(tmp: Option<Bytes>, override: Option<Bytes>, primary: Option<Bytes>)

  datatype ReadResult = Found(bytes: Bytes) | NotFound | Corrupt

  function ReadDisk(disk: Disk, parses: Parser): ReadResult {
    if disk.override.Some? && parses(disk.override.value) then Found(disk.override.value)
    else if disk.primary.None? then NotFound
    else if parses(disk.primary.value) then Found(disk.primary.value)
    else Corrupt
  }

  /** What a file holds after bytes were written over its start. */
  function Overlay(base: Bytes, written: Bytes): Bytes {
    if |written| < |base| then written + base[|written|..] else written
  }

  /** Where a Write stands: the call it makes next. */
  datatype Phase =
    | Idle
    | CheckOverride
    | RecoverDelete
    | RecoverMove
    | OpenTmp
    | WriteTmp(leftover: Bytes, count: nat)
    | MoveTmp(leftover: Bytes, count: nat)
    | DeletePrimary
    | MoveOverride

  datatype Result = Pending | Succeeded | Failed

  datatype Process = Process(disk: Disk, phase: Phase, value: Bytes, result: Result)

  /** Succeed and Fail are the outcome of the next call; Progress(n) gets the first n bytes into tmp. LoseTail is the last
      flush of tmp failing: it happens when the stream is destroyed, after success was decided, and nobody looks at it. Crash
      can happen anywhere. */
  datatype Event = Begin(value: Bytes) | Succeed | Fail | Progress(count: nat) | LoseTail | Crash

  function Stop(p: Process, disk: Disk, result: Result): Process {
    p.(disk := disk, phase := Idle, result := result)
  }

  function Leftover(tmp: Option<Bytes>, truncates: bool): Bytes {
    if truncates || tmp.None? then [] else tmp.value
  }

  /** One step of the protocol. Events that do not apply change nothing. */
  function Next(p: Process, e: Event, truncates: bool): Process {
    var d := p.disk;
    if e.Crash? then p.(phase := Idle)
    else match p.phase
         case Idle => if e.Begin? then Process(d, CheckOverride, e.value, Pending) else p
         case CheckOverride => if e.Succeed? then p.(phase := if d.override.Some? then RecoverDelete else OpenTmp) else p
         case RecoverDelete =>
           if e.Succeed? then p.(disk := d.(primary := None), phase := RecoverMove)
           else if e.Fail? then p.(phase := RecoverMove)
           else p
         case RecoverMove =>
           if e.Succeed? then p.(disk := d.(override := None, primary := d.override), phase := OpenTmp)
           else if e.Fail? then Stop(p, d, Failed)
           else p
         case OpenTmp =>
           if e.Succeed? then
             var leftover := Leftover(d.tmp, truncates);
             p.(disk := d.(tmp := Some(leftover)), phase := WriteTmp(leftover, 0))
           else if e.Fail? then Stop(p, d, Failed)
           else p
         case WriteTmp(leftover, count) =>
           if e.Progress? && count <= e.count <= |p.value| then
             var d' := d.(tmp := Some(Overlay(leftover, p.value[..e.count])));
             p.(disk := d', phase := if e.count == |p.value| then MoveTmp(leftover, e.count) else WriteTmp(leftover, e.count))
           else if e.LoseTail? then p.(phase := MoveTmp(leftover, count))
           else if e.Fail? then Stop(p, d, Failed)
           else p
         case MoveTmp(_, _) =>
           if e.Succeed? then p.(disk := d.(tmp := None, override := d.tmp), phase := DeletePrimary)
           else if e.Fail? then Stop(p, d, Failed)
           else p
         case DeletePrimary =>
           if d.primary.None? || e.Succeed? then p.(disk := d.(primary := None), phase := MoveOverride)
           else if e.Fail? then Stop(p, d, Failed)
           else p
         case MoveOverride =>
           if e.Succeed? then Stop(p, d.(override := None, primary := d.override), Succeeded)
           else if e.Fail? then Stop(p, d, Failed)
           else p
  }

  function Run(events: seq<Event>, p: Process, truncates: bool): Process {
    if events == [] then p else Next(Run(events[..|events| - 1], p, truncates), events[|events| - 1], truncates)
  }

  /** The point where the register switches: the rename of tmp to override. */
  predicate Commits(p: Process, e: Event) { p.phase.MoveTmp? && e.Succeed? }

  /** tmp holds the message and nothing else: all of it was flushed, and it covers what an earlier, interrupted write left
      there. */
  predicate Covered(p: Process) { p.phase.MoveTmp? ==> p.phase.count == |p.value| && |p.phase.leftover| <= |p.value| }

  predicate SoundDisk(disk: Disk, parses: Parser) {
    && (disk.override.Some? ==> parses(disk.override.value))
    && (disk.primary.Some? ==> parses(disk.primary.value))
  }

  /** What holds between any two calls. */
  predicate Invariant(p: Process, parses: Parser) {
    && SoundDisk(p.disk, parses)
    && (!p.phase.Idle? ==> parses(p.value))
    && match p.phase
       case Idle => p.result == Succeeded ==> p.disk.override.None? && p.disk.primary == Some(p.value)
       case CheckOverride => p.result == Pending
       case RecoverDelete => p.result == Pending && p.disk.override.Some?
       case RecoverMove => p.result == Pending && p.disk.override.Some?
       case OpenTmp => p.result == Pending && p.disk.override.None?
       case WriteTmp(leftover, count) =>
         p.result == Pending && p.disk.override.None? && count <= |p.value| && p.disk.tmp == Some(Overlay(leftover, p.value[..count]))
       case MoveTmp(leftover, count) =>
         p.result == Pending && p.disk.override.None? && count <= |p.value| && p.disk.tmp == Some(Overlay(leftover, p.value[..count]))
       case DeletePrimary => p.result == Pending && p.disk.override == Some(p.value)
       case MoveOverride => p.result == Pending && p.disk.override == Some(p.value)
  }

  lemma OverlayNothing(base: Bytes)
    ensures Overlay(base, []) == base
  {
    assert [] + base[0..] == base;
  }

  lemma StepKeepsInvariant(p: Process, e: Event, truncates: bool, parses: Parser)
    requires Invariant(p, parses) && Covered(p) && (e.Begin? ==> parses(e.value))
    ensures Invariant(Next(p, e, truncates), parses)
  {
    if p.phase.OpenTmp? {
      OverlayNothing(Leftover(p.disk.tmp, truncates));
      assert p.value[..0] == [];
    } else if p.phase.MoveTmp? {
      assert p.value[..|p.value|] == p.value;
    }
  }

  /** A step changes what Read returns exactly when it commits, and then to the message being written. */
  lemma ReadChangesAtCommit(p: Process, e: Event, truncates: bool, parses: Parser)
    requires Invariant(p, parses) && Covered(p) && (e.Begin? ==> parses(e.value))
    ensures ReadDisk(Next(p, e, truncates).disk, parses) ==
            if Commits(p, e) then Found(p.value) else ReadDisk(p.disk, parses)
  {
    StepKeepsInvariant(p, e, truncates, parses);
  }

  // ---------------------------------------------------------------- Whole runs

  /** The atomic register that the store refines: it starts with what is on disk and takes a value at each commit. */
  function Register(events: seq<Event>, p: Process, truncates: bool, initial: ReadResult): ReadResult {
    if events == [] then initial
    else
      var front := events[..|events| - 1];
      var before := Run(front, p, truncates);
      if Commits(before, events[|events| - 1]) then Found(before.value) else Register(front, p, truncates, initial)
  }

  /** No write of the run loses its tail, or is shorter than what an interrupted write left in tmp. */
  predicate CoveredRun(events: seq<Event>, p: Process, truncates: bool) {
    Covered(Run(events, p, truncates)) && (events == [] || CoveredRun(events[..|events| - 1], p, truncates))
  }

  /** Every flush succeeds. */
  predicate Flushes(events: seq<Event>) { forall i :: 0 <= i < |events| ==> !events[i].LoseTail? }

  predicate MessagesOnly(events: seq<Event>, parses: Parser) {
    forall i :: 0 <= i < |events| && events[i].Begin? ==> parses(events[i].value)
  }

  /** Over every run of writes, each interrupted by a crash, failed or completed at any call, Read returns the value of
      the atomic register: the message committed last, never a partial one and never none after the first commit. */
  lemma {:induction false} RefinesRegister(events: seq<Event>, disk: Disk, truncates: bool, parses: Parser)
    requires SoundDisk(disk, parses) && MessagesOnly(events, parses)
    requires CoveredRun(events, Process(disk, Idle, [], Pending), truncates)
    ensures var p0 := Process(disk, Idle, [], Pending);
            var p := Run(events, p0, truncates);
            && Invariant(p, parses)
            && ReadDisk(p.disk, parses) == Register(events, p0, truncates, ReadDisk(disk, parses))
  {
    if events != [] {
      var p0 := Process(disk, Idle, [], Pending);
      var front := events[..|events| - 1];
      RefinesRegister(front, disk, truncates, parses);
      var before := Run(front, p0, truncates);
      StepKeepsInvariant(before, events[|events| - 1], truncates, parses);
      ReadChangesAtCommit(before, events[|events| - 1], truncates, parses);
    }
  }

  lemma {:induction false} NoLeftover(events: seq<Event>, disk: Disk)
    requires Flushes(events)
    ensures var p := Run(events, Process(disk, Idle, [], Pending), true);
            (p.phase.MoveTmp? ==> p.phase.leftover == [] && p.phase.count == |p.value|) && (p.phase.WriteTmp? ==> p.phase.leftover == [])
    ensures CoveredRun(events, Process(disk, Idle, [], Pending), true)
  {
    if events != [] {
      NoLeftover(events[..|events| - 1], disk);
    }
  }

  /** On a file system that truncates what it opens for writing, the refinement asks of the run only that flushes succeed. */
  lemma RefinesRegisterWhenTruncating(events: seq<Event>, disk: Disk, parses: Parser)
    requires SoundDisk(disk, parses) && MessagesOnly(events, parses) && Flushes(events)
    ensures var p0 := Process(disk, Idle, [], Pending);
            ReadDisk(Run(events, p0, true).disk, parses) == Register(events, p0, true, ReadDisk(disk, parses))
  {
    NoLeftover(events, disk);
    RefinesRegister(events, disk, true, parses);
  }

  /** A Write that returned OK is what Read returns, until the next write is begun. */
  lemma OkMakesReadReturnIt(events: seq<Event>, disk: Disk, truncates: bool, parses: Parser)
    requires SoundDisk(disk, parses) && MessagesOnly(events, parses)
    requires CoveredRun(events, Process(disk, Idle, [], Pending), truncates)
    requires var p := Run(events, Process(disk, Idle, [], Pending), truncates); p.phase == Idle && p.result == Succeeded
    ensures var p := Run(events, Process(disk, Idle, [], Pending), truncates); ReadDisk(p.disk, parses) == Found(p.value)
  {
    RefinesRegister(events, disk, truncates, parses);
  }

  /** The events of a Write that meets no failure, from an idle store without an override file. */
  function WholeWrite(v: Bytes): seq<Event> {
    [Begin(v)] + [Succeed] + [Succeed] + [Progress(|v|)] + [Succeed] + [Succeed] + [Succeed]
  }

  lemma RunAppend(a: seq<Event>, e: Event, p: Process, truncates: bool)
    ensures Run(a + [e], p, truncates) == Next(Run(a, p, truncates), e, truncates)
  {
    assert (a + [e])[..|a|] == a;
  }

  lemma RunOne(e: Event, p: Process, truncates: bool)
    ensures Run([e], p, truncates) == Next(p, e, truncates)
  {
    assert [e][..0] == [];
  }

  lemma {:induction false} RunCompose(a: seq<Event>, b: seq<Event>, p: Process, truncates: bool)
    ensures Run(a + b, p, truncates) == Run(b, Run(a, p, truncates), truncates)
  {
    if b == [] {
      assert a + b == a;
    } else {
      var front := b[..|b| - 1];
      RunCompose(a, front, p, truncates);
      assert (a + b)[..|a + b| - 1] == a + front;
    }
  }

  lemma RunBegun(v: Bytes, events: seq<Event>, disk: Disk, truncates: bool)
    ensures Run([Begin(v)] + events, Process(disk, Idle, [], Pending), truncates) ==
            Run(events, Process(disk, CheckOverride, v, Pending), truncates)
  {
    RunCompose([Begin(v)], events, Process(disk, Idle, [], Pending), truncates);
    RunOne(Begin(v), Process(disk, Idle, [], Pending), truncates);
  }

  /** Calls that return: no crash, and no second write begun. */
  predicate Quiet(events: seq<Event>) {
    forall i :: 0 <= i < |events| ==> !events[i].Crash? && !events[i].Begin?
  }

  lemma TmpEvents(p: Process, truncates: bool, written: nat)
    requires p.phase == OpenTmp && written <= |p.value|
    ensures var leftover := Leftover(p.disk.tmp, truncates);
            var p' := Run([Succeed] + [Progress(written)], p, truncates);
            && p'.disk == p.disk.(tmp := Some(Overlay(leftover, p.value[..written])))
            && p'.value == p.value && p'.result == p.result
            && p'.phase == if written == |p.value| then MoveTmp(leftover, written) else WriteTmp(leftover, written)
  {
    RunOne(Succeed, p, truncates);
    RunAppend([Succeed], Progress(written), p, truncates);
    var started := Next(p, Succeed, truncates);
    assert started.phase == WriteTmp(Leftover(p.disk.tmp, truncates), 0);
  }

  /** The first three calls of a Write without an override file. */
  lemma BeginEffect(v: Bytes, p0: Process, truncates: bool) returns (begun: seq<Event>)
    requires p0.phase == Idle && p0.disk.override.None?
    ensures begun == [Begin(v)] + [Succeed] + [Succeed]
    ensures var leftover := Leftover(p0.disk.tmp, truncates);
            Run(begun, p0, truncates) == Process(p0.disk.(tmp := Some(leftover)), WriteTmp(leftover, 0), v, Pending)
  {
    var first := [Begin(v)];
    RunOne(Begin(v), p0, truncates);
    var second := first + [Succeed];
    RunAppend(first, Succeed, p0, truncates);
    begun := second + [Succeed];
    RunAppend(second, Succeed, p0, truncates);
  }

  /** The calls after tmp was written. */
  function Published(p: Process, truncates: bool): Process {
    Next(Next(Next(p, Succeed, truncates), Succeed, truncates), Succeed, truncates)
  }

  lemma PublishEffect(p: Process, truncates: bool)
    requires p.phase.MoveTmp? && p.disk.override.None?
    ensures Published(p, truncates) == Process(Disk(None, None, p.disk.tmp), Idle, p.value, Succeeded)
  {
  }

  lemma PublishRuns(written: seq<Event>, p0: Process, truncates: bool)
    ensures Run(written + [Succeed] + [Succeed] + [Succeed], p0, truncates) == Published(Run(written, p0, truncates), truncates)
  {
    var moved := written + [Succeed];
    RunAppend(written, Succeed, p0, truncates);
    RunAppend(moved, Succeed, p0, truncates);
    RunAppend(moved + [Succeed], Succeed, p0, truncates);
  }

  lemma FinishEffect(begun: seq<Event>, p0: Process, truncates: bool, v: Bytes, leftover: Bytes)
    requires var p := Run(begun, p0, truncates); p.value == v && p.phase == WriteTmp(leftover, 0) && p.disk.override.None?
    ensures Run(begun + [Progress(|v|)] + [Succeed] + [Succeed] + [Succeed], p0, truncates) ==
            Process(Disk(None, None, Some(Overlay(leftover, v))), Idle, v, Succeeded)
  {
    RunAppend(begun, Progress(|v|), p0, truncates);
    assert v[..|v|] == v;
    PublishRuns(begun + [Progress(|v|)], p0, truncates);
    PublishEffect(Run(begun + [Progress(|v|)], p0, truncates), truncates);
  }

  /** What a Write that meets no failure leaves behind. */
  lemma WholeWriteEffect(v: Bytes, p0: Process, truncates: bool)
    requires p0.phase == Idle && p0.disk.override.None?
    ensures Run(WholeWrite(v), p0, truncates) ==
            Process(Disk(None, None, Some(Overlay(Leftover(p0.disk.tmp, truncates), v))), Idle, v, Succeeded)
  {
    var begun := BeginEffect(v, p0, truncates);
    FinishEffect(begun, p0, truncates, v, Leftover(p0.disk.tmp, truncates));
  }

  /** How far a Write of v has got over a tmp file that held `leftover`. */
  predicate Writing(p: Process, v: Bytes, leftover: Bytes, truncates: bool) {
    && p.value == v
    && match p.phase
       case Idle => p.result == Succeeded ==> p.disk.primary == Some(Overlay(leftover, v))
       case WriteTmp(base, count) =>
         p.result == Pending && base == leftover && count <= |v| && p.disk.tmp == Some(Overlay(leftover, v[..count]))
       case MoveTmp(base, count) => p.result == Pending && p.disk.tmp == Some(Overlay(leftover, v))
       case DeletePrimary => p.result == Pending && p.disk.override == Some(Overlay(leftover, v))
       case MoveOverride => p.result == Pending && p.disk.override == Some(Overlay(leftover, v))
       case _ => p.result == Pending && Leftover(p.disk.tmp, truncates) == leftover
  }

  lemma StepKeepsWriting(p: Process, e: Event, v: Bytes, leftover: Bytes, truncates: bool)
    requires Writing(p, v, leftover, truncates) && !e.Crash? && !e.Begin? && !e.LoseTail?
    ensures Writing(Next(p, e, truncates), v, leftover, truncates)
  {
    if p.phase.OpenTmp? {
      OverlayNothing(leftover);
      assert v[..0] == [];
    } else if p.phase.WriteTmp? {
      assert v[..|v|] == v;
    }
  }

  lemma {:induction false} WriteGoesThrough(v: Bytes, events: seq<Event>, disk: Disk, truncates: bool)
    requires Quiet(events) && Flushes(events)
    ensures Writing(Run([Begin(v)] + events, Process(disk, Idle, [], Pending), truncates), v, Leftover(disk.tmp, truncates), truncates)
  {
    var p0 := Process(disk, Idle, [], Pending);
    if events == [] {
      assert [Begin(v)] + events == [Begin(v)];
      RunOne(Begin(v), p0, truncates);
    } else {
      var front, last := events[..|events| - 1], events[|events| - 1];
      WriteGoesThrough(v, front, disk, truncates);
      assert [Begin(v)] + events == [Begin(v)] + front + [last];
      RunAppend([Begin(v)] + front, last, p0, truncates);
      StepKeepsWriting(Run([Begin(v)] + front, p0, truncates), last, v, Leftover(disk.tmp, truncates), truncates);
    }
  }

  /** The condition on leftovers is exact, from every disk and through recovery: a Write whose flush succeeds and that
      returns OK leaves precisely its message in the store if and only if the file system truncates or tmp was not longer
      than the message. */
  lemma LeftoverMustBeCovered(v: Bytes, events: seq<Event>, disk: Disk, truncates: bool)
    requires Quiet(events) && Flushes(events)
    requires Run([Begin(v)] + events, Process(disk, Idle, [], Pending), truncates).result == Succeeded
    requires Run([Begin(v)] + events, Process(disk, Idle, [], Pending), truncates).phase == Idle
    ensures Run([Begin(v)] + events, Process(disk, Idle, [], Pending), truncates).disk.primary == Some(v) <==>
            truncates || disk.tmp.None? || |disk.tmp.value| <= |v|
  {
    WriteGoesThrough(v, events, disk, truncates);
    var leftover := Leftover(disk.tmp, truncates);
    if |v| < |leftover| {
      assert |Overlay(leftover, v)| == |leftover|;
    }
  }

  /** The failure on an empty disk that does not truncate: a first Write crashes with two of its three bytes in tmp,
      the next one meets no failure and returns OK, and the store holds a mix of the two messages. */
  lemma ShorterWriteAfterCrash()
    ensures var crashed := [Begin([1, 2, 3])] + [Succeed] + [Succeed] + [Progress(2)] + [Crash];
            var p := Run(crashed + WholeWrite([9]), Process(Disk(None, None, None), Idle, [], Pending), false);
            p.result == Succeeded && p.value == [9] && p.disk == Disk(None, None, Some([9, 2]))
  {
    var p0 := Process(Disk(None, None, None), Idle, [], Pending);
    var begun := BeginEffect([1, 2, 3], p0, false);
    RunAppend(begun, Progress(2), p0, false);
    RunAppend(begun + [Progress(2)], Crash, p0, false);
    var crashed := begun + [Progress(2)] + [Crash];
    assert [1, 2, 3][..2] == [1, 2];
    RunCompose(crashed, WholeWrite([9]), p0, false);
    assert Overlay([1, 2], [9]) == [9, 2];
    WholeWriteEffect([9], Run(crashed, p0, false), false);
  }

  /** The failure of a last flush, even on a file system that truncates: a Write of three bytes returns OK, and the store
      holds two of them. */
  lemma LostTail()
    ensures var events := [Begin([1, 2, 3])] + [Succeed] + [Succeed] + [Progress(2)] + [LoseTail] + [Succeed] + [Succeed] + [Succeed];
            var p := Run(events, Process(Disk(None, None, None), Idle, [], Pending), true);
            p.result == Succeeded && p.value == [1, 2, 3] && p.disk == Disk(None, None, Some([1, 2]))
  {
    var p0 := Process(Disk(None, None, None), Idle, [], Pending);
    var begun := BeginEffect([1, 2, 3], p0, true);
    RunAppend(begun, Progress(2), p0, true);
    assert [1, 2, 3][..2] == [1, 2];
    var partial := begun + [Progress(2)];
    RunAppend(partial, LoseTail, p0, true);
    var lost := partial + [LoseTail];
    PublishRuns(lost, p0, true);
    PublishEffect(Run(lost, p0, true), true);
  }

  /** The events of WriteToTmp when `written` bytes of a message of the given length got into tmp. */
  function TmpCalls(written: nat, length: nat, ok: bool): seq<Event> {
    var progress := [Succeed] + [Progress(written)];
    if !ok then progress + [Fail] else if written < length then progress + [LoseTail] else progress
  }

  lemma TmpCallsQuiet(written: nat, length: nat, ok: bool)
    ensures Quiet(TmpCalls(written, length, ok)) && (LoseTail in TmpCalls(written, length, ok) <==> ok && written < length)
  {
    var progress := [Succeed] + [Progress(written)];
    assert LoseTail !in progress;
    assert ok && written < length ==> TmpCalls(written, length, ok)[2] == LoseTail;
  }

  lemma TmpOutcome(p: Process, truncates: bool, written: nat, ok: bool)
    requires p.phase == OpenTmp && p.result == Pending && written <= |p.value|
    ensures var p' := Run(TmpCalls(written, |p.value|, ok), p, truncates);
            && p'.disk == p.disk.(tmp := Some(Overlay(Leftover(p.disk.tmp, truncates), p.value[..written]))) && p'.value == p.value
            && if ok then p'.phase.MoveTmp? && p'.result == Pending else p'.phase.Idle? && p'.result == Failed
  {
    TmpEvents(p, truncates, written);
    var progress := [Succeed] + [Progress(written)];
    var p1 := Run(progress, p, truncates);
    RunAppend(progress, Fail, p, truncates);
    RunAppend(progress, LoseTail, p, truncates);
    assert Next(p1, Fail, truncates) == Stop(p1, p1.disk, Failed);
  }

  lemma OpenFails(p: Process, truncates: bool) returns (events: seq<Event>)
    requires p.phase == OpenTmp
    ensures Run(events, p, truncates) == Stop(p, p.disk, Failed) && Quiet(events)
  {
    events := [] + [Fail];
    RunAppend([], Fail, p, truncates);
  }

  lemma TmpRuns(p: Process, truncates: bool, written: nat, ok: bool) returns (events: seq<Event>)
    requires p.phase == OpenTmp && p.result == Pending && written <= |p.value|
    ensures var p' := Run(events, p, truncates);
            && p'.disk == p.disk.(tmp := Some(Overlay(Leftover(p.disk.tmp, truncates), p.value[..written]))) && p'.value == p.value
            && if ok then p'.phase.MoveTmp? && p'.result == Pending else p'.phase.Idle? && p'.result == Failed
    ensures Quiet(events) && (ok && LoseTail !in events ==> p.value[..written] == p.value)
    ensures written == |p.value| ==> LoseTail !in events
  {
    events := TmpCalls(written, |p.value|, ok);
    TmpOutcome(p, truncates, written, ok);
    TmpCallsQuiet(written, |p.value|, ok);
  }

  lemma Joined(a: seq<Event>, b: seq<Event>, p: Process, truncates: bool) returns (events: seq<Event>)
    requires Quiet(a) && Quiet(b)
    ensures Run(events, p, truncates) == Run(b, Run(a, p, truncates), truncates) && Quiet(events)
  {
    events := a + b;
    RunCompose(a, b, p, truncates);
  }

  // ---------------------------------------------------------------- The class

  /** None of the file-system calls with these numbers fails. */
  predicate Healthy(fails: nat -> bool, from: nat, to: nat) { forall n :: from <= n < to ==> !fails(n) }

  /** How many calls the recovery of an override file makes: a delete if there is a primary file, and a rename. */
  function RecoveryCalls(disk: Disk): nat {
    if disk.override.None? then 0 else if disk.primary.None? then 1 else 2
  }

  /** None of the file-system calls with these numbers fails, except perhaps those whose failure is ignored. */
  predicate NoneFails(fails: nat -> bool, from: nat, to: nat, ignored: set<nat>) {
    forall n :: from <= n < to && n !in ignored ==> !fails(n)
  }

  /** The calls of a Write whose failure is ignored, when its first call has number n: the delete during the recovery, which
      comes first if both files are there, and the flush of tmp, which is the third call after the recovery. */
  function Ignored(n: nat, disk: Disk): set<nat> {
    IgnoredDelete(n, disk) + {n + RecoveryCalls(disk) + 2}
  }

  function IgnoredDelete(n: nat, disk: Disk): set<nat> {
    if disk.override.Some? && disk.primary.Some? then {n} else {}
  }

  lemma NoneFailsJoin(fails: nat -> bool, n: nat, c: nat, end: nat, disk: Disk)
    requires c == n + RecoveryCalls(disk) && c <= end
    ensures NoneFails(fails, n, end, Ignored(n, disk)) <==>
            NoneFails(fails, n, c, IgnoredDelete(n, disk)) && NoneFails(fails, c, end, {c + 2})
  {
    if NoneFails(fails, n, end, Ignored(n, disk)) {
      forall k | n <= k < c && k !in IgnoredDelete(n, disk) ensures !fails(k) {
        assert k !in Ignored(n, disk);
      }
      forall k | c <= k < end && k !in {c + 2} ensures !fails(k) {
        assert k !in Ignored(n, disk);
      }
    }
  }

  class ProtoStore {
    var disk: Disk
    /** How many calls were made; fails(n) decides whether the n-th one fails. */
    var calls: nat
    const fails: nat -> bool
    const truncates: bool

    constructor (disk: Disk, fails: nat -> bool, truncates: bool)
      ensures this.disk == disk && this.fails == fails && this.truncates == truncates
    {
      this.disk, this.calls, this.fails, this.truncates := disk, 0, fails, truncates;
    }

    method MoveTmpToOverride(ghost p: Process) returns (ok: bool, ghost e: Event)
      requires p.disk == disk && p.phase.MoveTmp?
      modifies this
      ensures Next(p, e, truncates) == if ok then Process(disk, DeletePrimary, p.value, p.result) else Stop(p, disk, Failed)
      ensures e == if ok then Succeed else Fail
      ensures ok == !fails(old(calls)) && calls == old(calls) + 1
      ensures disk == if ok then Disk(None, old(disk).tmp, old(disk).primary) else old(disk)
    {
      ok := !fails(calls);
      calls := calls + 1;
      if ok {
        disk := disk.(tmp := None, override := disk.tmp);
      }
      e := if ok then Succeed else Fail;
    }

    method MoveOverrideToPrimary(ghost p: Process) returns (ok: bool, ghost e: Event)
      requires p.disk == disk && (p.phase.RecoverMove? || p.phase.MoveOverride?)
      modifies this
      ensures Next(p, e, truncates) ==
              if !ok then Stop(p, disk, Failed)
              else if p.phase.RecoverMove? then Process(disk, OpenTmp, p.value, p.result)
              else Stop(p, disk, Succeeded)
      ensures e == if ok then Succeed else Fail
      ensures ok == !fails(old(calls)) && calls == old(calls) + 1
      ensures disk == if ok then Disk(old(disk).tmp, None, old(disk).override) else old(disk)
    {
      ok := !fails(calls);
      calls := calls + 1;
      if ok {
        disk := disk.(override := None, primary := disk.override);
      }
      e := if ok then Succeed else Fail;
    }

    method DeletePrimaryFile(ghost p: Process) returns (ok: bool, ghost e: Event)
      requires p.disk == disk && (p.phase.RecoverDelete? || p.phase.DeletePrimary?)
      modifies this
      ensures Next(p, e, truncates) ==
              if p.phase.RecoverDelete? then Process(disk, RecoverMove, p.value, p.result)
              else if ok then Process(disk, MoveOverride, p.value, p.result)
              else Stop(p, disk, Failed)
      ensures e == if ok then Succeed else Fail
      ensures ok == (old(disk).primary.None? || !fails(old(calls)))
      ensures calls == if old(disk).primary.None? then old(calls) else old(calls) + 1
      ensures disk == if ok then Disk(old(disk).tmp, old(disk).override, None) else old(disk)
    {
      ok := true;
      if disk.primary.Some? {
        ok := !fails(calls);
        calls := calls + 1;
        if ok {
          disk := disk.(primary := None);
        }
      }
      e := if ok then Succeed else Fail;
    }

    /** The stream over tmp: `written` bytes get into the file. All of them do if the write and the flush succeed; the flush
        happens when the stream is destroyed, and its outcome does not count. */
    method FillTmp(v: Bytes) returns (ok: bool, ghost written: nat)
      modifies this
      ensures ok == !fails(old(calls)) && (ok && !fails(old(calls) + 1) ==> written == |v|) && calls == old(calls) + 2
      ensures written <= |v| && disk == old(disk).(tmp := Some(Overlay(Leftover(old(disk).tmp, truncates), v[..written])))
    {
      var leftover := Leftover(disk.tmp, truncates);
      ok := !fails(calls);
      var flushed := ok && !fails(calls + 1);
      calls := calls + 2;
      var n: nat :| n <= |v| && (flushed ==> n == |v|);
      disk := disk.(tmp := Some(Overlay(leftover, v[..n])));
      written := n;
    }

    /** WriteToTmp: a failed write leaves some part of the message in tmp, and so does a flush that fails unnoticed. */
    method WriteToTmp(v: Bytes, ghost p: Process) returns (ok: bool, ghost events: seq<Event>)
      requires p == Process(disk, OpenTmp, v, Pending)
      modifies this
      ensures var p' := Run(events, p, truncates);
              p'.disk == disk && p'.value == v &&
              if ok then p'.phase.MoveTmp? && p'.result == Pending else p'.phase.Idle? && p'.result == Failed
      ensures Quiet(events)
      ensures ok == !(fails(old(calls)) || fails(old(calls) + 1)) && (ok && !fails(old(calls) + 2) ==> LoseTail !in events)
      ensures calls == old(calls) + if fails(old(calls)) then 1 else 3
      ensures disk.override == old(disk).override && disk.primary == old(disk).primary
      ensures ok && LoseTail !in events ==> disk == old(disk).(tmp := Some(Overlay(Leftover(old(disk).tmp, truncates), v)))
    {
      ok := !fails(calls);
      calls := calls + 1;
      if !ok {
        events := OpenFails(p, truncates);
        return;
      }
      ghost var written;
      ok, written := FillTmp(v);
      events := TmpRuns(p, truncates, written, ok);
    }

    /** The three calls that publish a complete tmp file. */
    method Publish(ghost p: Process) returns (ok: bool, ghost events: seq<Event>)
      requires p.disk == disk && p.phase.MoveTmp? && p.result == Pending
      modifies this
      ensures var p' := Run(events, p, truncates);
              p' == Process(disk, Idle, p.value, if ok then Succeeded else Failed)
      ensures Quiet(events)
      ensures old(calls) < calls
      ensures ok ==> disk == Disk(None, None, old(disk).tmp)
      ensures ok == Healthy(fails, old(calls), calls)
    {
      ghost var e;
      ok, e := MoveTmpToOverride(p);
      events := [] + [e];
      RunAppend([], e, p, truncates);
      if !ok {
        return;
      }
      ok, e := DeletePrimaryFile(Run(events, p, truncates));
      RunAppend(events, e, p, truncates);
      events := events + [e];
      if !ok {
        return;
      }
      ok, e := MoveOverrideToPrimary(Run(events, p, truncates));
      RunAppend(events, e, p, truncates);
      events := events + [e];
    }

    /** The recovery at the start of Write: finish an interrupted write. */
    method Recover(ghost p: Process) returns (ok: bool, ghost events: seq<Event>)
      requires p.disk == disk && p.phase.CheckOverride? && p.result == Pending
      modifies this
      ensures Run(events, p, truncates) ==
              if ok then Process(disk, OpenTmp, p.value, Pending) else Process(disk, Idle, p.value, Failed)
      ensures Quiet(events)
      ensures disk.tmp == old(disk).tmp
      ensures ok == NoneFails(fails, old(calls), calls, IgnoredDelete(old(calls), old(disk)))
      ensures calls == old(calls) + RecoveryCalls(old(disk))
      ensures ok ==> disk.override.None?
      ensures ok ==> disk.primary == if old(disk).override.Some? then old(disk).override else old(disk).primary
    {
      events := [] + [Succeed];
      RunAppend([], Succeed, p, truncates);
      ok := true;
      if disk.override.Some? {
        ghost var e;
        var ignored;
        ignored, e := DeletePrimaryFile(Run(events, p, truncates));
        RunAppend(events, e, p, truncates);
        events := events + [e];
        ok, e := MoveOverrideToPrimary(Run(events, p, truncates));
        RunAppend(events, e, p, truncates);
        events := events + [e];
      }
    }

    /** Write after the recovery: tmp is written and published. */
    method WriteAndPublish(v: Bytes, ghost p: Process) returns (ok: bool, ghost events: seq<Event>)
      requires p == Process(disk, OpenTmp, v, Pending) && disk.override.None?
      modifies this
      ensures Run(events, p, truncates) == Process(disk, Idle, v, if ok then Succeeded else Failed)
      ensures Quiet(events)
      ensures ok == NoneFails(fails, old(calls), calls, {old(calls) + 2})
      ensures if ok then old(calls) + 2 < calls else old(calls) < calls
      ensures ok && !fails(old(calls) + 2) ==>
                disk == Disk(None, None, Some(Overlay(Leftover(old(disk).tmp, truncates), v)))
    {
      ghost var more;
      ok, events := WriteToTmp(v, p);
      if ok {
        ok, more := Publish(Run(events, p, truncates));
        events := Joined(events, more, p, truncates);
      }
    }

    /** Write. The events are the run of the protocol that the call goes through. It returns an error only if one of its
        file-system calls fails; if none does, the message is published over what tmp held and nothing else is left. */
    method Write(v: Bytes) returns (ok: bool, ghost events: seq<Event>)
      modifies this
      ensures Run([Begin(v)] + events, Process(old(disk), Idle, [], Pending), truncates) ==
              Process(disk, Idle, v, if ok then Succeeded else Failed)
      ensures Quiet(events)
      ensures old(calls) < calls
      ensures ok == NoneFails(fails, old(calls), calls, Ignored(old(calls), old(disk)))
      ensures Healthy(fails, old(calls), calls) ==>
                ok && disk == Disk(None, None, Some(Overlay(Leftover(old(disk).tmp, truncates), v)))
    {
      ghost var p := Process(disk, CheckOverride, v, Pending);
      ghost var more;
      ghost var n, d := calls, disk;
      ok, events := Recover(p);
      ghost var c := calls;
      if ok {
        ok, more := WriteAndPublish(v, Run(events, p, truncates));
        events := Joined(events, more, p, truncates);
      }
      NoneFailsJoin(fails, n, c, calls, d);
      RunBegun(v, events, old(disk), truncates);
    }

    /** Read: the override file if there is one that parses; else the primary file, if there is one and it parses. */
    method Read(parses: Parser) returns (r: ReadResult)
      ensures r == ReadDisk(disk, parses)
      ensures disk.override.Some? && parses(disk.override.value) ==> r == Found(disk.override.value)
      ensures disk.override.None? || !parses(disk.override.value) ==>
                && (disk.primary.None? ==> r == NotFound)
                && (disk.primary.Some? && !parses(disk.primary.value) ==> r == Corrupt)
                && (disk.primary.Some? && parses(disk.primary.value) ==> r == Found(disk.primary.value))
    {
      if disk.override.Some? {
        if parses(disk.override.value) {
          return Found(disk.override.value);
        }
      }
      if disk.primary.None? {
        return NotFound;
      }
      if !parses(disk.primary.value) {
        return Corrupt;
      }
      r := Found(disk.primary.value);
    }
  }
}
