/** The pipeline never deadlocks, and runs that show where its guarantees end. */
module PipelineLiveness {
  import opened Pipeline
  import opened PipelineInvariant
  import opened PipelineTheorems

  // ---------------------------------------------------------------------------------------------
  // From every reachable state the whole system can come to rest

  /** Neither consumer has been released for a buffer it has not finished with. */
  predicate ConsumersIdle(s: State) {
    s.writer.pc.WriterWait? && !s.sem.write && s.sender.pc.SenderWait? && !s.sem.send
  }

  /** Nothing is outstanding: the event loop waits for a trigger, both consumers wait for a buffer with
      their protect semaphore given back, and the trigger loop is not waiting for an answer. */
  predicate Home(s: State) {
    && s.filler.pc.Rest? && !s.sem.trigger
    && ConsumersIdle(s) && s.sem.writeProtect && s.sem.sendProtect
    && !s.loop.pc.LoopDone?
  }

  function WriterRank(s: State): nat {
    match s.writer.pc
    case WriterWait => if s.sem.write then 5 else 0
    case WriterLook => 4
    case WriterEnd => 3
    case WriterCopy => 2
    case WriterRelease => 1
  }

  function SenderRank(s: State): nat {
    match s.sender.pc
    case SenderWait => if s.sem.send then 6 else 0
    case SenderPick => 5
    case SenderAnnounce => 4
    case SenderEnd => 3
    case SenderCopy => 2
    case SenderRelease => 1
  }

  /** t differs from s only in what a consumer may change. */
  predicate SameFiller(s: State, t: State) {
    && t.filler == s.filler && t.loop == s.loop && t.mode == s.mode && t.mem == s.mem
    && t.log.now.(written := [], sent := []) == s.log.now.(written := [], sent := [])
    && t.sem.trigger == s.sem.trigger && t.sem.triggerDone == s.sem.triggerDone
  }

  lemma {:induction false} WriterAdvances(s: State)
    requires Inv(s) && WriterRank(s) > 0
    ensures WriterEnabled(s)
    ensures var t := Next(s, WriterStep);
            && SameFiller(s, t) && t.sender == s.sender && t.sem.send == s.sem.send
            && (WriterRank(t) < WriterRank(s) ||
                (WriterRank(t) == WriterRank(s) && s.writer.goal == t.writer.goal && s.writer.goal > |s.writer.copied|
                 && |t.writer.copied| == |s.writer.copied| + 1))
  {
  }

  lemma {:induction false} SenderAdvances(s: State)
    requires Inv(s) && SenderRank(s) > 0
    ensures SenderEnabled(s)
    ensures var t := Next(s, SenderStep);
            && SameFiller(s, t) && t.writer == s.writer && t.sem.write == s.sem.write
            && (SenderRank(t) < SenderRank(s) ||
                (SenderRank(t) == SenderRank(s) && s.sender.goal == t.sender.goal && s.sender.goal > |s.sender.copied|
                 && |t.sender.copied| == |s.sender.copied| + 1))
  {
  }

  /** The writer alone gives WriteProtectSem back, whatever the others are doing. */
  lemma {:induction false} DrainWriter(s: State) returns (actions: seq<Action>, t: State)
    requires Inv(s)
    ensures Exec(s, actions, false) == Reached(t) && Inv(t)
    ensures SameFiller(s, t) && t.sender == s.sender && t.sem.send == s.sem.send
    ensures t.writer.pc.WriterWait? && !t.sem.write
    decreases WriterRank(s), s.writer.goal - |s.writer.copied|
  {
    if WriterRank(s) == 0 {
      return [], s;
    }
    WriterAdvances(s);
    StepKeeps(s, WriterStep);
    var rest;
    rest, t := DrainWriter(Next(s, WriterStep));
    actions := [WriterStep] + rest;
    assert actions[1..] == rest;
  }

  /** The sender alone gives SendProtectSem back, whatever the others are doing. */
  lemma {:induction false} DrainSender(s: State) returns (actions: seq<Action>, t: State)
    requires Inv(s)
    ensures Exec(s, actions, false) == Reached(t) && Inv(t)
    ensures SameFiller(s, t) && t.writer == s.writer && t.sem.write == s.sem.write
    ensures t.sender.pc.SenderWait? && !t.sem.send
    decreases SenderRank(s), s.sender.goal - |s.sender.copied|
  {
    if SenderRank(s) == 0 {
      return [], s;
    }
    SenderAdvances(s);
    StepKeeps(s, SenderStep);
    var rest;
    rest, t := DrainSender(Next(s, SenderStep));
    actions := [SenderStep] + rest;
    assert actions[1..] == rest;
  }

  lemma {:induction false} Drain(s: State) returns (actions: seq<Action>, t: State)
    requires Inv(s)
    ensures Exec(s, actions, false) == Reached(t) && Inv(t)
    ensures SameFiller(s, t) && ConsumersIdle(t)
  {
    var first, mid := DrainWriter(s);
    var second, last := DrainSender(mid);
    ExecAppend(s, first, second, false);
    actions, t := first + second, last;
  }

  /** How far the event loop is from its rest point. */
  function MainRank(pc: MainPc): nat {
    match pc
    case Rest => 0
    case Reading(r) =>
      (match r
       case ForBegin(_) => 1
       case ForEnd => 8
       case ForRestart => 8
       case ForTrigger => 12)
    case Reopen => 2
    case ResetNumbers(_) => 3
    case CloseFile(_) => 4
    case FreeFlush(_) => 5
    case LockFlush(_) => 6
    case Forcing(_) => 7
    case Decide => 9
    case FreeTrigger => 10
    case ClearTodo => 11
    case Took => 13
  }

  function InnerRank(pc: SwitchPc): nat {
    match pc
    case Outside => 0
    case LockWrite => 9
    case LockSend => 8
    case EndFill => 7
    case SetTransport => 6
    case SetFill => 5
    case Count => 4
    case Prepare => 3
    case FreeWrite => 2
    case FreeSend => 1
  }

  predicate Closer(s: State, t: State) {
    || (s.sem.trigger && !t.sem.trigger)
    || (s.sem.trigger == t.sem.trigger &&
        (MainRank(t.filler.pc) < MainRank(s.filler.pc) ||
         (t.filler.pc == s.filler.pc && InnerRank(t.filler.inner) < InnerRank(s.filler.inner))))
  }

  /** With the consumers drained the filler always has a step that brings it closer to rest. */
  function Ahead(s: State): Action {
    if !s.filler.inner.Outside? then SwitchStep
    else if s.filler.pc.Reading? then FillerDone(0)
    else if s.filler.pc.Reopen? then FillerBegin(false)
    else FillerStep
  }

  lemma {:induction false} FillerAdvances(s: State)
    requires TokensInv(s) && RunInv(s) && ConsumersIdle(s) && (!s.filler.pc.Rest? || s.sem.trigger)
    ensures Enabled(s, Ahead(s))
    ensures Closer(s, Next(s, Ahead(s)))
  {
  }

  lemma {:induction false} GoToRest(s: State) returns (actions: seq<Action>, t: State)
    requires Inv(s)
    ensures Exec(s, actions, false) == Reached(t) && Inv(t)
    ensures t.filler.pc.Rest? && !t.sem.trigger && ConsumersIdle(t)
    decreases s.sem.trigger, MainRank(s.filler.pc), InnerRank(s.filler.inner)
  {
    var first, mid := Drain(s);
    if mid.filler.pc.Rest? && !mid.sem.trigger {
      return first, mid;
    }
    FillerAdvances(mid);
    StepKeeps(mid, Ahead(mid));
    var rest;
    rest, t := GoToRest(Next(mid, Ahead(mid)));
    var second := [Ahead(mid)] + rest;
    assert second[1..] == rest;
    ExecAppend(s, first, second, false);
    actions := first + second;
  }

  /** No reachable state is a deadlock, during a run or after it: some schedule brings every thread
      home, with every lock that was waited for given back. */
  lemma {:induction false} NeverDeadlocks(s: State)
    requires Reachable(s, false)
    ensures exists actions, t :: Exec(s, actions, false) == Reached(t) && Home(t)
  {
    ReachableInv(s);
    var actions, t := GoToRest(s);
    if t.loop.pc.LoopDone? {
      StepKeeps(t, LoopStep(0));
      var u := Next(t, LoopStep(0));
      ExecAppend(s, actions, [LoopStep(0)], false);
      assert Exec(t, [LoopStep(0)], false) == Exec(u, [], false);
      assert Exec(s, actions + [LoopStep(0)], false) == Reached(u) && Home(u);
    } else {
      assert Exec(s, actions, false) == Reached(t) && Home(t);
    }
  }

  /** No wake-up is lost: a thread that cannot proceed waits for a token that a peer holds or has just
      been handed, and that peer can proceed. */
  lemma {:induction false} BlockedOnlyByAPeer(s: State)
    requires Reachable(s, false)
    ensures (s.filler.inner.LockWrite? || s.filler.pc.LockFlush?) && !s.sem.writeProtect ==>
              WriterEnabled(s) && WriterRank(s) > 0
    ensures s.filler.inner.LockSend? && !s.sem.sendProtect ==> SenderEnabled(s) && SenderRank(s) > 0
    ensures s.loop.pc.LoopDone? && !s.sem.triggerDone ==>
              s.sem.trigger || (FillerHoldsTrigger(s.filler) && !s.filler.pc.Rest?)
    ensures s.writer.pc.WriterWait? && !s.sem.write ==> s.sem.writeProtect || FillerHoldsWrite(s.filler)
    ensures s.sender.pc.SenderWait? && !s.sem.send ==> s.sem.sendProtect || FillerHoldsSend(s.filler)
  {
    ReachableInv(s);
  }

  // ---------------------------------------------------------------------------------------------
  // Runs beyond the guarantees

  lemma {:induction false} Step(s: State, a: Action, overlap: bool) returns (t: State)
    requires Reachable(s, overlap) && Allowed(s, a, overlap)
    ensures t == Next(s, a) && Reachable(t, overlap)
  {
    ReachableNext(s, a, overlap);
    t := Next(s, a);
  }

  function Other(w: Which): Which { if w.Buffer1? then Buffer2 else Buffer1 }

  /** switch_buffer up to the point where the two pointers have been exchanged. */
  lemma {:induction false} SwapQuickly(s: State, overlap: bool) returns (t: State)
    requires Reachable(s, overlap) && s.filler.inner.LockWrite? && s.sem.writeProtect && s.sem.sendProtect
    ensures Reachable(t, overlap)
    ensures var b := s.mem.At(s.mem.fill).AddEoB();
            t == s.(sem := s.sem.(writeProtect := false, sendProtect := false), filler := s.filler.(inner := Count),
                    mem := s.mem.Put(s.mem.fill, b).(fill := Other(s.mem.fill), transport := s.mem.fill),
                    log := s.log.(now := s.log.now.(published := s.log.now.published + [b.Flat()])))
  {
    hide ConsumersDone, Reachable;
    t := Step(s, SwitchStep, overlap);
    t := Step(t, SwitchStep, overlap);
    t := Step(t, SwitchStep, overlap);
    t := Step(t, SwitchStep, overlap);
    t := Step(t, SwitchStep, overlap);
  }

  /** The rest of switch_buffer, with nobody else moving. */
  lemma {:induction false} ReleaseQuickly(s: State, overlap: bool) returns (t: State)
    requires Reachable(s, overlap) && s.filler.inner.Count?
    ensures Reachable(t, overlap)
    ensures t == s.(sem := s.sem.(write := true, send := true),
                    filler := s.filler.(inner := Outside, pc := AfterSwitch(s.filler.pc, s.mode.fileOpen)),
                    mem := s.mem.(number := s.mem.number + 1).Put(s.mem.fill, Buffer(s.mem.number + 1, [], false)))
  {
    hide ConsumersDone, Reachable;
    t := Step(s, SwitchStep, overlap);
    t := Step(t, SwitchStep, overlap);
    t := Step(t, SwitchStep, overlap);
    t := Step(t, SwitchStep, overlap);
  }

  /** The begin-run part of the first run. */
  lemma {:induction false} BeginQuickly(withFile: bool, overlap: bool) returns (t: State)
    ensures Reachable(t, overlap)
    ensures t == State(Init().sem, Memory(Buffer(1, [], false), Buffer(1, [], false), Buffer1, Buffer2, 1),
                       Mode(true, withFile), Filler(Rest, Outside, 0), Init().writer, Init().sender,
                       TriggerLoop(LoopCheck, true, false, 0), Log([Init().log.now], NewEpoch(withFile)),
                       Triggers([], []))
  {
    assert Exec(Init(), [], overlap) == Reached(Init());
    t := Step(Init(), FillerBegin(withFile), overlap);
    t := Step(t, FillerDone(0), overlap);
  }

  /** Picks up the buffer that was released, reads the number, and is ready to copy. */
  lemma {:induction false} PickQuickly(s: State, overlap: bool) returns (t: State)
    requires Reachable(s, overlap) && s.sender.pc.SenderWait? && s.sem.send && s.mem.At(s.mem.transport).hasEnd
    ensures Reachable(t, overlap)
    ensures t == s.(sem := s.sem.(send := false),
                    sender := Sender(SenderCopy, s.mem.transport, s.mem.number, s.log.now.Reset(),
                                     |s.mem.At(s.mem.transport).Flat()|, []))
  {
    hide ConsumersDone, Reachable;
    t := Step(s, SenderStep, overlap);
    t := Step(t, SenderStep, overlap);
    t := Step(t, SenderStep, overlap);
    t := Step(t, SenderStep, overlap);
  }

  /** Copies three words and records them. */
  lemma {:induction false} CopyThree(s: State, overlap: bool) returns (t: State)
    requires Reachable(s, overlap) && s.sender.pc.SenderCopy? && s.sender.goal == 3 && s.sender.copied == []
    requires |s.mem.At(s.sender.target).Flat()| == 3
    ensures Reachable(t, overlap)
    ensures t.log == s.log.(now := s.log.now.(sent := s.log.now.sent +
                              [Sent(s.sender.announced, s.mem.At(s.sender.target).Flat(), s.sender.late)]))
  {
    hide ConsumersDone, Reachable;
    t := Step(s, SenderStep, overlap);
    t := Step(t, SenderStep, overlap);
    t := Step(t, SenderStep, overlap);
    assert t.sender.copied == s.mem.At(s.sender.target).Flat();
    t := Step(t, SenderStep, overlap);
  }

  lemma {:induction false} FlatOfTwo(b: Buffer, x: int, y: int)
    requires b.body == [x, y]
    ensures b.Flat() == [b.bufseq, x, y]
  {
  }

  /** daq_end does not wait for the sender before it resets Buffer_number, so the last buffer of a run
      can go out announced as number 0. */
  lemma {:induction false} LastAnnouncementCanBeZero() returns (s: State)
    ensures Reachable(s, false)
    ensures s.log.now.published == [[1, 2, 0]] && s.log.now.sent == [Sent(0, [1, 2, 0], true)]
  {
    hide ConsumersDone, Reachable;
    s := BeginQuickly(false, false);
    s := Step(s, FillerEnd, false);
    s := Step(s, FillerDone(0), false);
    s := SwapQuickly(s, false);
    s := ReleaseQuickly(s, false);
    FlatOfTwo(s.mem.buffer1, 2, 0);
    s := Step(s, FillerStep, false);
    s := PickQuickly(s, false);
    s := CopyThree(s, false);
  }

  /** The first trigger of the first run, up to its readout. */
  lemma {:induction false} TriggerQuickly(withFile: bool, overlap: bool) returns (s: State)
    ensures Reachable(s, overlap)
    ensures s.filler == Filler(Reading(ForTrigger), Outside, 0)
    ensures s.sem == Init().sem && s.writer == Init().writer && s.sender == Init().sender
    ensures s.mode == Mode(true, withFile)
    ensures s.mem == Memory(Buffer(1, [], false), Buffer(1, [], false), Buffer1, Buffer2, 1)
    ensures s.log == Log([Init().log.now], NewEpoch(withFile))
  {
    hide ConsumersDone, Reachable;
    s := BeginQuickly(withFile, overlap);
    s := Step(s, LoopStep(0), overlap);
    s := Step(s, LoopStep(1), overlap);
    s := Step(s, LoopStep(0), overlap);
    s := Step(s, FillerStep, overlap);
    s := Step(s, FillerStep, overlap);
  }

  /** The readout asks for a new file, and the event loop calls daq_restart_new_file. */
  lemma {:induction false} DecideQuickly(s: State, overlap: bool) returns (t: State)
    requires Reachable(s, overlap) && s.filler == Filler(Reading(ForTrigger), Outside, 0)
    ensures Reachable(t, overlap)
    ensures t == s.(filler := Filler(Reading(ForRestart), Outside, 2), loop := s.loop.(todo := false),
                    sem := s.sem.(triggerDone := true))
  {
    hide ConsumersDone, Reachable;
    t := Step(s, FillerDone(2), overlap);
    t := Step(t, FillerStep, overlap);
    t := Step(t, FillerStep, overlap);
    t := Step(t, FillerStep, overlap);
  }

  /** A trigger whose readout asked for a new file, up to the forced switch of daq_restart_new_file. */
  lemma {:induction false} RestartQuickly(withFile: bool, overlap: bool) returns (s: State)
    ensures Reachable(s, overlap)
    ensures s.filler == Filler(Forcing(true), LockWrite, 2)
    ensures s.sem.writeProtect && s.sem.sendProtect && s.sender == Init().sender && s.mode == Mode(true, withFile)
    ensures s.mem == Memory(Buffer(1, [], false), Buffer(1, [], false), Buffer1, Buffer2, 1)
    ensures s.log == Log([Init().log.now], NewEpoch(withFile))
  {
    hide ConsumersDone, Reachable;
    s := TriggerQuickly(withFile, overlap);
    s := DecideQuickly(s, overlap);
    s := Step(s, FillerDone(0), overlap);
  }

  /** A whole call of switch_buffer, after which both consumers finish what they were released for. */
  lemma {:induction false} SwitchAndDrain(s: State) returns (t: State)
    requires Reachable(s, false) && s.filler.inner.LockWrite? && s.sem.writeProtect && s.sem.sendProtect
    ensures Reachable(t, false) && ConsumersIdle(t) && t.mode == s.mode && t.loop == s.loop
    ensures t.filler == s.filler.(inner := Outside, pc := AfterSwitch(s.filler.pc, s.mode.fileOpen))
    ensures var b := s.mem.At(s.mem.fill).AddEoB();
            && t.mem == s.mem.(number := s.mem.number + 1, fill := Other(s.mem.fill), transport := s.mem.fill)
                        .Put(s.mem.fill, b).Put(Other(s.mem.fill), Buffer(s.mem.number + 1, [], false))
            && t.log.now.(written := [], sent := []) ==
               s.log.now.(written := [], sent := [], published := s.log.now.published + [b.Flat()])
  {
    var swapped := SwapQuickly(s, false);
    var released := ReleaseQuickly(swapped, false);
    ReachableInv(released);
    var actions;
    actions, t := Drain(released);
    var before :| Exec(Init(), before, false) == Reached(released);
    ExecAppend(Init(), before, actions, false);
    assert Exec(Init(), before + actions, false) == Reached(t);
  }

  /** Between two switches, with both consumers done. */
  lemma {:induction false} Drained(s: State)
    requires Reachable(s, false) && ConsumersIdle(s) && s.filler.inner.Outside? && !s.filler.pc.FreeFlush?
    ensures s.sem.writeProtect && s.sem.sendProtect
    ensures |s.log.now.sent| == |s.log.now.published|
    ensures s.log.now.file.Open? ==> s.log.now.written == s.log.now.published
    ensures ClosedRight(s.log.now.file, s.log.now.failed, s.log.now.written, s.log.now.published)
    ensures AllSentRight(s.log.now.sent, s.log.now.published, s.log.now.failed, s.log.now.over)
  {
    ReachableInv(s);
  }

  /** The flush, the close and the reset of the numbers, when the writer is done. */
  lemma {:induction false} FlushQuickly(s: State) returns (t: State)
    requires Reachable(s, false) && s.filler == Filler(LockFlush(true), Outside, s.filler.rstatus) && s.sem.writeProtect
    ensures Reachable(t, false)
    ensures t == s.(filler := s.filler.(pc := Reopen), mode := s.mode.(fileOpen := false), mem := s.mem.(number := 0),
                    log := s.log.(now := s.log.now.(file := Closed(|s.log.now.published|), over := true)))
  {
    hide ConsumersDone, Reachable;
    t := Step(s, FillerStep, false);
    t := Step(t, FillerStep, false);
    t := Step(t, FillerStep, false);
    t := Step(t, FillerStep, false);
  }

  /** Bringing a file to its close: everything up to the reopen of daq_restart_new_file. */
  lemma {:induction false} CloseQuickly() returns (s: State)
    ensures Reachable(s, false) && ConsumersIdle(s)
    ensures s.filler == Filler(Reopen, Outside, 2) && s.mode == Mode(true, false)
    ensures s.mem == Memory(Buffer(1, [2, 0], true), Buffer(2, [], false), Buffer2, Buffer1, 0)
    ensures s.log.now.(written := [], sent := []) == Epoch(Closed(1), true, map[], [[1, 2, 0]], [], [])
  {
    hide ConsumersDone, Reachable;
    s := RestartQuickly(true, false);
    FlatOfTwo(s.mem.buffer1.AddEoB(), 2, 0);
    s := SwitchAndDrain(s);
    Drained(s);
    s := FlushQuickly(s);
  }

  /** When open_file fails in daq_restart_new_file, the run goes on: the buffer with Bufseq 2, the next one
      prepared, is published with Buffer_number at 1, and nothing is written any more. */
  lemma {:induction false} ReopenFails() returns (s: State)
    ensures Reachable(s, false)
    ensures s.log.now.published == [[1, 2, 0], [2, 2, 0]] && s.log.now.written == [[1, 2, 0]]
    ensures |s.log.now.sent| == 2 && s.log.now.sent[1] == Sent(1, [2, 2, 0], false)
  {
    s := CloseQuickly();
    s := Step(s, FillerNoFile, false);
    s := Step(s, FillerEnd, false);
    Drained(s);
    s := Step(s, FillerDone(0), false);
    FlatOfTwo(s.mem.buffer2.AddEoB(), 2, 0);
    s := SwitchAndDrain(s);
    Drained(s);
    assert SentRight(s.log.now.sent[1], s.log.now.published[1], 1);
  }

  /** The end-run readout of a first run, in which one buffer has been full. */
  lemma {:induction false} OneBuffer() returns (s: State)
    ensures Reachable(s, false) && ConsumersIdle(s)
    ensures s.filler == Filler(Reading(ForEnd), Outside, 0) && s.mode == Mode(false, false)
    ensures s.loop == TriggerLoop(LoopCheck, false, false, 0)
    ensures s.mem.fill.Buffer2? && s.mem.number == 2 && s.mem.buffer2 == Buffer(2, [], false)
  {
    hide ConsumersDone, Reachable;
    s := BeginQuickly(false, false);
    s := Step(s, FillerEnd, false);
    s := Step(s, FillerSwitch, false);
    s := SwitchAndDrain(s);
  }

  /** The run before: two buffers are published, and the first is left prepared with number 3. */
  lemma {:induction false} TwoBuffers() returns (s: State)
    ensures Reachable(s, false) && ConsumersIdle(s)
    ensures s.filler == Filler(Rest, Outside, 0) && !s.mode.running && s.loop.pc.LoopOff?
    ensures s.mem.buffer1 == Buffer(3, [], false)
  {
    hide ConsumersDone, Reachable;
    s := OneBuffer();
    Drained(s);
    s := Step(s, FillerDone(0), false);
    s := SwitchAndDrain(s);
    s := Step(s, FillerStep, false);
    s := Step(s, LoopStep(0), false);
  }

  /** When the size check fails in daq_begin, the run counts as running: ending it publishes the buffer that
      the run before had left behind, here with Bufseq 3, and writes it to the file opened for the new run. */
  lemma {:induction false} BeginFails() returns (s: State)
    ensures Reachable(s, false)
    ensures s.log.now.published == [[3, 2, 0]] && s.log.now.written == [[3, 2, 0]]
    ensures |s.log.now.sent| == 1 && s.log.now.sent[0] == Sent(2, [3, 2, 0], false)
  {
    s := TwoBuffers();
    s := Step(s, FillerTooSmall(true), false);
    s := Step(s, FillerEnd, false);
    Drained(s);
    s := Step(s, FillerDone(0), false);
    FlatOfTwo(s.mem.buffer1.AddEoB(), 2, 0);
    s := SwitchAndDrain(s);
    Drained(s);
    assert SentRight(s.log.now.sent[0], s.log.now.published[0], 2);
  }
}
