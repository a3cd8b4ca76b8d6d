/** When a begin or reopen may re-point the buffers: exactly when no consumer still needs them. */
module PipelineBegin {
  import opened Pipeline
  import opened PipelineInvariant
  import opened PipelineTheorems
  import opened PipelineLiveness

  /** Re-pointing the buffers keeps the invariant exactly if the consumers are done with them. */
  lemma {:induction false} BeginKeepsExactly(s: State, a: Action)
    requires Inv(s) && EnabledUnguarded(s, a) && Repoints(a)
    ensures Inv(Next(s, a)) <==> ConsumersDone(s, a.withFile)
  {
    if ConsumersDone(s, a.withFile) {
      StepKeeps(s, a);
    } else {
      assert Next(s, a).log.now.published == [];
    }
  }

  /** It is a step of the queue to the monitoring client exactly if the last buffer has been sent. */
  lemma {:induction false} BeginIsFifoStep(s: State, a: Action)
    requires Reachable(s, false) && EnabledUnguarded(s, a) && Repoints(a)
    ensures FifoStep(SendChannel(s), SendChannel(Next(s, a))) <==> !SendWaiting(s)
  {
    ReachableInv(s);
    SendTakes(s.log.now, SendWaiting(s));
    assert SendChannel(Next(s, a)) == Fifo([], []);
    assert SendWaiting(s) ==> |SendChannel(s).puts| == |SendChannel(s).takes| + 1;
  }

  /** It leaves the transport buffer where and as it is exactly if that is the second buffer. */
  lemma {:induction false} BeginMovesTransport(s: State, a: Action)
    requires EnabledUnguarded(s, a) && Repoints(a)
    ensures TransportStays(s, Next(s, a)) <==> s.mem.transport.Buffer2?
  {
  }

  // ---------------------------------------------------------------------------------------------
  // What follows from it

  /** What is sent, and written to the open file, has been published before, in this order. */
  ghost predicate OrderKept(t: State) {
    && Images(t.log.now.sent) <= t.log.now.published
    && (t.mode.fileOpen ==> t.log.now.written <= t.log.now.published)
  }

  lemma {:induction false} InvKeepsOrder(t: State)
    requires Inv(t)
    ensures OrderKept(t)
  {
    SendTakes(t.log.now, SendWaiting(t));
  }

  /** A sender that has been released, or has not finished, sends something. */
  lemma {:induction false} SenderFinishes(s: State) returns (actions: seq<Action>, t: State)
    requires SenderRank(s) > 1
    ensures Exec(s, actions, false) == Reached(t)
    ensures t.log.now.published == s.log.now.published && |t.log.now.sent| == |s.log.now.sent| + 1
    decreases SenderRank(s), if s.sender.goal > |s.sender.copied| then s.sender.goal - |s.sender.copied| else 0
  {
    var u := Next(s, SenderStep);
    if SenderRank(u) <= 1 {
      assert Exec(s, [SenderStep], false) == Exec(u, [], false);
      return [SenderStep], u;
    }
    var rest;
    rest, t := SenderFinishes(u);
    actions := [SenderStep] + rest;
    assert actions[1..] == rest;
  }

  /** A writer that has been released, or has not finished, writes something if a file is open. */
  lemma {:induction false} WriterFinishes(s: State) returns (actions: seq<Action>, t: State)
    requires WriterRank(s) > 1 && s.mode.fileOpen
    requires s.writer.pc.WriterEnd? || s.writer.pc.WriterCopy? ==> s.writer.file >= |s.log.past|
    ensures Exec(s, actions, false) == Reached(t) && t.mode == s.mode
    ensures t.log.now.published == s.log.now.published && |t.log.now.written| == |s.log.now.written| + 1
    decreases WriterRank(s), if s.writer.goal > |s.writer.copied| then s.writer.goal - |s.writer.copied| else 0
  {
    var u := Next(s, WriterStep);
    if WriterRank(u) <= 1 {
      assert Exec(s, [WriterStep], false) == Exec(u, [], false);
      return [WriterStep], u;
    }
    var rest;
    rest, t := WriterFinishes(u);
    actions := [WriterStep] + rest;
    assert actions[1..] == rest;
  }

  /** If a consumer still needs the buffers, its own steps send or write what has not been published. */
  lemma {:induction false} StrayBuffer(s: State, a: Action) returns (actions: seq<Action>, t: State)
    requires Inv(s) && EnabledUnguarded(s, a) && Repoints(a) && !ConsumersDone(s, a.withFile)
    ensures Exec(Next(s, a), actions, false) == Reached(t) && !OrderKept(t)
  {
    var u := Next(s, a);
    assert u.log.now.published == [] && u.log.now.sent == [] && u.log.now.written == [];
    if SendWaiting(s) {
      actions, t := SenderFinishes(u);
      assert |Images(t.log.now.sent)| == 1;
    } else {
      actions, t := WriterFinishes(u);
    }
  }

  /** Whatever happens after the buffers have been re-pointed, only what was published is sent and written, in
      order, if and only if no consumer still needed them. */
  lemma {:induction false} BeginIsSafeExactly(s: State, a: Action)
    requires Reachable(s, false) && EnabledUnguarded(s, a) && Repoints(a)
    ensures (forall actions :: Exec(Next(s, a), actions, false).Reached? ==>
              OrderKept(Exec(Next(s, a), actions, false).state)) <==> ConsumersDone(s, a.withFile)
  {
    ReachableInv(s);
    var u := Next(s, a);
    if ConsumersDone(s, a.withFile) {
      StepKeeps(s, a);
      forall actions | Exec(u, actions, false).Reached?
        ensures OrderKept(Exec(u, actions, false).state)
      {
        RunKeeps(u, actions);
        InvKeepsOrder(Exec(u, actions, false).state);
      }
    } else {
      var actions, t := StrayBuffer(s, a);
      assert Exec(u, actions, false).Reached? && !OrderKept(Exec(u, actions, false).state);
    }
  }

  // ---------------------------------------------------------------------------------------------
  // Runs in which it goes wrong

  /** daq_restart_new_file does not wait for the sender before it re-points the buffers, so without the
      guard the sender can send a buffer that was never published. */
  lemma {:induction false} OverlapTearsABuffer() returns (s: State)
    ensures Reachable(s, true)
    ensures |s.log.past| == 2 && s.log.past[1].published == [[1, 2, 0]] && s.log.now.published == []
    ensures s.log.now.sent == [Sent(2, [1, 7, 7], false)]
  {
    s := RestartQuickly(false, true);
    s := SwapQuickly(s, true);
    s := ReleaseQuickly(s, true);
    FlatOfTwo(s.mem.buffer1, 2, 0);
    s := PickQuickly(s, true);
    s := Step(s, FillerStep, true);
    s := Step(s, FillerBegin(false), true);
    s := Step(s, FillerMutate([7, 7]), true);
    FlatOfTwo(s.mem.buffer1, 7, 7);
    s := CopyThree(s, true);
  }

  lemma {:induction false} ReachableWith(s: State, actions: seq<Action>, t: State)
    requires Reachable(s, false) && Exec(s, actions, false) == Reached(t)
    ensures Reachable(t, false)
  {
    var before :| Exec(Init(), before, false) == Reached(s);
    ExecAppend(Init(), before, actions, false);
    assert Exec(Init(), before + actions, false) == Reached(t);
  }

  lemma {:induction false} AlsoWithOverlap(s: State, actions: seq<Action>)
    requires Exec(s, actions, false).Reached?
    ensures Exec(s, actions, true) == Exec(s, actions, false)
    decreases |actions|
  {
    if actions != [] {
      AlsoWithOverlap(Next(s, actions[0]), actions[1..]);
    }
  }

  /** A whole call of switch_buffer, after which only the sender moves. */
  lemma {:induction false} SwitchAndSend(s: State) returns (t: State)
    requires Reachable(s, false) && s.filler.inner.LockWrite? && s.sem.writeProtect && s.sem.sendProtect
    requires s.writer.pc.WriterWait?
    ensures Reachable(t, false) && t.mode == s.mode && t.loop == s.loop && t.sem.trigger == s.sem.trigger
    ensures t.sem.write && t.writer == s.writer && t.sender.pc.SenderWait? && !t.sem.send
    ensures t.filler == s.filler.(inner := Outside, pc := AfterSwitch(s.filler.pc, s.mode.fileOpen))
    ensures t.mem.At(s.mem.fill) == s.mem.At(s.mem.fill).AddEoB() && t.mem.transport == s.mem.fill
  {
    var released := SwapQuickly(s, false);
    released := ReleaseQuickly(released, false);
    ReachableInv(released);
    var actions;
    actions, t := DrainSender(released);
    ReachableWith(released, actions, t);
  }

  /** A run without a file has ended: its last buffer, in buffer 2, has been sent, and the writer has been
      released for it but has not looked yet. */
  lemma {:induction false} WriterBehind() returns (s: State)
    ensures Reachable(s, false) && !SendWaiting(s)
    ensures s.filler == Filler(Rest, Outside, 0) && !s.mode.running && s.loop.pc.LoopOff?
    ensures s.sem.write && s.writer.pc.WriterWait?
    ensures s.mem.buffer2 == Buffer(2, [2, 0], true)
  {
    hide ConsumersDone, Reachable;
    s := OneBuffer();
    Drained(s);
    s := Step(s, FillerDone(0), false);
    s := SwitchAndSend(s);
    s := Step(s, FillerStep, false);
    s := Step(s, LoopStep(0), false);
  }

  /** Copies three words and records them as written. */
  lemma {:induction false} WriteThree(s: State) returns (t: State)
    requires Reachable(s, true) && s.writer.pc.WriterWait? && s.sem.write && s.mode.fileOpen
    requires s.mem.At(s.mem.transport).hasEnd && |s.mem.At(s.mem.transport).Flat()| == 3
    ensures Reachable(t, true) && t.mode == s.mode
    ensures t.log.now == s.log.now.(written := s.log.now.written + [s.mem.At(s.mem.transport).Flat()])
  {
    t := Step(s, WriterStep, true);
    t := Step(t, WriterStep, true);
    t := Step(t, WriterStep, true);
    t := CopyToFile(t);
  }

  lemma {:induction false} CopyToFile(s: State) returns (t: State)
    requires Reachable(s, true) && s.writer.pc.WriterCopy? && s.writer.goal == 3 && s.writer.copied == []
    requires |s.mem.At(s.writer.target).Flat()| == 3 && s.writer.file == |s.log.past|
    ensures Reachable(t, true) && t.mode == s.mode
    ensures t.log.now == s.log.now.(written := s.log.now.written + [s.mem.At(s.writer.target).Flat()])
  {
    t := Step(s, WriterStep, true);
    t := Step(t, WriterStep, true);
    t := Step(t, WriterStep, true);
    assert t.writer.copied == s.mem.At(s.writer.target).Flat();
    t := Step(t, WriterStep, true);
  }

  /** daq_end does not wait for the writer when no file is open, so without the guard the last buffer of a run
      without a file can become the first in the file of the next run. */
  lemma {:induction false} WriterCrossesRuns() returns (s: State)
    ensures Reachable(s, true)
    ensures s.mode.fileOpen && s.log.now.published == [] && s.log.now.written == [[2, 2, 0]]
  {
    s := WriterBehind();
    var actions :| Exec(Init(), actions, false) == Reached(s);
    AlsoWithOverlap(Init(), actions);
    s := Step(s, FillerBegin(true), true);
    FlatOfTwo(s.mem.buffer2, 2, 0);
    s := WriteThree(s);
  }
}
