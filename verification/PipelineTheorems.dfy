/** What holds of every run of the pipeline. */
module PipelineTheorems {
  import opened Pipeline
  import opened PipelineInvariant

  // ---------------------------------------------------------------------------------------------
  // The invariant over whole runs

  lemma {:induction false} StepKeeps(s: State, a: Action)
    requires Inv(s) && Enabled(s, a)
    ensures Inv(Next(s, a))
  {
    match a
    case FillerBegin(withFile) => BeginKeeps(s, withFile);
    case FillerNoFile => NoFileKeeps(s);
    case FillerTooSmall(withFile) => TooSmallKeeps(s, withFile);
    case FillerStep =>
      FillerKeepsTokens(s); FillerKeepsRun(s); FillerKeepsMemory(s);
      FillerKeepsWriting(s); FillerKeepsSending(s); FillerKeepsTrigger(s);
    case SwitchStep =>
      SwitchKeepsTokens(s); SwitchKeepsRun(s); SwitchKeepsMemory(s);
      SwitchKeepsWriting(s); SwitchKeepsSending(s); SwitchKeepsTrigger(s);
    case WriterStep =>
      WriterKeepsTokens(s); WriterKeepsRun(s); WriterKeepsMemory(s);
      WriterKeepsWriting(s); WriterKeepsSending(s); WriterKeepsTrigger(s);
    case SenderStep =>
      SenderKeepsTokens(s); SenderKeepsRun(s); SenderKeepsMemory(s);
      SenderKeepsWriting(s); SenderKeepsSending(s); SenderKeepsTrigger(s);
    case LoopStep(found) =>
      LoopKeepsTokens(s, found); LoopKeepsRun(s, found); LoopKeepsMemory(s, found);
      LoopKeepsWriting(s, found); LoopKeepsSending(s, found); LoopKeepsTrigger(s, found);
    case _ =>
      ReadoutKeepsTokens(s, a); ReadoutKeepsRun(s, a); ReadoutKeepsMemory(s, a);
      ReadoutKeepsWriting(s, a); ReadoutKeepsSending(s, a); ReadoutKeepsTrigger(s, a);
  }

  lemma {:induction false} RunKeeps(s: State, actions: seq<Action>)
    requires Inv(s) && Exec(s, actions, false).Reached?
    ensures Inv(Exec(s, actions, false).state)
    decreases |actions|
  {
    if actions != [] {
      StepKeeps(s, actions[0]);
      RunKeeps(Next(s, actions[0]), actions[1..]);
    }
  }

  lemma {:induction false} ReachableInv(s: State)
    requires Reachable(s, false)
    ensures Inv(s)
  {
    var actions :| Exec(Init(), actions, false) == Reached(s);
    InitInv();
    RunKeeps(Init(), actions);
  }

  lemma {:induction false} ExecAppend(s: State, first: seq<Action>, second: seq<Action>, overlap: bool)
    requires Exec(s, first, overlap).Reached?
    ensures Exec(s, first + second, overlap) == Exec(Exec(s, first, overlap).state, second, overlap)
    decreases |first|
  {
    if first == [] {
      assert first + second == second;
    } else {
      assert (first + second)[1..] == first[1..] + second;
      ExecAppend(Next(s, first[0]), first[1..], second, overlap);
    }
  }

  lemma {:induction false} ReachableNext(s: State, a: Action, overlap: bool)
    requires Reachable(s, overlap) && Allowed(s, a, overlap)
    ensures Reachable(Next(s, a), overlap)
  {
    var actions :| Exec(Init(), actions, overlap) == Reached(s);
    ExecAppend(Init(), actions, [a], overlap);
    assert Exec(s, [a], overlap) == Exec(Next(s, a), [], overlap);
    assert Exec(Init(), actions + [a], overlap) == Reached(Next(s, a));
  }

  // ---------------------------------------------------------------------------------------------
  // Tokens

  /** Each pair of semaphores has one token, in one place, in every reachable state. */
  lemma {:induction false} TokenConservation(s: State)
    requires Reachable(s, false)
    ensures OneToken(s.sem.write, s.sem.writeProtect, FillerHoldsWrite(s.filler), !s.writer.pc.WriterWait?)
    ensures OneToken(s.sem.send, s.sem.sendProtect, FillerHoldsSend(s.filler), !s.sender.pc.SenderWait?)
    ensures OneToken(s.sem.trigger, s.sem.triggerDone, FillerHoldsTrigger(s.filler), !s.loop.pc.LoopDone?)
  {
    ReachableInv(s);
  }

  /** Every trigger is taken up exactly once and in order, with its own event type; at most one is
      waiting; and the branch of the event loop that would drop one is never taken. */
  lemma {:induction false} TriggersServedOnce(s: State)
    requires Reachable(s, false)
    ensures |s.triggers.posted| == |s.triggers.served| + (if s.sem.trigger || s.filler.pc.Took? then 1 else 0)
    ensures forall i :: 0 <= i < |s.triggers.served| ==> s.triggers.served[i].etype == s.triggers.posted[i]
    ensures s.filler.pc.Took? && s.mode.running ==>
              && FillerNext(s).filler.pc == Reading(ForTrigger)
              && FillerNext(s).triggers.served == s.triggers.served +
                   [Served(s.triggers.posted[|s.triggers.posted| - 1], true)]
    ensures s.filler.pc.Took? && !s.mode.running ==>
              && FillerNext(s).filler.pc == ClearTodo
              && FillerNext(s).triggers.served == s.triggers.served +
                   [Served(s.triggers.posted[|s.triggers.posted| - 1], false)]
  {
    ReachableInv(s);
  }

  /** What wait_for_trigger has returned in a list of steps, where it found something. */
  function Found(s: State, actions: seq<Action>): seq<int>
    requires Exec(s, actions, false).Reached?
    decreases |actions|
  {
    if actions == [] then []
    else
      var a := actions[0];
      (if a.LoopStep? && s.loop.pc.LoopWait? && a.found != 0 then [a.found] else []) + Found(Next(s, a), actions[1..])
  }

  /** The triggers posted, and the one about to be. */
  function PostedOrWaiting(s: State): seq<int> {
    s.triggers.posted + if s.loop.pc.LoopPost? then [s.loop.etype] else []
  }

  lemma {:induction false} StepPosts(s: State, a: Action)
    requires Inv(s) && Enabled(s, a)
    ensures PostedOrWaiting(Next(s, a)) ==
            PostedOrWaiting(s) + if a.LoopStep? && s.loop.pc.LoopWait? && a.found != 0 then [a.found] else []
  {
    hide MemoryInv, WritingInv, SendingInv, OneToken;
  }

  lemma {:induction false} RunPosts(s: State, actions: seq<Action>)
    requires Inv(s) && Exec(s, actions, false).Reached?
    ensures PostedOrWaiting(Exec(s, actions, false).state) == PostedOrWaiting(s) + Found(s, actions)
    decreases |actions|
  {
    hide Inv, Next, PostedOrWaiting;
    if actions == [] {
      assert PostedOrWaiting(s) + [] == PostedOrWaiting(s);
    } else {
      StepKeeps(s, actions[0]);
      StepPosts(s, actions[0]);
      RunPosts(Next(s, actions[0]), actions[1..]);
    }
  }

  /** In every guarded run, what wait_for_trigger found is what is posted, in order and with its event type, and
      what the event loop takes up, except for the last ones that are still on their way; and the mark that
      something is to be done is set exactly from the finding until the readout is over. */
  lemma {:induction false} TriggersAsFound(actions: seq<Action>, s: State)
    requires Exec(Init(), actions, false) == Reached(s)
    ensures PostedOrWaiting(s) == Found(Init(), actions)
    ensures |s.triggers.served| <= |Found(Init(), actions)|
    ensures forall i :: 0 <= i < |s.triggers.served| ==> s.triggers.served[i].etype == Found(Init(), actions)[i]
    ensures s.loop.todo <==>
              || s.loop.pc.LoopPost? || s.sem.trigger
              || s.filler.pc.Took? || s.filler.pc == Reading(ForTrigger) || s.filler.pc.ClearTodo?
  {
    InitInv();
    RunPosts(Init(), actions);
    RunKeeps(Init(), actions);
  }

  // ---------------------------------------------------------------------------------------------
  // The buffers

  predicate Consuming(s: State) { !s.writer.pc.WriterWait? || !s.sender.pc.SenderWait? }

  /** The transport buffer holds a buffer that is still to be sent, or written to the open file. */
  predicate Outstanding(s: State) { SendWaiting(s) || (WriteWaiting(s) && s.mode.fileOpen) }

  predicate IsFillerAction(a: Action) {
    !a.WriterStep? && !a.SenderStep? && !a.LoopStep?
  }

  predicate TransportStays(s: State, t: State) {
    t.mem.transport == s.mem.transport && t.mem.At(s.mem.transport) == s.mem.At(s.mem.transport)
  }

  lemma {:induction false} FillerLeavesTransport(s: State, a: Action)
    requires TokensInv(s) && RunInv(s) && FillInv(s.mem, s.filler.inner, s.log.now) && Enabled(s, a)
    ensures s.mem.fill == s.mem.transport <==> s.filler.inner.SetFill?
    ensures Consuming(s) ==> s.mem.fill != s.mem.transport
    ensures Outstanding(s) && IsFillerAction(a) ==> TransportStays(s, Next(s, a))
  {
  }

  lemma {:induction false} ConsumersOnlyRead(s: State, a: Action)
    requires RunInv(s) && MemoryInv(s) && WritingInv(s) && SendingInv(s)
    requires EnabledUnguarded(s, a) && (a.WriterStep? || a.SenderStep? || a.LoopStep?)
    ensures Next(s, a).mem == s.mem
  {
    hide AllSentRight, ClosedRight, Numbering, FailedInv, PastInv, NumberAfter;
  }

  /** From its publication until it is sent and written, the filler leaves the transport buffer alone; it is
      not the one being filled while a consumer is at work; and the consumers themselves never write to
      either buffer. */
  lemma {:induction false} NonInterference(s: State, a: Action)
    requires Reachable(s, false) && Enabled(s, a)
    ensures s.mem.fill == s.mem.transport <==> s.filler.inner.SetFill?
    ensures Consuming(s) ==> s.mem.fill != s.mem.transport
    ensures Outstanding(s) && IsFillerAction(a) ==> TransportStays(s, Next(s, a))
    ensures a.WriterStep? || a.SenderStep? || a.LoopStep? ==> Next(s, a).mem == s.mem
  {
    hide OneToken;
    ReachableInv(s);
    FillerLeavesTransport(s, a);
    if !IsFillerAction(a) {
      ConsumersOnlyRead(s, a);
    }
  }

  /** A queue that holds at most one image. */
  datatype Fifo = Fifo(puts: seq<Image>, takes: seq<Image>)

  ghost predicate FifoStep(a: Fifo, b: Fifo) {
    || b == a
    || (a.puts == a.takes && b.takes == a.takes && |b.puts| == |a.puts| + 1 && a.puts <= b.puts)
    || (a.takes <= a.puts && |a.puts| == |a.takes| + 1 && b == Fifo(a.puts, a.puts))
    || (a.puts == a.takes && b == Fifo([], []))
  }

  function Images(sent: seq<Sent>): seq<Image> {
    seq(|sent|, i requires 0 <= i < |sent| => sent[i].image)
  }

  function SendChannel(s: State): Fifo { Fifo(s.log.now.published, Images(s.log.now.sent)) }

  /** What goes into the file of an epoch: everything published until it is closed. */
  function ForFile(e: Epoch): seq<Image> {
    match e.file
    case NoFile => []
    case Open => e.published
    case Closed(n) => if n <= |e.published| then e.published[..n] else e.published
  }

  function WriteChannel(s: State): Fifo { Fifo(ForFile(s.log.now), s.log.now.written) }

  /** What one step may do to the published list and to a consumer's "one outstanding" flag. */
  predicate PublishStep(before: seq<Image>, pending: bool, after: seq<Image>, pending': bool) {
    || (after == before && (pending' ==> pending))
    || (|after| == |before| + 1 && before <= after && !pending && pending')
    || (after == [] && !pending && !pending')
  }

  lemma {:induction false} SendPublishStep(s: State, a: Action)
    requires TokensInv(s) && RunInv(s) && Enabled(s, a)
    ensures PublishStep(s.log.now.published, SendWaiting(s), Next(s, a).log.now.published, SendWaiting(Next(s, a)))
  {
    match a
    case SwitchStep => SendPublishSwitch(s);
    case FillerStep => SendPublishFiller(s);
    case WriterStep => SendPublishWriter(s);
    case SenderStep => SendPublishSender(s);
    case _ =>
  }

  lemma {:induction false} SendPublishSwitch(s: State)
    requires TokensInv(s) && RunInv(s) && SwitchEnabled(s)
    ensures PublishStep(s.log.now.published, SendWaiting(s), SwitchNext(s).log.now.published,
                        SendWaiting(SwitchNext(s)))
  {
  }

  lemma {:induction false} SendPublishFiller(s: State)
    requires TokensInv(s) && RunInv(s) && FillerEnabled(s)
    ensures PublishStep(s.log.now.published, SendWaiting(s), FillerNext(s).log.now.published,
                        SendWaiting(FillerNext(s)))
  {
  }

  lemma {:induction false} SendPublishWriter(s: State)
    requires TokensInv(s) && RunInv(s) && WriterEnabled(s)
    ensures PublishStep(s.log.now.published, SendWaiting(s), WriterNext(s).log.now.published,
                        SendWaiting(WriterNext(s)))
  {
  }

  lemma {:induction false} SendPublishSender(s: State)
    requires TokensInv(s) && RunInv(s) && SenderEnabled(s)
    ensures PublishStep(s.log.now.published, SendWaiting(s), SenderNext(s).log.now.published,
                        SendWaiting(SenderNext(s)))
  {
  }

  lemma {:induction false} WritePublishStep(s: State, a: Action)
    requires TokensInv(s) && RunInv(s) && Enabled(s, a) && !Repoints(a)
    ensures PublishStep(s.log.now.published, WriteWaiting(s), Next(s, a).log.now.published, WriteWaiting(Next(s, a)))
  {
    match a
    case SwitchStep => WritePublishSwitch(s);
    case FillerStep => WritePublishFiller(s);
    case WriterStep => WritePublishWriter(s);
    case SenderStep => WritePublishSender(s);
    case _ =>
  }

  lemma {:induction false} WritePublishSwitch(s: State)
    requires TokensInv(s) && RunInv(s) && SwitchEnabled(s)
    ensures PublishStep(s.log.now.published, WriteWaiting(s), SwitchNext(s).log.now.published,
                        WriteWaiting(SwitchNext(s)))
  {
  }

  lemma {:induction false} WritePublishFiller(s: State)
    requires TokensInv(s) && RunInv(s) && FillerEnabled(s)
    ensures PublishStep(s.log.now.published, WriteWaiting(s), FillerNext(s).log.now.published,
                        WriteWaiting(FillerNext(s)))
  {
  }

  lemma {:induction false} WritePublishWriter(s: State)
    requires TokensInv(s) && RunInv(s) && WriterEnabled(s)
    ensures PublishStep(s.log.now.published, WriteWaiting(s), WriterNext(s).log.now.published,
                        WriteWaiting(WriterNext(s)))
  {
  }

  lemma {:induction false} WritePublishSender(s: State)
    requires TokensInv(s) && RunInv(s) && SenderEnabled(s)
    ensures PublishStep(s.log.now.published, WriteWaiting(s), SenderNext(s).log.now.published,
                        WriteWaiting(SenderNext(s)))
  {
  }

  lemma {:induction false} SendTakes(e: Epoch, pending: bool)
    requires SenderLogInv(e, pending)
    ensures Images(e.sent) == if pending then e.published[..|e.published| - 1] else e.published
  {
    assert forall i :: 0 <= i < |e.sent| ==>
        SentRight(e.sent[i], e.published[i], NumberAfter(e.published, e.failed, i));
  }

  /** To the monitoring client the double buffer is a queue of capacity one. */
  lemma {:induction false} SendChannelIsFifo(s: State, a: Action)
    requires Reachable(s, false) && Enabled(s, a)
    ensures FifoStep(SendChannel(s), SendChannel(Next(s, a)))
  {
    ReachableInv(s);
    StepKeeps(s, a);
    SendPublishStep(s, a);
    SendTakes(s.log.now, SendWaiting(s));
    SendTakes(Next(s, a).log.now, SendWaiting(Next(s, a)));
  }

  /** A file stays as it is, or it is closed with everything published so far. */
  lemma {:induction false} FileStep(s: State, a: Action)
    requires RunInv(s) && EnabledUnguarded(s, a) && !Repoints(a)
    ensures s.log.now.published <= Next(s, a).log.now.published
    ensures Next(s, a).log.now.file == s.log.now.file ||
            (s.log.now.file.Open? && Next(s, a).log.now == s.log.now.(file := Closed(|s.log.now.published|)))
  {
  }

  /** At a begin the last file is complete, whoever has still to take a turn. */
  lemma {:induction false} BeginLeavesFile(s: State, a: Action)
    requires RunInv(s) && WritingInv(s) && EnabledUnguarded(s, a) && Repoints(a)
    ensures ForFile(s.log.now) == s.log.now.written && WriteChannel(Next(s, a)) == Fifo([], [])
  {
    hide PastInv, WriterInv;
  }

  /** To the output file the double buffer is a queue of capacity one. */
  lemma {:induction false} WriteChannelIsFifo(s: State, a: Action)
    requires Reachable(s, false) && Enabled(s, a)
    ensures FifoStep(WriteChannel(s), WriteChannel(Next(s, a)))
  {
    ReachableInv(s);
    StepKeeps(s, a);
    var e, e' := s.log.now, Next(s, a).log.now;
    if Repoints(a) {
      BeginLeavesFile(s, a);
    } else {
      WritePublishStep(s, a);
      FileStep(s, a);
      FileFifo(e, WriteWaiting(s), e', WriteWaiting(Next(s, a)));
    }
  }

  /** A file that is open, or is closed with everything published, or is left alone. */
  lemma {:induction false} FileFifo(e: Epoch, pending: bool, e': Epoch, pending': bool)
    requires WriterLogInv(e, pending, false, true) && WriterLogInv(e', pending', false, true)
    requires PublishStep(e.published, pending, e'.published, pending')
    requires e'.published != [] || e.published == []
    requires e'.file == e.file || (e.file.Open? && e' == e.(file := Closed(|e.published|)))
    requires !e.file.Open? ==> e'.written == e.written && e.published <= e'.published
    ensures FifoStep(Fifo(ForFile(e), e.written), Fifo(ForFile(e'), e'.written))
  {
    assert !e.file.Open? ==> ForFile(e') == ForFile(e);
  }

  /** Bufseq counts from 1 until the first buffer behind a failed reopen has been published. */
  lemma {:induction false} NumberedUpTo(published: seq<Image>, failed: map<nat, int>, n: nat)
    requires Numbering(published, failed) && n <= |published| && 0 !in failed && forall p <- failed :: p + 1 >= n
    ensures NumberedFromOne(published[..n])
    decreases n
  {
    if n > 0 {
      NumberedUpTo(published, failed, n - 1);
      assert NumberedAt(published, failed, n - 1);
    }
  }

  /** Without a failed begin, Bufseq reads 1, 2, 3, ... exactly if at most one buffer has been published
      behind a reopen that failed. */
  lemma {:induction false} NumberedExactly(e: Epoch)
    requires Numbering(e.published, e.failed) && FailedInv(e.failed, e.file, |e.published|) && 0 !in e.failed
    ensures NumberedFromOne(e.published) <==> forall p <- e.failed :: p + 1 >= |e.published|
  {
    if forall p <- e.failed :: p + 1 >= |e.published| {
      NumberedUpTo(e.published, e.failed, |e.published|);
      assert e.published[..|e.published|] == e.published;
    } else {
      var p :| p in e.failed && p + 1 < |e.published|;
      assert NumberedAt(e.published, e.failed, p + 1);
      assert e.published[..p + 1][p] == e.published[p];
    }
  }

  /** Buffers reach the file and the client in the order they were published in, each once, with at most
      one outstanding. Bufseq starts at 1, unless the begin failed, and goes on from Buffer_number; so it
      reads 1, 2, 3, ... exactly until a second buffer is published behind a reopen that failed, and
      always while the file is open. */
  lemma {:induction false} BuffersArriveInOrder(s: State)
    requires Reachable(s, false)
    ensures Numbering(s.log.now.published, s.log.now.failed)
    ensures 0 !in s.log.now.failed ==>
              (NumberedFromOne(s.log.now.published) <==>
               forall p <- s.log.now.failed :: p + 1 >= |s.log.now.published|)
    ensures s.mode.fileOpen && 0 !in s.log.now.failed ==> NumberedFromOne(s.log.now.published)
    ensures s.mode.fileOpen ==>
              && s.log.now.written <= s.log.now.published
              && |s.log.now.published| <= |s.log.now.written| + 1
    ensures Images(s.log.now.sent) <= s.log.now.published
    ensures |s.log.now.published| <= |s.log.now.sent| + 1
  {
    ReachableInv(s);
    SendTakes(s.log.now, SendWaiting(s));
    if 0 !in s.log.now.failed {
      NumberedExactly(s.log.now);
    }
  }

  // ---------------------------------------------------------------------------------------------
  // Flush before close

  /** When the output file is closed, everything published since it was opened is in it, and the
      writer is back at its lock with nothing released to it. */
  lemma {:induction false} FlushBeforeClose(s: State)
    requires Reachable(s, false) && s.filler.pc.CloseFile?
    ensures s.mode.fileOpen && s.log.now.written == s.log.now.published
    ensures s.writer.pc.WriterWait? && !s.sem.write
  {
    ReachableInv(s);
  }

  function EpochAt(s: State, k: nat): Epoch
    requires k <= |s.log.past|
  {
    if k < |s.log.past| then s.log.past[k] else s.log.now
  }

  /** Epoch k's output file is no longer open. */
  predicate LeftBehind(s: State, k: nat) {
    k < |s.log.past| || (k == |s.log.past| && s.log.now.file.Closed?)
  }

  /** The same file with the same buffers in it; the run may go on behind it. */
  ghost predicate SameFile(before: Epoch, after: Epoch) {
    after.file == before.file && after.written == before.written && before.published <= after.published
  }

  lemma {:induction false} ClosedStep(s: State, a: Action, k: nat)
    requires Inv(s) && Enabled(s, a) && LeftBehind(s, k)
    ensures LeftBehind(Next(s, a), k) && SameFile(EpochAt(s, k), EpochAt(Next(s, a), k))
    ensures k < |s.log.past| ==> k < |Next(s, a).log.past| && EpochAt(Next(s, a), k) == EpochAt(s, k)
  {
    hide MemoryInv, SendingInv, TriggerInv, TokensInv, PastInv, ClosedRight;
  }

  /** No later step, of any thread, adds to a closed file. */
  lemma {:induction false} ClosedFilesNeverChange(s: State, actions: seq<Action>, k: nat)
    requires Inv(s) && LeftBehind(s, k) && Exec(s, actions, false).Reached?
    ensures LeftBehind(Exec(s, actions, false).state, k)
    ensures SameFile(EpochAt(s, k), EpochAt(Exec(s, actions, false).state, k))
    ensures k < |s.log.past| ==> EpochAt(Exec(s, actions, false).state, k) == EpochAt(s, k)
    decreases |actions|
  {
    hide Inv, Next;
    if actions != [] {
      StepKeeps(s, actions[0]);
      ClosedStep(s, actions[0], k);
      ClosedFilesNeverChange(Next(s, actions[0]), actions[1..], k);
    }
  }

  /** Every file ever closed holds exactly the buffers published while it was open, and these are all of
      the epoch unless its reopen failed; they are numbered from one unless its begin failed. */
  lemma {:induction false} ClosedFilesAreComplete(s: State, k: nat)
    requires Reachable(s, false) && LeftBehind(s, k) && EpochAt(s, k).file.Closed?
    ensures var e := EpochAt(s, k);
            && e.file.published <= |e.published| && e.written == e.published[..e.file.published]
            && (e.written == e.published || e.file.published in e.failed)
            && (0 !in e.failed ==> NumberedFromOne(e.written))
  {
    ReachableInv(s);
    var e := EpochAt(s, k);
    assert k < |s.log.past| ==> Complete(s.log.past[k]);
    assert e.published[..|e.published|] == e.published;
    if 0 !in e.failed {
      NumberedUpTo(e.published, e.failed, e.file.published);
    }
  }

  // ---------------------------------------------------------------------------------------------
  // The announced number

  lemma {:induction false} NumberPositive(published: seq<Image>, failed: map<nat, int>, file: OutputFile, i: nat)
    requires Numbering(published, failed) && FailedInv(failed, file, |published|) && i < |published|
    ensures published[i] != [] && (i > 0 || 0 !in failed ==> published[i][0] >= 1)
    ensures NumberAfter(published, failed, i) >= 1
    decreases i
  {
    assert NumberedAt(published, failed, i);
    if i > 0 { NumberPositive(published, failed, file, i - 1); }
  }

  /** The announced number is Bufseq + 1 exactly if the sender read Buffer_number before it was reset,
      which only the last buffer before a reset can miss, and no reopen failed just before the buffer was
      published: that one is announced as 1. The first buffer after a begin that failed is announced as 2,
      whatever its Bufseq. */
  lemma {:induction false} AnnouncedNumber(s: State, k: nat, i: nat)
    requires Reachable(s, false) && k <= |s.log.past| && i < |EpochAt(s, k).sent|
    ensures var e := EpochAt(s, k);
            && i < |e.published| && e.sent[i].image == e.published[i] && e.published[i] != []
            && (i > 0 || 0 !in e.failed ==>
                  (e.sent[i].announced == e.published[i][0] + 1 <==> !e.sent[i].late && i !in e.failed))
            && (i in e.failed && !e.sent[i].late ==> e.sent[i].announced == e.failed[i] <= 2)
            && (i > 0 && i in e.failed ==> e.failed[i] == 1)
            && (e.sent[i].late ==> e.sent[i].announced == 0 && ResetAfter(e.failed, e.over, |e.published|, i))
            && (0 !in e.failed && (forall p <- e.failed :: p >= i) ==> e.published[i][0] == i + 1)
  {
    ReachableInv(s);
    AnnouncedIn(EpochAt(s, k), i);
  }

  lemma {:induction false} AnnouncedIn(e: Epoch, i: nat)
    requires Numbering(e.published, e.failed) && FailedInv(e.failed, e.file, |e.published|)
    requires AllSentRight(e.sent, e.published, e.failed, e.over) && i < |e.sent|
    ensures i < |e.published| && e.sent[i].image == e.published[i] && e.published[i] != []
    ensures i > 0 || 0 !in e.failed ==>
              (e.sent[i].announced == e.published[i][0] + 1 <==> !e.sent[i].late && i !in e.failed)
    ensures i in e.failed && !e.sent[i].late ==> e.sent[i].announced == e.failed[i] <= 2
    ensures i > 0 && i in e.failed ==> e.failed[i] == 1
    ensures e.sent[i].late ==> e.sent[i].announced == 0 && ResetAfter(e.failed, e.over, |e.published|, i)
    ensures 0 !in e.failed && (forall p <- e.failed :: p >= i) ==> e.published[i][0] == i + 1
  {
    assert NumberedAt(e.published, e.failed, i);
    assert SentRight(e.sent[i], e.published[i], NumberAfter(e.published, e.failed, i));
    NumberPositive(e.published, e.failed, e.file, i);
    if 0 !in e.failed && forall p <- e.failed :: p >= i {
      NumberedUpTo(e.published, e.failed, i + 1);
      assert e.published[..i + 1][i] == e.published[i];
    }
  }
}
