/** What every step of every thread keeps. */
module PipelineInvariant {
  import opened Pipeline

  // ---------------------------------------------------------------------------------------------
  // Tokens: who holds a lock between taking it and giving its partner back

  predicate FillerHoldsWrite(f: Filler) {
    || f.pc.FreeFlush?
    || !(f.inner.Outside? || f.inner.LockWrite? || f.inner.FreeSend?)
  }

  predicate FillerHoldsSend(f: Filler) {
    !(f.inner.Outside? || f.inner.LockWrite? || f.inner.LockSend?)
  }

  predicate FillerHoldsTrigger(f: Filler) {
    f.pc.Took? || f.pc.ClearTodo? || f.pc.FreeTrigger? || f.pc == Reading(ForTrigger)
  }

  /** Exactly one of the four places holds the token. */
  predicate OneToken(a: bool, b: bool, c: bool, d: bool) {
    (a || b || c || d) && !(a && b) && !((a || b) && (c || d)) && !(c && d)
  }

  predicate WriteToken(sem: Semaphores, f: Filler, pc: WriterPc) {
    OneToken(sem.write, sem.writeProtect, FillerHoldsWrite(f), !pc.WriterWait?)
  }

  predicate SendToken(sem: Semaphores, f: Filler, pc: SenderPc) {
    OneToken(sem.send, sem.sendProtect, FillerHoldsSend(f), !pc.SenderWait?)
  }

  predicate TriggerToken(sem: Semaphores, f: Filler, pc: LoopPc) {
    OneToken(sem.trigger, sem.triggerDone, FillerHoldsTrigger(f), !pc.LoopDone?)
  }

  predicate TokensInv(s: State) {
    && WriteToken(s.sem, s.filler, s.writer.pc)
    && SendToken(s.sem, s.filler, s.sender.pc)
    && TriggerToken(s.sem, s.filler, s.loop.pc)
    && (s.filler.pc == Reading(ForBegin(true)) ==> s.loop.pc.LoopOff?)
    && (s.filler.pc.CloseFile? ==> s.sem.writeProtect)
  }

  // ---------------------------------------------------------------------------------------------
  // The filler's own data

  /** The filler is at a statement that runs only inside a run. */
  predicate InRun(pc: MainPc) {
    pc.Reading? || pc.Forcing? || pc.LockFlush? || pc.FreeFlush? || pc.CloseFile? || pc.ResetNumbers?
  }

  /** The filler is inside daq_end. */
  predicate Ending(pc: MainPc) {
    || pc == Reading(ForEnd)
    || ((pc.Forcing? || pc.LockFlush? || pc.FreeFlush? || pc.CloseFile? || pc.ResetNumbers?) && !pc.reopen)
  }

  predicate ModeInv(f: Filler, mode: Mode, file: OutputFile, over: bool) {
    && over == (f.pc.Reopen? || (!InRun(f.pc) && !mode.running))
    && (InRun(f.pc) || f.pc.Reopen? ==> mode.running == !Ending(f.pc))
    && (f.pc.ClearTodo? || f.pc.FreeTrigger? || f.pc.Decide? ==> f.rstatus == 0 || mode.running)
    && (!f.inner.Outside? ==> f.pc.Reading? || f.pc.Forcing?)
    && (f.pc.Forcing? ==> !f.inner.Outside?)
    && (over || f.pc.ResetNumbers? ==> !mode.fileOpen)
    && mode.fileOpen == file.Open?
    && (f.pc.LockFlush? || f.pc.FreeFlush? || f.pc.CloseFile? ==> mode.fileOpen)
  }

  /** The value that Buffer_number takes when buffer i is published: one more than its own Bufseq, unless
      a begin or reopen failed before it. */
  function NumberAfter(published: seq<Image>, failed: map<nat, int>, i: nat): int
    requires i < |published|
  {
    if i in failed then failed[i] else if published[i] == [] then 0 else published[i][0] + 1
  }

  /** The Bufseq that the next buffer should have. */
  function NextNumber(published: seq<Image>, failed: map<nat, int>): int {
    if published == [] then 1 else NumberAfter(published, failed, |published| - 1)
  }

  predicate FillInv(m: Memory, inner: SwitchPc, e: Epoch) {
    && (m.fill == m.transport <==> inner.SetFill?)
    && (Swapped(inner) ==> e.published != [] && |e.published| !in e.failed)
    && (inner.SetTransport? ==> m.At(m.fill).hasEnd)
    && (e.over ==> m.number == 0)
    && (!e.over ==> m.number == NumberNow(e, inner))
    && ((e.published != [] || 0 !in e.failed) && !(inner.SetFill? || inner.Count? || inner.Prepare?) ==>
          && m.At(m.fill).bufseq == NextNumber(e.published, e.failed)
          && m.At(m.fill).hasEnd == inner.SetTransport?)
  }

  /** Buffer_number while the run goes on. */
  function NumberNow(e: Epoch, inner: SwitchPc): int {
    if |e.published| in e.failed then e.failed[|e.published|] - 1
    else NextNumber(e.published, e.failed) - if inner.SetFill? || inner.Count? then 1 else 0
  }

  /** Buffer i has the Bufseq it should have, unless it is the first one after a begin that failed. */
  ghost predicate NumberedAt(published: seq<Image>, failed: map<nat, int>, i: nat)
    requires i < |published|
  {
    published[i] != [] && (i > 0 || 0 !in failed ==> published[i][0] == NextNumber(published[..i], failed))
  }

  /** Bufseq starts at 1 and goes on from Buffer_number. */
  ghost predicate Numbering(published: seq<Image>, failed: map<nat, int>) {
    forall i :: 0 <= i < |published| ==> NumberedAt(published, failed, i)
  }

  /** Bufseq counts 1, 2, 3, ... */
  ghost predicate NumberedFromOne(published: seq<Image>) {
    forall i :: 0 <= i < |published| ==> |published[i]| > 0 && published[i][0] == i + 1
  }

  /** A begin fails at the start of an epoch; a reopen fails behind the closed file, if there was one. */
  ghost predicate FailedInv(failed: map<nat, int>, file: OutputFile, n: nat) {
    forall i <- failed ::
      && i <= n && (failed[i] == 1 || (i == 0 && failed[i] == 2))
      && (i > 0 ==> !file.Open? && (file.Closed? ==> i >= file.published))
  }

  /** The transport buffer is the last one published, complete with its end marker. */
  ghost predicate TransportInv(b: Buffer, e: Epoch) {
    && Numbering(e.published, e.failed) && FailedInv(e.failed, e.file, |e.published|)
    && (e.published != [] ==> b.hasEnd && b.Flat() == e.published[|e.published| - 1])
  }

  // ---------------------------------------------------------------------------------------------
  // The consumers

  /** A closed file holds what had been published by then, and that is everything unless a reopen failed. */
  ghost predicate ClosedRight(file: OutputFile, failed: map<nat, int>, written: seq<Image>, published: seq<Image>) {
    file.Closed? ==>
      && file.published <= |published| && written == published[..file.published]
      && (file.published == |published| || file.published in failed)
  }

  ghost predicate WriterLogInv(e: Epoch, pending: bool, closing: bool, closed: bool) {
    && (pending && !e.file.NoFile? ==> e.published != [])
    && (e.file.NoFile? ==> e.written == [])
    && (e.file.Open? && !pending ==> e.written == e.published)
    && (e.file.Open? && pending ==> e.written == e.published[..|e.published| - 1])
    && ClosedRight(e.file, e.failed, e.written, e.published)
    && (e.file.Closed? && !e.over && !closed ==> e.file.published in e.failed)
    && (closing ==> !pending)
  }

  ghost predicate CopyInv(target: Which, transport: Which, copying: bool, goal: nat, copied: Image,
                          published: seq<Image>) {
    && target == transport
    && (copying ==> published != [] && goal == |published[|published| - 1]| && copied <= published[|published| - 1])
  }

  ghost predicate WriterInv(w: Writer, transport: Which, log: Log, fileOpen: bool) {
    w.pc.WriterEnd? || w.pc.WriterCopy? ==>
      && fileOpen && w.file == |log.past|
      && CopyInv(w.target, transport, w.pc.WriterCopy?, w.goal, w.copied, log.now.published)
  }

  /** A buffer was announced with the number Buffer_number took when it was published, unless that had
      been reset. */
  ghost predicate SentRight(sent: Sent, image: Image, number: int) {
    sent.image == image && sent.announced == if sent.late then 0 else number
  }

  /** Buffer_number was reset after buffer i of n. */
  predicate ResetAfter(failed: map<nat, int>, over: bool, n: nat, i: nat) {
    i + 1 in failed || (over && i + 1 == n)
  }

  ghost predicate AllSentRight(sent: seq<Sent>, published: seq<Image>, failed: map<nat, int>, over: bool) {
    && |sent| <= |published|
    && forall i :: 0 <= i < |sent| ==>
         && SentRight(sent[i], published[i], NumberAfter(published, failed, i))
         && (sent[i].late ==> ResetAfter(failed, over, |published|, i))
  }

  ghost predicate SenderLogInv(e: Epoch, pending: bool) {
    && (pending ==> e.published != [])
    && |e.sent| == |e.published| - (if pending then 1 else 0)
    && AllSentRight(e.sent, e.published, e.failed, e.over)
  }

  ghost predicate SenderInv(n: Sender, transport: Which, e: Epoch) {
    && (n.pc.SenderAnnounce? || n.pc.SenderEnd? || n.pc.SenderCopy? ==>
          CopyInv(n.target, transport, n.pc.SenderCopy?, n.goal, n.copied, e.published))
    && (n.pc.SenderEnd? || n.pc.SenderCopy? ==>
          && n.announced == (if n.late then 0 else NextNumber(e.published, e.failed))
          && (n.late ==> e.Reset()))
  }

  /** An epoch that has been left behind: everything published was sent, and what was published while its
      file was open was written. */
  ghost predicate Complete(e: Epoch) {
    && e.over && !e.file.Open?
    && Numbering(e.published, e.failed) && FailedInv(e.failed, e.file, |e.published|)
    && (e.file.NoFile? ==> e.written == [])
    && ClosedRight(e.file, e.failed, e.written, e.published)
    && |e.sent| == |e.published|
    && AllSentRight(e.sent, e.published, e.failed, e.over)
  }

  ghost predicate PastInv(past: seq<Epoch>) {
    forall k :: 0 <= k < |past| ==> Complete(past[k])
  }

  // ---------------------------------------------------------------------------------------------
  // Triggers

  ghost predicate TriggersInv(t: Triggers, loop: TriggerLoop, unserved: bool, served: bool) {
    && |t.posted| == |t.served| + (if unserved then 1 else 0)
    && (forall i :: 0 <= i < |t.served| ==> t.served[i].etype == t.posted[i])
    && (unserved ==> loop.etype == t.posted[|t.posted| - 1])
    && (loop.todo <==> loop.pc.LoopPost? || unserved || served)
  }

  predicate RunInv(s: State) {
    ModeInv(s.filler, s.mode, s.log.now.file, s.log.now.over)
  }

  ghost predicate MemoryInv(s: State) {
    && FillInv(s.mem, s.filler.inner, s.log.now)
    && TransportInv(s.mem.At(s.mem.transport), s.log.now)
  }

  ghost predicate WritingInv(s: State) {
    && WriterLogInv(s.log.now, WriteWaiting(s), s.filler.pc.CloseFile?, s.filler.pc.ResetNumbers?)
    && WriterInv(s.writer, s.mem.transport, s.log, s.mode.fileOpen)
    && PastInv(s.log.past)
  }

  ghost predicate SendingInv(s: State) {
    && SenderLogInv(s.log.now, SendWaiting(s))
    && SenderInv(s.sender, s.mem.transport, s.log.now)
  }

  ghost predicate TriggerInv(s: State) {
    TriggersInv(s.triggers, s.loop, s.sem.trigger || s.filler.pc.Took?,
                s.filler.pc == Reading(ForTrigger) || s.filler.pc.ClearTodo?)
  }

  ghost predicate Inv(s: State) {
    TokensInv(s) && RunInv(s) && MemoryInv(s) && WritingInv(s) && SendingInv(s) && TriggerInv(s)
  }

  // ---------------------------------------------------------------------------------------------
  // Preservation

  lemma {:induction false} InitInv()
    ensures Inv(Init())
  {
  }

  lemma {:induction false} ReadoutKeepsTokens(s: State, a: Action)
    requires TokensInv(s)
    requires Enabled(s, a) && (a.FillerMutate? || a.FillerSwitch? || a.FillerDone? || a.FillerEnd?)
    ensures TokensInv(Next(s, a))
  {
  }

  lemma {:induction false} ReadoutKeepsRun(s: State, a: Action)
    requires RunInv(s)
    requires Enabled(s, a) && (a.FillerMutate? || a.FillerSwitch? || a.FillerDone? || a.FillerEnd?)
    ensures RunInv(Next(s, a))
  {
  }

  lemma {:induction false} ReadoutKeepsMemory(s: State, a: Action)
    requires RunInv(s) && MemoryInv(s)
    requires Enabled(s, a) && (a.FillerMutate? || a.FillerSwitch? || a.FillerDone? || a.FillerEnd?)
    ensures MemoryInv(Next(s, a))
  {
    hide Numbering, FailedInv, NumberAfter;
  }

  lemma {:induction false} ReadoutKeepsWriting(s: State, a: Action)
    requires RunInv(s) && WritingInv(s)
    requires Enabled(s, a) && (a.FillerMutate? || a.FillerSwitch? || a.FillerDone? || a.FillerEnd?)
    ensures WritingInv(Next(s, a))
  {
    hide PastInv, Numbering, FailedInv, NumberAfter, ClosedRight;
  }

  lemma {:induction false} ReadoutKeepsSending(s: State, a: Action)
    requires RunInv(s) && SendingInv(s)
    requires Enabled(s, a) && (a.FillerMutate? || a.FillerSwitch? || a.FillerDone? || a.FillerEnd?)
    ensures SendingInv(Next(s, a))
  {
    hide Numbering, AllSentRight, NumberAfter;
  }

  lemma {:induction false} ReadoutKeepsTrigger(s: State, a: Action)
    requires TokensInv(s) && TriggerInv(s)
    requires Enabled(s, a) && (a.FillerMutate? || a.FillerSwitch? || a.FillerDone? || a.FillerEnd?)
    ensures TriggerInv(Next(s, a))
  {
  }

  lemma {:induction false} SwitchKeepsTokens(s: State)
    requires TokensInv(s) && RunInv(s)
    requires SwitchEnabled(s)
    ensures TokensInv(SwitchNext(s))
  {
  }

  lemma {:induction false} SwitchKeepsRun(s: State)
    requires RunInv(s)
    requires SwitchEnabled(s)
    ensures RunInv(SwitchNext(s))
  {
  }

  lemma {:induction false} NumberingGrows(published: seq<Image>, failed: map<nat, int>, image: Image)
    requires Numbering(published, failed) && image != []
    requires published != [] || 0 !in failed ==> image[0] == NextNumber(published, failed)
    ensures Numbering(published + [image], failed)
  {
    var more := published + [image];
    forall i | 0 <= i < |more|
      ensures NumberedAt(more, failed, i)
    {
      assert more[..i] == published[..i];
      assert published[..|published|] == published;
      assert i < |published| ==> NumberedAt(published, failed, i);
    }
  }

  lemma {:induction false} NumberingMarked(published: seq<Image>, failed: map<nat, int>, v: int)
    requires Numbering(published, failed)
    ensures Numbering(published, failed[|published| := v])
    ensures NextNumber(published, failed[|published| := v]) == NextNumber(published, failed)
  {
    var marked := failed[|published| := v];
    forall i | 0 <= i < |published|
      ensures NumberedAt(published, marked, i)
    {
      assert NumberedAt(published, failed, i);
    }
  }

  lemma {:induction false} SentGrows(sent: seq<Sent>, published: seq<Image>, failed: map<nat, int>, image: Image)
    requires AllSentRight(sent, published, failed, false)
    ensures AllSentRight(sent, published + [image], failed, false)
  {
    forall i | 0 <= i < |sent|
      ensures NumberAfter(published + [image], failed, i) == NumberAfter(published, failed, i)
    {
    }
  }

  lemma {:induction false} SentEnds(sent: seq<Sent>, published: seq<Image>, failed: map<nat, int>)
    requires AllSentRight(sent, published, failed, false)
    ensures AllSentRight(sent, published, failed, true)
  {
  }

  lemma {:induction false} SentMarked(sent: seq<Sent>, published: seq<Image>, failed: map<nat, int>, v: int)
    requires AllSentRight(sent, published, failed, true)
    ensures AllSentRight(sent, published, failed[|published| := v], false)
  {
    forall i | 0 <= i < |sent|
      ensures NumberAfter(published, failed[|published| := v], i) == NumberAfter(published, failed, i)
    {
    }
  }

  lemma {:induction false} SwitchKeepsMemory(s: State)
    requires TokensInv(s) && RunInv(s) && MemoryInv(s)
    requires SwitchEnabled(s)
    ensures MemoryInv(SwitchNext(s))
  {
    hide Numbering, NumberAfter;
    if s.filler.inner.SetTransport? {
      PublishKeepsMemory(s);
    }
  }

  lemma {:induction false} NextAfter(published: seq<Image>, failed: map<nat, int>, image: Image)
    requires image != []
    ensures NextNumber(published + [image], failed) ==
            if |published| in failed then failed[|published|] else image[0] + 1
  {
  }

  lemma {:induction false} FailedBehind(failed: map<nat, int>, file: OutputFile, n: nat)
    requires FailedInv(failed, file, n)
    ensures FailedInv(failed, file, n + 1) && n + 1 !in failed
  {
  }

  lemma {:induction false} PublishKeepsFill(m: Memory, e: Epoch, image: Image)
    requires FillInv(m, SetTransport, e) && !e.over && image == m.At(m.fill).Flat() && |e.published| + 1 !in e.failed
    ensures FillInv(m.(transport := m.fill), SetFill, e.(published := e.published + [image]))
  {
    hide NextNumber;
    NextAfter(e.published, e.failed, image);
  }

  lemma {:induction false} PublishKeepsTransport(m: Memory, e: Epoch, image: Image)
    requires FillInv(m, SetTransport, e) && !e.over && image == m.At(m.fill).Flat()
    requires TransportInv(m.At(m.transport), e)
    ensures TransportInv(m.At(m.fill), e.(published := e.published + [image])) && |e.published| + 1 !in e.failed
  {
    hide Numbering, FailedInv, NextNumber;
    NumberingGrows(e.published, e.failed, image);
    FailedBehind(e.failed, e.file, |e.published|);
  }

  lemma {:induction false} PublishKeepsMemory(s: State)
    requires RunInv(s) && MemoryInv(s)
    requires s.filler.inner.SetTransport?
    ensures MemoryInv(SwitchNext(s))
  {
    hide TransportInv, FillInv;
    var image := s.mem.At(s.mem.fill).Flat();
    PublishKeepsTransport(s.mem, s.log.now, image);
    PublishKeepsFill(s.mem, s.log.now, image);
  }

  lemma {:induction false} SwitchKeepsWriting(s: State)
    requires TokensInv(s) && RunInv(s) && MemoryInv(s) && WritingInv(s)
    requires SwitchEnabled(s)
    ensures WritingInv(SwitchNext(s))
  {
    hide PastInv, Numbering, NumberAfter, FailedInv;
    if s.filler.inner.SetTransport? {
      PublishKeepsWriting(s);
    }
  }

  lemma {:induction false} PublishKeepsWriting(s: State)
    requires TokensInv(s) && RunInv(s) && MemoryInv(s) && WritingInv(s)
    requires s.filler.inner.SetTransport?
    ensures WritingInv(SwitchNext(s))
  {
    hide PastInv, Numbering, NumberAfter, FailedInv;
  }

  lemma {:induction false} SwitchKeepsSending(s: State)
    requires TokensInv(s) && RunInv(s) && MemoryInv(s) && SendingInv(s)
    requires SwitchEnabled(s)
    ensures SendingInv(SwitchNext(s))
  {
    hide Numbering, AllSentRight, NumberAfter, FailedInv;
    if s.filler.inner.SetTransport? {
      SentGrows(s.log.now.sent, s.log.now.published, s.log.now.failed, s.mem.At(s.mem.fill).Flat());
    }
  }

  lemma {:induction false} SwitchKeepsTrigger(s: State)
    requires TokensInv(s) && TriggerInv(s)
    requires SwitchEnabled(s)
    ensures TriggerInv(SwitchNext(s))
  {
  }

  lemma {:induction false} BranchKeepsTokens(s: State)
    requires TokensInv(s) && RunInv(s) && (s.filler.pc.Took? ==> s.loop.todo)
    requires FillerEnabled(s) && (s.filler.pc.Took? || s.filler.pc.Decide?)
    ensures TokensInv(FillerNext(s))
  {
  }

  lemma {:induction false} FillerKeepsTokens(s: State)
    requires TokensInv(s) && RunInv(s) && (s.filler.pc.Took? ==> s.loop.todo)
    requires FillerEnabled(s)
    ensures TokensInv(FillerNext(s))
  {
    if s.filler.pc.Took? || s.filler.pc.Decide? {
      BranchKeepsTokens(s);
    }
  }

  lemma {:induction false} FillerKeepsRun(s: State)
    requires RunInv(s)
    requires FillerEnabled(s)
    ensures RunInv(FillerNext(s))
  {
  }

  lemma {:induction false} FillerKeepsMemory(s: State)
    requires TokensInv(s) && RunInv(s) && MemoryInv(s)
    requires FillerEnabled(s)
    ensures MemoryInv(FillerNext(s))
  {
    hide Numbering, NumberAfter;
  }

  lemma {:induction false} FillerKeepsWriting(s: State)
    requires TokensInv(s) && RunInv(s) && WritingInv(s)
    requires FillerEnabled(s)
    ensures WritingInv(FillerNext(s))
  {
    hide PastInv, Numbering, FailedInv, NumberAfter;
  }

  lemma {:induction false} FillerKeepsSending(s: State)
    requires TokensInv(s) && RunInv(s) && MemoryInv(s) && SendingInv(s)
    requires FillerEnabled(s)
    ensures SendingInv(FillerNext(s))
  {
    hide Numbering, AllSentRight, NumberAfter;
    if s.filler.pc.ResetNumbers? {
      SentEnds(s.log.now.sent, s.log.now.published, s.log.now.failed);
    }
  }

  lemma {:induction false} FillerKeepsTrigger(s: State)
    requires TokensInv(s) && TriggerInv(s)
    requires FillerEnabled(s)
    ensures TriggerInv(FillerNext(s))
  {
  }

  lemma {:induction false} WriterKeepsTokens(s: State)
    requires TokensInv(s)
    requires WriterEnabled(s)
    ensures TokensInv(WriterNext(s))
  {
  }

  lemma {:induction false} WriterKeepsRun(s: State)
    requires RunInv(s)
    requires WriterEnabled(s)
    ensures RunInv(WriterNext(s))
  {
  }

  lemma {:induction false} WriterKeepsMemory(s: State)
    requires TokensInv(s) && MemoryInv(s) && WritingInv(s)
    requires WriterEnabled(s)
    ensures MemoryInv(WriterNext(s))
  {
    hide Numbering, FailedInv, NumberAfter;
  }

  lemma {:induction false} WriterKeepsWriting(s: State)
    requires TokensInv(s) && RunInv(s) && MemoryInv(s) && WritingInv(s)
    requires WriterEnabled(s)
    ensures WritingInv(WriterNext(s))
  {
    hide PastInv, Numbering, FailedInv, NumberAfter;
    if s.writer.pc.WriterCopy? && |s.writer.copied| == s.writer.goal {
      assert s.writer.copied == s.log.now.published[|s.log.now.published| - 1];
    }
  }

  /** What a step of the writer leaves alone. */
  lemma {:induction false} WriterLeaves(s: State)
    ensures var t := WriterNext(s);
            && t.filler == s.filler && t.sender == s.sender && t.sem.send == s.sem.send
            && t.mem.transport == s.mem.transport && t.log.now.(written := []) == s.log.now.(written := [])
  {
  }

  lemma {:induction false} WriterKeepsSending(s: State)
    requires SendingInv(s)
    requires WriterEnabled(s)
    ensures SendingInv(WriterNext(s))
  {
    hide AllSentRight, NumberAfter, WriterNext;
    WriterLeaves(s);
  }

  lemma {:induction false} WriterKeepsTrigger(s: State)
    requires TokensInv(s) && TriggerInv(s)
    requires WriterEnabled(s)
    ensures TriggerInv(WriterNext(s))
  {
  }

  lemma {:induction false} SenderKeepsTokens(s: State)
    requires TokensInv(s)
    requires SenderEnabled(s)
    ensures TokensInv(SenderNext(s))
  {
  }

  lemma {:induction false} SenderKeepsRun(s: State)
    requires RunInv(s)
    requires SenderEnabled(s)
    ensures RunInv(SenderNext(s))
  {
  }

  lemma {:induction false} SenderKeepsMemory(s: State)
    requires TokensInv(s) && MemoryInv(s) && SendingInv(s)
    requires SenderEnabled(s)
    ensures MemoryInv(SenderNext(s))
  {
    hide Numbering, FailedInv, NumberAfter;
  }

  /** What a step of the sender leaves alone. */
  lemma {:induction false} SenderLeaves(s: State)
    ensures var t := SenderNext(s);
            && t.filler == s.filler && t.writer == s.writer && t.mode == s.mode && t.sem.write == s.sem.write
            && t.mem.transport == s.mem.transport && t.log.past == s.log.past
            && t.log.now.(sent := []) == s.log.now.(sent := [])
  {
  }

  lemma {:induction false} SenderKeepsWriting(s: State)
    requires WritingInv(s)
    requires SenderEnabled(s)
    ensures WritingInv(SenderNext(s))
  {
    hide PastInv, ClosedRight, SenderNext;
    SenderLeaves(s);
  }

  lemma {:induction false} SenderKeepsSending(s: State)
    requires TokensInv(s) && RunInv(s) && MemoryInv(s) && SendingInv(s)
    requires SenderEnabled(s)
    ensures SendingInv(SenderNext(s))
  {
    hide Numbering;
    if s.sender.pc.SenderCopy? && |s.sender.copied| == s.sender.goal {
      assert s.sender.copied == s.log.now.published[|s.log.now.published| - 1];
    }
  }

  lemma {:induction false} SenderKeepsTrigger(s: State)
    requires TokensInv(s) && TriggerInv(s)
    requires SenderEnabled(s)
    ensures TriggerInv(SenderNext(s))
  {
  }

  lemma {:induction false} LoopKeepsTokens(s: State, found: int)
    requires TokensInv(s)
    requires LoopEnabled(s)
    ensures TokensInv(LoopNext(s, found))
  {
  }

  lemma {:induction false} LoopKeepsRun(s: State, found: int)
    requires RunInv(s)
    requires LoopEnabled(s)
    ensures RunInv(LoopNext(s, found))
  {
  }

  lemma {:induction false} LoopKeepsMemory(s: State, found: int)
    requires MemoryInv(s)
    requires LoopEnabled(s)
    ensures MemoryInv(LoopNext(s, found))
  {
    hide Numbering, FailedInv, NumberAfter;
  }

  lemma {:induction false} LoopKeepsWriting(s: State, found: int)
    requires WritingInv(s)
    requires LoopEnabled(s)
    ensures WritingInv(LoopNext(s, found))
  {
    hide PastInv, Numbering, FailedInv, NumberAfter, ClosedRight;
  }

  lemma {:induction false} LoopKeepsSending(s: State, found: int)
    requires SendingInv(s)
    requires LoopEnabled(s)
    ensures SendingInv(LoopNext(s, found))
  {
    hide Numbering, AllSentRight, NumberAfter;
  }

  lemma {:induction false} LoopKeepsTrigger(s: State, found: int)
    requires TokensInv(s) && TriggerInv(s)
    requires LoopEnabled(s)
    ensures TriggerInv(LoopNext(s, found))
  {
  }

  lemma {:induction false} BeginKeeps(s: State, withFile: bool)
    requires Inv(s) && Enabled(s, FillerBegin(withFile))
    ensures Inv(BeginNext(s, withFile))
  {
  }

  lemma {:induction false} NoFileKeepsMemory(s: State)
    requires TokensInv(s) && RunInv(s) && MemoryInv(s) && WritingInv(s) && s.filler.pc.Reopen?
    ensures MemoryInv(NoFileNext(s))
  {
    hide Numbering, NumberAfter, PastInv;
    NumberingMarked(s.log.now.published, s.log.now.failed, 1);
  }

  lemma {:induction false} NoFileKeepsWriting(s: State)
    requires TokensInv(s) && RunInv(s) && WritingInv(s) && s.filler.pc.Reopen?
    ensures WritingInv(NoFileNext(s))
  {
    hide PastInv;
  }

  lemma {:induction false} NoFileKeepsSending(s: State)
    requires TokensInv(s) && RunInv(s) && MemoryInv(s) && SendingInv(s) && s.filler.pc.Reopen?
    ensures SendingInv(NoFileNext(s))
  {
    hide Numbering, AllSentRight, FailedInv;
    SentMarked(s.log.now.sent, s.log.now.published, s.log.now.failed, 1);
  }

  lemma {:induction false} NoFileKeeps(s: State)
    requires Inv(s) && Enabled(s, FillerNoFile)
    ensures Inv(NoFileNext(s))
  {
    hide MemoryInv, WritingInv, SendingInv;
    if s.filler.pc.Reopen? {
      NoFileKeepsMemory(s); NoFileKeepsWriting(s); NoFileKeepsSending(s);
    }
  }

  lemma {:induction false} TooSmallKeeps(s: State, withFile: bool)
    requires Inv(s) && Enabled(s, FillerTooSmall(withFile))
    ensures Inv(TooSmallNext(s, withFile))
  {
  }
}
