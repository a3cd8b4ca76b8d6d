/** The threads of rcdaq.cc as a step machine: the filler (event loop plus run commands), the file
    writer, the monitoring sender and the trigger loop, over two buffers and six mutexes used as
    binary semaphores. One action is one step of one thread; a run is any finite list of actions, so
    a statement about all action lists is a statement about every interleaving. */
module Pipeline {

  /** What a consumer copies out of a buffer: the header's Bufseq followed by the data words. */
  type Image = seq<int>

  datatype Buffer = Buffer(bufseq: int, body: seq<int>, hasEnd: bool) {
    function Flat(): Image { [bufseq] + body }

    function AddEoB(): Buffer {
      if hasEnd then this else Buffer(bufseq, body + [2, 0], true)
    }
  }

  /** The two static buffers that fillBuffer and transportBuffer point to. */
  datatype Which = Buffer1 | Buffer2

  /** The shared globals of the double buffer. */
  datatype Memory = Memory(buffer1: Buffer, buffer2: Buffer, fill: Which, transport: Which, number: int) {
    function At(w: Which): Buffer { if w.Buffer1? then buffer1 else buffer2 }

    function Put(w: Which, b: Buffer): Memory {
      if w.Buffer1? then this.(buffer1 := b) else this.(buffer2 := b)
    }
  }

  /** true means unlocked, so that a lock call may proceed. */
  datatype Semaphores = Semaphores(write: bool, writeProtect: bool, send: bool, sendProtect: bool,
                                   trigger: bool, triggerDone: bool)

  datatype WriterPc = WriterWait | WriterLook | WriterEnd | WriterCopy | WriterRelease
  datatype Writer = Writer(pc: WriterPc, target: Which, file: nat, goal: nat, copied: Image)

  datatype SenderPc = SenderWait | SenderPick | SenderAnnounce | SenderEnd | SenderCopy | SenderRelease
  datatype Sender = Sender(pc: SenderPc, target: Which, announced: int, late: bool, goal: nat, copied: Image)

  datatype LoopPc = LoopOff | LoopCheck | LoopWait | LoopPost | LoopDone
  datatype TriggerLoop = TriggerLoop(pc: LoopPc, control: bool, todo: bool, etype: int)

  /** The statements of switch_buffer, in order. */
  datatype SwitchPc =
    | Outside | LockWrite | LockSend | EndFill | SetTransport | SetFill | Count | Prepare | FreeWrite | FreeSend

  /** Who called readout: the event loop for a trigger, daq_end, daq_restart_new_file, or the begin-run
      readout of daq_begin (first) or of daq_restart_new_file (not first). */
  datatype Reader = ForTrigger | ForEnd | ForRestart | ForBegin(first: bool)

  /** Where the filler is. Both Reading and Forcing may be inside a call of switch_buffer. */
  datatype MainPc =
    | Rest
    | Took
    | Reading(reader: Reader)
    | ClearTodo
    | FreeTrigger
    | Decide
    | Forcing(reopen: bool)
    | LockFlush(reopen: bool)
    | FreeFlush(reopen: bool)
    | CloseFile(reopen: bool)
    | ResetNumbers(reopen: bool)
    | Reopen

  datatype Filler = Filler(pc: MainPc, inner: SwitchPc, rstatus: nat)

  datatype Mode = Mode(running: bool, fileOpen: bool)

  /** One entry of the sender's log: the number sent ahead of the buffer, the buffer, and whether
      Buffer_number had been reset since the buffer was published when it was read. */
  datatype Sent = Sent(announced: int, image: Image, late: bool)

  /** Closed notes how many buffers had been published by then. */
  datatype OutputFile = NoFile | Open | Closed(published: nat)

  /** Everything that happened between two resets of Buffer_number to 1. The map notes where a begin or
      reopen failed: how many buffers had been published by then, and the value that Buffer_number takes
      when the next one is. */
  datatype Epoch = Epoch(file: OutputFile, over: bool, failed: map<nat, int>,
                         published: seq<Image>, written: seq<Image>, sent: seq<Sent>)
  {
    /** Buffer_number has been reset since the last buffer was published. */
    predicate Reset() { over || |published| in failed }
  }

  datatype Log = Log(past: seq<Epoch>, now: Epoch)

  datatype Served = Served(etype: int, readOut: bool)
  datatype Triggers = Triggers(posted: seq<int>, served: seq<Served>)

  datatype State = State(sem: Semaphores, mem: Memory, mode: Mode, filler: Filler, writer: Writer, sender: Sender,
                         loop: TriggerLoop, log: Log, triggers: Triggers)

  /** A thread takes its next step; the parts of the environment it depends on are chosen freely. */
  datatype Action =
    | FillerMutate(body: seq<int>)              // nextEvent, addSubevent or emptyEvent on the fill buffer
    | FillerSwitch                              // readout calls switch_buffer (buffer full, or time is up)
    | FillerDone(status: nat)                   // readout returns
    | FillerBegin(withFile: bool)               // daq_begin, or daq_restart_new_file opening the next file
    | FillerNoFile                              // the same, returning -1 because open_file failed
    | FillerTooSmall(withFile: bool)            // the same, returning -1 because an event type does not fit
    | FillerEnd                                 // daq_end
    | FillerStep                                // the next statement, where there is no choice
    | SwitchStep                                // the next statement of switch_buffer
    | WriterStep
    | SenderStep
    | LoopStep(found: int)                      // found: what wait_for_trigger returned

  function NewEpoch(withFile: bool): Epoch { Epoch(if withFile then Open else NoFile, false, map[], [], [], []) }

  /** rcdaq_init: every semaphore is locked except the two "protect" ones. */
  function Init(): State {
    State(Semaphores(false, true, false, true, false, false),
          Memory(Buffer(1, [], false), Buffer(1, [], false), Buffer1, Buffer2, 0),
          Mode(false, false),
          Filler(Rest, Outside, 0),
          Writer(WriterWait, Buffer1, 0, 0, []),
          Sender(SenderWait, Buffer1, 0, false, 0, []),
          TriggerLoop(LoopOff, false, false, 0),
          Log([], NewEpoch(false).(over := true)),
          Triggers([], []))
  }

  // ---------------------------------------------------------------------------------------------
  // switch_buffer

  predicate SwitchEnabled(s: State) {
    && !s.filler.inner.Outside?
    && (s.filler.inner.LockWrite? ==> s.sem.writeProtect)
    && (s.filler.inner.LockSend? ==> s.sem.sendProtect)
  }

  /** After the forced switch, daq_end and daq_restart_new_file wait for the writer if a file is open. */
  function AfterSwitch(pc: MainPc, fileOpen: bool): MainPc {
    if pc.Forcing? then (if fileOpen then LockFlush(pc.reopen) else ResetNumbers(pc.reopen)) else pc
  }

  function SwitchNext(s: State): State {
    var m := s.mem;
    match s.filler.inner
    case Outside => s
    case LockWrite => s.(sem := s.sem.(writeProtect := false), filler := s.filler.(inner := LockSend))
    case LockSend => s.(sem := s.sem.(sendProtect := false), filler := s.filler.(inner := EndFill))
    case EndFill => s.(mem := m.Put(m.fill, m.At(m.fill).AddEoB()), filler := s.filler.(inner := SetTransport))
    case SetTransport =>
      s.(mem := m.(transport := m.fill), filler := s.filler.(inner := SetFill),
         log := s.log.(now := s.log.now.(published := s.log.now.published + [m.At(m.fill).Flat()])))
    case SetFill =>
      s.(mem := m.(fill := if m.transport.Buffer1? then Buffer2 else Buffer1), filler := s.filler.(inner := Count))
    case Count => s.(mem := m.(number := m.number + 1), filler := s.filler.(inner := Prepare))
    case Prepare =>
      s.(mem := m.Put(m.fill, Buffer(m.number, [], false)), filler := s.filler.(inner := FreeWrite))
    case FreeWrite => s.(sem := s.sem.(write := true), filler := s.filler.(inner := FreeSend))
    case FreeSend =>
      s.(sem := s.sem.(send := true),
         filler := s.filler.(inner := Outside, pc := AfterSwitch(s.filler.pc, s.mode.fileOpen)))
  }

  // ---------------------------------------------------------------------------------------------
  // The event loop and the run commands

  predicate FillerEnabled(s: State) {
    && s.filler.inner.Outside?
    && !s.filler.pc.Reading? && !s.filler.pc.Forcing? && !s.filler.pc.Reopen?
    && (s.filler.pc.Rest? ==> s.sem.trigger)
    && (s.filler.pc.LockFlush? ==> s.sem.writeProtect)
  }

  function FillerNext(s: State): State {
    match s.filler.pc
    case Rest => s.(sem := s.sem.(trigger := false), filler := s.filler.(pc := Took))
    case Took => TookNext(s)
    case Reading(_) => s
    case ClearTodo => s.(loop := s.loop.(todo := false), filler := s.filler.(pc := FreeTrigger))
    case FreeTrigger => s.(sem := s.sem.(triggerDone := true), filler := s.filler.(pc := Decide))
    case Decide =>
      if s.filler.rstatus == 1 then EndRun(s)
      else s.(filler := s.filler.(pc := if s.filler.rstatus == 2 then Reading(ForRestart) else Rest))
    case Forcing(_) => s
    case LockFlush(r) => s.(sem := s.sem.(writeProtect := false), filler := s.filler.(pc := FreeFlush(r)))
    case FreeFlush(r) => s.(sem := s.sem.(writeProtect := true), filler := s.filler.(pc := CloseFile(r)))
    case CloseFile(r) =>
      s.(mode := s.mode.(fileOpen := false), filler := s.filler.(pc := ResetNumbers(r)),
         log := s.log.(now := s.log.now.(file := Closed(|s.log.now.published|))))
    case ResetNumbers(r) =>
      s.(mem := s.mem.(number := 0), log := s.log.(now := s.log.now.(over := true)),
         filler := s.filler.(pc := if r then Reopen else Rest))
    case Reopen => s
  }

  /** The event loop after it got TriggerSem. When a run is active but there is nothing to do, the code
      goes back to waiting without giving TriggerDone back. */
  function TookNext(s: State): State {
    if s.mode.running && !s.loop.todo then s.(filler := s.filler.(pc := Rest))
    else
      s.(filler := Filler(if s.mode.running then Reading(ForTrigger) else ClearTodo, Outside, 0),
         triggers := s.triggers.(served := s.triggers.served + [Served(s.loop.etype, s.mode.running)]))
  }

  /** The start of daq_end: stop the trigger loop, leave the running state, read out the end-run event. */
  function EndRun(s: State): State {
    s.(loop := s.loop.(control := false), mode := s.mode.(running := false),
       filler := s.filler.(pc := Reading(ForEnd)))
  }

  function DoneNext(s: State, status: nat): State
    requires s.filler.pc.Reading?
  {
    match s.filler.pc.reader
    case ForTrigger => s.(filler := Filler(ClearTodo, Outside, status))
    case ForEnd => s.(filler := s.filler.(pc := Forcing(false), inner := LockWrite))
    case ForRestart => s.(filler := s.filler.(pc := Forcing(true), inner := LockWrite))
    case ForBegin(first) =>
      s.(filler := s.filler.(pc := Rest),
         loop := if first then s.loop.(pc := LoopCheck, control := true) else s.loop)
  }

  /** Inside switch_buffer, after the full buffer has become the transport buffer. */
  predicate Swapped(inner: SwitchPc) {
    inner.SetFill? || inner.Count? || inner.Prepare? || inner.FreeWrite? || inner.FreeSend?
  }

  /** The last published buffer has not yet been written, or passed over for want of a file. */
  predicate WriteWaiting(s: State) {
    || (Swapped(s.filler.inner) && !s.filler.inner.FreeSend?)
    || s.sem.write || s.writer.pc.WriterLook? || s.writer.pc.WriterEnd? || s.writer.pc.WriterCopy?
  }

  /** The last published buffer has not yet been sent. */
  predicate SendWaiting(s: State) {
    Swapped(s.filler.inner) || s.sem.send || !(s.sender.pc.SenderWait? || s.sender.pc.SenderRelease?)
  }

  /** The last buffer published has been sent; and if a file is opened, the writer has taken its turn. */
  predicate ConsumersDone(s: State, withFile: bool) {
    !SendWaiting(s) && (withFile ==> !WriteWaiting(s))
  }

  /** daq_begin with no run and no trigger loop left, or daq_restart_new_file after its flush. */
  predicate MayBegin(s: State) {
    || s.filler.pc.Reopen?
    || (s.filler.pc.Rest? && !s.mode.running && s.loop.pc.LoopOff?)
  }

  /** Open the file, number the buffers and the events from 1, and re-point the buffers. */
  function BeginNext(s: State, withFile: bool): State {
    s.(log := Log(s.log.past + [s.log.now], NewEpoch(withFile)),
       mode := Mode(true, withFile),
       mem := Memory(Buffer(1, [], false), s.mem.buffer2, Buffer1, Buffer2, 1),
       filler := s.filler.(pc := Reading(ForBegin(s.filler.pc.Rest?)), inner := Outside))
  }

  /** open_file failed. daq_begin leaves everything as it was; daq_restart_new_file leaves the run going,
      without a file, with Buffer_number at 0 and with the fill buffer as the forced switch prepared it. */
  function NoFileNext(s: State): State {
    if s.filler.pc.Rest? then s
    else
      s.(log := s.log.(now := s.log.now.(over := false, failed := s.log.now.failed[|s.log.now.published| := 1])),
         filler := s.filler.(pc := Rest))
  }

  /** The size check failed. By then the file is open, the status is "running", the numbers start from 1
      and the buffers have been re-pointed; but no buffer has been prepared, and daq_begin has not started
      the trigger loop. */
  function TooSmallNext(s: State, withFile: bool): State {
    s.(log := Log(s.log.past + [s.log.now], NewEpoch(withFile).(failed := map[0 := 2])),
       mode := Mode(true, withFile),
       mem := s.mem.(fill := Buffer1, transport := Buffer2, number := 1),
       filler := s.filler.(pc := Rest, inner := Outside))
  }

  // ---------------------------------------------------------------------------------------------
  // The consumers

  predicate WriterEnabled(s: State) { s.writer.pc.WriterWait? ==> s.sem.write }

  /** The next word of a copy loop that was told how many words there are. */
  function CopyOne(copied: Image, flat: Image): Image {
    copied + [if |copied| < |flat| then flat[|copied|] else 0]
  }

  function Record(log: Log, file: nat, image: Image): Log {
    if file < |log.past| then
      log.(past := log.past[file := log.past[file].(written := log.past[file].written + [image])])
    else
      log.(now := log.now.(written := log.now.written + [image]))
  }

  function WriterNext(s: State): State {
    var w := s.writer;
    match w.pc
    case WriterWait => s.(sem := s.sem.(write := false), writer := w.(pc := WriterLook))
    case WriterLook =>
      s.(writer := if s.mode.fileOpen then w.(pc := WriterEnd, target := s.mem.transport, file := |s.log.past|)
                   else w.(pc := WriterRelease))
    case WriterEnd =>
      var b := s.mem.At(w.target).AddEoB();
      s.(mem := s.mem.Put(w.target, b), writer := w.(pc := WriterCopy, copied := [], goal := |b.Flat()|))
    case WriterCopy =>
      if |w.copied| < w.goal then s.(writer := w.(copied := CopyOne(w.copied, s.mem.At(w.target).Flat())))
      else s.(writer := w.(pc := WriterRelease), log := Record(s.log, w.file, w.copied))
    case WriterRelease => s.(sem := s.sem.(writeProtect := true), writer := w.(pc := WriterWait))
  }

  predicate SenderEnabled(s: State) { s.sender.pc.SenderWait? ==> s.sem.send }

  function SenderNext(s: State): State {
    var n := s.sender;
    match n.pc
    case SenderWait => s.(sem := s.sem.(send := false), sender := n.(pc := SenderPick))
    case SenderPick => s.(sender := n.(pc := SenderAnnounce, target := s.mem.transport))
    case SenderAnnounce =>
      s.(sender := n.(pc := SenderEnd, announced := s.mem.number, late := s.log.now.Reset()))
    case SenderEnd =>
      var b := s.mem.At(n.target).AddEoB();
      s.(mem := s.mem.Put(n.target, b), sender := n.(pc := SenderCopy, copied := [], goal := |b.Flat()|))
    case SenderCopy =>
      if |n.copied| < n.goal then s.(sender := n.(copied := CopyOne(n.copied, s.mem.At(n.target).Flat())))
      else
        s.(sender := n.(pc := SenderRelease),
           log := s.log.(now := s.log.now.(sent := s.log.now.sent + [Sent(n.announced, n.copied, n.late)])))
    case SenderRelease => s.(sem := s.sem.(sendProtect := true), sender := n.(pc := SenderWait))
  }

  // ---------------------------------------------------------------------------------------------
  // The trigger loop

  predicate LoopEnabled(s: State) {
    !s.loop.pc.LoopOff? && (s.loop.pc.LoopDone? ==> s.sem.triggerDone)
  }

  function LoopNext(s: State, found: int): State {
    var t := s.loop;
    match t.pc
    case LoopOff => s
    case LoopCheck => s.(loop := t.(pc := if t.control then LoopWait else LoopOff))
    case LoopWait =>
      s.(loop := if found == 0 then t.(pc := LoopCheck) else t.(pc := LoopPost, todo := true, etype := found))
    case LoopPost =>
      s.(loop := t.(pc := LoopDone), sem := s.sem.(trigger := true),
         triggers := s.triggers.(posted := s.triggers.posted + [t.etype]))
    case LoopDone => s.(loop := t.(pc := LoopCheck), sem := s.sem.(triggerDone := false))
  }

  // ---------------------------------------------------------------------------------------------
  // Runs

  /** The buffers are re-pointed: the steps at which the code itself leaves ConsumersDone to timing. */
  predicate Repoints(a: Action) { a.FillerBegin? || a.FillerTooSmall? }

  /** What the code itself waits for. */
  predicate EnabledUnguarded(s: State, a: Action) {
    match a
    case FillerMutate(_) => s.filler.pc.Reading? && s.filler.inner.Outside?
    case FillerSwitch => s.filler.pc.Reading? && s.filler.inner.Outside?
    case FillerDone(_) => s.filler.pc.Reading? && s.filler.inner.Outside?
    case FillerBegin(_) => MayBegin(s)
    case FillerNoFile => MayBegin(s)
    case FillerTooSmall(_) => MayBegin(s)
    case FillerEnd => s.filler.pc.Rest? && s.mode.running
    case FillerStep => FillerEnabled(s)
    case SwitchStep => SwitchEnabled(s)
    case WriterStep => WriterEnabled(s)
    case SenderStep => SenderEnabled(s)
    case LoopStep(_) => LoopEnabled(s)
  }

  /** A step of a guarded run: the buffers are re-pointed only while no consumer still needs them. */
  predicate Enabled(s: State, a: Action) {
    EnabledUnguarded(s, a) && (Repoints(a) ==> ConsumersDone(s, a.withFile))
  }

  function Next(s: State, a: Action): State
    requires EnabledUnguarded(s, a)
  {
    match a
    case FillerMutate(body) => s.(mem := s.mem.Put(s.mem.fill, s.mem.At(s.mem.fill).(body := body)))
    case FillerSwitch => s.(filler := s.filler.(inner := LockWrite))
    case FillerDone(status) => DoneNext(s, status)
    case FillerBegin(withFile) => BeginNext(s, withFile)
    case FillerNoFile => NoFileNext(s)
    case FillerTooSmall(withFile) => TooSmallNext(s, withFile)
    case FillerEnd => EndRun(s)
    case FillerStep => FillerNext(s)
    case SwitchStep => SwitchNext(s)
    case WriterStep => WriterNext(s)
    case SenderStep => SenderNext(s)
    case LoopStep(found) => LoopNext(s, found)
  }

  /** With overlap, buffers may also be re-pointed while a consumer still needs them. */
  predicate Allowed(s: State, a: Action, overlap: bool) {
    if overlap then EnabledUnguarded(s, a) else Enabled(s, a)
  }

  datatype Outcome = Blocked | Reached(state: State)

  /** Performs a list of actions, if each is allowed when its turn comes. */
  function Exec(s: State, actions: seq<Action>, overlap: bool): Outcome
    decreases |actions|
  {
    if actions == [] then Reached(s)
    else if Allowed(s, actions[0], overlap) then Exec(Next(s, actions[0]), actions[1..], overlap)
    else Blocked
  }

  /** The state after some run from the start. */
  ghost predicate Reachable(s: State, overlap: bool) {
    exists actions :: Exec(Init(), actions, overlap) == Reached(s)
  }
}
