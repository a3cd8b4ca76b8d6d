/** Whole runs: a begin, any list of triggers with the changes of file they lead to, and an end. */
module Runs {
  import opened Sequences
  import opened EventLayout
  import opened DaqBuffers
  import opened RunControl
  import opened Acquisition

  /** An event type, what each device delivers for it, and when. */
  datatype Input = Input(etype: int, outs: seq<seq<int>>, now: int)

  /** A pass over the devices, at some time; timeUp says that the last write is too long ago. */
  datatype Reading = Reading(outs: seq<seq<int>>, now: int, timeUp: bool)

  /** A trigger, and what daq_end or daq_restart_new_file will find if its readout leads to one. */
  datatype Trigger = Trigger(etype: int, reading: Reading, end: Reading, begin: Reading, fileOk: bool) {
    function Taken(): Input { Input(etype, reading.outs, reading.now) }
    function EndInput(): Input { Input(ENDRUN_EVENT, end.outs, end.now) }
    function BeginInput(): Input { Input(BEGRUN_EVENT, begin.outs, begin.now) }
  }

  /** The readouts that a file is made of. */
  datatype Content = Content(begin: Input, served: seq<Input>, end: Input) {
    function All(): seq<Input> { [begin] + served + [end] }
  }

  /** A file after its close: the run number, the readouts, the buffers, and the volume. */
  datatype File = File(run: int, content: Content, published: seq<Published>, volume: int)

  datatype Limits = Limits(keepEmpty: bool, maxEvents: int, maxVolume: int)

  ghost predicate TriggerFits(devices: seq<Device>, t: Trigger) {
    && t.etype != MAX_EVENT_ID
    && (0 <= t.etype < MAX_EVENT_ID ==> OutputsFit(devices, t.etype, t.reading.outs))
    && OutputsFit(devices, ENDRUN_EVENT, t.end.outs) && OutputsFit(devices, BEGRUN_EVENT, t.begin.outs)
  }

  /** A readout leaves an event behind if it has something to say, or if empty events are kept. */
  predicate Keeps(input: Input, keepEmpty: bool) {
    0 <= input.etype < MAX_EVENT_ID && (keepEmpty || Words(input.outs) > 0)
  }

  function Kept(inputs: seq<Input>, keepEmpty: bool): seq<Input> {
    if inputs == [] then []
    else
      var rest := Kept(inputs[..|inputs| - 1], keepEmpty);
      if Keeps(inputs[|inputs| - 1], keepEmpty) then rest + [inputs[|inputs| - 1]] else rest
  }

  ghost predicate EventOf(e: Event, input: Input, run: int) {
    && e.etype == input.etype && e.subevents == Delivered(input.outs) && e.runNumber == run
    && e.date == 0 && e.time == input.now
  }

  /** One event for each readout that leaves one, in order, with the subevents it delivered. */
  ghost predicate Recorded(es: seq<Event>, inputs: seq<Input>, keepEmpty: bool, run: int) {
    var kept := Kept(inputs, keepEmpty);
    |es| == |kept| && forall i :: 0 <= i < |es| ==> EventOf(es[i], kept[i], run)
  }

  /** The words that the events of these readouts take up. */
  function Size(inputs: seq<Input>, keepEmpty: bool): nat {
    if inputs == [] then 0
    else
      Size(inputs[..|inputs| - 1], keepEmpty) +
      if Keeps(inputs[|inputs| - 1], keepEmpty) then EVENT_HEADER + Words(inputs[|inputs| - 1].outs) else 0
  }

  /** What readout returns for an event of this type at the end of these readouts: 1 asks for the end of the
      run, 2 for a new file. */
  function Signal(inputs: seq<Input>, etype: int, limits: Limits): int {
    if etype != DATA_EVENT then 0
    else if limits.maxEvents > 0 && |Kept(inputs, limits.keepEmpty)| + 1 >= limits.maxEvents then 1
    else if limits.maxVolume > 0 && 4 * Size(inputs, limits.keepEmpty) >= limits.maxVolume then 2
    else 0
  }

  /** How the event loop is left when the triggers have been served. */
  datatype Last = StillOpen(begin: Input, served: seq<Input>) | AtLimit | NotReopened

  /** What a list of triggers should give: the files closed on the way, and how it ends. */
  datatype Plan = Plan(closed: seq<Content>, last: Last)

  function Behind(closed: seq<Content>, plan: Plan): Plan { Plan(closed + plan.closed, plan.last) }

  /** What a trigger should give when its readout has returned this signal. */
  function StepFor(signal: int, t: Trigger, begin: Input, served: seq<Input>): Plan {
    var content := Content(begin, served, t.EndInput());
    if signal == 1 then Plan([content], AtLimit)
    else if signal != 2 then Plan([], StillOpen(begin, served))
    else Plan([content], if t.fileOk then StillOpen(t.BeginInput(), []) else NotReopened)
  }

  function StepOf(t: Trigger, begin: Input, served: seq<Input>, limits: Limits): Plan {
    var more := served + [t.Taken()];
    StepFor(Signal([begin] + more, t.etype, limits), t, begin, more)
  }

  function PlanOf(triggers: seq<Trigger>, begin: Input, served: seq<Input>, limits: Limits): Plan
    decreases |triggers|
  {
    if triggers == [] then Plan([], StillOpen(begin, served))
    else
      var step := StepOf(triggers[0], begin, served, limits);
      if step.last.StillOpen? then
        Behind(step.closed, PlanOf(triggers[1..], step.last.begin, step.last.served, limits))
      else step
  }

  /** The triggers in these files, one file after the other. */
  function ServedIn(closed: seq<Content>, last: Last): seq<Input>
    decreases |closed|
  {
    if closed == [] then (if last.StillOpen? then last.served else [])
    else closed[0].served + ServedIn(closed[1..], last)
  }

  function Inputs(triggers: seq<Trigger>): seq<Input> {
    seq(|triggers|, i requires 0 <= i < |triggers| => triggers[i].Taken())
  }

  /** Every trigger is in exactly one file, in order, until the run is at its limit or without a file. */
  lemma {:induction false} EveryTriggerOnce(triggers: seq<Trigger>, begin: Input, served: seq<Input>, limits: Limits)
    ensures var plan := PlanOf(triggers, begin, served, limits);
            && ServedIn(plan.closed, plan.last) <= served + Inputs(triggers)
            && (plan.last.StillOpen? ==> ServedIn(plan.closed, plan.last) == served + Inputs(triggers))
    decreases |triggers|
  {
    if triggers != [] {
      var t := triggers[0];
      var step := StepOf(t, begin, served, limits);
      assert Inputs(triggers) == [t.Taken()] + Inputs(triggers[1..]);
      assert served + Inputs(triggers) == (served + [t.Taken()]) + Inputs(triggers[1..]);
      if step.last.StillOpen? {
        var rest := PlanOf(triggers[1..], step.last.begin, step.last.served, limits);
        assert step.closed != [] ==> (step.closed + rest.closed)[1..] == rest.closed;
        assert step.closed == [] ==> step.closed + rest.closed == rest.closed;
        EveryTriggerOnce(triggers[1..], step.last.begin, step.last.served, limits);
      }
    }
  }

  /** The last of these readouts has brought the number of events to its limit. */
  predicate EventsFull(inputs: seq<Input>, limits: Limits) {
    && inputs != [] && inputs[|inputs| - 1].etype == 1
    && limits.maxEvents > 0 && |Kept(inputs, limits.keepEmpty)| + 1 >= limits.maxEvents
  }

  /** The last of these readouts has brought the volume to its limit, in bytes. */
  predicate VolumeFull(inputs: seq<Input>, limits: Limits) {
    && inputs != [] && inputs[|inputs| - 1].etype == 1
    && limits.maxVolume > 0 && 4 * Size(inputs, limits.keepEmpty) >= limits.maxVolume
  }

  /** No trigger of a file has reached a limit. */
  ghost predicate Quiet(begin: Input, served: seq<Input>, limits: Limits) {
    forall k :: 0 < k <= |served| ==>
      !EventsFull([begin] + served[..k], limits) && !VolumeFull([begin] + served[..k], limits)
  }

  lemma {:induction false} QuietMore(begin: Input, served: seq<Input>, input: Input, limits: Limits)
    requires Quiet(begin, served, limits)
    requires !EventsFull([begin] + (served + [input]), limits) && !VolumeFull([begin] + (served + [input]), limits)
    ensures Quiet(begin, served + [input], limits)
  {
    hide EventsFull, VolumeFull;
    var more := served + [input];
    forall k | 0 < k <= |more|
      ensures !EventsFull([begin] + more[..k], limits) && !VolumeFull([begin] + more[..k], limits)
    {
      assert k <= |served| ==> more[..k] == served[..k];
      assert k == |more| ==> more[..k] == more;
    }
  }

  /** A closed file was closed at its last trigger, and not before, because that reached a limit. */
  ghost predicate ClosedAtLimit(c: Content, limits: Limits, atEvents: bool) {
    && c.served != [] && c.end.etype == 12
    && Quiet(c.begin, c.served[..|c.served| - 1], limits)
    && (EventsFull([c.begin] + c.served, limits) <==> atEvents)
    && (EventsFull([c.begin] + c.served, limits) || VolumeFull([c.begin] + c.served, limits))
  }

  /** The next trigger is put in the open file, and ends the run, changes the file, or does neither, as the limits
      say; the number of events is asked first. */
  lemma {:induction false} NextTrigger(triggers: seq<Trigger>, begin: Input, served: seq<Input>, limits: Limits)
    requires triggers != []
    ensures var t, rest := triggers[0], triggers[1..];
            var more := served + [Input(t.etype, t.reading.outs, t.reading.now)];
            var content := Content(begin, more, Input(12, t.end.outs, t.end.now));
            PlanOf(triggers, begin, served, limits) ==
              if EventsFull([begin] + more, limits) then Plan([content], AtLimit)
              else if VolumeFull([begin] + more, limits) then
                if t.fileOk then Behind([content], PlanOf(rest, Input(9, t.begin.outs, t.begin.now), [], limits))
                else Plan([content], NotReopened)
              else PlanOf(rest, begin, more, limits)
  {
    hide Kept, Size;
    var more := served + [triggers[0].Taken()];
    assert ([begin] + more)[|more|] == triggers[0].Taken();
    var rest := PlanOf(triggers[1..], begin, more, limits);
    assert Behind([], rest) == rest by { assert [] + rest.closed == rest.closed; }
  }

  /** In a plan the run ends at its limit exactly at the first data trigger that brings the number of events there;
      a file is changed exactly at the others that bring the volume to its limit; and at every other trigger the
      file stays open. */
  lemma {:induction false} PlanExactly(triggers: seq<Trigger>, begin: Input, served: seq<Input>, limits: Limits)
    requires Quiet(begin, served, limits)
    ensures var plan := PlanOf(triggers, begin, served, limits);
            && (forall k :: 0 <= k < |plan.closed| ==>
                  ClosedAtLimit(plan.closed[k], limits, plan.last.AtLimit? && k == |plan.closed| - 1))
            && (forall k :: 0 <= k < |plan.closed| ==> plan.closed[k].begin.etype == if k == 0 then begin.etype else 9)
            && (plan.last.StillOpen? ==> Quiet(plan.last.begin, plan.last.served, limits))
            && (!plan.last.StillOpen? ==> plan.closed != [])
    decreases |triggers|
  {
    hide EventsFull, VolumeFull, PlanOf;
    NoTriggers(begin, served, limits);
    if triggers != [] {
      var t, rest := triggers[0], triggers[1..];
      var input := t.Taken();
      var more := served + [input];
      NextTrigger(triggers, begin, served, limits);
      if !EventsFull([begin] + more, limits) && !VolumeFull([begin] + more, limits) {
        QuietMore(begin, served, input, limits);
        PlanExactly(rest, begin, more, limits);
      } else {
        assert more[..|more| - 1] == served;
        PlanExactly(rest, t.BeginInput(), [], limits);
      }
    }
  }

  lemma {:induction false} NoTriggers(begin: Input, served: seq<Input>, limits: Limits)
    ensures PlanOf([], begin, served, limits) == Plan([], StillOpen(begin, served))
  {
  }

  /** A file holds complete buffers with Bufseq 1, 2, 3, ..., and in them the events of its readouts,
      numbered 1, 2, 3, ...; its volume is the sum over its buffers, and what its events take up. */
  ghost predicate FileRight(f: File, keepEmpty: bool) {
    && AllFinished(f.published, f.run) && Numbered(AllEvents(f.published))
    && Recorded(AllEvents(f.published), f.content.All(), keepEmpty, f.run)
    && f.volume == Volume(f.published) == 4 * Size(f.content.All(), keepEmpty)
  }

  /** The files of runs first, first + 1, first + 2, ... */
  ghost predicate FilesRight(files: seq<File>, keepEmpty: bool, first: int) {
    forall k :: 0 <= k < |files| ==> files[k].run == first + k && FileRight(files[k], keepEmpty)
  }

  function Contents(files: seq<File>): seq<Content> {
    seq(|files|, i requires 0 <= i < |files| => files[i].content)
  }

  // ---------------------------------------------------------------------------------------------
  // The counters are what the readouts add up to

  lemma {:induction false} EncodeAllJoin(first: seq<Event>, second: seq<Event>)
    ensures |EncodeAll(first + second)| == |EncodeAll(first)| + |EncodeAll(second)|
  {
    hide Encode, Join;
    assert Encodings(first + second) == Encodings(first) + Encodings(second);
    JoinJoin(Encodings(first), Encodings(second));
  }

  lemma {:induction false} PublishedVolume(p: Published, bufseq: int, run: int)
    requires PublishedRight(p, bufseq, run)
    ensures p.image != [] && p.image[0] - 24 == 4 * |EncodeAll(p.events)| && GoodEvents(p.events, false)
  {
    hide EncodeAll;
  }

  lemma {:induction false} NothingEncoded()
    ensures EncodeAll([]) == []
  {
    assert Encodings([]) == [];
  }

  lemma {:induction false} VolumeOfEvents(published: seq<Published>, run: int)
    requires AllFinished(published, run)
    ensures Volume(published) == 4 * |EncodeAll(AllEvents(published))| && GoodEvents(AllEvents(published), false)
    decreases |published|
  {
    hide PublishedRight, EncodeAll, AllEvents, GoodEvent, Volume;
    NothingPublished();
    NothingEncoded();
    if published != [] {
      var init, last := published[..|published| - 1], published[|published| - 1];
      VolumeOfEvents(init, run);
      assert PublishedRight(last, |published|, run);
      PublishedVolume(last, |published|, run);
      assert published == init + [last];
      PublishOne(init, last);
      EncodeAllJoin(AllEvents(init), last.events);
    }
  }

  lemma {:induction false} DeliveredSize(outs: seq<seq<int>>)
    ensures |Join(Delivered(outs))| == Words(outs)
    decreases |outs|
  {
    if outs != [] {
      DeliveredSize(outs[..|outs| - 1]);
      JoinAppend(Delivered(outs[..|outs| - 1]), outs[|outs| - 1]);
    }
  }

  lemma {:induction false} SizeOfEvents(es: seq<Event>, inputs: seq<Input>, keepEmpty: bool, run: int)
    requires Recorded(es, inputs, keepEmpty, run) && GoodEvents(es, false)
    ensures |EncodeAll(es)| == Size(inputs, keepEmpty)
    decreases |inputs|
  {
    hide Delivered, GoodEvent;
    if inputs != [] {
      var init, last := inputs[..|inputs| - 1], inputs[|inputs| - 1];
      if Keeps(last, keepEmpty) {
        var n := |es| - 1;
        assert es == es[..n] + [es[n]];
        assert EventOf(es[n], last, run);
        assert forall i :: 0 <= i < n ==> EventOf(es[..n][i], Kept(init, keepEmpty)[i], run);
        SizeOfEvents(es[..n], init, keepEmpty, run);
        EncodeAllAppend(es[..n], es[n]);
        DeliveredSize(last.outs);
      } else {
        SizeOfEvents(es, init, keepEmpty, run);
      }
    }
  }

  /** In a run the event number and the volume are those of the readouts so far. */
  lemma {:induction false} CountersFollow(d: Daq, inputs: seq<Input>)
    requires d.InRun() && Recorded(d.Committed(), inputs, d.enableEmpty, d.theRun)
    ensures d.eventNumber == |Kept(inputs, d.enableEmpty)| + 1 && d.runVolume == 4 * Size(inputs, d.enableEmpty)
  {
    hide Kept, Size, OutputsFit, Encode, GoodEvent, AllFinished, Volume, AllEvents, EncodeAll, SizesFit, EventSizes;
    VolumeOfEvents(d.published, d.theRun);
    EncodeAllJoin(AllEvents(d.published), d.fill.events);
    SizeOfEvents(d.Committed(), inputs, d.enableEmpty, d.theRun);
  }

  lemma {:induction false} RecordedMore(before: seq<Event>, after: seq<Event>, inputs: seq<Input>, input: Input,
                                        keepEmpty: bool, run: int)
    requires Recorded(before, inputs, keepEmpty, run)
    requires if 0 <= input.etype < MAX_EVENT_ID
             then Outcome(before, after, keepEmpty || Words(input.outs) > 0, input.etype, run, input.now,
                 Delivered(input.outs))
             else after == before
    ensures Recorded(after, inputs + [input], keepEmpty, run)
  {
    hide Delivered, Words;
    assert (inputs + [input])[..|inputs|] == inputs;
    var kept := Kept(inputs, keepEmpty);
    forall i | 0 <= i < |after|
      ensures i < |Kept(inputs + [input], keepEmpty)| && EventOf(after[i], Kept(inputs + [input], keepEmpty)[i], run)
    {
      assert i < |before| ==> after[i] == before[i] && EventOf(before[i], kept[i], run);
    }
  }

  lemma {:induction false} RecordedFirst(after: seq<Event>, input: Input, keepEmpty: bool, run: int)
    requires 0 <= input.etype < MAX_EVENT_ID
    requires Outcome([], after, keepEmpty || Words(input.outs) > 0, input.etype, run, input.now, Delivered(input.outs))
    ensures Recorded(after, [input], keepEmpty, run)
  {
    RecordedMore([], after, [], input, keepEmpty, run);
    assert [] + [input] == [input];
  }

  ghost function LimitsOf(d: Daq): Limits
    reads d
  {
    Limits(d.enableEmpty, d.maxEvents, d.maxVolume)
  }

  /** The readout of a trigger, in the file that is open. */
  method ReadTrigger(d: Daq, t: Trigger, ghost begin: Input, ghost served: seq<Input>) returns (code: int)
    requires d.InRun() && d.running && TriggerFits(d.devices, t)
    requires Recorded(d.Committed(), [begin] + served, d.enableEmpty, d.theRun)
    modifies d`fill, d`transport, d`bufferNumber, d`published, d`eventNumber, d`runVolume, d.Repr()
    ensures fresh(d.Repr() - old(d.Repr())) && d.InRun() && d.running
    ensures Recorded(d.Committed(), [begin] + (served + [t.Taken()]), d.enableEmpty, d.theRun)
    ensures code == Signal([begin] + (served + [t.Taken()]), t.etype, LimitsOf(d))
  {
    hide Daq.InRun, Daq.Committed, Outcome, Delivered, Switches, Recorded, OutputsFit, Words, Kept, Size;
    d.NotShared();
    ghost var before := d.Committed();
    var outside;
    code, outside := d.Readout(t.etype, t.reading.outs, t.reading.now, t.reading.timeUp);
    RecordedMore(before, d.Committed(), [begin] + served, t.Taken(), d.enableEmpty, d.theRun);
    assert [begin] + (served + [t.Taken()]) == [begin] + served + [t.Taken()];
    CountersFollow(d, [begin] + served + [t.Taken()]);
  }

  /** daq_end closes the file with the end-run event. */
  method EndFile(d: Daq, end: Reading, ghost begin: Input, ghost served: seq<Input>) returns (ghost f: File)
    requires d.InRun() && d.running && OutputsFit(d.devices, ENDRUN_EVENT, end.outs)
    requires Recorded(d.Committed(), [begin] + served, d.enableEmpty, d.theRun)
    modifies d`fill, d`transport, d`bufferNumber, d`published, d`eventNumber, d`runVolume, d`running, d.Repr()
    ensures fresh(d.Repr() - old(d.Repr())) && !d.running && d.Buffers()
    ensures FileRight(f, d.enableEmpty) && f.run == d.theRun
    ensures f.content == Content(begin, served, Input(ENDRUN_EVENT, end.outs, end.now))
  {
    hide Daq.InRun, Daq.Committed, Daq.Buffers, Outcome, Delivered, Recorded, OutputsFit, Words, AllFinished, Numbered,
      AllEvents;
    d.NotShared();
    ghost var before, content := d.Committed(), Content(begin, served, Input(ENDRUN_EVENT, end.outs, end.now));
    var status, volume, events := d.DaqEnd(end.outs, end.now, end.timeUp);
    f := File(d.theRun, content, d.published, volume);
    RecordedMore(before, AllEvents(d.published), [begin] + served, content.end, d.enableEmpty, d.theRun);
    ClosedVolume(f, d.enableEmpty);
  }

  lemma {:induction false} ClosedVolume(f: File, keepEmpty: bool)
    requires AllFinished(f.published, f.run) && Recorded(AllEvents(f.published), f.content.All(), keepEmpty, f.run)
    ensures Volume(f.published) == 4 * Size(f.content.All(), keepEmpty)
  {
    hide Recorded, AllFinished, AllEvents, Volume, Size, EncodeAll;
    VolumeOfEvents(f.published, f.run);
    SizeOfEvents(AllEvents(f.published), f.content.All(), keepEmpty, f.run);
  }

  /** daq_restart_new_file closes the file and goes on in the next. */
  method ChangeFile(d: Daq, t: Trigger, ghost begin: Input, ghost served: seq<Input>) returns (ok: bool, ghost f: File)
    requires d.InRun() && d.running && TriggerFits(d.devices, t)
    requires Recorded(d.Committed(), [begin] + served, d.enableEmpty, d.theRun)
    modifies d`fill, d`transport, d`bufferNumber, d`published, d`eventNumber, d`runVolume, d`eventSize, d`theRun,
             d.Repr()
    ensures fresh(d.Repr() - old(d.Repr())) && d.theRun == old(d.theRun) + 1 && d.Buffers() && d.running
    ensures FileRight(f, d.enableEmpty) && f.run == old(d.theRun) && f.content == Content(begin, served, t.EndInput())
    ensures ok == t.fileOk
    ensures ok ==> d.InRun() && Recorded(d.Committed(), [t.BeginInput()], d.enableEmpty, d.theRun)
  {
    hide Daq.InRun, Daq.Committed, Daq.Buffers, Outcome, Delivered, Recorded, OutputsFit, Words, AllFinished, Numbered,
      AllEvents;
    d.NotShared();
    ghost var before, run, content := d.Committed(), d.theRun, Content(begin, served, t.EndInput());
    ghost var closed, volume;
    var status;
    status, closed, volume := d.DaqRestartNewFile(t.end.outs, t.end.now, t.end.timeUp, t.fileOk,
                                                  t.begin.outs, t.begin.now, t.begin.timeUp);
    ok := status == 0;
    f := File(run, content, closed, volume);
    RecordedMore(before, AllEvents(closed), [begin] + served, t.EndInput(), d.enableEmpty, run);
    ClosedVolume(f, d.enableEmpty);
    if ok {
      RecordedFirst(d.Committed(), t.BeginInput(), d.enableEmpty, d.theRun);
    }
  }

  lemma {:induction false} EndFits(devices: seq<Device>, t: Trigger)
    requires TriggerFits(devices, t)
    ensures OutputsFit(devices, ENDRUN_EVENT, t.end.outs)
  {
  }

  lemma {:induction false} OneFile(f: File, keepEmpty: bool)
    requires FileRight(f, keepEmpty)
    ensures FilesRight([f], keepEmpty, f.run) && Contents([f]) == [f.content]
  {
  }

  lemma {:induction false} NoFile(keepEmpty: bool, first: int)
    ensures FilesRight([], keepEmpty, first) && Contents([]) == []
  {
  }

  /** What the event loop does about the signal of a readout. */
  method Follow(d: Daq, t: Trigger, code: int, ghost begin: Input, ghost served: seq<Input>)
    returns (ghost closed: seq<File>, ghost last: Last, active: bool)
    requires d.InRun() && d.running && TriggerFits(d.devices, t)
    requires Recorded(d.Committed(), [begin] + served, d.enableEmpty, d.theRun)
    modifies d`fill, d`transport, d`bufferNumber, d`published, d`eventNumber, d`runVolume, d`eventSize, d`theRun,
             d`running, d.Repr()
    ensures fresh(d.Repr() - old(d.Repr())) && d.Buffers() && d.running == !last.AtLimit?
    ensures Plan(Contents(closed), last) == StepFor(code, t, begin, served) && active == last.StillOpen?
    ensures FilesRight(closed, d.enableEmpty, old(d.theRun))
    ensures active ==>
              && d.InRun() && d.theRun == old(d.theRun) + |closed|
              && Recorded(d.Committed(), [last.begin] + last.served, d.enableEmpty, d.theRun)
  {
    hide Daq.InRun, Daq.Committed, Daq.Buffers, Recorded, FileRight, FilesRight, TriggerFits, OutputsFit, Contents;
    ghost var f: File;
    closed, last, active := [], StillOpen(begin, served), true;
    if code == 1 {
      EndFits(d.devices, t);
      f := EndFile(d, t.end, begin, served);
      closed, last, active := [f], AtLimit, false;
      OneFile(f, d.enableEmpty);
    } else if code == 2 {
      active, f := ChangeFile(d, t, begin, served);
      closed, last := [f], if active then StillOpen(t.BeginInput(), []) else NotReopened;
      OneFile(f, d.enableEmpty);
      assert [t.BeginInput()] + [] == [t.BeginInput()];
    } else {
      d.InRunBuffers();
      NoFile(d.enableEmpty, d.theRun);
    }
  }

  /** The event loop for one trigger. */
  method Serve(d: Daq, t: Trigger, ghost begin: Input, ghost served: seq<Input>)
    returns (ghost closed: seq<File>, ghost last: Last, active: bool)
    requires d.InRun() && d.running && TriggerFits(d.devices, t)
    requires Recorded(d.Committed(), [begin] + served, d.enableEmpty, d.theRun)
    modifies d`fill, d`transport, d`bufferNumber, d`published, d`eventNumber, d`runVolume, d`eventSize, d`theRun,
             d`running, d.Repr()
    ensures fresh(d.Repr() - old(d.Repr())) && d.Buffers() && d.running == !last.AtLimit?
    ensures Plan(Contents(closed), last) == StepOf(t, begin, served, LimitsOf(d)) && active == last.StillOpen?
    ensures FilesRight(closed, d.enableEmpty, old(d.theRun))
    ensures active ==>
              && d.InRun() && d.theRun == old(d.theRun) + |closed|
              && Recorded(d.Committed(), [last.begin] + last.served, d.enableEmpty, d.theRun)
  {
    hide Daq.InRun, Daq.Committed, Daq.Buffers, Recorded, FilesRight, TriggerFits, Signal, StepFor, Contents;
    d.NotShared();
    var code := ReadTrigger(d, t, begin, served);
    d.NotShared();
    closed, last, active := Follow(d, t, code, begin, served + [t.Taken()]);
  }

  lemma {:induction false} MoreFiles(files: seq<File>, more: seq<File>, keepEmpty: bool, first: int)
    requires FilesRight(files, keepEmpty, first) && FilesRight(more, keepEmpty, first + |files|)
    ensures FilesRight(files + more, keepEmpty, first) && Contents(files + more) == Contents(files) + Contents(more)
  {
    hide FileRight;
  }

  /** What the rest of the triggers gives, behind what has been closed already. */
  lemma {:induction false} PlanStep(triggers: seq<Trigger>, i: nat, closed: seq<Content>, more: seq<Content>,
                                    open: Last, last: Last, limits: Limits)
    requires i < |triggers| && open.StillOpen?
    requires Plan(more, last) == StepOf(triggers[i], open.begin, open.served, limits)
    ensures Behind(closed, PlanOf(triggers[i..], open.begin, open.served, limits)) ==
            if last.StillOpen? then
              Behind(closed + more, PlanOf(triggers[i + 1..], last.begin, last.served, limits))
            else Plan(closed + more, last)
  {
    assert triggers[i..][1..] == triggers[i + 1..];
  }

  /** The run goes on, with these readouts in the file that is open. */
  ghost predicate Serving(d: Daq, last: Last, run: int)
    reads d, d.fill, d.transport, d.fill.words, d.fill.currentEvent
  {
    && d.InRun() && d.running && d.theRun == run && last.StillOpen?
    && Recorded(d.Committed(), [last.begin] + last.served, d.enableEmpty, run)
  }

  /** What is left of a plan after i triggers, behind the files that have been closed already. */
  ghost function Remaining(files: seq<File>, triggers: seq<Trigger>, i: nat, last: Last, limits: Limits): Plan
    requires last.StillOpen? && i <= |triggers|
  {
    Behind(Contents(files), PlanOf(triggers[i..], last.begin, last.served, limits))
  }

  ghost predicate AllFit(devices: seq<Device>, triggers: seq<Trigger>) {
    forall i :: 0 <= i < |triggers| ==> TriggerFits(devices, triggers[i])
  }

  /** How the event loop leaves the acquisition after closing files up to this run number. */
  ghost predicate Left(d: Daq, last: Last, run: int)
    reads d, d.fill, d.transport, d.fill.words, d.fill.currentEvent
  {
    d.Buffers() && d.running == !last.AtLimit? && (last.StillOpen? ==> Serving(d, last, run))
  }

  /** One round of the event loop. */
  method ServeNext(d: Daq, triggers: seq<Trigger>, i: nat, ghost files: seq<File>, ghost open: Last, ghost first: int)
    returns (active: bool, ghost files': seq<File>, ghost last: Last)
    requires i < |triggers| && AllFit(d.devices, triggers) && open.StillOpen?
    requires FilesRight(files, d.enableEmpty, first) && Left(d, open, first + |files|)
    modifies d, d.Repr()
    ensures d.devices == old(d.devices) && LimitsOf(d) == old(LimitsOf(d))
    ensures fresh(d.Repr() - old(d.Repr())) && d !in d.Repr()
    ensures FilesRight(files', d.enableEmpty, first) && active == last.StillOpen? && Left(d, last, first + |files'|)
    ensures Remaining(files, triggers, i, open, LimitsOf(d)) ==
            if active then Remaining(files', triggers, i + 1, last, LimitsOf(d)) else Plan(Contents(files'), last)
  {
    hide Daq.InRun, Daq.Committed, Daq.Buffers, Recorded, FilesRight, TriggerFits, StepOf, PlanOf, Contents, Behind;
    ghost var closed;
    closed, last, active := Serve(d, triggers[i], open.begin, open.served);
    PlanStep(triggers, i, Contents(files), Contents(closed), open, last, LimitsOf(d));
    MoreFiles(files, closed, d.enableEmpty, first);
    files' := files + closed;
    d.Apart();
  }

  lemma {:induction false} LeftApart(d: Daq, last: Last, run: int)
    requires Left(d, last, run)
    ensures d !in d.Repr()
  {
    d.Apart();
  }

  /** The event loop, for a list of triggers: the files that get closed are those of the plan. */
  method EventLoop(d: Daq, triggers: seq<Trigger>, ghost begin: Input)
    returns (active: bool, ghost files: seq<File>, ghost last: Last)
    requires Left(d, StillOpen(begin, []), d.theRun) && AllFit(d.devices, triggers)
    modifies d, d.Repr()
    ensures d.devices == old(d.devices) && LimitsOf(d) == old(LimitsOf(d))
    ensures fresh(d.Repr() - old(d.Repr())) && d !in d.Repr()
    ensures FilesRight(files, d.enableEmpty, old(d.theRun)) && Left(d, last, old(d.theRun) + |files|)
    ensures Plan(Contents(files), last) == PlanOf(triggers, begin, [], LimitsOf(d)) && active == last.StillOpen?
  {
    hide Left, AllFit, FilesRight, Contents, Remaining, PlanOf;
    ghost var first := d.theRun;
    active, files, last := true, [], StillOpen(begin, []);
    NoFilesYet(triggers, begin, d.enableEmpty, first, LimitsOf(d));
    LeftApart(d, last, first);
    for i := 0 to |triggers|
      invariant d.devices == old(d.devices) && LimitsOf(d) == old(LimitsOf(d))
      invariant active && last.StillOpen? && fresh(d.Repr() - old(d.Repr())) && d !in d.Repr()
      invariant FilesRight(files, d.enableEmpty, first) && Left(d, last, first + |files|)
      invariant PlanOf(triggers, begin, [], LimitsOf(d)) == Remaining(files, triggers, i, last, LimitsOf(d))
    {
      active, files, last := ServeNext(d, triggers, i, files, last, first);
      if !active {
        return;
      }
    }
    NothingLeft(files, triggers, last, LimitsOf(d));
  }

  lemma {:induction false} NoFilesYet(triggers: seq<Trigger>, begin: Input, keepEmpty: bool, first: int, limits: Limits)
    ensures FilesRight([], keepEmpty, first)
    ensures Remaining([], triggers, 0, StillOpen(begin, []), limits) == PlanOf(triggers, begin, [], limits)
  {
    assert triggers[0..] == triggers && Contents([]) == [];
  }

  lemma {:induction false} NothingLeft(files: seq<File>, triggers: seq<Trigger>, last: Last, limits: Limits)
    requires last.StillOpen?
    ensures Remaining(files, triggers, |triggers|, last, limits) == Plan(Contents(files), last)
  {
  }

  /** The files of a plan, when a run that is still open at the end is ended by hand. */
  function FilesOf(plan: Plan, end: Input): seq<Content> {
    plan.closed + if plan.last.StillOpen? then [Content(plan.last.begin, plan.last.served, end)] else []
  }

  /** A run from daq_begin to daq_end. Once it starts, its files are those that the readouts and the limits
      call for, with run numbers in sequence; it stays active only if a file could not be opened. */
  method WholeRun(d: Daq, irun: nat, fileOk: bool, begin: Reading, triggers: seq<Trigger>, end: Reading)
    returns (status: int, ghost files: seq<File>, ghost plan: Plan)
    requires d.Buffers() && !d.running && d.theRun >= 0
    requires OutputsFit(d.devices, BEGRUN_EVENT, begin.outs) && OutputsFit(d.devices, ENDRUN_EVENT, end.outs)
    requires AllFit(d.devices, triggers)
    modifies d, d.Repr()
    ensures d.devices == old(d.devices) && LimitsOf(d) == old(LimitsOf(d))
    ensures status == 0 <==>
              && fileOk
              && CanStart(d.devices, old(d.buffer1.maxSize), old(d.buffer2.maxSize), d.buffer1.maxLength,
                          d.buffer2.maxLength)
    ensures plan == PlanOf(triggers, Input(BEGRUN_EVENT, begin.outs, begin.now), [], LimitsOf(d))
    ensures status == 0 ==>
              && FilesRight(files, d.enableEmpty, if irun == 0 then old(d.theRun) + 1 else irun)
              && Contents(files) == FilesOf(plan, Input(ENDRUN_EVENT, end.outs, end.now))
              && d.running == plan.last.NotReopened? && d.Buffers()
  {
    hide Daq.InRun, Daq.Committed, Daq.Buffers, Recorded, AllFit, FilesRight, Contents, PlanOf, CanStart, Outcome,
      Delivered, OutputsFit, Words;
    ghost var input, last := Input(BEGRUN_EVENT, begin.outs, begin.now), AtLimit;
    files, plan := [], PlanOf(triggers, input, [], LimitsOf(d));
    status := d.DaqBegin(irun, fileOk, begin.outs, begin.now, begin.timeUp);
    if status == 0 {
      RecordedFirst(d.Committed(), input, d.enableEmpty, d.theRun);
      assert [input] + [] == [input];
      d.NotShared();
      files := RestOfRun(d, triggers, end, input);
    }
  }

  /** The event loop, and daq_end if the run is still going on. */
  method RestOfRun(d: Daq, triggers: seq<Trigger>, end: Reading, ghost begin: Input) returns (ghost files: seq<File>)
    requires Left(d, StillOpen(begin, []), d.theRun) && d !in d.Repr()
    requires AllFit(d.devices, triggers)
    requires OutputsFit(d.devices, ENDRUN_EVENT, end.outs)
    modifies d, d.Repr()
    ensures d.devices == old(d.devices) && LimitsOf(d) == old(LimitsOf(d))
    ensures d.Buffers() && FilesRight(files, d.enableEmpty, old(d.theRun))
    ensures var plan := PlanOf(triggers, begin, [], LimitsOf(d));
            && Contents(files) == FilesOf(plan, Input(ENDRUN_EVENT, end.outs, end.now))
            && d.running == plan.last.NotReopened?
  {
    hide Daq.InRun, Daq.Committed, Daq.Buffers, Recorded, AllFit, FilesRight, Contents, PlanOf, OutputsFit, FileRight;
    ghost var last, f;
    var active;
    active, files, last := EventLoop(d, triggers, begin);
    if active {
      f := EndFile(d, end, last.begin, last.served);
      OneFile(f, d.enableEmpty);
      MoreFiles(files, [f], d.enableEmpty, old(d.theRun));
      files := files + [f];
    }
  }

  /** A begin that fails although the file could be opened: a device whose events are larger than a buffer.
      The status is "running" all the same. */
  method BeginCanFail() returns (d: Daq, status: int)
    ensures status == -1 && d.running && d.devices == [Device([DEFAULT_LENGTH])]
  {
    d := new Daq();
    d.devices := [Device([DEFAULT_LENGTH])];
    TooLarge();
    status := d.DaqBegin(0, true, [[]], 0, false);
  }

  lemma {:induction false} TooLarge()
    ensures var devices := [Device([DEFAULT_LENGTH])];
            && OutputsFit(devices, BEGRUN_EVENT, [[]])
            && !CanStart(devices, DEFAULT_LENGTH, DEFAULT_LENGTH, DEFAULT_LENGTH, DEFAULT_LENGTH)
  {
    var devices := [Device([DEFAULT_LENGTH])];
    assert devices[..0] == [];
    assert SumMax(devices, 0) == DEFAULT_LENGTH;
    assert EventSizes(devices)[0] == EVENT_HEADER + DEFAULT_LENGTH;
  }
}
