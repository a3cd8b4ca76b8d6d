/** The state of a run: two buffers, the event and buffer numbers, the volume, and the operations that
    change them. */
module Acquisition {
  import opened Sequences
  import opened EventLayout
  import opened DaqEvents
  import opened DaqBuffers
  import opened RunControl

  /** The default length of a daqBuffer, in words. */
  const DEFAULT_LENGTH := 8 * 1024 * 1024 + 2 * 8192

  class Daq {
    const buffer1: DaqBuffer
    const buffer2: DaqBuffer
    var fill: DaqBuffer
    var transport: DaqBuffer
    var devices: seq<Device>
    var eventSize: seq<int>
    var theRun: int
    var bufferNumber: int
    var eventNumber: int
    var runVolume: int
    var running: bool
    var enableEmpty: bool             // enable_empty_event_flag
    var maxVolume: int
    var maxEvents: int
    ghost var published: seq<Published>

    /** The two static buffers with the default size, and the globals as they are before the first run. */
    constructor ()
      ensures Buffers() && !running && fresh(Repr()) && fresh(this)
      ensures theRun == 0 && devices == [] && maxEvents == 0 && maxVolume == 0
      ensures buffer1.maxSize == buffer1.maxLength == buffer2.maxSize == buffer2.maxLength == 8 * 1024 * 1024 + 2 * 8192
    {
      var b1 := new DaqBuffer(1, DEFAULT_LENGTH, 1);
      var b2 := new DaqBuffer(1, DEFAULT_LENGTH, 1);
      buffer1, buffer2, fill, transport := b1, b2, b1, b2;
      devices, eventSize, theRun, bufferNumber, eventNumber, runVolume := [], seq(MAX_EVENT_ID, i => 0), 0, 0, 0, 0;
      running, enableEmpty, maxVolume, maxEvents, published := false, false, 0, 0, [];
    }

    ghost function Repr(): set<object>
      reads this, fill, transport
    {
      fill.Repr() + transport.Repr()
    }

    /** Two separate ONCS buffers. */
    ghost predicate Buffers()
      reads this, fill, transport
    {
      && fill.Repr() !! transport.Repr() && this !in fill.Repr() && this !in transport.Repr()
      && ((fill == buffer1 && transport == buffer2) || (fill == buffer2 && transport == buffer1))
      && !fill.prdf && !transport.prdf
      && fill.currentBufferID == 0xffffc0c0 && transport.currentBufferID == 0xffffc0c0
      && fill.words.Length == fill.maxLength && transport.words.Length == transport.maxLength
      && 0 <= fill.maxSize <= fill.maxLength && 0 <= transport.maxSize <= transport.maxLength
      && WholeBlocks(fill) && WholeBlocks(transport)
    }

    /** The memory of a buffer and the size it is prepared with are whole blocks of a write. */
    static ghost predicate WholeBlocks(b: DaqBuffer)
      reads b
    {
      b.maxLength % 2048 == 0 && b.maxSize % 2048 == 0
    }

    ghost predicate SizesOk()
      reads this, fill, transport
    {
      && eventSize == EventSizes(devices)
      && SizesFit(eventSize, fill.maxSize) && SizesFit(eventSize, transport.maxSize)
    }

    /** The buffer being filled, and what has been published and counted so far. */
    ghost predicate Filling()
      reads this, fill, fill.words, fill.currentEvent
    {
      && fill.Valid() && !fill.hasEnd && fill.prepared == fill.maxSize
      && fill.words[1] == 0xffffc0c0
      && theRun > 0 && fill.words[3] == theRun && fill.words[2] == bufferNumber == |published| + 1
      && AllFinished(published, theRun)
    }

    /** Every event since the numbers were reset, in order. */
    ghost function Committed(): seq<Event>
      reads this, fill
    {
      AllEvents(published) + fill.events
    }

    /** The events are numbered 1, 2, 3, ..., and the volume is what they take up in the buffers. */
    ghost predicate Counted()
      reads this, fill, fill.words
      requires fill.words.Length > 0
    {
      && Numbered(Committed()) && eventNumber == |Committed()| + 1
      && runVolume == Volume(published) + fill.words[0] - 16
    }

    ghost predicate InRun()
      reads this, fill, transport, fill.words, fill.currentEvent
    {
      Buffers() && SizesOk() && Filling() && Counted()
    }

    /** The full buffer becomes the transport buffer; the other one is prepared with the next number. Writing
        the transport buffer, in whole blocks, stays inside its memory. */
    method SwitchBuffer()
      requires InRun()
      modifies this`fill, this`transport, this`bufferNumber, this`published, Repr()
      ensures InRun() && Repr() == old(Repr())
      ensures fill == old(transport) && transport == old(fill) && fill.Fresh()
      ensures 0 <= transport.words[0] && RoundedUp(transport.words[0]) <= 4 * transport.words.Length
      ensures Committed() == old(Committed())
      ensures OneMorePublished(old(published), published, old(fill.events)) && |published| == |old(published)| + 1
    {
      hide LaidOut, Layout, Encode, EncodeAll, GoodEvent, Finished, GoodEvents, AllEvents, Volume, SizesFit, SumMax,
        Numbered;
      SizesRoom(eventSize, transport.maxSize, devices, 0);
      ghost var next := SealFill();
      var spare := transport;
      transport := fill;
      fill := spare;
      bufferNumber := bufferNumber + 1;
      fill.PrepareNext(bufferNumber, theRun);
      PublishOne(published, next);
      published := published + [next];
      assert Committed() == old(Committed());
    }

    /** The end marker of the full buffer; next is the buffer as the consumers will get it. */
    method SealFill() returns (ghost next: Published)
      requires Buffers() && Filling()
      modifies fill`currentIndex, fill`hasEnd, fill`live, fill.words
      ensures Buffers() && fill.words.Length > 0
      ensures 0 <= fill.words[0] && RoundedUp(fill.words[0]) <= 4 * fill.words.Length
      ensures next.events == old(fill.events)
      ensures PublishedRight(next, bufferNumber, theRun)
      ensures next.image[0] - 24 == old(fill.words[0]) - 16
    {
      hide LaidOut, Layout, Encode, EncodeAll, GoodEvent, Finished, GoodEvents, SizesFit, SumMax, Numbered, AllFinished;
      var _ := fill.AddEoB();
      WriteStaysInside(fill);
      FinishedImage(fill);
      next := Published(fill.words[..BUFFER_HEADER + fill.currentIndex], fill.events);
    }

    /** An event has been started: its header is behind the committed events, counted nowhere yet. */
    ghost predicate Started(committed: seq<Event>, e: Event)
      reads this, fill, transport, fill.words, fill.currentEvent
    {
      && Buffers() && SizesOk() && Filling()
      && fill.live && fill.events != [] && fill.events[|fill.events| - 1] == e
      && AllEvents(published) + fill.events[..|fill.events| - 1] == committed
      && Numbered(committed) && eventNumber == |committed| + 1 && e.sequence == eventNumber
    }

    /** An event that holds these subevents has been laid out but not yet counted. */
    ghost predicate Uncounted(committed: seq<Event>, etype: int, now: int, subevents: seq<seq<int>>, len: int)
      reads this, fill, transport, fill.words, fill.currentEvent
    {
      && 0 <= etype < MAX_EVENT_ID && fill.events != []
      && (var e := fill.events[|fill.events| - 1];
          Started(committed, e) && e.etype == etype && e.subevents == subevents && e.runNumber == theRun
          && e.date == 0 && e.time == now)
      && runVolume == Volume(published) + fill.words[0] - 16 - 4 * len
    }

    /** What StartEvent leaves behind. */
    ghost predicate JustStarted(committed: seq<Event>, etype: int, now: int)
      reads this, fill, transport, fill.words, fill.currentEvent
    {
      Uncounted(committed, etype, now, [], EVENT_HEADER) && fill.currentEvent.left == eventSize[etype] - EVENT_HEADER
    }

    /** One attempt to place an event in the fill buffer. */
    method TryEvent(etype: int, now: int) returns (status: int)
      requires InRun() && 0 <= etype < MAX_EVENT_ID
      modifies Repr()
      ensures fresh(Repr() - old(Repr()))
      ensures status == if eventSize[etype] > old(fill.left) - EOB_LENGTH then -1 else 0
      ensures status != 0 ==> InRun() && Committed() == old(Committed())
      ensures status == 0 ==> JustStarted(old(Committed()), etype, now)
    {
      hide LaidOut, Layout, Encode, EncodeAll, GoodEvent, Finished, GoodEvents, AllEvents, Volume, SizesFit, SumMax,
        Numbered, AllFinished;
      SizesRoom(eventSize, fill.maxSize, devices, etype);
      status := fill.NextEvent(etype, eventNumber, eventSize[etype], now);
    }

    /** The first half of readout: a new event in the fill buffer, after a switch if that was full. The
        second attempt always succeeds, so there is a current event to add subevents to. */
    method StartEvent(etype: int, now: int)
      requires InRun() && 0 <= etype < MAX_EVENT_ID
      modifies this`fill, this`transport, this`bufferNumber, this`published, Repr()
      ensures fresh(Repr() - old(Repr()))
      ensures JustStarted(old(Committed()), etype, now)
      ensures |published| == |old(published)| + Switches(eventSize[etype], old(fill.left))
    {
      hide LaidOut, Layout, Encode, EncodeAll, GoodEvent, Finished, GoodEvents, AllEvents, Volume, SizesFit, SumMax,
        Numbered, AllFinished, JustStarted, Counted, Committed;
      var status := TryEvent(etype, now);
      if status != 0 {
        SwitchBuffer();
        SizesRoom(eventSize, fill.maxSize, devices, etype);
        status := TryEvent(etype, now);
        assert status == 0;
      }
    }

    /** All devices, in order. */
    method FillEvent(etype: int, outs: seq<seq<int>>, ghost now: int, ghost committed: seq<Event>) returns (len: nat)
      requires JustStarted(committed, etype, now) && OutputsFit(devices, etype, outs)
      modifies Repr()
      ensures fresh(Repr() - old(Repr()))
      ensures len == EVENT_HEADER + Words(outs) && Uncounted(committed, etype, now, Delivered(outs), len)
    {
      hide LaidOut, Layout, Encode, EncodeAll, GoodEvent, Finished, GoodEvents, AllEvents, Volume, SizesFit, SumMax,
        AllFinished, Numbered;
      len := ReadDevices(fill, devices, etype, outs);
    }

    /** Commits the event, or takes its header back if no device had anything to say. */
    method CommitEvent(etype: int, ghost now: int, ghost subevents: seq<seq<int>>, len: nat,
                       ghost committed: seq<Event>)
      requires Uncounted(committed, etype, now, subevents, len) && (len > EVENT_HEADER <==> subevents != [])
               && len >= EVENT_HEADER
      modifies this`eventNumber, this`runVolume, Repr()
      ensures fresh(Repr() - old(Repr())) && InRun()
      ensures Outcome(committed, Committed(), enableEmpty || len > EVENT_HEADER, etype, theRun, now, subevents)
    {
      hide LaidOut, Layout, Encode, EncodeAll, GoodEvent, Finished, GoodEvents, AllEvents, Volume, SizesFit, SumMax,
        AllFinished;
      if enableEmpty || len > EVENT_HEADER {
        eventNumber := eventNumber + 1;
        runVolume := runVolume + 4 * len;
        assert Committed() == committed + [fill.events[|fill.events| - 1]];
      } else {
        fill.EmptyEvent();
        assert Committed() == committed;
      }
    }

    /** The event part of readout. */
    method ReadEvent(etype: int, outs: seq<seq<int>>, now: int) returns (len: nat)
      requires InRun() && 0 <= etype < MAX_EVENT_ID && OutputsFit(devices, etype, outs)
      modifies this`fill, this`transport, this`bufferNumber, this`published, this`eventNumber, this`runVolume, Repr()
      ensures fresh(Repr() - old(Repr())) && InRun()
      ensures len == EVENT_HEADER + Words(outs)
      ensures |published| == |old(published)| + Switches(eventSize[etype], old(fill.left))
      ensures Outcome(old(Committed()), Committed(), enableEmpty || Words(outs) > 0, etype, theRun, now,
                      Delivered(outs))
    {
      hide InRun, Uncounted, JustStarted, Numbered, Outcome, Volume, AllEvents, Delivered, Finished, AllFinished,
        OutputsFit, Counted, Committed;
      ghost var committed := Committed();
      StartEvent(etype, now);
      len := FillEvent(etype, outs, now, committed);
      DeliveredWords(outs);
      CommitEvent(etype, now, Delivered(outs), len, committed);
    }

    /** The automatic end of a run: 1 asks for its end, 2 for a new file, and the event limit wins. */
    method CheckLimits(etype: int) returns (code: int)
      ensures code == 0 || code == 1 || code == 2
      ensures code == 1 <==> running && etype == 1 && 0 < maxEvents <= eventNumber
      ensures code == 2 <==> running && etype == 1 && !(0 < maxEvents <= eventNumber) && 0 < maxVolume <= runVolume
    {
      code := 0;
      if running {
        if etype == DATA_EVENT && maxVolume > 0 && runVolume >= maxVolume {
          code := 2;
        }
        if etype == DATA_EVENT && maxEvents > 0 && eventNumber >= maxEvents {
          code := 1;
        }
      }
    }

    /** Reads the devices out into a new event; timeUp says that the last write is too long ago. An event type
        below 0 or above 32 is ignored; exactly for type 32 the guard lets an event pass whose size is looked
        up outside Eventsize. */
    method Readout(etype: int, outs: seq<seq<int>>, now: int, timeUp: bool) returns (code: int, outside: bool)
      requires InRun()
      requires 0 <= etype < MAX_EVENT_ID ==> OutputsFit(devices, etype, outs)
      modifies this`fill, this`transport, this`bufferNumber, this`published, this`eventNumber, this`runVolume, Repr()
      ensures fresh(Repr() - old(Repr())) && InRun()
      ensures outside <==> etype == 32
      ensures code == 0 || code == 1 || code == 2
      ensures code == 1 <==> running && etype == 1 && 0 < maxEvents <= eventNumber
      ensures code == 2 <==> running && etype == 1 && !(0 < maxEvents <= eventNumber) && 0 < maxVolume <= runVolume
      ensures !(0 <= etype < MAX_EVENT_ID) ==>
                code == 0 && Committed() == old(Committed()) && published == old(published)
      ensures 0 <= etype < MAX_EVENT_ID ==>
                && Outcome(old(Committed()), Committed(), enableEmpty || Words(outs) > 0, etype, theRun, now,
                           Delivered(outs))
                && |published| == |old(published)| + Switches(eventSize[etype], old(fill.left))
                                  + if timeUp && (enableEmpty || Words(outs) > 0) then 1 else 0
    {
      outside := false;
      if etype < 0 || etype > MAX_EVENT_ID {
        return 0, false;
      }
      if etype >= |eventSize| {
        return 0, true;
      }
      hide InRun, Repr, Outcome, Delivered, Committed, OutputsFit, Switches;
      code := ReadoutOf(etype, outs, now, timeUp);
    }

    /** The readout of an event type that there is. */
    method ReadoutOf(etype: int, outs: seq<seq<int>>, now: int, timeUp: bool) returns (code: int)
      requires InRun() && 0 <= etype < MAX_EVENT_ID && OutputsFit(devices, etype, outs)
      modifies this`fill, this`transport, this`bufferNumber, this`published, this`eventNumber, this`runVolume, Repr()
      ensures fresh(Repr() - old(Repr())) && InRun()
      ensures Outcome(old(Committed()), Committed(), enableEmpty || Words(outs) > 0, etype, theRun, now,
                      Delivered(outs))
      ensures code == 0 || code == 1 || code == 2
      ensures code == 1 <==> running && etype == 1 && 0 < maxEvents <= eventNumber
      ensures code == 2 <==> running && etype == 1 && !(0 < maxEvents <= eventNumber) && 0 < maxVolume <= runVolume
      ensures |published| == |old(published)| + Switches(eventSize[etype], old(fill.left))
                             + if timeUp && (enableEmpty || Words(outs) > 0) then 1 else 0
    {
      hide InRun, Repr, Outcome, Delivered, Committed, OutputsFit, Switches, Words;
      NotShared();
      var len := ReadEvent(etype, outs, now);
      code := CheckLimits(etype);
      TimedSwitch(timeUp && (enableEmpty || len > EVENT_HEADER));
    }

    lemma {:induction false} NotShared()
      requires InRun()
      ensures this !in Repr() && theRun > 0
    {
    }

    /** The switch that readout makes when the last write is too long ago. */
    method TimedSwitch(due: bool)
      requires InRun()
      modifies this`fill, this`transport, this`bufferNumber, this`published, Repr()
      ensures InRun() && Repr() == old(Repr()) && Committed() == old(Committed())
      ensures |published| == |old(published)| + if due then 1 else 0
    {
      hide InRun, Repr, OneMorePublished, DaqBuffer.Fresh, Committed;
      if due {
        SwitchBuffer();
      }
    }

    /** set_eventsizes */
    method SetEventSizes()
      modifies this`eventSize
      ensures eventSize == EventSizes(devices)
    {
      var sizes := [];
      for i := 0 to MAX_EVENT_ID
        invariant |sizes| == i
        invariant forall k :: 0 <= k < i ==> sizes[k] == EVENT_HEADER + SumMax(devices, k)
      {
        var size := EventSizeOf(devices, i);
        sizes := sizes + [size];
      }
      eventSize := sizes;
    }

    /** The safety check at the begin of a run: if either buffer is too small for some event type, both
        are set to the largest size wanted. */
    method FitBuffers() returns (ok: bool)
      requires Buffers() && eventSize == EventSizes(devices)
      modifies fill`maxSize, transport`maxSize
      ensures Buffers() && (ok ==> SizesOk())
      ensures ok <==> (SizesFit(eventSize, old(fill.maxSize)) && SizesFit(eventSize, old(transport.maxSize)))
                      || (CanFit(eventSize, fill.maxLength) && CanFit(eventSize, transport.maxLength))
      ensures ok || SizesLeft(eventSize, fill, transport, old(transport.maxSize))
    {
      ok := true;
      var wanted := WantedMaxSize(eventSize, fill.maxSize, transport.maxSize);
      if wanted != 0 {
        hide SizesLeft;
        ok := SetBoth(wanted);
      }
    }

    /** Both buffers are set to the size wanted, the second one only if that works for the first. */
    method SetBoth(wanted: int) returns (ok: bool)
      requires Buffers() && eventSize == EventSizes(devices) && wanted > 0
      requires forall i :: 0 <= i < |eventSize| ==> eventSize[i] >= 0 && 4 * eventSize[i] + 4 * 32 <= wanted
      requires exists i :: 0 <= i < |eventSize| && wanted == 4 * eventSize[i] + 4 * 32
      modifies fill`maxSize, transport`maxSize
      ensures Buffers() && (ok ==> SizesOk())
      ensures ok <==> CanFit(eventSize, fill.maxLength) && CanFit(eventSize, transport.maxLength)
      ensures ok || SizesLeft(eventSize, fill, transport, old(transport.maxSize))
    {
      hide EventSizes;
      CanFitWanted(eventSize, wanted, fill.maxLength);
      CanFitWanted(eventSize, wanted, transport.maxLength);
      var status := fill.SetMaxSize(wanted);
      if status == 0 {
        status := transport.SetMaxSize(wanted);
      }
      ok := status == 0;
    }

    /** The buffers are re-pointed, whoever may still be reading them. */
    method RepointBuffers()
      requires Buffers()
      modifies this`fill, this`transport
      ensures Buffers() && Repr() == old(Repr()) && fill == buffer1 && transport == buffer2
    {
      fill, transport := buffer1, buffer2;
    }

    /** The first buffer of a run, prepared with number 1, and the volume counter reset. */
    method PrepareFirst()
      requires Buffers() && SizesOk() && theRun > 0 && bufferNumber == 1 && eventNumber == 1
      modifies this`published, this`runVolume, Repr()
      ensures InRun() && Committed() == [] && Repr() == old(Repr())
    {
      hide Layout, LaidOut, Encode, EncodeAll, GoodEvent, GoodEvents, SumMax, SizesFit;
      SizesRoom(eventSize, fill.maxSize, devices, 0);
      fill.PrepareNext(bufferNumber, theRun);
      runVolume, published := 0, [];
      NothingPublished();
    }

    /** What a begin leaves behind when the size check has failed: the numbers and the buffers are those of a new
        run, but no buffer has been prepared. */
    ghost predicate HalfStarted(before: int)
      reads this, fill, transport
    {
      && bufferNumber == 1 && eventNumber == 1 && fill == buffer1 && transport == buffer2
      && eventSize == EventSizes(devices) && SizesLeft(eventSize, fill, transport, before)
    }

    /** Numbers from 1, buffers re-pointed, checked and prepared. */
    method PrepareRun() returns (ok: bool)
      requires Buffers() && theRun > 0
      modifies this`fill, this`transport, this`bufferNumber, this`published, this`eventNumber, this`runVolume,
               this`eventSize, Repr()
      ensures Repr() == old(Repr()) && Buffers()
      ensures ok <==> CanStart(devices, old(buffer1.maxSize), old(buffer2.maxSize), buffer1.maxLength,
                               buffer2.maxLength)
      ensures ok ==> InRun() && Committed() == []
      ensures ok || HalfStarted(old(buffer2.maxSize))
      ensures !ok ==> published == old(published) && runVolume == old(runVolume)
      ensures !ok ==> unchanged(buffer1.words) && unchanged(buffer2.words)
    {
      hide Filling, Counted, Committed, SizesFit, EventSizes, CanFit;
      bufferNumber, eventNumber := 1, 1;
      SetEventSizes();
      RepointBuffers();
      ok := FitBuffers();
      if ok {
        PrepareFirst();
      }
    }

    /** The begin-run or end-run event. */
    method ReadMark(etype: int, outs: seq<seq<int>>, now: int, timeUp: bool)
      requires InRun() && 0 <= etype < MAX_EVENT_ID && OutputsFit(devices, etype, outs)
      modifies this`fill, this`transport, this`bufferNumber, this`published, this`eventNumber, this`runVolume, Repr()
      ensures fresh(Repr() - old(Repr())) && InRun() && Buffers()
      ensures Outcome(old(Committed()), Committed(), enableEmpty || Words(outs) > 0, etype, theRun, now,
                      Delivered(outs))
    {
      hide InRun, Repr, Buffers, Outcome, Delivered, Committed, OutputsFit, Switches, Words;
      var _, _ := Readout(etype, outs, now, timeUp);
      InRunBuffers();
    }

    /** The part that daq_begin and daq_restart_new_file share. */
    method StartNumbering(outs: seq<seq<int>>, now: int, timeUp: bool) returns (ok: bool)
      requires Buffers() && theRun > 0 && OutputsFit(devices, BEGRUN_EVENT, outs)
      modifies this`fill, this`transport, this`bufferNumber, this`published, this`eventNumber, this`runVolume,
               this`eventSize, Repr()
      ensures Buffers() && fresh(Repr() - old(Repr()))
      ensures ok <==> CanStart(devices, old(buffer1.maxSize), old(buffer2.maxSize), buffer1.maxLength,
                               buffer2.maxLength)
      ensures ok || HalfStarted(old(buffer2.maxSize))
      ensures !ok ==> published == old(published) && runVolume == old(runVolume)
      ensures !ok ==> unchanged(buffer1.words) && unchanged(buffer2.words)
      ensures ok ==> InRun()
      ensures ok ==> Outcome([], Committed(), enableEmpty || Words(outs) > 0, BEGRUN_EVENT, theRun, now,
                             Delivered(outs))
    {
      hide InRun, Buffers, Committed, Delivered, Outcome, OutputsFit, CanStart, Counted, Switches,
        HalfStarted;
      Apart();
      ok := PrepareRun();
      if ok {
        ReadMark(BEGRUN_EVENT, outs, now, timeUp);
      }
    }

    lemma {:induction false} InRunBuffers()
      requires InRun()
      ensures Buffers() && SizesOk()
    {
    }

    lemma {:induction false} Apart()
      requires Buffers()
      ensures this !in Repr()
    {
    }

    method NumberRun(irun: int)
      requires Buffers()
      modifies this`theRun
      ensures theRun == irun && Buffers() && Repr() == old(Repr())
    {
      theRun := irun;
    }

    method EnterRunning()
      requires Buffers()
      modifies this`running
      ensures running && Buffers() && Repr() == old(Repr())
    {
      running := true;
    }

    /** Returns 0 if the run started. A run whose events do not fit the buffers is refused, but by then
        the status is already "running". */
    method DaqBegin(irun: nat, fileOk: bool, outs: seq<seq<int>>, now: int, timeUp: bool) returns (status: int)
      requires Buffers() && theRun >= 0 && OutputsFit(devices, BEGRUN_EVENT, outs)
      modifies this`fill, this`transport, this`bufferNumber, this`published, this`eventNumber, this`runVolume,
               this`eventSize, this`theRun, this`running, Repr()
      ensures status == 0 || status == -1
      ensures Buffers() && fresh(Repr() - old(Repr()))
      ensures status == 0 <==>
                && !old(running) && fileOk
                && CanStart(devices, old(buffer1.maxSize), old(buffer2.maxSize), buffer1.maxLength, buffer2.maxLength)
      ensures theRun == if old(running) then old(theRun) else if irun == 0 then old(theRun) + 1 else irun
      ensures status == 0 ==> InRun() && running
      ensures status == 0 ==>
                Outcome([], Committed(), enableEmpty || Words(outs) > 0, BEGRUN_EVENT, theRun, now, Delivered(outs))
      ensures old(running) || !fileOk ==> status == -1 && running == old(running)
      ensures old(running) || !fileOk ==> bufferNumber == old(bufferNumber) && eventNumber == old(eventNumber)
      ensures !old(running) && fileOk ==> running && (status == 0 || HalfStarted(old(buffer2.maxSize)))
      ensures status != 0 ==> published == old(published) && runVolume == old(runVolume)
      ensures status != 0 ==> unchanged(buffer1.words) && unchanged(buffer2.words)
    {
      hide Outcome, Delivered, InRun, Buffers, CanStart, OutputsFit, Committed, HalfStarted;
      if running {
        return -1;
      }
      NumberRun(if irun == 0 then theRun + 1 else irun);
      if !fileOk {
        return -1;
      }
      EnterRunning();
      Apart();
      var ok := StartNumbering(outs, now, timeUp);
      status := if ok then 0 else -1;
    }

    /** The last readout, and the forced switch: then everything is published, numbered without gaps and
        accounted for, before the counters are reset. */
    method DaqEnd(outs: seq<seq<int>>, now: int, timeUp: bool) returns (status: int, volume: int, events: int)
      requires running ==> InRun() && OutputsFit(devices, ENDRUN_EVENT, outs)
      modifies this`fill, this`transport, this`bufferNumber, this`published, this`eventNumber, this`runVolume,
               this`running, Repr()
      ensures !running && status == if old(running) then 0 else -1
      ensures fresh(Repr() - old(Repr())) && (status == 0 ==> Buffers())
      ensures status == 0 ==>
                && AllFinished(published, theRun) && Numbered(AllEvents(published))
                && volume == Volume(published) && events == |AllEvents(published)| + 1
                && Outcome(old(Committed()), AllEvents(published), enableEmpty || Words(outs) > 0, ENDRUN_EVENT, theRun,
                           now, Delivered(outs))
    {
      hide InRun, Buffers, SizesOk, Committed, Outcome, Delivered, AllFinished, AllEvents, Numbered, Volume,
        OutputsFit, NextPrepared;
      if !running {
        return -1, 0, 0;
      }
      LeaveRunning();
      NotShared();
      CloseRun(outs, now, timeUp);
      volume, events := runVolume, eventNumber;
      ResetCounters();
      status := 0;
    }

    method ResetCounters()
      requires Buffers() && SizesOk()
      modifies this`eventNumber, this`runVolume, this`bufferNumber
      ensures Buffers() && SizesOk() && Repr() == old(Repr())
    {
      eventNumber, runVolume, bufferNumber := 0, 0, 0;
    }

    method NextRun(ghost n: nat)
      requires Buffers() && SizesOk() && NextPrepared(n, theRun)
      modifies this`eventNumber, this`runVolume, this`bufferNumber, this`theRun
      ensures Buffers() && SizesOk() && Repr() == old(Repr()) && theRun == old(theRun) + 1
      ensures WithoutFile(n, old(theRun))
    {
      hide OutputsFit, EventSizes, SizesFit, DaqBuffer.Fresh;
      eventNumber, runVolume, bufferNumber := 0, 0, 0;
      theRun := theRun + 1;
    }

    method LeaveRunning()
      requires InRun()
      modifies this`running
      ensures InRun() && !running && Committed() == old(Committed()) && Repr() == old(Repr())
    {
      running := false;
    }

    /** The fill buffer is empty and prepared behind n others of a run. */
    ghost predicate NextPrepared(n: nat, run: int)
      reads this, fill, fill.words
    {
      fill.words.Length >= BUFFER_HEADER && fill.Fresh() && fill.words[2] == n + 1 && fill.words[3] == run
    }

    /** What a reopen that fails leaves behind: the buffer prepared behind the n of the run before, and all
        numbers, that of the next event included, and the volume at 0. */
    ghost predicate WithoutFile(n: nat, run: int)
      reads this, fill, fill.words
    {
      bufferNumber == 0 && eventNumber == 0 && runVolume == 0 && NextPrepared(n, run)
    }

    /** The end-run readout and the flush, as in daq_end and daq_restart_new_file. */
    method CloseRun(outs: seq<seq<int>>, now: int, timeUp: bool)
      requires InRun() && OutputsFit(devices, ENDRUN_EVENT, outs)
      modifies this`fill, this`transport, this`bufferNumber, this`published, this`eventNumber, this`runVolume, Repr()
      ensures Buffers() && SizesOk() && fresh(Repr() - old(Repr()))
      ensures AllFinished(published, theRun) && Numbered(AllEvents(published))
      ensures eventNumber == |AllEvents(published)| + 1
      ensures Outcome(old(Committed()), AllEvents(published), enableEmpty || Words(outs) > 0, ENDRUN_EVENT, theRun,
                      now, Delivered(outs))
      ensures runVolume == Volume(published)
      ensures NextPrepared(|published|, theRun)
    {
      hide Layout, LaidOut, Encode, EncodeAll, GoodEvent, GoodEvents, Delivered, Outcome, SumMax, OneMorePublished,
        Numbered, AllFinished, AllEvents, Volume;
      ReadMark(ENDRUN_EVENT, outs, now, timeUp);
      SwitchBuffer();
      assert Committed() == AllEvents(published);
    }

    lemma {:induction false} SizesOkStart()
      requires Buffers() && SizesOk()
      ensures CanStart(devices, buffer1.maxSize, buffer2.maxSize, buffer1.maxLength, buffer2.maxLength)
    {
    }

    /** The second half of daq_restart_new_file. The sizes that were checked when the run began still fit. */
    method Reopen(fileOk: bool, outs: seq<seq<int>>, now: int, timeUp: bool, ghost n: nat) returns (status: int)
      requires WithoutFile(n, theRun - 1)
      requires Buffers() && SizesOk() && theRun > 0 && OutputsFit(devices, BEGRUN_EVENT, outs)
      modifies this`fill, this`transport, this`bufferNumber, this`published, this`eventNumber, this`runVolume,
               this`eventSize, Repr()
      ensures Buffers() && fresh(Repr() - old(Repr()))
      ensures status == if fileOk then 0 else -1
      ensures status == 0 || WithoutFile(n, theRun - 1)
      ensures status == 0 ==> InRun()
      ensures status == 0 ==>
                Outcome([], Committed(), enableEmpty || Words(outs) > 0, BEGRUN_EVENT, theRun, now, Delivered(outs))
    {
      hide InRun, Buffers, Outcome, Delivered, OutputsFit, Committed, SizesOk, CanStart, HalfStarted, WithoutFile;
      if !fileOk {
        return -1;
      }
      SizesOkStart();
      Apart();
      var _ := StartNumbering(outs, now, timeUp);
      status := 0;
    }

    /** Closes the file of the current run and goes on with the next run number in a new one, which fails
        exactly if that cannot be opened. */
    method DaqRestartNewFile(endOuts: seq<seq<int>>, endNow: int, endTimeUp: bool, fileOk: bool,
                             beginOuts: seq<seq<int>>, beginNow: int, beginTimeUp: bool)
      returns (status: int, ghost closed: seq<Published>, ghost volume: int)
      requires InRun() && OutputsFit(devices, ENDRUN_EVENT, endOuts) && OutputsFit(devices, BEGRUN_EVENT, beginOuts)
      modifies this`fill, this`transport, this`bufferNumber, this`published, this`eventNumber, this`runVolume,
               this`eventSize, this`theRun, Repr()
      ensures Buffers() && fresh(Repr() - old(Repr()))
      ensures AllFinished(closed, old(theRun)) && Numbered(AllEvents(closed)) && volume == Volume(closed)
      ensures Outcome(old(Committed()), AllEvents(closed), enableEmpty || Words(endOuts) > 0, ENDRUN_EVENT, old(theRun),
                      endNow, Delivered(endOuts))
      ensures theRun == old(theRun) + 1
      ensures status == if fileOk then 0 else -1
      ensures status == 0 || WithoutFile(|closed|, old(theRun))
      ensures status == 0 ==> InRun()
      ensures status == 0 ==>
                Outcome([], Committed(), enableEmpty || Words(beginOuts) > 0, BEGRUN_EVENT, theRun,
                        beginNow, Delivered(beginOuts))
    {
      hide InRun, Buffers, Outcome, Delivered, AllFinished, AllEvents, Numbered, Volume, OutputsFit, Committed, SizesOk,
        NextPrepared, WithoutFile;
      NotShared();
      CloseRun(endOuts, endNow, endTimeUp);
      closed, volume := published, runVolume;
      NextRun(|closed|);
      Apart();
      status := Reopen(fileOk, beginOuts, beginNow, beginTimeUp, |closed|);
    }
  }

  /** A buffer without room for an event of this size is switched first. */
  function Switches(size: int, left: int): nat {
    if size > left - EOB_LENGTH then 1 else 0
  }

  /** A buffer that passed the begin-run check has room for the header of any event. */
  lemma {:induction false} SizesRoom(sizes: seq<int>, maxSize: int, devices: seq<Device>, etype: int)
    requires 0 <= etype < |sizes| && sizes[etype] == EVENT_HEADER + SumMax(devices, etype) && SizesFit(sizes, maxSize)
    ensures maxSize >= BUFFER_HEADER + EOB_LENGTH && sizes[etype] >= EVENT_HEADER
    ensures sizes[etype] <= maxSize - BUFFER_HEADER - EOB_LENGTH - EOB_LENGTH
  {
    assert 4 * sizes[etype] + 4 * 32 <= 4 * maxSize;
  }

  /** The largest event, rounded up to whole blocks, fits the buffer's memory. */
  ghost predicate CanFit(sizes: seq<int>, maxLength: int) {
    forall i :: 0 <= i < |sizes| ==> sizes[i] >= 0 && (4 * sizes[i] + 4 * 32 + 8191) / 8192 * 2048 <= maxLength
  }

  /** What a size check that fails leaves behind: the first buffer has been set to the size wanted, unless it is
      the one that is too small; a buffer that is too small has been set to all there is. */
  ghost predicate SizesLeft(sizes: seq<int>, first: DaqBuffer, second: DaqBuffer, before: int)
    reads first, second
  {
    if CanFit(sizes, first.maxLength) then SizesFit(sizes, first.maxSize) && second.maxSize == second.maxLength
    else first.maxSize == first.maxLength && second.maxSize == before
  }

  /** The size check lets a run start: either every event type fits both buffers as they are set, or the
      largest fits the memory of both. */
  ghost predicate CanStart(devices: seq<Device>, size1: int, size2: int, length1: int, length2: int) {
    var sizes := EventSizes(devices);
    || (SizesFit(sizes, size1) && SizesFit(sizes, size2))
    || (CanFit(sizes, length1) && CanFit(sizes, length2))
  }

  lemma {:induction false} CanFitWanted(sizes: seq<int>, wanted: int, maxLength: int)
    requires maxLength >= 0 && wanted > 0
    requires forall i :: 0 <= i < |sizes| ==> sizes[i] >= 0 && 4 * sizes[i] + 4 * 32 <= wanted
    requires exists i :: 0 <= i < |sizes| && wanted == 4 * sizes[i] + 4 * 32
    ensures WantedSize(wanted, maxLength) <= maxLength <==> CanFit(sizes, maxLength)
    ensures SizesFit(sizes, WantedSize(wanted, maxLength))
  {
    forall i | 0 <= i < |sizes|
      ensures (4 * sizes[i] + 4 * 32 + 8191) / 8192 * 2048 <= WantedSize(wanted, maxLength)
    {
      var a, b := 4 * sizes[i] + 4 * 32 + 8191, wanted + 8191;
      assert a / 8192 <= b / 8192;
    }
  }

  lemma {:induction false} NothingPublished()
    ensures AllEvents([]) == [] && Volume([]) == 0
  {
    var none: seq<Published> := [];
    assert seq(|none|, i requires 0 <= i < |none| => none[i].events) == [];
  }

  lemma {:induction false} PublishOne(published: seq<Published>, next: Published)
    ensures AllEvents(published + [next]) == AllEvents(published) + next.events
    ensures next.image != [] ==> Volume(published + [next]) == Volume(published) + next.image[0] - 24
  {
    var lists := seq(|published|, i requires 0 <= i < |published| => published[i].events);
    var longer := published + [next];
    assert seq(|longer|, i requires 0 <= i < |longer| => longer[i].events) == lists + [next.events];
    JoinAppend(lists, next.events);
    assert longer[..|published|] == published;
  }
}
