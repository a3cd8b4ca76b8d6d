/** The run commands and the readout of rcdaq.cc, on the thread that fills the buffers. The locking of
    switch_buffer is the subject of module Pipeline; here it is one call. */
module RunControl {
  import opened Sequences
  import opened EventLayout
  import opened DaqEvents
  import opened DaqBuffers

  const MAX_EVENT_ID := 32
  const DATA_EVENT := 1
  const BEGRUN_EVENT := 9
  const ENDRUN_EVENT := 12

  /** What the run control knows about a device: max_length for each event type. */
  datatype Device = Device(maxLength: seq<nat>) {
    function MaxLength(etype: int): nat {
      if 0 <= etype < |maxLength| then maxLength[etype] else 0
    }
  }

  function SumMax(devices: seq<Device>, etype: int): nat {
    if devices == [] then 0 else SumMax(devices[..|devices| - 1], etype) + devices[|devices| - 1].MaxLength(etype)
  }

  /** Eventsize: what an event of each type can take up, header and all. */
  function EventSizes(devices: seq<Device>): seq<int> {
    seq(MAX_EVENT_ID, i => EVENT_HEADER + SumMax(devices, i))
  }

  function Words(outs: seq<seq<int>>): nat { |Join(outs)| }

  /** The subevents that get laid out: what the devices with something to say delivered. */
  function Delivered(outs: seq<seq<int>>): seq<seq<int>> {
    if outs == [] then []
    else
      var rest := Delivered(outs[..|outs| - 1]);
      if outs[|outs| - 1] == [] then rest else rest + [outs[|outs| - 1]]
  }

  /** Each device reads out at most the max_length it announced for the event type. */
  ghost predicate OutputsFit(devices: seq<Device>, etype: int, outs: seq<seq<int>>) {
    && |outs| == |devices|
    && forall i :: 0 <= i < |outs| ==> GoodOutput(outs[i]) && |outs[i]| <= devices[i].MaxLength(etype)
  }

  /** A buffer handed to the consumers: its words, as far as Length says, and the events in it. */
  datatype Published = Published(image: seq<int>, events: seq<Event>)

  function AllEvents(published: seq<Published>): seq<Event> {
    Join(seq(|published|, i requires 0 <= i < |published| => published[i].events))
  }

  /** Sum of Length - 24 over buffers: everything but the buffer header and the end record, in bytes. */
  function Volume(published: seq<Published>): int {
    if published == [] then 0
    else
      var last := published[|published| - 1];
      Volume(published[..|published| - 1]) + (if last.image == [] then 0 else last.image[0] - 24)
  }

  /** A complete ONCS buffer with this Bufseq and run number. */
  ghost predicate PublishedRight(p: Published, bufseq: int, run: int) {
    && Finished(p.image, p.events)
    && |p.image| > 3 && p.image[0] == 4 * |p.image| && p.image[1] == 0xffffc0c0
    && p.image[2] == bufseq && p.image[3] == run
  }

  /** Bufseq counts 1, 2, 3, ... */
  ghost predicate AllFinished(published: seq<Published>, run: int) {
    forall k :: 0 <= k < |published| ==> PublishedRight(published[k], k + 1, run)
  }

  /** A buffer with these events has been published behind the others. */
  ghost predicate OneMorePublished(before: seq<Published>, after: seq<Published>, events: seq<Event>) {
    |after| == |before| + 1 && before <= after && after[|before|].events == events
  }

  /** The evt_sequence fields read 1, 2, 3, ... */
  ghost predicate Numbered(es: seq<Event>) {
    forall i :: 0 <= i < |es| ==> es[i].sequence == i + 1
  }

  /** One readout adds one event of this type, with these subevents, this time and the next number, or
      nothing. */
  ghost predicate Outcome(before: seq<Event>, after: seq<Event>, commit: bool, etype: int, run: int, now: int,
                          subevents: seq<seq<int>>) {
    if commit then
      && |after| == |before| + 1 && before <= after
      && after[|before|].etype == etype && after[|before|].subevents == subevents && after[|before|].runNumber == run
      && after[|before|].sequence == |before| + 1 && after[|before|].date == 0 && after[|before|].time == now
    else after == before
  }

  lemma {:induction false} DeliveredWords(outs: seq<seq<int>>)
    ensures Words(outs) == 0 <==> Delivered(outs) == []
    decreases |outs|
  {
    if outs != [] {
      DeliveredWords(outs[..|outs| - 1]);
    }
  }

  lemma {:induction false} SumMaxSplit(devices: seq<Device>, etype: int, i: nat)
    requires i < |devices|
    ensures SumMax(devices[..i + 1], etype) == SumMax(devices[..i], etype) + devices[i].MaxLength(etype)
    ensures SumMax(devices[..i + 1], etype) <= SumMax(devices, etype)
    decreases |devices|
  {
    var init := devices[..|devices| - 1];
    assert devices[..i + 1][..i] == devices[..i];
    if i < |init| {
      SumMaxSplit(init, etype, i);
      assert init[..i + 1] == devices[..i + 1];
    } else {
      assert devices[..i + 1] == devices;
    }
  }

  /** Reads every device out into the current event of a buffer. */
  method ReadDevices(b: DaqBuffer, devices: seq<Device>, etype: int, outs: seq<seq<int>>) returns (len: nat)
    requires b.Valid() && b.live && b.events[|b.events| - 1].subevents == []
    requires OutputsFit(devices, etype, outs) && SumMax(devices, etype) <= b.currentEvent.left
    modifies b`currentIndex, b`left, b`events, b.words, b.currentEvent
    ensures b.Valid() && b.live && HeaderKept(old(b.words[..]), b.words[..])
    ensures len == EVENT_HEADER + Words(outs) && b.currentIndex == old(b.currentIndex) + Words(outs)
    ensures b.events == old(b.events)[..|old(b.events)| - 1] +
                        [old(b.events)[|old(b.events)| - 1].(subevents := Delivered(outs))]
  {
    hide LaidOut, Layout, Encode, EncodeAll, GoodEvent, Join, GoodSubevent;
    len := EVENT_HEADER;
    ghost var first := b.events[|b.events| - 1];
    ghost var others := b.events[..|b.events| - 1];
    NothingYet(devices, etype, outs);
    for i := 0 to |outs|
      invariant b.Valid() && b.live && HeaderKept(old(b.words[..]), b.words[..])
      invariant b.currentEvent == old(b.currentEvent)
      invariant b.currentEvent.left >= SumMax(devices, etype) - SumMax(devices[..i], etype)
      invariant len == EVENT_HEADER + Words(outs[..i]) && b.currentIndex == old(b.currentIndex) + Words(outs[..i])
      invariant b.events == others + [first.(subevents := Delivered(outs[..i]))]
    {
      SumMaxSplit(devices, etype, i);
      OneMore(outs, i);
      var l := b.AddSubevent(outs[i]);
      len := len + l;
    }
    assert outs[..|outs|] == outs;
  }

  lemma {:induction false} NothingYet(devices: seq<Device>, etype: int, outs: seq<seq<int>>)
    ensures SumMax(devices[..0], etype) == 0 && Words(outs[..0]) == 0 && Delivered(outs[..0]) == []
  {
  }

  lemma {:induction false} OneMore(outs: seq<seq<int>>, i: nat)
    requires i < |outs|
    ensures Words(outs[..i + 1]) == Words(outs[..i]) + |outs[i]|
    ensures Delivered(outs[..i + 1]) == if outs[i] == [] then Delivered(outs[..i]) else Delivered(outs[..i]) + [outs[i]]
  {
    assert outs[..i + 1] == outs[..i] + [outs[i]];
    JoinAppend(outs[..i], outs[i]);
  }

  /** set_eventsizes for one event type. */
  method EventSizeOf(devices: seq<Device>, etype: int) returns (size: int)
    ensures size == EVENT_HEADER + SumMax(devices, etype)
  {
    size := EVENT_HEADER;
    assert SumMax(devices[..0], etype) == 0;
    for i := 0 to |devices|
      invariant size == EVENT_HEADER + SumMax(devices[..i], etype)
    {
      SumMaxSplit(devices, etype, i);
      size := size + devices[i].MaxLength(etype);
    }
    assert devices[..|devices|] == devices;
  }

  /** What the check at the begin of a run asks of a buffer: 4 * Eventsize + 128 bytes for every type. */
  ghost predicate SizesFit(sizes: seq<int>, maxSize: int) {
    forall i :: 0 <= i < |sizes| ==> 4 * sizes[i] + 4 * 32 <= 4 * maxSize
  }

  /** The largest size that some buffer is too small for, in bytes; 0 if there is none. */
  method WantedMaxSize(sizes: seq<int>, fillSize: int, transportSize: int) returns (wanted: int)
    requires forall i :: 0 <= i < |sizes| ==> sizes[i] >= EVENT_HEADER
    ensures wanted == 0 <==> SizesFit(sizes, fillSize) && SizesFit(sizes, transportSize)
    ensures wanted == 0 || (wanted > 0 && (forall i :: 0 <= i < |sizes| ==> 4 * sizes[i] + 4 * 32 <= wanted))
    ensures wanted > 0 ==> exists i :: 0 <= i < |sizes| && wanted == 4 * sizes[i] + 4 * 32
  {
    wanted := 0;
    for i := 0 to |sizes|
      invariant wanted == 0 <==> SizesFit(sizes[..i], fillSize) && SizesFit(sizes[..i], transportSize)
      invariant wanted == 0 || wanted > 4 * fillSize || wanted > 4 * transportSize
      invariant wanted == 0 || (wanted > 0 && (forall k :: 0 <= k < i ==> 4 * sizes[k] + 4 * 32 <= wanted))
      invariant wanted > 0 ==> exists k :: 0 <= k < i && wanted == 4 * sizes[k] + 4 * 32
    {
      if 4 * sizes[i] + 4 * 32 > 4 * fillSize || 4 * sizes[i] + 4 * 32 > 4 * transportSize {
        var x := 4 * sizes[i] + 4 * 32;
        if x > wanted {
          wanted := x;
        }
      }
    }
  }
}
