/** The nested layout of a data buffer: what the builder has to produce, and how it is taken apart. */
module EventLayout {
  import opened Sequences

  /** Header sizes and the end-of-buffer allowance, in 32-bit words. */
  const BUFFER_HEADER := 4
  const EVENT_HEADER := 8
  const FRAME_HEADER := 8
  const EOB_LENGTH := 4

  /** One event; framed means PRDF format, with a frame header between event header and subevents. */
  datatype Event = Event(etype: int, sequence: int, runNumber: int, date: int, time: int, framed: bool,
                         subevents: seq<seq<int>>)

  /** A subevent begins with its own length, sub_length, which counts all of its words. */
  predicate GoodSubevent(sub: seq<int>) { sub != [] && sub[0] == |sub| }

  ghost predicate GoodEvent(e: Event) {
    forall i :: 0 <= i < |e.subevents| ==> GoodSubevent(e.subevents[i])
  }

  ghost predicate GoodEvents(es: seq<Event>, framed: bool) {
    forall i :: 0 <= i < |es| ==> GoodEvent(es[i]) && es[i].framed == framed
  }

  function HeaderWords(framed: bool): nat { if framed then EVENT_HEADER + FRAME_HEADER else EVENT_HEADER }

  function EventLength(e: Event): nat { HeaderWords(e.framed) + |Join(e.subevents)| }

  function EventHeader(e: Event): (r: seq<int>)
    ensures |r| == EVENT_HEADER
  {
    [EventLength(e), e.etype, e.sequence, e.runNumber, e.date, e.time, 0, 0]
  }

  /** length, marker, version and header length, source id, frame type 0, align length, two align words */
  function FrameHeader(payload: nat): (r: seq<int>)
    ensures |r| == FRAME_HEADER
  {
    [FRAME_HEADER + payload, 0xffffff00, 0x01080000, 0x00002016, 0x00040000, 0x00000200, 0x55555555, 0x20160000]
  }

  function FullHeader(e: Event): (r: seq<int>)
    ensures |r| == HeaderWords(e.framed)
  {
    if e.framed then EventHeader(e) + FrameHeader(|Join(e.subevents)|) else EventHeader(e)
  }

  function Encode(e: Event): (r: seq<int>)
    ensures |r| == EventLength(e)
  {
    FullHeader(e) + Join(e.subevents)
  }

  function Encodings(es: seq<Event>): (r: seq<seq<int>>) {
    seq(|es|, i requires 0 <= i < |es| => Encode(es[i]))
  }

  function EncodeAll(es: seq<Event>): seq<int> { Join(Encodings(es)) }

  /** Takes subevents off the front, each as long as its first word says. */
  function DecodeSubevents(d: seq<int>): seq<seq<int>>
    decreases |d|
  {
    if d != [] && 1 <= d[0] <= |d| then [d[..d[0]]] + DecodeSubevents(d[d[0]..]) else []
  }

  function DecodeEvent(d: seq<int>, framed: bool): Event
    requires |d| >= HeaderWords(framed)
    requires HeaderWords(framed) <= d[0] <= |d|
  {
    Event(d[1], d[2], d[3], d[4], d[5], framed, DecodeSubevents(d[HeaderWords(framed)..d[0]]))
  }

  predicate AtEndOfBuffer(d: seq<int>) { |d| >= 2 && d[0] == 2 && d[1] == 0 }

  predicate AtEvent(d: seq<int>, framed: bool) {
    |d| >= HeaderWords(framed) && HeaderWords(framed) <= d[0] <= |d|
  }

  /** Walks from event to event by evt_length up to the (2, 0) record. */
  function DecodeAll(d: seq<int>, framed: bool): seq<Event>
    decreases |d|
  {
    if !AtEndOfBuffer(d) && AtEvent(d, framed) then
      [DecodeEvent(d, framed)] + DecodeAll(d[d[0]..], framed)
    else []
  }

  // ---------------------------------------------------------------------------------------------

  lemma {:induction false} SubeventsRoundTrip(subs: seq<seq<int>>)
    requires forall i :: 0 <= i < |subs| ==> GoodSubevent(subs[i])
    ensures DecodeSubevents(Join(subs)) == subs
    decreases |subs|
  {
    if subs != [] {
      JoinFront(subs[0], subs[1..]);
      assert [subs[0]] + subs[1..] == subs;
      var d := Join(subs);
      assert d[..d[0]] == subs[0] && d[d[0]..] == Join(subs[1..]);
      SubeventsRoundTrip(subs[1..]);
    }
  }

  /** One event followed by anything is read back exactly. */
  lemma {:induction false} EventRoundTrip(e: Event, rest: seq<int>)
    requires GoodEvent(e)
    ensures AtEvent(Encode(e) + rest, e.framed) && (Encode(e) + rest)[0] == EventLength(e)
    ensures DecodeEvent(Encode(e) + rest, e.framed) == e
  {
    var d := Encode(e) + rest;
    assert d[0] == FullHeader(e)[0] == EventHeader(e)[0];
    assert forall k :: 0 <= k < EVENT_HEADER ==> d[k] == EventHeader(e)[k];
    assert d[HeaderWords(e.framed)..d[0]] == Join(e.subevents);
    SubeventsRoundTrip(e.subevents);
  }

  lemma {:induction false} EncodeAllFront(e: Event, es: seq<Event>)
    ensures EncodeAll([e] + es) == Encode(e) + EncodeAll(es)
  {
    assert Encodings([e] + es) == [Encode(e)] + Encodings(es);
    JoinFront(Encode(e), Encodings(es));
  }

  lemma {:induction false} EncodeAllAppend(es: seq<Event>, e: Event)
    ensures EncodeAll(es + [e]) == EncodeAll(es) + Encode(e)
  {
    assert Encodings(es + [e]) == Encodings(es) + [Encode(e)];
    JoinAppend(Encodings(es), Encode(e));
  }

  /** The first event of a layout, and the layout of the others behind it. */
  lemma {:induction false} LayoutStep(es: seq<Event>, end: seq<int>, framed: bool)
    requires es != [] && GoodEvents(es, framed)
    ensures var d := EncodeAll(es) + end;
            && AtEvent(d, framed) && !AtEndOfBuffer(d) && DecodeEvent(d, framed) == es[0]
            && d[d[0]..] == EncodeAll(es[1..]) + end
  {
    EncodeAllFront(es[0], es[1..]);
    assert [es[0]] + es[1..] == es;
    var tail := EncodeAll(es[1..]) + end;
    assert EncodeAll(es) + end == Encode(es[0]) + tail;
    EventRoundTrip(es[0], tail);
  }

  /** Whatever the builder laid out is what the walk finds, in order, whatever follows the end marker. */
  lemma {:induction false} LayoutRoundTrip(es: seq<Event>, end: seq<int>, framed: bool)
    requires GoodEvents(es, framed) && AtEndOfBuffer(end)
    ensures DecodeAll(EncodeAll(es) + end, framed) == es
    decreases |es|
  {
    if es == [] {
      assert EncodeAll(es) + end == end;
    } else {
      LayoutStep(es, end, framed);
      LayoutRoundTrip(es[1..], end, framed);
    }
  }

  /** Two event lists with the same layout are the same list. */
  lemma {:induction false} LayoutIsInjective(es: seq<Event>, fs: seq<Event>, framed: bool)
    requires GoodEvents(es, framed) && GoodEvents(fs, framed)
    requires EncodeAll(es) == EncodeAll(fs)
    ensures es == fs
  {
    LayoutRoundTrip(es, [2, 0], framed);
    LayoutRoundTrip(fs, [2, 0], framed);
  }
}
