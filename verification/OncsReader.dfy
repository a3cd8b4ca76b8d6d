/** The reading side of the online library: oncsBuffer::getEvent and the subevent loop of
    oncsEvent::createMap, run over a buffer that the builder has finished. */
module OncsReader {
  import opened Sequences
  import opened EventLayout
  import opened DaqEvents
  import opened DaqBuffers
  import opened RunControl

  class OncsBuffer {
    const words: seq<int>       // the buffer as it was read into memory
    const bufferSize: int       // its Length word, in bytes
    var currentIndex: int

    constructor (memory: seq<int>)
      requires memory != []
      ensures words == memory && bufferSize == memory[0] && currentIndex == 0
    {
      words, bufferSize, currentIndex := memory, memory[0], 0;
    }

    /** The index of the next event in the data, or -1 when there is none. An event may be of any length; what
        follows it is looked at only as far as the Length word reaches. */
    method GetEvent() returns (at: int)
      requires 0 <= currentIndex ==> BUFFER_HEADER + currentIndex < |words|
      requires 0 <= currentIndex && 0 < words[BUFFER_HEADER + currentIndex] ==>
                 var next := currentIndex + words[BUFFER_HEADER + currentIndex];
                 next < bufferSize && next <= bufferSize / 4 ==> BUFFER_HEADER + next + 1 < |words|
      modifies this
      ensures old(currentIndex) < 0 ==> at == -1 && currentIndex == old(currentIndex)
      ensures old(currentIndex) >= 0 && words[BUFFER_HEADER + old(currentIndex)] > 0 ==>
                var next := old(currentIndex) + words[BUFFER_HEADER + old(currentIndex)];
                && at == old(currentIndex)
                && currentIndex == if next >= bufferSize || next > bufferSize / 4
                                      || (words[BUFFER_HEADER + next] == 2 && words[BUFFER_HEADER + next + 1] == 0)
                                   then -1 else next
      ensures old(currentIndex) >= 0 && words[BUFFER_HEADER + old(currentIndex)] <= 0 ==>
                at == -1 && currentIndex == old(currentIndex)
    {
      if currentIndex < 0 {
        return -1;
      }
      at := currentIndex;
      var l := words[BUFFER_HEADER + currentIndex];
      if l <= 0 {
        return -1;
      }
      currentIndex := currentIndex + l;
      if currentIndex < 0 || currentIndex >= bufferSize {
        currentIndex := -1;
      } else if currentIndex > bufferSize / 4 {
        currentIndex := -1;
      } else if words[BUFFER_HEADER + currentIndex] == 2 && words[BUFFER_HEADER + currentIndex + 1] == 0 {
        currentIndex := -1;
      }
    }
  }

  /** Where the subevents of an event start, relative to the end of its header. */
  function Starts(subs: seq<seq<int>>): seq<int> {
    seq(|subs|, i requires 0 <= i < |subs| => |Join(subs[..i])|)
  }

  lemma {:induction false} SubeventAt(subs: seq<seq<int>>, i: nat)
    requires i < |subs|
    ensures |Join(subs[..i])| + |subs[i]| == |Join(subs[..i + 1])| <= |Join(subs)|
    ensures Join(subs)[|Join(subs[..i])|..|Join(subs[..i + 1])|] == subs[i]
  {
    assert subs[..i] + [subs[i]] == subs[..i + 1];
    assert subs[..i + 1] + subs[i + 1..] == subs;
    JoinAppend(subs[..i], subs[i]);
    JoinJoin(subs[..i + 1], subs[i + 1..]);
  }

  lemma {:induction false} EventDataAt(words: seq<int>, base: nat, e: Event)
    requires LaidOut(words, base, e) && !e.framed
    ensures base + EVENT_HEADER + |Join(e.subevents)| <= |words| && words[base] == EVENT_HEADER + |Join(e.subevents)|
    ensures forall j :: 0 <= j < |Join(e.subevents)| ==> words[base + EVENT_HEADER + j] == Join(e.subevents)[j]
  {
    assert words[base + EVENT_HEADER..base + EventLength(e)] == Join(e.subevents);
  }

  /** The word at the start of subevent k leads to where the next one starts, or to the end. */
  lemma {:induction false} SubeventAhead(words: seq<int>, base: nat, e: Event, k: nat)
    requires LaidOut(words, base, e) && GoodEvent(e) && !e.framed && k < |e.subevents|
    ensures var at, next := |Join(e.subevents[..k])|, |Join(e.subevents[..k + 1])|;
            && base + EVENT_HEADER + at < |words| && at + words[base + EVENT_HEADER + at] == next && at < next
            && next <= words[base] - EVENT_HEADER
            && (k + 1 == |e.subevents| ==> next == words[base] - EVENT_HEADER)
            && (k + 1 < |e.subevents| ==> next < words[base] - EVENT_HEADER)
  {
    hide LaidOut, Join;
    EventDataAt(words, base, e);
    SubeventAt(e.subevents, k);
    var at := |Join(e.subevents[..k])|;
    assert GoodSubevent(e.subevents[k]);
    assert Join(e.subevents)[at] == Join(e.subevents)[at..|Join(e.subevents[..k + 1])|][0];
    if k + 1 < |e.subevents| {
      SubeventAt(e.subevents, k + 1);
      assert GoodSubevent(e.subevents[k + 1]);
    } else {
      assert e.subevents[..k + 1] == e.subevents;
    }
  }

  lemma {:induction false} NoSubeventYet(words: seq<int>, base: nat, e: Event)
    requires LaidOut(words, base, e) && !e.framed
    ensures |Join(e.subevents[..0])| == 0 && base < |words|
    ensures e.subevents == [] ==> words[base] == EVENT_HEADER
  {
    EventDataAt(words, base, e);
  }

  /** createMap's walk: from subevent to subevent by the first word of each, up to evt_length. */
  method SubeventStarts(words: seq<int>, base: nat, ghost e: Event) returns (starts: seq<int>)
    requires LaidOut(words, base, e) && GoodEvent(e) && !e.framed
    ensures starts == Starts(e.subevents)
  {
    hide LaidOut, GoodEvent, Join;
    NoSubeventYet(words, base, e);
    var dataLength := words[base] - EVENT_HEADER;
    var i := 0;
    starts := [];
    if e.subevents != [] {
      SubeventAhead(words, base, e, 0);
    }
    while i < dataLength
      invariant |starts| <= |e.subevents| && i == |Join(e.subevents[..|starts|])|
      invariant |starts| == |e.subevents| <==> i >= dataLength
      invariant forall k :: 0 <= k < |starts| ==> starts[k] == |Join(e.subevents[..k])|
      decreases dataLength - i
    {
      SubeventAhead(words, base, e, |starts|);
      starts := starts + [i];
      i := i + words[base + EVENT_HEADER + i];
    }
  }

  // ---------------------------------------------------------------------------------------------

  /** Where the events start in the data. */
  function EventStarts(es: seq<Event>): seq<int> {
    seq(|es|, i requires 0 <= i < |es| => |EncodeAll(es[..i])|)
  }

  lemma {:induction false} EventAt(es: seq<Event>, i: nat)
    requires i < |es|
    ensures |EncodeAll(es[..i])| + EventLength(es[i]) == |EncodeAll(es[..i + 1])| <= |EncodeAll(es)|
    ensures EncodeAll(es)[|EncodeAll(es[..i])|..|EncodeAll(es[..i + 1])|] == Encode(es[i])
  {
    hide Encode;
    assert Encodings(es)[..i] == Encodings(es[..i]);
    assert Encodings(es)[..i + 1] == Encodings(es[..i + 1]);
    SubeventAt(Encodings(es), i);
  }

  lemma {:induction false} SliceOfSlice(w: seq<int>, a: nat, b: nat, lo: nat, hi: nat)
    requires a <= b <= |w| && lo <= hi <= b - a
    ensures w[a..b][lo..hi] == w[a + lo..a + hi]
  {
    assert forall k :: 0 <= k < hi - lo ==> w[a..b][lo..hi][k] == w[a + lo..a + hi][k];
  }

  lemma {:induction false} SliceOfFirst(x: seq<int>, y: seq<int>, lo: nat, hi: nat)
    requires lo <= hi <= |x|
    ensures (x + y)[lo..hi] == x[lo..hi]
  {
  }

  /** What the reader sees at the start of event i, and behind its end. */
  lemma {:induction false} ReaderSees(w: seq<int>, events: seq<Event>, i: nat)
    requires Finished(w, events) && i < |events|
    ensures var at, next := BUFFER_HEADER + |EncodeAll(events[..i])|, BUFFER_HEADER + |EncodeAll(events[..i + 1])|;
            && next + 1 < |w| && at + EventLength(events[i]) == next && 4 * next < w[0]
            && w[at..next] == Encode(events[i])
            && (i + 1 < |events| ==> w[next] == EventLength(events[i + 1]))
            && (i + 1 == |events| ==> w[next] == 2 && w[next + 1] == 0)
  {
    hide Encode, EncodeAll;
    var d := w[BUFFER_HEADER..BUFFER_HEADER + |EncodeAll(events)| + 2];
    EventAt(events, i);
    assert d == EncodeAll(events) + [2, 0];
    var lo, hi := |EncodeAll(events[..i])|, |EncodeAll(events[..i + 1])|;
    SliceOfSlice(w, BUFFER_HEADER, BUFFER_HEADER + |d|, lo, hi);
    SliceOfFirst(EncodeAll(events), [2, 0], lo, hi);
    if i + 1 < |events| {
      EventAt(events, i + 1);
      FirstWord(events[i + 1]);
      var next := |EncodeAll(events[..i + 1])|;
      assert d[next] == EncodeAll(events)[next] == Encode(events[i + 1])[0];
    } else {
      assert events[..i + 1] == events;
      assert d[|EncodeAll(events)|] == 2 && d[|EncodeAll(events)| + 1] == 0;
    }
  }

  lemma {:induction false} FirstWord(e: Event)
    ensures Encode(e)[0] == EventLength(e)
  {
  }

  /** Every getEvent until the first that finds nothing: on a finished buffer with at least one event
      the reader delivers exactly the builder's events, in order. */
  method ReadAll(w: seq<int>, ghost events: seq<Event>) returns (starts: seq<int>)
    requires Finished(w, events) && events != []
    ensures starts == EventStarts(events)
  {
    hide Encode, EncodeAll, Layout;
    var reader := new OncsBuffer(w);
    starts := [];
    assert events[..0] == [];
    StartsAtZero();
    while reader.currentIndex >= 0
      invariant reader.words == w && reader.bufferSize == w[0]
      invariant |starts| <= |events|
      invariant reader.currentIndex == if |starts| < |events| then |EncodeAll(events[..|starts|])| else -1
      invariant forall k :: 0 <= k < |starts| ==> starts[k] == |EncodeAll(events[..k])|
      decreases |events| - |starts|
    {
      var i := |starts|;
      ReaderSees(w, events, i);
      FirstWord(events[i]);
      var base := BUFFER_HEADER + |EncodeAll(events[..i])|;
      assert w[base] == w[base..base + EventLength(events[i])][0];
      var at := reader.GetEvent();
      starts := starts + [at];
    }
  }

  lemma {:induction false} StartsAtZero()
    ensures EncodeAll([]) == []
  {
  }

  /** A finished buffer without events: the reader's only test for the end record comes after it has
      moved past an event, so it reports the end record itself as the first event. */
  method ReadsEndRecordOfEmptyBuffer(w: seq<int>) returns (at: int)
    requires Finished(w, []) && |w| > 8
    ensures at == 0 && AtEndOfBuffer(w[BUFFER_HEADER..])
  {
    StartsAtZero();
    assert w[BUFFER_HEADER..BUFFER_HEADER + 2] == [2, 0];
    assert w[BUFFER_HEADER] == 2;
    var reader := new OncsBuffer(w);
    at := reader.GetEvent();
  }

  const ONCS_ID := 0xffffc0c0     // ONCSBUFFERID
  const PRDF_ID := 0xffffffc0     // PRDFBUFFERID

  /** i4swap: the four bytes of a word the other way round. */
  function Swapped(x: int): int {
    x % 256 * 0x100_0000 + x / 256 % 256 * 0x1_0000 + x / 0x1_0000 % 256 * 256 + x / 0x100_0000 % 256
  }

  lemma {:induction false} SwappedBytes(a: nat, b: nat, c: nat, d: nat)
    requires a < 256 && b < 256 && c < 256 && d < 256
    ensures Swapped(((a * 256 + b) * 256 + c) * 256 + d) == ((d * 256 + c) * 256 + b) * 256 + a
  {
    hide Swapped;
    var high, pair, x := a * 256 + b, (a * 256 + b) * 256 + c, ((a * 256 + b) * 256 + c) * 256 + d;
    LastByte(a, b);
    LastByte(high, c);
    LastByte(pair, d);
    FourBytes(x, a, b, c, d);
  }

  lemma {:induction false} LastByte(front: nat, last: nat)
    requires last < 256
    ensures (front * 256 + last) / 256 == front && (front * 256 + last) % 256 == last
  {
  }

  lemma {:induction false} FourBytes(x: nat, a: nat, b: nat, c: nat, d: nat)
    requires a < 256 && x % 256 == d && x / 256 % 256 == c && x / 256 / 256 % 256 == b && x / 256 / 256 / 256 == a
    ensures Swapped(x) == ((d * 256 + c) * 256 + b) * 256 + a
  {
  }

  datatype ByteOrder = AsHere | OtherWay | NotABuffer

  /** The test of the ID word, in the file iterator and in the constructor of oncsBuffer. */
  method ByteOrderOf(id: int) returns (order: ByteOrder)
    ensures order == if id == 0xffffc0c0 || id == 0xffffffc0 then AsHere
                     else if Swapped(id) == 0xffffc0c0 || Swapped(id) == 0xffffffc0 then OtherWay
                     else NotABuffer
  {
    if id == ONCS_ID || id == PRDF_ID {
      return AsHere;
    }
    var swapped := Swapped(id);
    order := if swapped == ONCS_ID || swapped == PRDF_ID then OtherWay else NotABuffer;
  }

  /** The reader accepts every published buffer as it is and finds exactly its events. */
  method ReadPublished(p: Published, bufseq: int, run: int) returns (order: ByteOrder, starts: seq<int>)
    requires PublishedRight(p, bufseq, run) && p.events != []
    ensures order == AsHere && starts == EventStarts(p.events)
  {
    hide Finished;
    order := ByteOrderOf(p.image[1]);
    starts := ReadAll(p.image, p.events);
  }
}
