/** daqBuffer: a fixed array of words that events are laid out in, with its redundant counters. */
module DaqBuffers {
  import opened Sequences
  import opened EventLayout
  import opened DaqEvents

  const ONCS_BUFFER_ID := 0xffffc0c0
  const WRITE_BLOCK := 8192

  /** setMaxSize: whole blocks of 8192 bytes, in words; 0 asks for all there is. */
  function WantedSize(size: nat, maxLength: nat): nat {
    if size == 0 then maxLength else (size + 8191) / 8192 * 2048
  }

  /** writeout: the byte count is rounded up to whole blocks. */
  function RoundedUp(bytes: nat): nat { (bytes + WRITE_BLOCK - 1) / WRITE_BLOCK * WRITE_BLOCK }

  /** The data words of w hold these events, and the end record if there is one. */
  ghost predicate Layout(w: seq<int>, index: int, events: seq<Event>, ended: bool) {
    && 0 <= index && BUFFER_HEADER + index <= |w|
    && w[BUFFER_HEADER..BUFFER_HEADER + index] == if ended then EncodeAll(events) + [2, 0] else EncodeAll(events)
  }

  ghost predicate Agree(w: seq<int>, w': seq<int>, lo: int, hi: int) {
    && |w| == |w'|
    && forall k :: 0 <= lo <= k < hi && k < |w| ==> w'[k] == w[k]
  }

  lemma {:induction false} KeepLaidOut(w: seq<int>, w': seq<int>, base: nat, e: Event)
    requires LaidOut(w, base, e) && Agree(w, w', base, base + EventLength(e))
    ensures LaidOut(w', base, e)
  {
    assert w'[base + HeaderWords(e.framed)..base + EventLength(e)] ==
        w[base + HeaderWords(e.framed)..base + EventLength(e)];
  }

  lemma {:induction false} TwoSlices(w: seq<int>, lo: nat, mid: nat, hi: nat)
    requires lo <= mid <= hi <= |w|
    ensures w[lo..hi] == w[lo..mid] + w[mid..hi]
  {
  }

  /** An event laid out behind the others joins them. */
  lemma {:induction false} LayoutGrows(w: seq<int>, w': seq<int>, index: nat, events: seq<Event>, e: Event, length: nat)
    requires Layout(w, index, events, false) && Agree(w, w', BUFFER_HEADER, BUFFER_HEADER + index)
    requires BUFFER_HEADER + index + length <= |w'|
    requires w'[BUFFER_HEADER + index..BUFFER_HEADER + index + length] == Encode(e)
    ensures Layout(w', index + length, events + [e], false)
  {
    var m := BUFFER_HEADER + index;
    EncodeAllAppend(events, e);
    assert w'[BUFFER_HEADER..m] == w[BUFFER_HEADER..m];
    TwoSlices(w', BUFFER_HEADER, m, m + length);
  }

  /** A new event at the end, followed by an update of the Length word. */
  lemma {:induction false} EventBegun(before: seq<int>, during: seq<int>, after: seq<int>, index: nat,
                                      events: seq<Event>, e: Event)
    requires Layout(before, index, events, false) && Agree(before, during, BUFFER_HEADER, BUFFER_HEADER + index)
    requires LaidOut(during, BUFFER_HEADER + index, e) && Agree(during, after, BUFFER_HEADER, |during|)
    ensures LaidOut(after, BUFFER_HEADER + index, e)
    ensures Layout(after, index + EventLength(e), events + [e], false)
  {
    KeepLaidOut(during, after, BUFFER_HEADER + index, e);
    LaidOutIsEncode(after, BUFFER_HEADER + index, e);
    LayoutGrows(before, after, index, events, e, EventLength(e));
  }

  /** The layout without its last event. */
  lemma {:induction false} LayoutShrinks(w: seq<int>, index: int, events: seq<Event>)
    requires events != [] && Layout(w, index, events, false)
    ensures index >= EventLength(events[|events| - 1])
    ensures Layout(w, index - EventLength(events[|events| - 1]), events[..|events| - 1], false)
  {
    var init, e := events[..|events| - 1], events[|events| - 1];
    assert init + [e] == events;
    EncodeAllAppend(init, e);
    var d := w[BUFFER_HEADER..BUFFER_HEADER + index];
    assert d[..|EncodeAll(init)|] == EncodeAll(init);
  }

  /** The last event has grown into e', and the Length word has been updated. */
  lemma {:induction false} EventExtended(before: seq<int>, during: seq<int>, after: seq<int>, index: int,
                                         events: seq<Event>, base: nat, e': Event)
    requires events != [] && Layout(before, index, events, false)
    requires base + EventLength(events[|events| - 1]) == BUFFER_HEADER + index
    requires Agree(before, during, BUFFER_HEADER, base)
    requires LaidOut(during, base, e') && Agree(during, after, BUFFER_HEADER, |during|)
    ensures base >= BUFFER_HEADER && LaidOut(after, base, e')
    ensures Layout(after, base - BUFFER_HEADER + EventLength(e'), events[..|events| - 1] + [e'], false)
  {
    hide LaidOut, Layout, Encode, EncodeAll;
    LayoutShrinks(before, index, events);
    EventBegun(before, during, after, base - BUFFER_HEADER, events[..|events| - 1], e');
  }

  /** The end record behind the events. */
  lemma {:induction false} LayoutEnds(w: seq<int>, w': seq<int>, index: int, events: seq<Event>)
    requires Layout(w, index, events, false) && Agree(w, w', BUFFER_HEADER, BUFFER_HEADER + index)
    requires BUFFER_HEADER + index + 2 <= |w'|
    requires w'[BUFFER_HEADER + index] == 2 && w'[BUFFER_HEADER + index + 1] == 0
    ensures Layout(w', index + 2, events, true)
  {
    var m := BUFFER_HEADER + index;
    assert w'[BUFFER_HEADER..m] == w[BUFFER_HEADER..m];
    assert w'[m..m + 2] == [2, 0];
    TwoSlices(w', BUFFER_HEADER, m, m + 2);
  }

  lemma {:induction false} LayoutKept(w: seq<int>, w': seq<int>, index: int, events: seq<Event>, ended: bool)
    requires Layout(w, index, events, ended) && Agree(w, w', BUFFER_HEADER, |w|)
    ensures Layout(w', index, events, ended)
  {
    assert w'[BUFFER_HEADER..BUFFER_HEADER + index] == w[BUFFER_HEADER..BUFFER_HEADER + index];
  }

  /** The words of the buffer header other than Length. */
  ghost predicate HeaderKept(w: seq<int>, w': seq<int>) {
    |w'| == |w| >= BUFFER_HEADER && w'[1] == w[1] && w'[2] == w[2] && w'[3] == w[3]
  }

  class DaqBuffer {
    const words: array<int>          // *bptr: Length, ID, Bufseq, Runnr, then the data
    var currentIndex: int
    const maxLength: int
    var maxSize: int
    var left: int
    var currentEvent: DaqEvent?
    var hasEnd: bool
    var prdf: bool                   // format
    var currentBufferID: int
    ghost var prepared: int          // max_size when the buffer was last prepared
    ghost var events: seq<Event>     // what has been laid out since then
    ghost var live: bool             // currentEvent is the last of them and may still grow

    ghost function Repr(): set<object>
      reads this
    {
      {this, words} + (if currentEvent == null then {} else {currentEvent})
    }

    /** All counters agree with each other and with the words. */
    ghost predicate Counters()
      reads this, words
    {
      && words.Length == maxLength
      && EOB_LENGTH + BUFFER_HEADER <= prepared <= maxLength && 0 <= maxSize <= maxLength
      && 0 <= currentIndex && 0 <= left
      && left + currentIndex == prepared - BUFFER_HEADER - EOB_LENGTH + (if hasEnd then 2 else 0)
      && words[0] == 4 * (BUFFER_HEADER + currentIndex)
    }

    ghost predicate Valid()
      reads this, words, currentEvent
    {
      && Counters()
      && GoodEvents(events, prdf)
      && Layout(words[..], currentIndex, events, hasEnd)
      && (live ==> !hasEnd && LiveEvent())
    }

    /** The current event is the last one in the layout, and has no more room than the buffer. */
    ghost predicate LiveEvent()
      reads this, words, currentEvent
      requires Counters()
    {
      && currentEvent != null && currentEvent.words == words && currentEvent.Valid()
      && events != [] && events[|events| - 1] == currentEvent.shape
      && currentEvent.base == BUFFER_HEADER + currentIndex - EventLength(currentEvent.shape)
      && 0 <= currentEvent.left <= left - EOB_LENGTH
    }

    ghost predicate Fresh()
      reads this, words
      requires words.Length >= BUFFER_HEADER
    {
      events == [] && !hasEnd && !live && currentIndex == 0
    }

    constructor (irun: int, length: nat, iseq: int)
      requires length >= BUFFER_HEADER + EOB_LENGTH
      ensures Valid() && fresh(Repr()) && Fresh()
      ensures maxLength == length && maxSize == length && prepared == length && !prdf
      ensures words[1] == currentBufferID == 0xffffc0c0
      ensures words[2] == iseq && (irun > 0 ==> words[3] == irun)
    {
      words := new int[length];
      maxLength, maxSize, left, currentIndex := length, length, 0, 0;
      currentEvent, hasEnd, prdf := null, false, false;
      currentBufferID := ONCS_BUFFER_ID;
      prepared, events, live := length, [], false;
      new;
      PrepareNext(iseq, irun);
    }

    method PrepareNext(iseq: int, irun: int)
      requires words.Length == maxLength && BUFFER_HEADER + EOB_LENGTH <= maxSize <= maxLength
      modifies this`currentIndex, this`left, this`hasEnd, this`prepared, this`events, this`live, words
      ensures Valid() && Fresh() && prepared == maxSize
      ensures words[1] == currentBufferID && words[2] == iseq
      ensures words[3] == if irun > 0 then irun else old(words[3])
    {
      words[0] := BUFFER_HEADER * 4;
      words[1] := currentBufferID;
      words[2] := iseq;
      if irun > 0 {
        words[3] := irun;
      }
      currentIndex := 0;
      left := maxSize - BUFFER_HEADER - EOB_LENGTH;
      hasEnd := false;
      prepared, events, live := maxSize, [], false;
      assert EncodeAll(events) == [];
    }

    /** A new event behind the others, if its announced size fits. */
    method NextEvent(etype: int, evtseq: nat, evtsize: int, now: int) returns (status: int)
      requires Valid() && !hasEnd && HeaderWords(prdf) <= evtsize
      modifies this`currentIndex, this`left, this`currentEvent, this`events, this`live, words
      ensures Valid() && !hasEnd && HeaderKept(old(words[..]), words[..])
      ensures status == if evtsize > old(left) - EOB_LENGTH then -1 else 0
      ensures status != 0 ==> currentEvent == null && !live && events == old(events)
                              && currentIndex == old(currentIndex) && unchanged(words)
      ensures status == 0 ==> live && fresh(currentEvent) && currentEvent.left == evtsize - HeaderWords(prdf)
                              && currentIndex == old(currentIndex) + HeaderWords(prdf)
      ensures status == 0 ==> events == old(events) + [events[|events| - 1]]
      ensures status == 0 ==> var e := events[|events| - 1];
                              && e.etype == etype && e.sequence == evtseq && e.subevents == []
                              && (if prdf then e.date == now && e.time == -1 else e.date == 0 && e.time == now)
                              && (words[3] > 0 ==> e.runNumber == words[3])
    {
      currentEvent, live := null, false;
      if evtsize > left - EOB_LENGTH {
        return -1;
      }
      BeginEvent(etype, evtseq, evtsize, now);
      status := 0;
    }

    method BeginEvent(etype: int, evtseq: nat, evtsize: int, now: int)
      requires Valid() && !hasEnd && !live && HeaderWords(prdf) <= evtsize <= left - EOB_LENGTH
      modifies this`currentIndex, this`left, this`currentEvent, this`events, this`live, words
      ensures Valid() && live && fresh(currentEvent) && currentEvent.left == evtsize - HeaderWords(prdf)
      ensures HeaderKept(old(words[..]), words[..])
      ensures currentIndex == old(currentIndex) + HeaderWords(prdf)
      ensures var e := currentEvent.shape;
              && events == old(events) + [e]
              && e.etype == etype && e.sequence == evtseq && e.subevents == []
              && (if prdf then e.date == now && e.time == -1 else e.date == 0 && e.time == now)
              && (words[3] > 0 ==> e.runNumber == words[3])
    {
      hide LaidOut, Layout, Encode, EncodeAll, GoodEvent;
      ghost var before := words[..];
      var e := new DaqEvent(words, BUFFER_HEADER + currentIndex, evtsize, words[3], etype, evtseq, now, prdf);
      ghost var during := words[..];
      words[0] := words[0] + HeaderWords(prdf) * 4;
      EventBegun(before, during, words[..], currentIndex, events, e.shape);
      currentEvent := e;
      left := left - HeaderWords(prdf);
      currentIndex := currentIndex + HeaderWords(prdf);
      events, live := events + [e.shape], true;
    }

    /** One device adds to the current event; the buffer's counters follow the event's. */
    method AddSubevent(out: seq<int>) returns (len: int)
      requires Valid() && live && GoodOutput(out) && 0 <= |out| <= currentEvent.left
      modifies this`currentIndex, this`left, this`events, words, currentEvent
      ensures Valid() && live && !hasEnd && HeaderKept(old(words[..]), words[..])
      ensures len == |out| && currentIndex == old(currentIndex) + len
      ensures currentEvent.left == old(currentEvent.left) - len
      ensures events == old(events)[..|old(events)| - 1] + [WithSubevent(old(events)[|old(events)| - 1], out)]
    {
      hide LaidOut, Layout, Encode, EncodeAll, GoodEvent;
      ghost var before := words[..];
      ghost var was := currentEvent.shape;
      len := currentEvent.AddSubevent(out);
      ghost var during := words[..];
      WithSubeventLength(was, out);
      words[0] := words[0] + len * 4;
      EventExtended(before, during, words[..], currentIndex, events, currentEvent.base, currentEvent.shape);
      left := left - len;
      currentIndex := currentIndex + len;
      events := events[..|events| - 1] + [currentEvent.shape];
    }

    /** Takes the header of an ONCS event without subevents back. */
    method EmptyEvent()
      requires Valid() && live && !prdf && events[|events| - 1].subevents == []
      modifies this`currentIndex, this`left, this`events, this`live, words
      ensures Valid() && !live && !hasEnd && HeaderKept(old(words[..]), words[..])
      ensures currentIndex == old(currentIndex) - EVENT_HEADER
      ensures events == old(events)[..|old(events)| - 1]
    {
      hide LaidOut, Encode, EncodeAll, GoodEvent;
      ghost var before := words[..];
      LayoutShrinks(before, currentIndex, events);
      left := left + EVENT_HEADER;
      currentIndex := currentIndex - EVENT_HEADER;
      words[0] := words[0] - EVENT_HEADER * 4;
      live, events := false, events[..|events| - 1];
      LayoutKept(before, words[..], currentIndex, events, false);
    }

    /** The end marker always fits. */
    method AddEoB() returns (status: int)
      requires Valid()
      modifies this`currentIndex, this`hasEnd, this`live, words
      ensures Valid() && hasEnd && HeaderKept(old(words[..]), words[..])
      ensures status == if old(hasEnd) then -1 else 0
      ensures currentIndex == if old(hasEnd) then old(currentIndex) else old(currentIndex) + 2
      ensures old(hasEnd) ==> unchanged(words) && live == old(live)
    {
      hide LaidOut, Encode, EncodeAll, GoodEvent;
      if hasEnd {
        return -1;
      }
      ghost var before := words[..];
      words[BUFFER_HEADER + currentIndex] := 2;
      currentIndex := currentIndex + 1;
      words[BUFFER_HEADER + currentIndex] := 0;
      currentIndex := currentIndex + 1;
      words[0] := words[0] + 2 * 4;
      hasEnd, live := true, false;
      LayoutEnds(before, words[..], currentIndex - 2, events);
      status := 0;
    }

    /** The number of bytes handed to the file; the end marker is added if it is missing. */
    method WriteOut() returns (bytes: nat)
      requires Valid()
      modifies this`currentIndex, this`hasEnd, this`live, words
      ensures Valid() && hasEnd && bytes == RoundedUp(words[0])
      ensures old(hasEnd) ==> unchanged(words) && unchanged(this)
    {
      if !hasEnd {
        var _ := AddEoB();
      }
      var blockCount := (words[0] + WRITE_BLOCK - 1) / WRITE_BLOCK;
      bytes := blockCount * WRITE_BLOCK;
    }

    method SetMaxSize(size: int) returns (status: int)
      requires 0 <= maxLength
      modifies this`maxSize
      ensures status == if size < 0 then -1 else if WantedSize(size, maxLength) > maxLength then -2 else 0
      ensures maxSize == if size < 0 then old(maxSize)
                         else if status == -2 then maxLength
                         else WantedSize(size, maxLength)
    {
      if size < 0 {
        return -1;
      }
      if size == 0 {
        maxSize := maxLength;
      } else {
        maxSize := (size + 8191) / 8192;
        maxSize := maxSize * 2048;
        if maxSize > maxLength {
          maxSize := maxLength;
          return -2;
        }
      }
      status := 0;
    }
  }

  // ---------------------------------------------------------------------------------------------

  /** Before the end marker the counters are tied together, the end marker fits, and the current event
      has no more room than its buffer. */
  lemma {:induction false} Capacity(b: DaqBuffer)
    requires b.Valid() && !b.hasEnd
    ensures b.words[0] == 4 * (BUFFER_HEADER + b.currentIndex)
    ensures b.prepared == b.maxSize ==> b.left + b.currentIndex == b.maxSize - 8
    ensures BUFFER_HEADER + b.currentIndex + 2 <= b.prepared <= b.words.Length
    ensures b.live ==> 0 <= b.currentEvent.left <= b.left - EOB_LENGTH
  {
  }

  /** What was built is what a walk by evt_length and sub_length finds; it stops at a (2, 0) record that
      ends where the Length word says. */
  lemma {:induction false} BuiltBufferWalks(b: DaqBuffer)
    requires b.Valid() && b.hasEnd
    ensures DecodeAll(b.words[BUFFER_HEADER..], b.prdf) == b.events
    ensures b.words[0] % 4 == 0 && b.words[b.words[0] / 4 - 2] == 2 && b.words[b.words[0] / 4 - 1] == 0
  {
    hide LaidOut, Encode, EncodeAll, GoodEvent;
    assert b.words[BUFFER_HEADER..] == b.words[..][BUFFER_HEADER..];
    LayoutWalks(b.words[..], b.currentIndex, b.events, b.prdf);
  }

  lemma {:induction false} LayoutWalks(w: seq<int>, index: int, events: seq<Event>, framed: bool)
    requires Layout(w, index, events, true) && GoodEvents(events, framed)
    ensures DecodeAll(w[BUFFER_HEADER..], framed) == events
    ensures index >= 2 && w[BUFFER_HEADER + index - 2] == 2 && w[BUFFER_HEADER + index - 1] == 0
  {
    hide Encode, EncodeAll, GoodEvent, DecodeAll;
    var n, code := BUFFER_HEADER + index, EncodeAll(events);
    var d := w[BUFFER_HEADER..n];
    assert d[|code|] == 2 && d[|code| + 1] == 0;
    TwoSlices(w, BUFFER_HEADER, n, |w|);
    var end := [2, 0] + w[n..];
    assert w[BUFFER_HEADER..] == code + end;
    LayoutRoundTrip(events, end, framed);
  }

  /** In PRDF format the event length stays 8 words ahead of the frame length. */
  lemma {:induction false} FrameLengthFollows(w: seq<int>, base: nat, e: Event)
    requires LaidOut(w, base, e) && e.framed
    ensures w[base] == 8 + w[base + EVENT_HEADER]
  {
  }

  /** The byte count of a write is the least multiple of 8192 that covers the buffer. */
  lemma {:induction false} RoundedUpIsLeast(bytes: nat, m: nat)
    ensures RoundedUp(bytes) % WRITE_BLOCK == 0 && bytes <= RoundedUp(bytes)
    ensures m % WRITE_BLOCK == 0 && bytes <= m ==> RoundedUp(bytes) <= m
  {
    var q, k := (bytes + WRITE_BLOCK - 1) / WRITE_BLOCK, m / WRITE_BLOCK;
    if m % WRITE_BLOCK == 0 && bytes <= m {
      assert m == k * WRITE_BLOCK && q <= k;
    }
  }

  /** A write stays inside the buffer's size for every fill level exactly if that size is a whole number
      of blocks. */
  lemma {:induction false} WritesFit(size: nat)
    ensures size % 2048 == 0 <==> forall bytes :: 0 <= bytes <= 4 * size ==> RoundedUp(bytes) <= 4 * size
  {
    if size % 2048 == 0 {
      forall bytes | 0 <= bytes <= 4 * size
        ensures RoundedUp(bytes) <= 4 * size
      {
        RoundedUpIsLeast(bytes, 4 * size);
      }
    } else {
      RoundedUpIsLeast(4 * size, 0);
      assert RoundedUp(4 * size) > 4 * size;
    }
  }

  /** Every size setMaxSize can choose is a whole number of blocks if the allocation is. */
  lemma {:induction false} SizesAreWholeBlocks(size: nat, maxLength: nat)
    requires maxLength % 2048 == 0
    ensures WantedSize(size, maxLength) % 2048 == 0
    ensures size > 0 ==> size <= 4 * WantedSize(size, maxLength) < size + WRITE_BLOCK
  {
    var k := (size + 8191) / 8192;
    assert size > 0 ==> WantedSize(size, maxLength) == k * 2048;
  }

  /** A finished buffer's write stays inside the memory it was given. */
  lemma {:induction false} WriteStaysInside(b: DaqBuffer)
    requires b.Valid() && b.hasEnd && b.prepared % 2048 == 0
    ensures b.words[0] <= RoundedUp(b.words[0]) <= 4 * b.prepared <= 4 * b.words.Length
  {
    RoundedUpIsLeast(b.words[0], 4 * b.prepared);
  }

  /** A finished ONCS buffer holding these events, as a consumer or a later reader has it in memory. */
  ghost predicate Finished(w: seq<int>, events: seq<Event>) {
    && GoodEvents(events, false) && w != []
    && Layout(w, |EncodeAll(events)| + 2, events, true)
    && w[0] == 4 * (BUFFER_HEADER + |EncodeAll(events)| + 2)
  }

  /** The words that the Length word of a finished buffer covers. */
  lemma {:induction false} FinishedImage(b: DaqBuffer)
    requires b.Valid() && b.hasEnd && !b.prdf
    ensures b.words[0] == 4 * (BUFFER_HEADER + b.currentIndex) && b.currentIndex >= 2
    ensures Finished(b.words[..BUFFER_HEADER + b.currentIndex], b.events)
  {
    hide LaidOut, Encode, EncodeAll, GoodEvent;
    var image := b.words[..BUFFER_HEADER + b.currentIndex];
    assert image[BUFFER_HEADER..] == b.words[..][BUFFER_HEADER..BUFFER_HEADER + b.currentIndex];
  }
}
