/** daqONCSEvent and daqPRDFEvent: an event built in place inside the buffer's storage. */
module DaqEvents {
  import opened Sequences
  import opened EventLayout

  /** shape with what one device delivered; a device with nothing to say delivers no words. */
  function WithSubevent(e: Event, out: seq<int>): Event {
    if out == [] then e else e.(subevents := e.subevents + [out])
  }

  /** A device reads out nothing, or one subevent that begins with its own length. */
  predicate GoodOutput(out: seq<int>) { out == [] || GoodSubevent(out) }

  lemma {:induction false} WithSubeventJoin(e: Event, out: seq<int>)
    requires GoodEvent(e) && GoodOutput(out)
    ensures GoodEvent(WithSubevent(e, out))
    ensures Join(WithSubevent(e, out).subevents) == Join(e.subevents) + out
  {
    if out != [] {
      JoinAppend(e.subevents, out);
    }
  }

  lemma {:induction false} WithSubeventLength(e: Event, out: seq<int>)
    requires GoodEvent(e) && GoodOutput(out)
    ensures EventLength(WithSubevent(e, out)) == EventLength(e) + |out|
  {
    WithSubeventJoin(e, out);
  }

  ghost predicate EventHeaderAt(w: seq<int>, base: nat, e: Event)
    requires base + EVENT_HEADER <= |w|
  {
    && w[base] == EventLength(e) && w[base + 1] == e.etype && w[base + 2] == e.sequence
    && w[base + 3] == e.runNumber && w[base + 4] == e.date && w[base + 5] == e.time
    && w[base + 6] == 0 && w[base + 7] == 0
  }

  ghost predicate FrameHeaderAt(w: seq<int>, base: nat, e: Event)
    requires base + EVENT_HEADER + FRAME_HEADER <= |w|
  {
    && w[base + 8] == FRAME_HEADER + |Join(e.subevents)|
    && w[base + 9] == 0xffffff00 && w[base + 10] == 0x01080000 && w[base + 11] == 0x00002016
    && w[base + 12] == 0x00040000 && w[base + 13] == 0x00000200 && w[base + 14] == 0x55555555
    && w[base + 15] == 0x20160000
  }

  /** Event e occupies the words of w from base on. */
  ghost predicate LaidOut(w: seq<int>, base: nat, e: Event) {
    && base + EventLength(e) <= |w|
    && EventHeaderAt(w, base, e)
    && (e.framed ==> FrameHeaderAt(w, base, e))
    && w[base + HeaderWords(e.framed)..base + EventLength(e)] == Join(e.subevents)
  }

  lemma {:induction false} HeaderLaidOut(w: seq<int>, base: nat, e: Event)
    requires LaidOut(w, base, e)
    ensures w[base..base + HeaderWords(e.framed)] == FullHeader(e)
  {
    assert w[base..base + EVENT_HEADER] == EventHeader(e);
    if e.framed {
      assert w[base + EVENT_HEADER..base + EVENT_HEADER + FRAME_HEADER] == FrameHeader(|Join(e.subevents)|);
    }
  }

  lemma {:induction false} LaidOutIsEncode(w: seq<int>, base: nat, e: Event)
    requires LaidOut(w, base, e)
    ensures w[base..base + EventLength(e)] == Encode(e)
  {
    HeaderLaidOut(w, base, e);
    var m := base + HeaderWords(e.framed);
    assert w[base..base + EventLength(e)] == w[base..m] + w[m..base + EventLength(e)];
  }

  /** Writing the output behind the event and adding its length to the length words lays out the
      longer event. */
  lemma {:induction false} Extended(w: seq<int>, w': seq<int>, base: nat, e: Event, out: seq<int>)
    requires GoodEvent(e) && GoodOutput(out) && LaidOut(w, base, e)
    requires |w'| == |w| && base + EventLength(e) + |out| <= |w|
    requires w'[base] == w[base] + |out|
    requires e.framed ==> w'[base + EVENT_HEADER] == w[base + EVENT_HEADER] + |out|
    requires forall k :: base < k < base + EventLength(e) && !(e.framed && k == base + EVENT_HEADER) ==> w'[k] == w[k]
    requires w'[base + EventLength(e)..base + EventLength(e) + |out|] == out
    ensures LaidOut(w', base, WithSubevent(e, out)) && GoodEvent(WithSubevent(e, out))
    ensures EventLength(WithSubevent(e, out)) == EventLength(e) + |out|
  {
    hide Join, GoodEvent, Encode, WithSubevent, EventHeaderAt, FrameHeaderAt;
    WithSubeventJoin(e, out);
    SameButSubevents(e, out);
    GrownSlice(w, w', base + HeaderWords(e.framed), base + EventLength(e), |out|);
    ExtendedHeader(w, w', base, e, out);
  }

  lemma {:induction false} StillLaidOut(w: seq<int>, w': seq<int>, base: nat, e: Event)
    requires LaidOut(w, base, e) && |w'| == |w|
    requires forall k :: base <= k < base + EventLength(e) ==> w'[k] == w[k]
    ensures LaidOut(w', base, e)
  {
    assert w'[base + HeaderWords(e.framed)..base + EventLength(e)] ==
        w[base + HeaderWords(e.framed)..base + EventLength(e)];
  }

  lemma {:induction false} SameButSubevents(e: Event, out: seq<int>)
    ensures var x := WithSubevent(e, out);
            x.framed == e.framed && x.etype == e.etype && x.sequence == e.sequence && x.runNumber == e.runNumber
            && x.date == e.date && x.time == e.time
  {
  }

  lemma {:induction false} ExtendedHeader(w: seq<int>, w': seq<int>, base: nat, e: Event, out: seq<int>)
    requires |w'| == |w| && base + EventLength(e) <= |w| && GoodEvent(e) && GoodOutput(out)
    requires EventHeaderAt(w, base, e) && (e.framed ==> FrameHeaderAt(w, base, e))
    requires w'[base] == w[base] + |out|
    requires e.framed ==> w'[base + EVENT_HEADER] == w[base + EVENT_HEADER] + |out|
    requires forall k :: base < k < base + EventLength(e) && !(e.framed && k == base + EVENT_HEADER) ==> w'[k] == w[k]
    ensures EventHeaderAt(w', base, WithSubevent(e, out))
    ensures e.framed ==> FrameHeaderAt(w', base, WithSubevent(e, out))
  {
    hide Join, GoodEvent, WithSubevent;
    WithSubeventJoin(e, out);
    SameButSubevents(e, out);
  }

  lemma {:induction false} GrownSlice(w: seq<int>, w': seq<int>, m: nat, n: nat, more: nat)
    requires m <= n && n + more <= |w'| == |w|
    requires forall k :: m <= k < n ==> w'[k] == w[k]
    ensures w'[m..n + more] == w[m..n] + w'[n..n + more]
  {
    assert w'[m..n] == w[m..n];
  }

  /** An event without subevents is its header. */
  lemma {:induction false} EmptyEventLaidOut(w: seq<int>, base: nat, e: Event)
    requires e.subevents == [] && base + HeaderWords(e.framed) <= |w| && w[base] == HeaderWords(e.framed)
    requires w[base + 1] == e.etype && w[base + 2] == e.sequence && w[base + 3] == e.runNumber
    requires w[base + 4] == e.date && w[base + 5] == e.time && w[base + 6] == 0 && w[base + 7] == 0
    requires e.framed ==> FrameHeaderAt(w, base, e)
    ensures LaidOut(w, base, e) && GoodEvent(e) && EventLength(e) == HeaderWords(e.framed)
  {
    assert w[base + HeaderWords(e.framed)..base + HeaderWords(e.framed)] == [];
  }

  class DaqEvent {
    const words: array<int>  // the buffer's storage
    const base: nat          // event_base, as an index into it
    const prdf: bool
    var current: int
    var maxLength: int
    var left: int
    ghost var shape: Event   // what has been laid out so far

    ghost predicate Valid()
      reads this, words
    {
      && shape.framed == prdf && GoodEvent(shape)
      && LaidOut(words[..], base, shape)
      && current == EventLength(shape) - EVENT_HEADER
      && left == maxLength - EventLength(shape)
    }

    /** A new event at a place in the storage. */
    constructor (storage: array<int>, where: nat, length: int, irun: int, etype: int, evtseq: int, now: int,
                 framed: bool)
      requires where + HeaderWords(framed) <= storage.Length
      modifies storage
      ensures Valid() && words == storage && base == where && prdf == framed && maxLength == length
      ensures shape == Event(etype,
                             if evtseq < 0 then old(storage[where + 2]) + 1 else evtseq,
                             if irun > 0 then irun else old(storage[where + 3]),
                             if framed then now else 0, if framed then -1 else now, framed, [])
      ensures forall k :: 0 <= k < storage.Length && !(where <= k < where + HeaderWords(framed)) ==>
                storage[k] == old(storage[k])
    {
      words, base, prdf, maxLength := storage, where, framed, length;
      current, left := 0, 0;
      shape := Event(etype, 0, 0, 0, 0, framed, []);
      new;
      storage[where + 1] := etype;
      PrepareNext(evtseq, irun, now);
    }

    /** A negative sequence number counts up from what is in memory, and a run number that is not
        positive leaves the old one. */
    method PrepareNext(evtseq: int, irun: int, now: int)
      requires base + HeaderWords(prdf) <= words.Length
      modifies this, words
      ensures Valid() && maxLength == old(maxLength)
      ensures shape == Event(old(words[base + 1]),
                             if evtseq < 0 then old(words[base + 2]) + 1 else evtseq,
                             if irun > 0 then irun else old(words[base + 3]),
                             if prdf then now else 0, if prdf then -1 else now, prdf, [])
      ensures forall k :: 0 <= k < words.Length && !(base <= k < base + HeaderWords(prdf)) ==> words[k] == old(words[k])
    {
      hide LaidOut, GoodEvent, EventLength, FrameHeaderAt;
      WriteEventHeader(evtseq, irun, now);
      if prdf {
        WriteFrameHeader();
      }
      current := if prdf then FRAME_HEADER else 0;
      left := maxLength - HeaderWords(prdf);
      shape := Event(words[base + 1], words[base + 2], words[base + 3], words[base + 4], words[base + 5], prdf, []);
      EmptyEventLaidOut(words[..], base, shape);
    }

    /** The event header of an event without subevents; the type stays. */
    method WriteEventHeader(evtseq: int, irun: int, now: int)
      requires base + EVENT_HEADER <= words.Length
      modifies words
      ensures words[base] == HeaderWords(prdf) && words[base + 1] == old(words[base + 1])
      ensures words[base + 2] == if evtseq < 0 then old(words[base + 2]) + 1 else evtseq
      ensures words[base + 3] == if irun > 0 then irun else old(words[base + 3])
      ensures words[base + 4] == if prdf then now else 0
      ensures words[base + 5] == if prdf then -1 else now
      ensures words[base + 6] == 0 && words[base + 7] == 0
      ensures forall k :: 0 <= k < words.Length && !(base <= k < base + EVENT_HEADER) ==> words[k] == old(words[k])
    {
      words[base] := HeaderWords(prdf);
      if evtseq < 0 {
        words[base + 2] := words[base + 2] + 1;
      } else {
        words[base + 2] := evtseq;
      }
      if irun > 0 {
        words[base + 3] := irun;
      }
      words[base + 4] := if prdf then now else 0;
      words[base + 5] := if prdf then -1 else now;
      words[base + 6] := 0;
      words[base + 7] := 0;
    }

    /** The frame header of a PRDF event without packets. */
    method WriteFrameHeader()
      requires base + EVENT_HEADER + FRAME_HEADER <= words.Length
      modifies words
      ensures forall e: Event :: e.subevents == [] ==> FrameHeaderAt(words[..], base, e)
      ensures forall k :: 0 <= k < words.Length && !(base + EVENT_HEADER <= k < base + EVENT_HEADER + FRAME_HEADER) ==>
                words[k] == old(words[k])
    {
      var d := base + EVENT_HEADER;
      words[d] := 8;
      words[d + 1] := 0xffffff00;
      words[d + 2] := 0x01080000;
      words[d + 3] := 0x00002016;
      words[d + 4] := 0x00040000;
      words[d + 5] := 0x00000200;
      words[d + 6] := 0x55555555;
      words[d + 7] := 0x20160000;
    }

    /** The device puts its words behind the others; the lengths in the headers follow, unless there was
        less than no room left. */
    method AddSubevent(out: seq<int>) returns (len: int)
      requires Valid() && GoodOutput(out) && base + EventLength(shape) + |out| <= words.Length
      requires left >= 0 ==> |out| <= left
      modifies this, words
      ensures Valid() && maxLength == old(maxLength)
      ensures old(left) < 0 ==> len == 0 && shape == old(shape) && left == old(left)
      ensures old(left) >= 0 ==> len == |out| && shape == WithSubevent(old(shape), out)
      ensures words[base + EventLength(old(shape))..base + EventLength(old(shape)) + |out|] == out
      ensures forall k :: 0 <= k < words.Length && !(base <= k < base + EventLength(old(shape)) + |out|) ==>
                words[k] == old(words[k])
      ensures old(left) < 0 ==> forall k :: base <= k < base + EventLength(shape) ==> words[k] == old(words[k])
    {
      hide LaidOut, Encode, GoodEvent;
      ghost var before := words[..];
      PutData(base + EVENT_HEADER + current, out);
      if left < 0 {
        StillLaidOut(before, words[..], base, shape);
        return 0;
      }
      len := |out|;
      Lengthen(out, before);
    }

    /** The lengths in the headers and the counters follow what the device has put behind the event. */
    method Lengthen(out: seq<int>, ghost before: seq<int>)
      requires |before| == words.Length && LaidOut(before, base, shape) && GoodEvent(shape) && shape.framed == prdf
      requires current == EventLength(shape) - EVENT_HEADER && left == maxLength - EventLength(shape)
      requires GoodOutput(out) && base + EventLength(shape) + |out| <= words.Length
      requires words[base + EventLength(shape)..base + EventLength(shape) + |out|] == out
      requires forall k :: base <= k < base + EventLength(shape) ==> words[k] == before[k]
      modifies this, words
      ensures Valid() && maxLength == old(maxLength) && shape == WithSubevent(old(shape), out)
      ensures words[base + EventLength(old(shape))..base + EventLength(old(shape)) + |out|] == out
      ensures forall k :: 0 <= k < words.Length && !(base <= k < base + EventLength(old(shape))) ==>
                words[k] == old(words[k])
    {
      hide LaidOut, Encode, GoodEvent;
      ghost var end := base + EventLength(shape);
      ghost var placed := words[end..end + |out|];
      words[base] := words[base] + |out|;
      if prdf {
        words[base + EVENT_HEADER] := words[base + EVENT_HEADER] + |out|;
      }
      assert words[end..end + |out|] == placed;
      assert words[..][end..end + |out|] == placed;
      Extended(before, words[..], base, shape, out);
      current := current + |out|;
      left := left - |out|;
      shape := WithSubevent(shape, out);
    }

    /** What the device does with the address it is given. */
    method PutData(where: nat, out: seq<int>)
      requires where + |out| <= words.Length
      modifies words
      ensures words[where..where + |out|] == out
      ensures forall k :: 0 <= k < words.Length && !(where <= k < where + |out|) ==> words[k] == old(words[k])
    {
      forall k | 0 <= k < |out| {
        words[where + k] := out[k];
      }
    }
  }
}
