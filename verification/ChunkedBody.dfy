/** Reassembly of a chunked HTTP body in the receive buffer. */
module ChunkedBody {
  import opened Sequences
  import opened ChunkCoding
  import opened ChunkStreams
  import opened Memory
  import opened Mbufs

  /** The hexadecimal number at p: its digits and its value, modulo SIZE_LIMIT. */
  method ScanLength(buf: array<char>, p: nat, len: nat) returns (i: nat, n: nat)
    requires p + len <= buf.Length
    ensures var s := buf[p..p + len]; i == HexEnd(s) && n == HexValue(s[..i]) % SIZE_LIMIT
  {
    hide HexValue, HexDigit;
    ghost var s := buf[p..p + len];
    n, i := 0, 0;
    EmptyHex(s);
    while i < len && IsHexDigit(buf[p + i])
      invariant i <= len && (forall k :: 0 <= k < i ==> IsHexDigit(s[k])) && n == HexValue(s[..i]) % SIZE_LIMIT
    {
      assert s[i] == buf[p + i];
      NextHex(s, i);
      n := n * 16 % SIZE_LIMIT;
      n := (n + HexDigit(buf[p + i])) % SIZE_LIMIT;
      i := i + 1;
    }
    assert i < len ==> s[i] == buf[p + i];
    HexEndIs(s, i);
  }

  method AtLineEnd(buf: array<char>, p: nat, len: nat, i: nat) returns (found: bool)
    requires p + len <= buf.Length
    ensures found <==> LineEndAt(buf[p..p + len], i)
  {
    found := i + 2 <= len && buf[p + i] == '\r' && buf[p + i + 1] == '\n';
    assert i + 2 <= len ==> buf[p..p + len][i] == buf[p + i] && buf[p..p + len][i + 1] == buf[p + i + 1];
  }

  /** mg_http_parse_chunk on the len characters from p on: the bytes in the chunk, 0 if it finds none, and where
      its data is. Sizes are counted modulo SIZE_LIMIT. */
  method ParseChunk(buf: array<char>, p: nat, len: nat) returns (total: nat, data: nat, dataLen: nat)
    requires p + len <= buf.Length && len < SIZE_LIMIT
    ensures match Scanned(buf[p..p + len])
            case NoChunk => total == 0
            case Chunk(start, n, bytes) => total == bytes && data == p + start && dataLen == n
  {
    hide HexValue, HexEnd, LineEndAt;
    total, data, dataLen := 0, p, 0;
    var i, n := ScanLength(buf, p, len);
    var found := AtLineEnd(buf, p, len, i);
    if i == 0 || !found {
      return;
    }
    i := i + 2;
    data, dataLen := p + i, n;
    i := (i + n) % SIZE_LIMIT;
    // For the last two positions the sum i + 2 in the test is reduced as well, and the test looks before the
    // buffer. Whatever is there, the result is 0: i + 2 itself, or because a digit is not a line feed.
    found := AtLineEnd(buf, p, len, i);
    if i == 0 || !found {
      return;
    }
    total := i + 2;
  }

  lemma {:induction false} EmptyHex(s: string)
    ensures s[..0] == "" && HexValue("") == 0
  {
  }

  lemma {:induction false} NextHex(s: string, i: nat)
    requires i < |s| && forall k :: 0 <= k <= i ==> IsHexDigit(s[k])
    ensures var n := HexValue(s[..i]) % SIZE_LIMIT;
            HexValue(s[..i + 1]) % SIZE_LIMIT == (n * 16 % SIZE_LIMIT + HexDigit(s[i])) % SIZE_LIMIT
  {
    assert s[..i + 1][..i] == s[..i];
    var v, d := HexValue(s[..i]), HexDigit(s[i]);
    var n := v % SIZE_LIMIT;
    assert v == v / SIZE_LIMIT * SIZE_LIMIT + n;
    Wrapped(v * 16 + d, n * 16 + d, v / SIZE_LIMIT * 16);
    Wrapped(n * 16 + d, n * 16 % SIZE_LIMIT + d, n * 16 / SIZE_LIMIT);
  }

  lemma {:induction false} Wrapped(a: nat, b: nat, k: nat)
    requires a == k * SIZE_LIMIT + b
    ensures a % SIZE_LIMIT == b % SIZE_LIMIT
  {
    assert b == b / SIZE_LIMIT * SIZE_LIMIT + b % SIZE_LIMIT;
    assert a == (k + b / SIZE_LIMIT) * SIZE_LIMIT + b % SIZE_LIMIT;
  }

  /** n characters at src copied to dst. */
  function Moved(text: string, dst: nat, src: nat, n: nat): (moved: string)
    requires dst + n <= |text| && src + n <= |text|
    ensures |moved| == |text|
  {
    text[..dst] + text[src..src + n] + text[dst + n..]
  }

  method Move(buf: array<char>, base: nat, len: nat, dst: nat, src: nat, n: nat)
    requires base + len <= buf.Length && dst + n <= len && src + n <= len
    modifies buf
    ensures buf[base..base + len] == Moved(old(buf[base..base + len]), dst, src, n)
    ensures forall k :: 0 <= k < buf.Length && !(base <= k < base + len) ==> buf[k] == old(buf[k])
  {
    ghost var text := buf[base..base + len];
    ghost var moved := Moved(text, dst, src, n);
    Memmove(buf, base + dst, base + src, n);
    forall k | 0 <= k < len
      ensures buf[base..base + len][k] == moved[k]
    {
      assert buf[base..base + len][k] == buf[base + k];
      assert dst <= k < dst + n ==> moved[k] == text[k - dst + src] == old(buf[base + k - dst + src]);
      assert !(dst <= k < dst + n) ==> moved[k] == text[k] == old(buf[base + k]);
    }
  }

  /** In text, the part from b0 on has been decoded up to i; the bodies are at b0, without the gaps. */
  ghost predicate Compacted(text: string, b0: nat, b: nat, i: nat, t: Taken) {
    b0 <= b <= i <= |text| && t == Add(text[b0..b], TakeAll(text[i..]))
  }

  /** A chunk whose data is inside the text ends two characters behind it. */
  lemma {:induction false} ScannedInside(s: string)
    requires |s| < SIZE_LIMIT && Scanned(s).Chunk? && Scanned(s).start + Scanned(s).len <= |s|
    ensures Scanned(s).total == Scanned(s).start + Scanned(s).len + 2
  {
  }

  lemma {:induction false} ChunkMoved(text: string, b0: nat, b: nat, i: nat, t: Taken)
    requires Compacted(text, b0, b, i, t) && |text| < SIZE_LIMIT && Scanned(text[i..]).Chunk?
    requires i + Scanned(text[i..]).start + Scanned(text[i..]).len <= |text|
    ensures var c := Scanned(text[i..]);
            var next := Moved(text, b, i + c.start, c.len);
            && next[..b0] == text[..b0] && b0 <= b + c.len < i + c.total <= |text|
            && (c.len > 0 ==> Compacted(next, b0, b + c.len, i + c.total, t))
            && (c.len == 0 ==> t == Taken(Decoded(next[b0..b], next[i + c.total..], true)))
  {
    hide Scanned, TakeAll, Add;
    var s, c := text[i..], Scanned(text[i..]);
    var next := Moved(text, b, i + c.start, c.len);
    ScannedInside(s);
    TakeStep(s);
    MovedParts(text, b0, b, i, c.start, c.len, c.total);
    AddTwice(text[b0..b], s[c.start..c.start + c.len], TakeAll(s[c.total..]));
    AddLast(text[b0..b], s[c.total..]);
  }

  lemma {:induction false} MovedParts(text: string, b0: nat, b: nat, i: nat, start: nat, n: nat, total: nat)
    requires b0 <= b <= i && i + start + n <= i + total <= |text|
    ensures var next, s := Moved(text, b, i + start, n), text[i..];
            && next[..b0] == text[..b0] && next[i + total..] == s[total..] && next[b0..b] == text[b0..b]
            && next[b0..b + n] == text[b0..b] + s[start..start + n]
  {
    assert text[i + start..i + start + n] == text[i..][start..start + n];
  }

  lemma {:induction false} AddLast(body: string, rest: string)
    ensures Add(body, Taken(Decoded("", rest, true))) == Taken(Decoded(body, rest, true))
  {
    assert body + "" == body;
  }

  lemma {:induction false} TakeStep(s: string)
    ensures var c := Scanned(s);
            TakeAll(s) ==
              if c.NoChunk? then Taken(Decoded("", s, false))
              else if c.start + c.len > |s| then Outside
              else if c.len == 0 then Taken(Decoded("", s[c.total..], true))
              else Add(s[c.start..c.start + c.len], TakeAll(s[c.total..]))
  {
  }

  lemma {:induction false} AddTwice(a: string, b: string, t: Taken)
    ensures Add(a, Add(b, t)) == Add(a + b, t)
  {
    if t.Taken? {
      assert a + (b + t.d.body) == a + b + t.d.body;
    }
  }

  lemma {:induction false} CompactedStart(text: string, b0: nat)
    requires b0 <= |text|
    ensures Compacted(text, b0, b0, b0, TakeAll(text[b0..]))
  {
    var t := TakeAll(text[b0..]);
    if t.Taken? {
      assert text[b0..b0] + t.d.body == t.d.body;
    }
  }

  /** The loop ends: nothing more is found, or what is found is not inside the text. */
  lemma {:induction false} CompactedEnd(text: string, b0: nat, b: nat, i: nat, t: Taken)
    requires Compacted(text, b0, b, i, t)
    ensures Scanned(text[i..]).NoChunk? ==> t == Taken(Decoded(text[b0..b], text[i..], false))
    ensures Scanned(text[i..]).Chunk? && i + Scanned(text[i..]).start + Scanned(text[i..]).len > |text| ==> t.Outside?
  {
    assert text[b0..b] + "" == text[b0..b];
  }

  /** The loop of mg_handle_chunked over the blen characters at base: the chunks behind the body so far, of
      bodyLen characters, are joined to it. Writing never overtakes reading. The loop stops with outside set
      where the program would copy data from beyond the buffer. */
  method Collapse(buf: array<char>, base: nat, blen: nat, bodyLen: nat)
    returns (i: nat, newLen: nat, last: bool, outside: bool)
    requires bodyLen <= blen < SIZE_LIMIT && base + blen <= buf.Length
    modifies buf
    ensures bodyLen <= newLen <= i <= blen && (newLen < i <==> i > bodyLen)
    ensures var before, now := old(buf[base..base + blen]), buf[base..base + blen];
            && now[..bodyLen] == before[..bodyLen]
            && TakeAll(before[bodyLen..])
                 == (if outside then Outside else Taken(Decoded(now[bodyLen..newLen], now[i..], last)))
            && (i == bodyLen ==> now == before && !last)
    ensures forall k :: 0 <= k < buf.Length && !(base <= k < base + blen) ==> buf[k] == old(buf[k])
  {
    hide TakeAll, Scanned, Moved, Compacted;
    ghost var before := buf[base..base + blen];
    ghost var t := TakeAll(before[bodyLen..]);
    i, newLen, last, outside := bodyLen, bodyLen, false, false;
    CompactedStart(before, bodyLen);
    while true
      invariant bodyLen <= newLen <= i <= blen && (newLen < i <==> i > bodyLen)
      invariant Compacted(buf[base..base + blen], bodyLen, newLen, i, t)
      invariant buf[base..base + blen][..bodyLen] == before[..bodyLen]
      invariant i == bodyLen ==> buf[base..base + blen] == before
      invariant forall k :: 0 <= k < buf.Length && !(base <= k < base + blen) ==> buf[k] == old(buf[k])
      decreases blen - i
    {
      ghost var text := buf[base..base + blen];
      assert buf[base + i..base + i + (blen - i)] == text[i..];
      var n, data, dataLen := ParseChunk(buf, base + i, blen - i);
      CompactedEnd(text, bodyLen, newLen, i, t);
      if n == 0 {
        return;
      }
      if data - base + dataLen > blen {
        outside := true;
        return;
      }
      ChunkMoved(text, bodyLen, newLen, i, t);
      Move(buf, base, blen, newLen, data - base, dataLen);
      newLen := newLen + dataLen;
      if dataLen == 0 {
        last := true;
        i := i + n;
        return;
      }
      i := i + n;
    }
  }

  /** The n characters at src are now at dst, and what is before dst has not changed. */
  ghost predicate ShiftedDown(before: string, after: string, dst: nat, src: nat, n: nat) {
    && dst <= src && src + n <= |before| == |after|
    && after[..dst] == before[..dst] && after[dst..dst + n] == before[src..src + n]
  }

  /** Moves n characters down and clears what they leave. */
  method ShiftDown(buf: array<char>, dst: nat, src: nat, n: nat)
    requires dst <= src && src + n <= buf.Length
    modifies buf
    ensures ShiftedDown(old(buf[..]), buf[..], dst, src, n)
  {
    ghost var moved := buf[src..src + n];
    Memmove(buf, dst, src, n);
    assert buf[dst..dst + n] == moved;
    Memset(buf, dst + n, '\0', src - dst);
    assert buf[dst..dst + n] == moved;
  }

  /** Clears the characters from dst to src and moves n characters down over them. */
  method DeleteAndShift(buf: array<char>, dst: nat, src: nat, n: nat)
    requires dst <= src && src + n <= buf.Length
    modifies buf
    ensures ShiftedDown(old(buf[..]), buf[..], dst, src, n)
  {
    ghost var moved := buf[src..src + n];
    Memset(buf, dst, '\0', src - dst);
    assert buf[src..src + n] == moved;
    Memmove(buf, dst, src, n);
    assert buf[dst..dst + n] == moved;
  }

  /** mg_send_http_chunk: the length, the data and the line ends go to the send buffer one after the other. */
  method SendChunk(send: Mbuf<char>, data: string)
    requires send.Valid()
    modifies send, send.buf
    ensures send.Valid() && (send.buf == old(send.buf) || fresh(send.buf))
    ensures send.Contents() == old(send.Contents()) + Encode(data)
  {
    ghost var before := send.Contents();
    send.Append(HexText(|data|) + "\r\n");
    send.Append(data);
    send.Append("\r\n");
    assert before + (HexText(|data|) + "\r\n") + data + "\r\n" == before + Encode(data);
  }

  /** A connection that receives a chunked message. The header, of head characters, stays in front. */
  class HttpConnection {
    const recv: Mbuf<char>
    const head: nat
    var bodyLen: nat              // chunk.body_len
    var messageLen: int           // hm->message.len, -1 while the end of the message is not known
    ghost var stream: string      // everything received behind the header
    ghost var deleted: string     // what the handler has had deleted

    constructor (header: string)
      ensures Tracking() && stream == "" && recv.Contents() == header && head == |header|
      ensures fresh(recv) && fresh(recv.buf)
    {
      var mbuf := new Mbuf();
      mbuf.Append(header);
      recv, head, bodyLen, messageLen := mbuf, |header|, 0, -1;
      stream, deleted := "", "";
      new;
      assert header[..|header|] == header;
    }

    ghost predicate Valid()
      reads this`bodyLen, recv
    {
      recv.Valid() && head + bodyLen <= recv.len
    }

    /** What is behind the header. */
    ghost function Region(): string
      requires Valid()
      reads this`bodyLen, recv, recv.buf
    {
      recv.buf[head..recv.len]
    }

    ghost function Header(): string
      requires Valid()
      reads this`bodyLen, recv, recv.buf
    {
      recv.buf[..head]
    }

    ghost function Body(): string
      requires Valid()
      reads this`bodyLen, recv, recv.buf
    {
      Region()[..bodyLen]
    }

    ghost function Unparsed(): string
      requires Valid()
      reads this`bodyLen, recv, recv.buf
    {
      Region()[bodyLen..]
    }

    /** The body and the unparsed rest are what decoding the whole stream gives. */
    ghost predicate Tracking()
      reads this, recv, recv.buf
    {
      && Valid()
      && var d := Decode(stream);
         deleted + Body() == d.body && Unparsed() == d.rest
    }

    /** The parsed body grows to newLen characters; the unparsed ones from i on are moved down to it. */
    method CloseGap(newLen: nat, i: nat)
      requires Valid() && newLen <= i <= recv.len - head
      modifies this`bodyLen, recv`len, recv.buf
      ensures Valid() && Header() == old(Header()) && Body() == old(Region())[..newLen]
              && Unparsed() == old(Region())[i..]
    {
      hide ShiftedDown;
      var n := recv.len - head - i;
      ghost var before := recv.buf[..];
      ShiftDown(recv.buf, head + newLen, head + i, n);
      recv.len := recv.len - (i - newLen);
      bodyLen := newLen;
      MovedDown(before, recv.buf[..], head, newLen, i, n);
    }

    /** The handler has had the body deleted. */
    method DeleteBody()
      requires Valid()
      modifies this`bodyLen, recv`len, recv.buf
      ensures Valid() && Header() == old(Header()) && Body() == "" && Unparsed() == old(Unparsed())
    {
      hide ShiftedDown;
      var n := recv.len - head - bodyLen;
      ghost var before := recv.buf[..];
      DeleteAndShift(recv.buf, head, head + bodyLen, n);
      ghost var deletedLen := bodyLen;
      recv.len := recv.len - bodyLen;
      bodyLen := 0;
      MovedDown(before, recv.buf[..], head, bodyLen, deletedLen, n);
    }

    /** The loop of mg_handle_chunked on the receive buffer. */
    method CollapseRegion() returns (i: nat, newLen: nat, last: bool, outside: bool)
      requires Valid() && |Region()| < SIZE_LIMIT
      modifies recv.buf
      ensures Valid() && Header() == old(Header()) && bodyLen <= newLen <= i <= |Region()|
      ensures outside <==> TakeAll(old(Unparsed())).Outside?
      ensures !outside ==> var d := TakeAll(old(Unparsed())).d;
                           && Region()[..newLen] == old(Body()) + d.body && Region()[i..] == d.rest && last == d.last
                           && (newLen < i ==> |d.rest| < |old(Unparsed())|)
      ensures newLen == i ==> Region() == old(Region()) && i == bodyLen && !last
    {
      hide TakeAll;
      ghost var header, before := Header(), Region();
      i, newLen, last, outside := Collapse(recv.buf, head, recv.len - head, bodyLen);
      assert Header() == header;
      BodyGrown(before, Region(), bodyLen, newLen, i);
    }

    /** mg_handle_chunked; handlerDeletes is whether the handler of the chunk event sets MG_F_DELETE_CHUNK,
        and seen the body that it was shown. The model ends where the program would leave the buffer. */
    method HandleChunked(handlerDeletes: bool) returns (event: bool, last: bool, outside: bool, ghost seen: string)
      requires Valid() && |Region()| < SIZE_LIMIT
      modifies this`bodyLen, this`messageLen, recv`len, recv.buf
      ensures Valid() && Header() == old(Header()) && |Region()| <= |old(Region())|
      ensures outside <==> TakeAll(old(Unparsed())).Outside?
      ensures !outside ==> var d := TakeAll(old(Unparsed())).d;
                           && last == d.last && Unparsed() == d.rest && seen == old(Body()) + d.body
                           && Body() == (if event && handlerDeletes then "" else seen)
                           && (event <==> |d.rest| < |old(Unparsed())|)
                           && messageLen == if last then bodyLen + |Unparsed()| else old(messageLen)
    {
      hide TakeAll;
      var blen, i, newLen := recv.len - head, 0, 0;
      i, newLen, last, outside := CollapseRegion();
      seen := Region()[..newLen];
      event := i > newLen;
      if outside {
        return;
      }
      if event {
        CloseGap(newLen, i);
        if handlerDeletes {
          DeleteBody();
        }
        if last {
          messageLen := bodyLen + blen - i;
        }
      }
    }

    /** The body so far, with what the handler has had deleted. */
    ghost function Received(): string
      requires Valid()
      reads this, recv, recv.buf
    {
      deleted + Body()
    }

    /** One receive: the bytes are appended, and what the loop now takes is reassembled. As long as body and rest
        are those of the whole stream they stay so, if and only if no announced length is lost. */
    method Receive(data: string, handlerDeletes: bool) returns (event: bool, last: bool, outside: bool)
      requires Valid() && |Region()| + |data| < SIZE_LIMIT
      modifies this, recv, recv.buf
      ensures Valid() && Header() == old(Header()) && (recv.buf == old(recv.buf) || fresh(recv.buf))
      ensures stream == old(stream) + data && |Region()| <= |old(Region())| + |data|
      ensures outside <==> TakeAll(old(Unparsed()) + data).Outside?
      ensures !outside ==>
                var d := TakeAll(old(Unparsed()) + data).d;
                && Received() == old(Received()) + d.body && Unparsed() == d.rest && last == d.last
                && deleted == (if event && handlerDeletes then Received() else old(deleted))
                && messageLen == (if last then bodyLen + |Unparsed()| else old(messageLen))
      ensures old(Tracking() && !Decode(stream).last) ==>
                && (!outside && Tracking() <==> LengthsKept(old(Unparsed()) + data))
                && (LengthsKept(old(Unparsed()) + data) ==> last == Decode(stream).last)
    {
      hide Decode, TakeAll, LengthsKept, Header, Body, Unparsed, Region;
      ghost var taken := TakeAll(Unparsed() + data);
      if Tracking() && !Decode(stream).last {
        TakenOfStream(data);
      }
      if taken.Taken? {
        Rejoin(deleted, Body(), taken.d.body);
      }
      AppendData(data);
      stream := stream + data;
      ghost var seen;
      event, last, outside, seen := HandleChunked(handlerDeletes);
      if event && handlerDeletes {
        deleted := deleted + seen;
        NothingLeft(deleted);
      }
    }

    /** The rest holds no complete chunk, and no length has been lost in it. */
    ghost predicate Waiting()
      requires Valid()
      reads this`bodyLen, recv, recv.buf
    {
      Decode(Unparsed()) == Decoded("", Unparsed(), false) && LengthsKept(Unparsed())
    }

    /** Receives until the last chunk has come, n pieces of the stream: whatever the pieces, what has been received
        is what taking them one after the other gives, and that is what decoding the whole stream gives if and
        only if no announced length is lost in it. */
    method ReceiveAll(pieces: seq<string>, deletes: seq<bool>) returns (n: nat, last: bool, outside: bool)
      requires Valid() && |deletes| == |pieces| && |Region()| + |Join(pieces)| < SIZE_LIMIT
      modifies this, recv, recv.buf
      ensures Valid() && Header() == old(Header()) && (recv.buf == old(recv.buf) || fresh(recv.buf))
      ensures n <= |pieces| && stream == old(stream) + Join(pieces[..n])
      ensures outside <==> TakePieces(old(Unparsed()), pieces).Outside?
      ensures !outside ==> Taken(Decoded(Received(), Unparsed() + Join(pieces[n..]), last)) ==
                           Add(old(Received()), TakePieces(old(Unparsed()), pieces))
      ensures !outside && !last ==> n == |pieces|
      ensures old(Waiting()) ==>
                var whole := old(Unparsed()) + Join(pieces);
                var d := Decode(whole);
                (LengthsKept(whole) <==>
                 && !outside && Received() == old(Received()) + d.body
                 && Unparsed() + Join(pieces[n..]) == d.rest && last == d.last)
    {
      hide Decode, TakeAll, LengthsKept, Header, Body, Unparsed, Region, Tracking, Join, TakePieces, Received;
      ghost var got := Received();
      if Waiting() {
        PendingLength(Join(pieces));
        PiecesExactly(Unparsed(), pieces);
        Cancels(got, TakePieces(Unparsed(), pieces), Decode(Unparsed() + Join(pieces)));
      }
      n, last, outside := 0, false, false;
      BeforeFirst(pieces, old(stream));
      AddNothing(got, TakePieces(Unparsed(), pieces));
      while n < |pieces| && !last
        invariant Valid() && Header() == old(Header()) && (recv.buf == old(recv.buf) || fresh(recv.buf))
        invariant n <= |pieces| && stream == old(stream) + Join(pieces[..n])
        invariant !last ==> |Region()| + |Join(pieces[n..])| < SIZE_LIMIT
        invariant Add(got, TakePieces(old(Unparsed()), pieces)) ==
                  if last then Taken(Decoded(Received(), Unparsed() + Join(pieces[n..]), true))
                  else Add(Received(), TakePieces(Unparsed(), pieces[n..]))
        decreases |pieces| - n, !last
      {
        ghost var rest, so := Unparsed(), Received();
        PieceStep(rest, so, pieces, n);
        PieceLength(pieces, n, old(stream));
        var event;
        event, last, outside := Receive(pieces[n], deletes[n]);
        n := n + 1;
        if outside {
          return;
        }
      }
      AtTheEnd(Unparsed(), Received(), pieces, n);
    }

    /** What the loop takes next and what decoding the stream gives. */
    lemma {:induction false} TakenOfStream(data: string)
      requires Tracking() && !Decode(stream).last && |Region()| + |data| < SIZE_LIMIT
      ensures var taken, whole := TakeAll(Unparsed() + data), Decode(stream + data);
              && (taken.Taken? && taken.d.rest == whole.rest && Received() + taken.d.body == whole.body <==>
                  LengthsKept(Unparsed() + data))
              && (LengthsKept(Unparsed() + data) ==> taken.d.last == whole.last)
    {
      hide Decode, TakeAll, LengthsKept;
      var pending := Unparsed() + data;
      DecodeExtends(stream, data);
      PendingLength(data);
      TakesWhatIsThere(pending);
      if TakeAll(pending).Taken? {
        SamePart(Received(), Decode(pending).body, TakeAll(pending).d.body);
      }
    }

    lemma {:induction false} PendingLength(data: string)
      requires Valid()
      ensures |Unparsed() + data| <= |Region()| + |data|
    {
    }

    method AppendData(data: string)
      requires Valid()
      modifies recv, recv.buf
      ensures Valid() && Header() == old(Header()) && Body() == old(Body()) && Unparsed() == old(Unparsed()) + data
      ensures |Region()| == |old(Region())| + |data| && (recv.buf == old(recv.buf) || fresh(recv.buf))
    {
      ghost var all := recv.Contents();
      assert Header() == all[..head] && Region() == all[head..];
      recv.Append(data);
      assert recv.Contents() == all + data;
      assert Header() == (all + data)[..head] && Region() == (all + data)[head..];
    }
  }

  lemma {:induction false} BodyGrown(before: string, now: string, bodyLen: nat, newLen: nat, i: nat)
    requires bodyLen <= newLen <= i <= |before| == |now| && now[..bodyLen] == before[..bodyLen]
    ensures now[..newLen] == before[..bodyLen] + now[bodyLen..newLen]
    ensures i > bodyLen ==> |now[i..]| < |before[bodyLen..]|
  {
  }

  lemma {:induction false} MovedDown(before: string, after: string, head: nat, keep: nat, from: nat, n: nat)
    requires ShiftedDown(before, after, head + keep, head + from, n)
    ensures after[..head] == before[..head]
    ensures after[head..head + keep + n][..keep] == before[head..head + from + n][..keep]
    ensures after[head..head + keep + n][keep..] == before[head..head + from + n][from..]
  {
    var dst := head + keep;
    assert after[..dst][..head] == after[..head] && before[..dst][..head] == before[..head];
    assert after[..dst][head..] == after[head..dst + n][..keep]
        && before[..dst][head..] == before[head..head + from + n][..keep];
    assert after[dst..dst + n] == after[head..dst + n][keep..];
    assert before[head + from..head + from + n] == before[head..head + from + n][from..];
  }

  lemma {:induction false} SamePart(a: string, b: string, c: string)
    ensures a + b == a + c <==> b == c
  {
    assert (a + b)[|a|..] == b && (a + c)[|a|..] == c;
  }

  lemma {:induction false} Cancels(so: string, t: Taken, d: Decoded)
    ensures Add(so, t) == Taken(Decoded(so + d.body, d.rest, d.last)) <==> t == Taken(d)
  {
    if t.Taken? {
      SamePart(so, t.d.body, d.body);
    }
  }

  lemma {:induction false} BeforeFirst(pieces: seq<string>, stream: string)
    ensures pieces[0..] == pieces && stream + Join(pieces[..0]) == stream
  {
  }

  lemma {:induction false} AddNothing(got: string, t: Taken)
    ensures t.Taken? ==> got + t.d.body == Add(got, t).d.body
  {
  }

  /** What the next piece contributes. */
  lemma {:induction false} PieceStep(rest: string, so: string, pieces: seq<string>, n: nat)
    requires n < |pieces|
    ensures Add(so, TakePieces(rest, pieces[n..])) ==
            match TakeAll(rest + pieces[n])
            case Outside => Outside
            case Taken(d) =>
              if d.last then Taken(Decoded(so + d.body, d.rest + Join(pieces[n + 1..]), true))
              else Add(so + d.body, TakePieces(d.rest, pieces[n + 1..]))
  {
    hide TakeAll, Join;
    assert pieces[n..][0] == pieces[n] && pieces[n..][1..] == pieces[n + 1..];
    var t := TakeAll(rest + pieces[n]);
    if t.Taken? && !t.d.last && TakePieces(t.d.rest, pieces[n + 1..]).Taken? {
      Rejoin(so, t.d.body, TakePieces(t.d.rest, pieces[n + 1..]).d.body);
    }
  }

  lemma {:induction false} PieceLength(pieces: seq<string>, n: nat, stream: string)
    requires n < |pieces|
    ensures |Join(pieces[n..])| == |pieces[n]| + |Join(pieces[n + 1..])|
    ensures stream + Join(pieces[..n]) + pieces[n] == stream + Join(pieces[..n + 1])
  {
    hide Join;
    assert pieces[n..][1..] == pieces[n + 1..] && pieces[..n + 1] == pieces[..n] + [pieces[n]];
    JoinFirst(pieces[n..]);
    JoinAppend(pieces[..n], pieces[n]);
  }

  lemma {:induction false} AtTheEnd(rest: string, so: string, pieces: seq<string>, n: nat)
    requires n <= |pieces|
    ensures n == |pieces| ==>
              Add(so, TakePieces(rest, pieces[n..])) == Taken(Decoded(so, rest + Join(pieces[n..]), false))
  {
    if n == |pieces| {
      assert pieces[n..] == [] && so + "" == so && rest + "" == rest;
    }
  }

  lemma {:induction false} Rejoin(a: string, b: string, c: string)
    ensures a + b + c == a + (b + c)
  {
  }

  lemma {:induction false} NothingLeft(a: string)
    ensures a + "" == a
  {
  }
}
