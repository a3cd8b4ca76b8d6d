/** Receiving and sending WebSocket frames. */
module WebSocket {
  import opened Bytes
  import opened Sequences
  import opened Mbufs
  import opened WebSocketFrames

  /** The payload of len bytes behind the header is unmasked where it is. */
  method Unmask(buf: array<byte>, header: nat, len: nat)
    requires 4 <= header && header + len <= buf.Length
    modifies buf
    ensures buf[header..header + len] == ApplyMask(old(buf[header - 4..header]), old(buf[header..header + len]))
    ensures forall k :: 0 <= k < buf.Length && !(header <= k < header + len) ==> buf[k] == old(buf[k])
  {
    ghost var key, data := buf[header - 4..header], buf[header..header + len];
    var i := 0;
    while i < len
      invariant i <= len
      invariant forall k :: header <= k < header + i ==> buf[k] == Xor(data[k - header], key[(k - header) % 4])
      invariant forall k :: header + i <= k < header + len ==> buf[k] == data[k - header]
      invariant forall k :: 0 <= k < buf.Length && !(header <= k < header + len) ==> buf[k] == old(buf[k])
    {
      assert key[i % 4] == buf[header - 4 + i % 4];
      buf[i + header] := Xor(buf[i + header], buf[header - 4 + i % 4]);
      i := i + 1;
    }
  }

  /** mg_ws_mask_frame: what has been appended from pos on is masked; a position of 0 means unmasked. */
  method MaskFrame(send: Mbuf<byte>, pos: nat, key: seq<byte>)
    requires send.Valid() && pos <= send.len && |key| == 4
    modifies send.buf
    ensures send.Valid()
    ensures send.Contents() ==
              if pos == 0 then old(send.Contents())
              else old(send.Contents())[..pos] + ApplyMask(key, old(send.Contents())[pos..])
  {
    if pos == 0 {
      return;
    }
    ghost var before := send.Contents();
    var buf, i := send.buf, 0;
    while i < send.len - pos
      invariant i <= send.len - pos
      invariant forall k :: 0 <= k < pos ==> buf[k] == before[k]
      invariant forall k :: pos <= k < pos + i ==> buf[k] == Xor(before[k], key[(k - pos) % 4])
      invariant forall k :: pos + i <= k < send.len ==> buf[k] == before[k]
    {
      buf[pos + i] := Xor(buf[pos + i], key[i % 4]);
      i := i + 1;
    }
    assert send.Contents()[..pos] == before[..pos];
    assert send.Contents()[pos..] == ApplyMask(key, before[pos..]);
  }

  /** The first bytes of a frame: flags and length. */
  method BuildHeader(op: nat, len: nat, client: bool) returns (header: seq<byte>)
    requires len < WORD * WORD
    ensures header == [Flags(op)] + LengthBytes(len, client)
  {
    hide BigEndian, Flags;
    var bit := if client then 128 else 0;
    if len < 126 {
      header := [Flags(op), bit + len];
    } else if len < 65535 {
      header := [Flags(op), bit + 126] + BigEndian(len, 2);
      FirstTwo(Flags(op), bit + 126, BigEndian(len, 2));
    } else {
      var high, low := BigEndian(len / WORD, 4), BigEndian(len % WORD, 4);
      TwoWords(len % WORD, len / WORD);
      FirstTwo(Flags(op), bit + 127, high + low);
      header := [Flags(op), bit + 127] + (high + low);
    }
  }

  lemma {:induction false} FirstTwo<T>(a: T, b: T, rest: seq<T>)
    ensures [a, b] + rest == [a] + ([b] + rest)
  {
  }

  /** mg_send_ws_header: a client also sends a key, and notes where the payload starts. */
  method SendHeader(send: Mbuf<byte>, op: nat, len: nat, client: bool, key: seq<byte>) returns (pos: nat)
    requires send.Valid() && len < WORD * WORD && |key| == 4
    modifies send, send.buf
    ensures send.Valid() && (send.buf == old(send.buf) || fresh(send.buf))
    ensures send.Contents() ==
              old(send.Contents()) + [Flags(op)] + LengthBytes(len, client) + (if client then key else [])
    ensures pos == if client then |send.Contents()| else 0
  {
    hide Flags, LengthBytes;
    var header := BuildHeader(op, len, client);
    ghost var before := send.Contents();
    send.Append(header);
    pos := 0;
    if client {
      send.Append(key);
      pos := send.len;
    }
    assert before + ([Flags(op)] + LengthBytes(len, client)) == before + [Flags(op)] + LengthBytes(len, client);
  }

  /** The first byte of a frame; WEBSOCKET_DONT_FIN is bit 8 of op. */
  function Flags(op: nat): byte {
    (if op / 0x100 % 2 == 1 then 0 else 0x80) + op % 16
  }

  /** The byte carries the opcode, the lower four bits of op, and is final exactly without WEBSOCKET_DONT_FIN; so a
      receiver takes the frame for a part of a longer message exactly with that flag or for a continuation, and
      for a close exactly with opcode 8. */
  lemma {:induction false} FlagsMean(op: nat)
    ensures Flags(op) % 16 == op % 16 && (Flags(op) >= 128 <==> op / 256 % 2 == 0)
    ensures Flags(op) / 16 == if op / 256 % 2 == 0 then 8 else 0
    ensures IsFragment(Flags(op)) <==> op / 256 % 2 == 1 || op % 16 == 0
    ensures IsClose(Message(Flags(op), [])) <==> op % 16 == 8
  {
  }

  /** mg_send_websocket_frame; the key is the random mask of a client. The result is whether the connection
      is to be closed. */
  method SendFrame(send: Mbuf<byte>, op: nat, data: seq<byte>, client: bool, key: seq<byte>) returns (closing: bool)
    requires send.Valid() && |data| < WORD * WORD && |key| == 4
    modifies send, send.buf
    ensures send.Valid() && (send.buf == old(send.buf) || fresh(send.buf))
    ensures send.Contents() ==
              old(send.Contents()) + Encode(Message(Flags(op), data), if client then Mask(key) else NoMask)
    ensures closing <==> op == OP_CLOSE
  {
    hide LengthBytes, ApplyMask, Flags;
    ghost var before, bytes := send.Contents(), LengthBytes(|data|, client);
    var pos := SendHeader(send, op, |data|, client, key);
    ghost var head := send.Contents();
    send.Append(data);
    assert (head + data)[..|head|] == head && (head + data)[|head|..] == data;
    MaskFrame(send, pos, key);
    ghost var payload := if client then key + ApplyMask(key, data) else data;
    assert before + [Flags(op)] + bytes + payload == before + ([Flags(op)] + bytes + payload);
    assert client ==>
        before + [Flags(op)] + bytes + key + ApplyMask(key, data) == before + [Flags(op)] + bytes + payload;
    assert client ==> [Flags(op)] + bytes + payload == [Flags(op)] + bytes + key + ApplyMask(key, data);
    closing := op == OP_CLOSE;
  }

  /** The lengths that s announces, as far as they are there. */
  ghost predicate Announced(s: seq<byte>, headerLen: nat, dataLen: nat, maskLen: nat) {
    && (headerLen == 0 ==> dataLen == 0 && (|s| < 2 || |s| < HeaderLength(s[1])))
    && (headerLen > 0 ==> |s| >= 2 && headerLen == HeaderLength(s[1]) && maskLen == (if s[1] >= 128 then 4 else 0))
    && (if headerLen <= |s| then headerLen > 0 ==> dataLen == DataLength(s) else dataLen < 126)
  }

  lemma {:induction false} AnnouncedTaken(s: seq<byte>, headerLen: nat, dataLen: nat, maskLen: nat)
    requires Announced(s, headerLen, dataLen, maskLen) && |s| < WORD * WORD
    ensures 0 < Wrapped(headerLen + dataLen) <= |s| <==> FrameTaken(s).Frame?
    ensures FrameTaken(s).Frame? ==> FrameTaken(s) == Frame(headerLen, dataLen, maskLen > 0)
  {
    hide Value;
    if headerLen > |s| {
      KeptSum(headerLen + dataLen, |s|);
    }
  }

  /** The lengths that the first bytes announce, as far as they are there; all 0 if not even two are. */
  method ParseHeader(buf: array<byte>, bufLen: nat) returns (headerLen: nat, dataLen: nat, maskLen: nat)
    requires bufLen <= buf.Length
    ensures Announced(buf[..bufLen], headerLen, dataLen, maskLen)
  {
    hide Value;
    headerLen, dataLen, maskLen := 0, 0, 0;
    ghost var s := buf[..bufLen];
    if bufLen >= 2 {
      var len := buf[1] % 128;
      maskLen := if buf[1] >= 128 then 4 else 0;
      if len < 126 && bufLen >= maskLen {
        dataLen := len;
        headerLen := 2 + maskLen;
      } else if len == 126 && bufLen >= 4 + maskLen {
        headerLen := 4 + maskLen;
        dataLen := Value(buf[2..4]);
        assert buf[2..4] == s[2..4];
      } else if bufLen >= 10 + maskLen {
        headerLen := 10 + maskLen;
        dataLen := Value(buf[2..10]);
        assert buf[2..10] == s[2..10];
      }
    }
  }

  class Connection {
    const recv: Mbuf<byte>
    const noDefrag: bool             // MG_F_WEBSOCKET_NO_DEFRAG
    var closing: bool                // MG_F_SEND_AND_CLOSE
    var delivered: seq<Message>      // the calls of the event handler
    ghost var stream: seq<byte>      // everything received

    constructor (noDefrag: bool)
      ensures Tracking() && stream == [] && !closing && this.noDefrag == noDefrag && fresh(recv) && fresh(recv.buf)
    {
      recv := new Mbuf();
      this.noDefrag, closing, delivered, stream := noDefrag, false, [], [];
      new;
      DecodeStep([]);
    }

    /** Delivered are the frames that are complete in what was received; the buffer holds what is behind them. */
    ghost predicate Tracking()
      reads this, recv, recv.buf
    {
      recv.Valid() && Decode(stream) == Decoded(delivered, recv.Contents())
    }

    /** Whether a frame is taken to be there. Lengths are added modulo 2 to the 64. */
    method FindFrame() returns (ok: bool, headerLen: nat, dataLen: nat, maskLen: nat)
      requires recv.Valid() && recv.len < WORD * WORD
      ensures ok == FrameTaken(recv.Contents()).Frame?
      ensures ok ==> FrameTaken(recv.Contents()) == Frame(headerLen, dataLen, maskLen > 0)
    {
      hide FrameTaken, Announced, Wrapped;
      var bufLen := recv.len;
      headerLen, dataLen, maskLen := ParseHeader(recv.buf, bufLen);
      AnnouncedTaken(recv.Contents(), headerLen, dataLen, maskLen);
      var frameLen := Wrapped(headerLen + dataLen);
      ok := 0 < frameLen <= bufLen;
    }

    /** The frame at the start is unmasked where it is, handed over and removed. */
    method HandOver(headerLen: nat, dataLen: nat, maskLen: nat)
      requires recv.Valid() && FrameOf(recv.Contents()) == Frame(headerLen, dataLen, maskLen > 0)
      modifies this`delivered, recv`len, recv.buf
      ensures recv.Valid() && recv.buf.Length > 0
      ensures delivered == old(delivered) + [MessageOf(old(recv.Contents()))]
      ensures recv.Contents() == old(recv.Contents())[headerLen + dataLen..]
      ensures recv.buf[0] == SeenForClose(old(recv.Contents()))
    {
      hide FrameOf, MessageOf, ApplyMask;
      var buf := recv.buf;
      ghost var s := recv.Contents();
      MessageParts(s);
      ghost var tail := buf[headerLen + dataLen..recv.len];
      InPrefix(buf[..], recv.len, headerLen + dataLen, recv.len);
      assert tail == s[headerLen + dataLen..];
      InPrefix(buf[..], recv.len, headerLen, headerLen + dataLen);
      assert buf[headerLen..headerLen + dataLen] == s[headerLen..headerLen + dataLen];
      if maskLen > 0 {
        InPrefix(buf[..], recv.len, headerLen - 4, headerLen);
        assert buf[headerLen - 4..headerLen] == s[headerLen - 4..headerLen];
        Unmask(buf, headerLen, dataLen);
      }
      assert buf[headerLen + dataLen..recv.len] == tail;
      delivered := delivered + [Message(buf[0], buf[headerLen..headerLen + dataLen])];
      RemoveFrame(headerLen + dataLen, s);
    }

    /** The frame of n bytes is removed. What is then first in the buffer is the first byte behind the frame,
        or that of the frame itself if nothing is behind it. */
    method RemoveFrame(n: nat, ghost s: seq<byte>)
      requires recv.Valid() && 0 < n <= recv.len == |s| && recv.buf[0] == s[0]
      requires recv.buf[n..recv.len] == s[n..]
      modifies recv`len, recv.buf
      ensures recv.Valid() && recv.Contents() == s[n..]
      ensures recv.buf[0] == if n < |s| then s[n] else s[0]
    {
      ghost var before := recv.buf[..];
      assert recv.Contents()[n..] == s[n..];
      assert n < |s| ==> recv.Contents()[n] == recv.buf[n..recv.len][0] == s[n];
      recv.Remove(n);
      assert n == |s| ==> recv.buf[..][0] == before[0];
    }

    /** mg_deliver_websocket_data: one frame, if it is there as a whole. The method stops with outside set where
        the program would take a payload that goes beyond the buffer. */
    method Deliver() returns (ok: bool, outside: bool)
      requires recv.Valid() && recv.len < WORD * WORD
      requires recv.Contents() != [] ==> noDefrag || !IsFragment(recv.Contents()[0])
      modifies this`closing, this`delivered, recv`len, recv.buf
      ensures recv.Valid() && (outside <==> !LengthKept(old(recv.Contents())))
      ensures var s, f := old(recv.Contents()), FrameOf(old(recv.Contents()));
              && (!outside ==> ok == f.Frame?)
              && (outside || !ok ==> recv.Contents() == s && delivered == old(delivered) && closing == old(closing))
              && (!outside && ok ==>
                    && delivered == old(delivered) + [MessageOf(s)]
                    && recv.Contents() == s[f.header + f.len..]
                    && closing == (old(closing) || Opcode(SeenForClose(s)) == OP_CLOSE))
    {
      hide FrameOf, FrameTaken, MessageOf, LengthKept, SeenForClose;
      outside := false;
      var reass := recv.len > 0 && IsFragment(recv.buf[0]) && !noDefrag;
      assert recv.len > 0 ==> recv.Contents()[0] == recv.buf[0];
      assert !reass;
      TakenIsFrame(recv.Contents());
      var headerLen, dataLen, maskLen;
      ok, headerLen, dataLen, maskLen := FindFrame();
      if ok && headerLen + dataLen > recv.len {
        outside := true;
        return;
      }
      if ok {
        HandOver(headerLen, dataLen, maskLen);
        // After the frame is removed this is the first byte of what follows, if anything does.
        if Opcode(recv.buf[0]) == OP_CLOSE {
          closing := true;
        }
      }
    }

    /** One receive: however the stream was split, everything complete has been delivered, unmasked and in
        order, and what is incomplete is untouched, if and only if no announced length is lost. */
    method Receive(data: seq<byte>) returns (outside: bool)
      requires Tracking() && Unfragmented(recv.Contents() + data, noDefrag) && recv.len + |data| < WORD * WORD
      modifies this, recv, recv.buf
      ensures recv.Valid() && stream == old(stream) + data && (recv.buf == old(recv.buf) || fresh(recv.buf))
      ensures outside <==> !LengthsKept(old(recv.Contents()) + data)
      ensures !outside ==> Tracking() && closing == (old(closing) || CloseSeen(old(recv.Contents()) + data))
    {
      hide Decode, FrameOf, MessageOf, SeenForClose, Unfragmented, LengthKept, LengthsKept, CloseSeen, Opcode;
      ghost var pending := recv.Contents() + data;
      DecodeExtends(stream, data);
      recv.Append(data);
      stream := stream + data;
      outside := Drain(pending);
      if !outside {
        Undecoded(pending, recv.Contents());
      }
    }

    /** Receives, one after the other: however the stream is split into pieces, all of it has been taken in, its
        complete messages delivered and the rest untouched, if and only if no announced length is lost in it. */
    method ReceiveAll(pieces: seq<seq<byte>>) returns (outside: bool)
      requires Tracking() && LengthsKept(recv.Contents()) && recv.len + |Join(pieces)| < WORD * WORD
      requires Unfragmented(recv.Contents() + Join(pieces), noDefrag)
      modifies this, recv, recv.buf
      ensures recv.Valid() && (recv.buf == old(recv.buf) || fresh(recv.buf))
      ensures outside <==> !LengthsKept(old(recv.Contents()) + Join(pieces))
      ensures !outside ==> Tracking() && stream == old(stream) + Join(pieces)
      ensures !outside ==> closing == (old(closing) || CloseSeenIn(old(recv.Contents()), pieces))
    {
      hide Decode, FrameOf, Unfragmented, LengthsKept, CloseSeen, CloseSeenIn, Join;
      outside := false;
      AllPieces(pieces, recv.Contents(), stream);
      for i := 0 to |pieces|
        invariant Tracking() && recv.Valid() && (recv.buf == old(recv.buf) || fresh(recv.buf))
        invariant !outside && recv.len + |Join(pieces[i..])| < WORD * WORD
        invariant stream == old(stream) + Join(pieces[..i]) && LengthsKept(recv.Contents())
        invariant Unfragmented(recv.Contents() + Join(pieces[i..]), noDefrag)
        invariant LengthsKept(recv.Contents() + Join(pieces[i..])) == LengthsKept(old(recv.Contents()) + Join(pieces))
        invariant (closing || CloseSeenIn(recv.Contents(), pieces[i..])) ==
                  (old(closing) || CloseSeenIn(old(recv.Contents()), pieces))
      {
        ghost var rest := recv.Contents();
        PieceStep(pieces, i, rest, noDefrag, old(stream));
        StreamStep(pieces[i]);
        outside := Receive(pieces[i]);
        if outside {
          return;
        }
      }
      NoMorePieces(pieces, recv.Contents());
    }

    /** After the next receive the buffer holds the rest of what it held and the new bytes. */
    lemma {:induction false} StreamStep(data: seq<byte>)
      requires Tracking()
      ensures Decode(stream + data).rest == Decode(recv.Contents() + data).rest
    {
      DecodeExtends(stream, data);
    }

    /** The loop around mg_deliver_websocket_data; pending is what the buffer held before it. */
    method Drain(ghost pending: seq<byte>) returns (outside: bool)
      requires recv.Valid() && recv.Contents() == pending && Unfragmented(pending, noDefrag) && |pending| < WORD * WORD
      modifies this`closing, this`delivered, recv`len, recv.buf
      ensures recv.Valid() && (outside <==> !LengthsKept(pending))
      ensures !outside ==>
                delivered == old(delivered) + Decode(pending).messages && recv.Contents() == Decode(pending).rest
      ensures !outside ==> closing == (old(closing) || CloseSeen(pending))
    {
      hide Decode, FrameOf, MessageOf, SeenForClose, Unfragmented, LengthKept, LengthsKept, CloseSeen, Opcode;
      var more := true;
      outside := false;
      assert delivered + Decode(pending).messages == delivered + Decode(pending).messages;
      while more
        invariant recv.Valid() && recv.len < WORD * WORD && Unfragmented(recv.Contents(), noDefrag)
        invariant Draining(pending, old(delivered), delivered, recv.Contents())
        invariant (closing || CloseSeen(recv.Contents())) == (old(closing) || CloseSeen(pending))
        invariant LengthsKept(recv.Contents()) == LengthsKept(pending)
        invariant !more ==> FrameOf(recv.Contents()).NoFrame? && LengthKept(recv.Contents())
        decreases |recv.Contents()|, more
      {
        ghost var s, got := recv.Contents(), delivered;
        FirstFrame(s, noDefrag);
        more, outside := Deliver();
        if outside {
          return;
        }
        if more {
          DrainOne(pending, old(delivered), got, s);
        }
      }
      FirstFrame(recv.Contents(), noDefrag);
      DrainEnd(pending, old(delivered), delivered, recv.Contents());
    }
  }

  /** Whether taking these pieces one after the other sets the flag that closes the connection. */
  ghost predicate CloseSeenIn(rest: seq<byte>, pieces: seq<seq<byte>>)
    decreases |pieces|
  {
    pieces != [] &&
    (CloseSeen(rest + pieces[0]) || CloseSeenIn(Decode(rest + pieces[0]).rest, pieces[1..]))
  }

  lemma {:induction false} AllPieces(pieces: seq<seq<byte>>, rest: seq<byte>, stream: seq<byte>)
    ensures pieces[0..] == pieces && stream + Join(pieces[..0]) == stream
  {
  }

  lemma {:induction false} NoMorePieces(pieces: seq<seq<byte>>, rest: seq<byte>)
    ensures pieces[..|pieces|] == pieces && rest + Join(pieces[|pieces|..]) == rest
    ensures !CloseSeenIn(rest, pieces[|pieces|..])
  {
  }

  lemma {:induction false} PieceStep(pieces: seq<seq<byte>>, i: nat, rest: seq<byte>, noDefrag: bool, stream: seq<byte>)
    requires i < |pieces| && |rest| + |Join(pieces[i..])| < WORD * WORD
    requires Unfragmented(rest + Join(pieces[i..]), noDefrag)
    ensures Unfragmented(rest + pieces[i], noDefrag) && |rest| + |pieces[i]| < WORD * WORD
    ensures |rest + pieces[i]| + |Join(pieces[i + 1..])| == |rest| + |Join(pieces[i..])|
    ensures stream + Join(pieces[..i]) + pieces[i] == stream + Join(pieces[..i + 1])
    ensures var after := Decode(rest + pieces[i]).rest;
            && Unfragmented(after + Join(pieces[i + 1..]), noDefrag)
            && (LengthsKept(rest + Join(pieces[i..])) <==>
                LengthsKept(rest + pieces[i]) && LengthsKept(after + Join(pieces[i + 1..])))
            && (LengthsKept(rest + pieces[i]) ==> LengthsKept(after))
            && (CloseSeenIn(rest, pieces[i..]) <==> CloseSeen(rest + pieces[i]) || CloseSeenIn(after, pieces[i + 1..]))
  {
    hide Decode, Unfragmented, LengthsKept, CloseSeen, Join;
    var s, more := rest + pieces[i], Join(pieces[i + 1..]);
    assert pieces[i..] == [pieces[i]] + pieces[i + 1..] && pieces[..i + 1] == pieces[..i] + [pieces[i]];
    JoinFront(pieces[i], pieces[i + 1..]);
    JoinAppend(pieces[..i], pieces[i]);
    assert rest + Join(pieces[i..]) == s + more;
    FramesExtend(s, more, noDefrag);
    FramesExtend(s, [], noDefrag);
    assert s + [] == s && Decode(s).rest + [] == Decode(s).rest;
    assert pieces[i..][0] == pieces[i] && pieces[i..][1..] == pieces[i + 1..];
  }

  /** What has been delivered and what the rest decodes to are the messages of pending. */
  ghost predicate Draining(pending: seq<byte>, before: seq<Message>, delivered: seq<Message>, rest: seq<byte>) {
    && before + Decode(pending).messages == delivered + Decode(rest).messages
    && Decode(pending).rest == Decode(rest).rest
  }

  lemma {:induction false} DrainOne(pending: seq<byte>, before: seq<Message>, got: seq<Message>, s: seq<byte>)
    requires Draining(pending, before, got, s) && FrameOf(s).Frame?
    ensures Draining(pending, before, got + [MessageOf(s)], s[FrameOf(s).header + FrameOf(s).len..])
  {
    hide FrameOf, MessageOf;
    Regroup(got, MessageOf(s), Decode(s[FrameOf(s).header + FrameOf(s).len..]).messages);
  }

  lemma {:induction false} DrainEnd(pending: seq<byte>, before: seq<Message>, delivered: seq<Message>, rest: seq<byte>)
    requires Draining(pending, before, delivered, rest) && FrameOf(rest).NoFrame?
    ensures before + Decode(pending).messages == delivered && Decode(pending).rest == rest
  {
    hide FrameOf;
    assert delivered + [] == delivered;
  }

  /** What is known about the rest behind the first frame, or when there is none. */
  lemma {:induction false} FirstFrame(s: seq<byte>, noDefrag: bool)
    requires Unfragmented(s, noDefrag)
    ensures s != [] ==> noDefrag || !IsFragment(s[0])
    ensures var f := FrameOf(s);
            if f.NoFrame? then LengthsKept(s) == LengthKept(s) && !CloseSeen(s)
            else
              var rest := s[f.header + f.len..];
              && |rest| < |s| && Unfragmented(rest, noDefrag)
              && LengthsKept(s) == (LengthKept(s) && LengthsKept(rest))
              && (CloseSeen(s) <==> Opcode(SeenForClose(s)) == OP_CLOSE || CloseSeen(rest))
    ensures !LengthKept(s) ==> !LengthsKept(s)
  {
    hide Opcode;
  }

  /** What a loop leaves has no frame in it, so decoding it again changes nothing. */
  lemma {:induction false} Undecoded(pending: seq<byte>, rest: seq<byte>)
    requires rest == Decode(pending).rest
    ensures Decode(rest) == Decoded([], rest)
    decreases |pending|
  {
    hide FrameOf, MessageOf;
    DecodeStep(pending);
    var f := FrameOf(pending);
    if f.Frame? {
      Undecoded(pending[f.header + f.len..], rest);
    }
  }

  lemma {:induction false} InPrefix<T>(b: seq<T>, len: nat, i: nat, j: nat)
    requires i <= j <= len <= |b|
    ensures b[..len][i..j] == b[i..j]
  {
  }

  /** The byte in which a delivered frame is looked at for closing: that of the next frame if there is one. */
  function SeenForClose(s: seq<byte>): byte
    requires FrameOf(s).Frame?
  {
    var f := FrameOf(s);
    if f.header + f.len < |s| then s[f.header + f.len] else s[0]
  }

  lemma {:induction false} MessageParts(s: seq<byte>)
    ensures var f := FrameOf(s);
            f.Frame? ==>
              && 2 <= f.header && f.header + f.len <= |s| && (f.masked ==> f.header >= 6)
              && var data := s[f.header..f.header + f.len];
                 MessageOf(s) == Message(s[0], if f.masked then ApplyMask(s[f.header - 4..f.header], data) else data)
  {
  }

  lemma {:induction false} Regroup<T>(a: seq<T>, x: T, b: seq<T>)
    ensures a + ([x] + b) == a + [x] + b
  {
  }

  /** Whether delivering what is complete in s sets the flag that closes the connection. */
  ghost predicate CloseSeen(s: seq<byte>)
    decreases |s|
  {
    var f := FrameOf(s);
    f.Frame? && (Opcode(SeenForClose(s)) == OP_CLOSE || CloseSeen(s[f.header + f.len..]))
  }

  predicate IsClose(m: Message) {
    Opcode(m.flags) == OP_CLOSE
  }

  ghost predicate HasClose(messages: seq<Message>) {
    exists i :: 0 <= i < |messages| && IsClose(messages[i])
  }

  /** The last look of a receive: at what is behind the last frame, or at that frame itself. */
  ghost predicate LastLook(d: Decoded)
    requires d.messages != []
  {
    if d.rest == [] then IsClose(d.messages[|d.messages| - 1]) else Opcode(d.rest[0]) == OP_CLOSE
  }

  /** The looks taken are at every frame but the first, and at what follows the last one. */
  lemma {:induction false} CloseLooks(s: seq<byte>)
    ensures var d := Decode(s);
            CloseSeen(s) <==> d.messages != [] && (HasClose(d.messages[1..]) || LastLook(d))
    decreases |s|
  {
    hide FrameOf, MessageOf, Opcode, Decode, HasClose;
    var f := FrameOf(s);
    DecodeStep(s);
    MessageParts(s);
    if f.Frame? {
      var rest := s[f.header + f.len..];
      var d := Decode(rest);
      CloseLooks(rest);
      DecodeStep(rest);
      MessageParts(rest);
      assert Decode(s).messages[1..] == d.messages;
      CloseOfFirst(d.messages);
    }
  }

  lemma {:induction false} CloseOfFirst(messages: seq<Message>)
    ensures HasClose(messages) <==> messages != [] && (IsClose(messages[0]) || HasClose(messages[1..]))
  {
    if messages != [] {
      var rest := messages[1..];
      assert forall i :: 0 < i < |messages| ==> messages[i] == rest[i - 1];
      assert forall i :: 0 <= i < |rest| ==> rest[i] == messages[i + 1];
    }
  }

  /** A receive sets the flag exactly when a CLOSE frame was delivered, unless no frame but the first is one
      and just one of the first frame and the last look says close. */
  lemma {:induction false} CloseNoticed(s: seq<byte>)
    ensures var d := Decode(s);
            (CloseSeen(s) <==> HasClose(d.messages)) <==>
              d.messages == [] || HasClose(d.messages[1..]) || (IsClose(d.messages[0]) <==> LastLook(d))
  {
    hide HasClose, Decode;
    CloseLooks(s);
    CloseOfFirst(Decode(s).messages);
  }

  /** A CLOSE frame with a text frame behind it in the same receive goes unnoticed. */
  lemma {:induction false} CloseMissed()
    ensures var s: seq<byte> := [0x88, 0, 0x81, 0];
            Decode(s) == Decoded([Message(0x88, []), Message(0x81, [])], []) && !CloseSeen(s)
  {
    hide Decode, FrameOf, MessageOf;
    var s: seq<byte>, text: seq<byte> := [0x88, 0, 0x81, 0], [0x81, 0];
    EmptyFrame(0x88, text);
    EmptyFrame(0x81, []);
    assert [0x88, 0] + text == s && s[2..] == text && text + [] == text && text[2..] == [];
    DecodeStep(s);
    DecodeStep(text);
    NothingToDecode();
    assert SeenForClose(s) == 0x81 && SeenForClose(text) == 0x81;
  }

  lemma {:induction false} EmptyFrame(flags: byte, t: seq<byte>)
    ensures var s := [flags, 0] + t; FrameOf(s) == Frame(2, 0, false) && MessageOf(s) == Message(flags, [])
  {
  }

  lemma {:induction false} NothingToDecode()
    ensures FrameOf([]).NoFrame? && Decode([]) == Decoded([], [])
  {
  }
}
