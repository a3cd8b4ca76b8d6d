/** Unfragmented frames of the WebSocket protocol: sections 5.2 and 5.3 of RFC 6455. */
module WebSocketFrames {
  import opened Bytes

  const OP_CLOSE := 8

  /** What is handed to the event handler: the first byte of the frame, and the unmasked payload. */
  datatype Message = Message(flags: byte, data: seq<byte>)

  datatype Mask = NoMask | Mask(key: seq<byte>)

  function Opcode(flags: byte): nat {
    flags % 16
  }

  /** mg_is_ws_fragment: not final, or a continuation. */
  predicate IsFragment(flags: byte) {
    flags < 128 || Opcode(flags) == 0
  }

  function HeaderLength(sizeByte: byte): (n: nat)
    ensures 2 <= n <= 14
  {
    var mask := if sizeByte >= 128 then 4 else 0;
    if sizeByte % 128 < 126 then 2 + mask else if sizeByte % 128 == 126 then 4 + mask else 10 + mask
  }

  /** The announced length of the payload. */
  function DataLength(s: seq<byte>): nat
    requires |s| >= 2 && |s| >= HeaderLength(s[1])
  {
    if s[1] % 128 < 126 then s[1] % 128 else if s[1] % 128 == 126 then Value(s[2..4]) else Value(s[2..10])
  }

  /** A frame at the start of s that is there as a whole. */
  datatype Frame = NoFrame | Frame(header: nat, len: nat, masked: bool)

  function FrameOf(s: seq<byte>): (f: Frame)
    ensures f.Frame? ==> 2 <= f.header && f.header + f.len <= |s| && (f.masked ==> f.header >= 6)
  {
    if |s| < 2 || |s| < HeaderLength(s[1]) then NoFrame
    else
      var header, len := HeaderLength(s[1]), DataLength(s);
      if header + len <= |s| then Frame(header, len, s[1] >= 128) else NoFrame
  }

  /** Masking and unmasking are the same. */
  function ApplyMask(key: seq<byte>, data: seq<byte>): (r: seq<byte>)
    requires |key| == 4
    ensures |r| == |data|
  {
    seq(|data|, i requires 0 <= i < |data| => Xor(data[i], key[i % 4]))
  }

  function MessageOf(s: seq<byte>): Message
    requires FrameOf(s).Frame?
  {
    var f := FrameOf(s);
    var data := s[f.header..f.header + f.len];
    Message(s[0], if f.masked then ApplyMask(s[f.header - 4..f.header], data) else data)
  }

  datatype Decoded = Decoded(messages: seq<Message>, rest: seq<byte>)

  function Decode(s: seq<byte>): (d: Decoded)
    ensures |d.rest| <= |s|
    decreases |s|
  {
    var f := FrameOf(s);
    if f.NoFrame? then Decoded([], s)
    else
      var d := Decode(s[f.header + f.len..]);
      Decoded([MessageOf(s)] + d.messages, d.rest)
  }

  lemma {:induction false} DecodeStep(s: seq<byte>)
    ensures var f := FrameOf(s);
            Decode(s) == if f.NoFrame? then Decoded([], s)
                         else
                           var d := Decode(s[f.header + f.len..]);
                           Decoded([MessageOf(s)] + d.messages, d.rest)
  {
  }

  /** Frames are not parts of a longer message, or defragmentation is off. */
  ghost predicate Unfragmented(s: seq<byte>, noDefrag: bool)
    decreases |s|
  {
    && (s != [] ==> noDefrag || !IsFragment(s[0]))
    && (var f := FrameOf(s); f.Frame? ==> Unfragmented(s[f.header + f.len..], noDefrag))
  }

  /** A sum of 64-bit numbers. */
  function Wrapped(sum: nat): nat {
    sum % (WORD * WORD)
  }

  /** What the receive loop takes for a frame: it compares the wrapped sum of the lengths with the buffer. */
  function FrameTaken(s: seq<byte>): (f: Frame)
    ensures f.Frame? ==> |s| >= 2 && f.header == HeaderLength(s[1]) <= |s| && f.len == DataLength(s)
  {
    if |s| < 2 || |s| < HeaderLength(s[1]) then NoFrame
    else
      var header, len := HeaderLength(s[1]), DataLength(s);
      if 0 < Wrapped(header + len) <= |s| then Frame(header, len, s[1] >= 128) else NoFrame
  }

  /** The lengths of the first frame fit 64 bits together, or the wrapped sum is 0 or beyond the buffer. */
  predicate LengthKept(s: seq<byte>) {
    || |s| < 2 || |s| < HeaderLength(s[1])
    || (var sum := HeaderLength(s[1]) + DataLength(s); sum < WORD * WORD || Wrapped(sum) == 0 || Wrapped(sum) > |s|)
  }

  /** So it is for every frame that is read. */
  ghost predicate LengthsKept(s: seq<byte>)
    decreases |s|
  {
    LengthKept(s) && (var f := FrameOf(s); f.Frame? ==> LengthsKept(s[f.header + f.len..]))
  }

  /** The loop takes for a frame what is one if and only if no length is lost; else it takes one that is not there
      as a whole. */
  lemma {:induction false} TakenIsFrame(s: seq<byte>)
    requires |s| < WORD * WORD
    ensures FrameTaken(s) == FrameOf(s) <==> LengthKept(s)
    ensures FrameTaken(s).Frame? && FrameTaken(s).header + FrameTaken(s).len > |s| <==> !LengthKept(s)
    ensures !LengthKept(s) ==> FrameOf(s).NoFrame?
  {
    hide Value;
    if |s| >= 2 && |s| >= HeaderLength(s[1]) {
      KeptSum(HeaderLength(s[1]) + DataLength(s), |s|);
    }
  }

  lemma {:induction false} KeptSum(sum: nat, limit: nat)
    requires limit < WORD * WORD
    ensures sum < WORD * WORD ==> Wrapped(sum) == sum
    ensures sum >= WORD * WORD ==> sum > limit
  {
  }

  lemma {:induction false} AllOnes(n: nat) returns (s: seq<byte>)
    ensures s == seq(n, i => 255) && Value(s) + 1 == Power(n)
  {
    s := [];
    if n > 0 {
      var front := AllOnes(n - 1);
      s := front + [255];
      assert s[..n - 1] == front;
    }
  }

  /** Ten bytes of a header that announces 2 to the 64 less 1 bytes are taken for a frame of 9 bytes. */
  lemma {:induction false} HeaderTakenForFrame()
    ensures var s: seq<byte> := [0x81, 127] + seq(8, i => 255);
            FrameOf(s) == NoFrame && FrameTaken(s) == Frame(10, WORD * WORD - 1, false) && !LengthKept(s)
  {
    hide Value, Power;
    var ones := AllOnes(8);
    Powers();
    var s: seq<byte> := [0x81, 127] + ones;
    assert s[2..10] == ones;
    assert HeaderLength(s[1]) == 10 && DataLength(s) == WORD * WORD - 1;
    assert Wrapped(10 + (WORD * WORD - 1)) == 9;
  }

  /** A frame that is there is not changed by what follows. */
  lemma {:induction false} FrameStays(s: seq<byte>, t: seq<byte>)
    requires FrameOf(s).Frame?
    ensures FrameOf(s + t) == FrameOf(s) && MessageOf(s + t) == MessageOf(s)
  {
    var f := FrameOf(s);
    if f.header == 4 || f.header == 8 {
      SliceStays(s, t, 2, 4);
    }
    if f.header >= 10 {
      SliceStays(s, t, 2, 10);
    }
    SliceStays(s, t, f.header, f.header + f.len);
    if f.masked {
      SliceStays(s, t, f.header - 4, f.header);
    }
  }

  lemma {:induction false} SliceStays<T>(s: seq<T>, t: seq<T>, i: nat, j: nat)
    requires i <= j <= |s|
    ensures (s + t)[i..j] == s[i..j]
  {
  }

  /** Decoding may be interrupted anywhere: what was left undecoded and the new bytes together decode to the
      further messages. */
  lemma {:induction false} DecodeExtends(s: seq<byte>, t: seq<byte>)
    ensures var d, e := Decode(s), Decode(Decode(s).rest + t);
            Decode(s + t) == Decoded(d.messages + e.messages, e.rest)
    decreases |s|
  {
    hide FrameOf, MessageOf, Decode;
    var f := FrameOf(s);
    DecodeStep(s);
    if f.Frame? {
      FrameStays(s, t);
      DecodeStep(s + t);
      var after := s[f.header + f.len..];
      assert (s + t)[f.header + f.len..] == after + t;
      DecodeExtends(after, t);
      var more := Decode(Decode(after).rest + t).messages;
      assert [MessageOf(s)] + (Decode(after).messages + more) == [MessageOf(s)] + Decode(after).messages + more;
    } else {
      assert [] + Decode(s + t).messages == Decode(s + t).messages;
    }
  }

  /** A length that is lost in what has arrived is lost for good. */
  lemma {:induction false} KeptBefore(s: seq<byte>, t: seq<byte>)
    requires LengthKept(s + t)
    ensures LengthKept(s)
  {
    if |s| >= 2 && |s| >= HeaderLength(s[1]) {
      if s[1] % 128 == 126 {
        SliceStays(s, t, 2, 4);
      } else if s[1] % 128 == 127 {
        SliceStays(s, t, 2, 10);
      }
      assert DataLength(s + t) == DataLength(s);
    }
  }

  lemma {:induction false} KeptIfThere(s: seq<byte>)
    requires FrameOf(s).Frame? && FrameOf(s).header + FrameOf(s).len < WORD * WORD
    ensures LengthKept(s)
  {
  }

  /** Lengths are kept in a stream, and frames are whole, exactly if they are so before and behind any place. */
  lemma {:induction false} FramesExtend(s: seq<byte>, t: seq<byte>, noDefrag: bool)
    requires |s| < WORD * WORD
    ensures LengthsKept(s + t) <==> LengthsKept(s) && LengthsKept(Decode(s).rest + t)
    ensures Unfragmented(s + t, noDefrag) <==> Unfragmented(s, noDefrag) && Unfragmented(Decode(s).rest + t, noDefrag)
    decreases |s|
  {
    hide FrameOf, MessageOf, Decode, LengthKept;
    var f := FrameOf(s);
    DecodeStep(s);
    assert s != [] ==> (s + t)[0] == s[0];
    if f.Frame? {
      FrameStays(s, t);
      assert (s + t)[f.header + f.len..] == s[f.header + f.len..] + t;
      FramesExtend(s[f.header + f.len..], t, noDefrag);
      KeptIfThere(s);
      KeptIfThere(s + t);
    } else if LengthsKept(s + t) {
      KeptBefore(s, t);
    }
  }

  /** The bytes that announce the length. */
  function LengthBytes(len: nat, masked: bool): (bytes: seq<byte>)
    ensures |bytes| in {1, 3, 9}
  {
    var bit := if masked then 128 else 0;
    if len < 126 then [bit + len]
    else if len < 65535 then [bit + 126] + BigEndian(len, 2)
    else [bit + 127] + BigEndian(len, 8)
  }

  /** Section 5.2 of RFC 6455: the top bit of the first byte tells whether the payload is masked, its other bits are the
      length or 126 or 127, and then the length follows in 2 or 8 bytes, the highest first. */
  lemma {:induction false} LengthBytesMean(len: nat, masked: bool)
    requires len < WORD * WORD
    ensures var b := LengthBytes(len, masked);
            && (b[0] >= 128 <==> masked)
            && b[0] % 128 == (if len < 126 then len else if len < 65535 then 126 else 127)
            && |b| == (if len < 126 then 1 else if len < 65535 then 3 else 9)
            && (len >= 126 ==> Value(b[1..]) == len)
            && (len >= 126 ==> forall i :: 1 <= i < |b| ==> b[i] == ByteAt(len, |b| - 1 - i))
  {
    hide BigEndian, Value;
    Powers();
    if len >= 126 {
      var n := if len < 65535 then 2 else 8;
      ValueOfBytes(len, n);
      assert LengthBytes(len, masked)[1..] == BigEndian(len, n);
      forall i | 1 <= i < n + 1
        ensures LengthBytes(len, masked)[i] == ByteAt(len, n - i)
      {
        BytesAreDigits(len, n, n - i);
      }
    }
  }

  /** The standard asks for the shortest of the three forms; the only length that does not get it is 65535. */
  lemma {:induction false} ShortestForm(len: nat, masked: bool)
    ensures |LengthBytes(len, masked)| == (if len <= 125 then 1 else if len <= 65535 then 3 else 9) <==> len != 65535
  {
  }

  ghost predicate GoodMask(mask: Mask) {
    mask.Mask? ==> |mask.key| == 4
  }

  /** A frame as mg_send_websocket_frame sends it. */
  function Encode(m: Message, mask: Mask): seq<byte>
    requires GoodMask(mask)
  {
    match mask
    case NoMask => [m.flags] + LengthBytes(|m.data|, false) + m.data
    case Mask(key) => [m.flags] + LengthBytes(|m.data|, true) + key + ApplyMask(key, m.data)
  }

  /** Section 5.3 of RFC 6455: each bit of the data is inverted exactly where the octet of the key with the same index,
      modulo 4, has a one. */
  lemma {:induction false} MaskedBits(key: seq<byte>, data: seq<byte>, i: nat, bit: nat)
    requires |key| == 4 && i < |data| && bit < 8
    ensures Bit(ApplyMask(key, data)[i], bit) == 1 <==> Bit(data[i], bit) != Bit(key[i % 4], bit)
  {
    BitOfXor(data[i], key[i % 4], 8, bit);
  }

  lemma {:induction false} MaskTwice(key: seq<byte>, data: seq<byte>)
    requires |key| == 4
    ensures ApplyMask(key, ApplyMask(key, data)) == data
  {
    var masked := ApplyMask(key, data);
    forall i | 0 <= i < |data|
      ensures ApplyMask(key, masked)[i] == data[i]
    {
      XorTwice(data[i], key[i % 4]);
    }
  }

  lemma {:induction false} Powers()
    ensures Power(2) == 65536 && Power(8) == WORD * WORD
  {
    assert Power(1) == 256 && Power(2) == 65536 && Power(3) == 16777216 && Power(4) == WORD;
    assert Power(5) == 256 * WORD && Power(6) == 65536 * WORD && Power(7) == 16777216 * WORD;
  }

  lemma {:induction false} LengthRead(s: seq<byte>, len: nat, masked: bool)
    requires var bytes := LengthBytes(len, masked);
             len < WORD * WORD && |s| >= 1 + |bytes| + (if masked then 4 else 0) && s[1..1 + |bytes|] == bytes
    ensures var n := |LengthBytes(len, masked)|;
            HeaderLength(s[1]) == 1 + n + (if masked then 4 else 0) && (s[1] >= 128 <==> masked) && DataLength(s) == len
  {
    hide Value, BigEndian, Power;
    var bytes := LengthBytes(len, masked);
    Powers();
    assert s[1] == bytes[0];
    if 126 <= len < 65535 {
      ValueOfBytes(len, 2);
      assert s[2..4] == bytes[1..];
    } else if 65535 <= len {
      ValueOfBytes(len, 8);
      assert s[2..10] == bytes[1..];
    }
  }

  lemma {:induction false} PartAt<T>(a: seq<T>, b: seq<T>, c: seq<T>)
    ensures (a + b + c)[|a|..|a| + |b|] == b && (a + b + c)[|a| + |b|..] == c
    ensures a + b + c == a + (b + c)
  {
  }

  lemma {:induction false} FrameSlices(flags: byte, bytes: seq<byte>, key: seq<byte>, data: seq<byte>, t: seq<byte>)
    ensures var s, n := [flags] + bytes + key + data + t, 1 + |bytes|;
            var header := n + |key|;
            && s[0] == flags && s[1..n] == bytes && s[n..header] == key
            && s[header..header + |data|] == data && s[header + |data|..] == t
  {
    PartAt([flags], bytes, key + (data + t));
    PartAt([flags] + bytes, key, data + t);
    PartAt([flags] + bytes + key, data, t);
    PartAt(key, data, t);
    assert [flags] + bytes + (key + (data + t)) == [flags] + bytes + key + (data + t);
  }

  lemma {:induction false} FrameParts(flags: byte, bytes: seq<byte>, key: seq<byte>, data: seq<byte>, t: seq<byte>)
    requires |bytes| in {1, 3, 9} && |key| in {0, 4}
    requires bytes == LengthBytes(|data|, key != []) && |data| < WORD * WORD
    ensures var s, header := [flags] + bytes + key + data + t, 1 + |bytes| + |key|;
            && FrameOf(s) == Frame(header, |data|, key != []) && s[header + |data|..] == t
            && MessageOf(s) == Message(flags, if key == [] then data else ApplyMask(key, data))
  {
    hide DataLength, HeaderLength, LengthBytes, ApplyMask;
    var s := [flags] + bytes + key + data + t;
    FrameSlices(flags, bytes, key, data, t);
    LengthRead(s, |data|, key != []);
    assert FrameOf(s) == Frame(1 + |bytes| + |key|, |data|, key != []);
  }

  /** Masked or not, and for every class of lengths, a sent frame is read as the message it was sent for. */
  lemma {:induction false} FrameOfEncoded(m: Message, mask: Mask, t: seq<byte>)
    requires GoodMask(mask) && |m.data| + 14 < WORD * WORD
    ensures var s, f := Encode(m, mask) + t, FrameOf(Encode(m, mask) + t);
            f.Frame? && f.header + f.len == |Encode(m, mask)| && s[f.header + f.len..] == t && MessageOf(s) == m
  {
    hide FrameOf, MessageOf, LengthBytes, ApplyMask;
    var bytes := LengthBytes(|m.data|, mask.Mask?);
    match mask
    case NoMask =>
      FrameParts(m.flags, bytes, [], m.data, t);
      assert [m.flags] + bytes + [] == [m.flags] + bytes;
    case Mask(key) =>
      FrameParts(m.flags, bytes, key, ApplyMask(key, m.data), t);
      MaskTwice(key, m.data);
  }

  function EncodeAll(messages: seq<Message>, masks: seq<Mask>): seq<byte>
    requires |messages| == |masks| && forall i :: 0 <= i < |masks| ==> GoodMask(masks[i])
  {
    if messages == [] then [] else Encode(messages[0], masks[0]) + EncodeAll(messages[1..], masks[1..])
  }

  /** Everything that was sent is delivered, in order. */
  lemma {:induction false} EncodedMessages(messages: seq<Message>, masks: seq<Mask>, t: seq<byte>)
    requires |messages| == |masks| && forall i :: 0 <= i < |masks| ==> GoodMask(masks[i])
    requires forall i :: 0 <= i < |messages| ==> |messages[i].data| + 14 < WORD * WORD
    requires FrameOf(t).NoFrame?
    ensures Decode(EncodeAll(messages, masks) + t) == Decoded(messages, t)
    decreases |messages|
  {
    hide Encode, FrameOf, MessageOf, Decode;
    if messages == [] {
      DecodeStep(t);
      assert EncodeAll(messages, masks) + t == t;
    } else {
      var more := EncodeAll(messages[1..], masks[1..]) + t;
      assert EncodeAll(messages, masks) + t == Encode(messages[0], masks[0]) + more;
      FrameOfEncoded(messages[0], masks[0], more);
      DecodeStep(Encode(messages[0], masks[0]) + more);
      EncodedMessages(messages[1..], masks[1..], t);
    }
  }
}
