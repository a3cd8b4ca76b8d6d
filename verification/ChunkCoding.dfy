/** The chunked transfer coding of section 4.1 of RFC 7230, without extensions and trailers. */
module ChunkCoding {
  import opened Sequences

  /** The values that a size_t can hold. */
  const SIZE_LIMIT := 0x1_0000_0000_0000_0000

  predicate IsHexDigit(c: char) {
    '0' <= c <= '9' || 'a' <= c <= 'f' || 'A' <= c <= 'F'
  }

  function HexDigit(c: char): (d: nat)
    requires IsHexDigit(c)
    ensures d < 16
  {
    if c <= '9' then c as int - '0' as int
    else if c <= 'F' then c as int - 'A' as int + 10
    else c as int - 'a' as int + 10
  }

  /** The end of the hexadecimal number at the start. */
  function HexEnd(s: string): (n: nat)
    ensures n <= |s| && (n < |s| ==> !IsHexDigit(s[n]))
    ensures forall i :: 0 <= i < n ==> IsHexDigit(s[i])
  {
    if s == "" || !IsHexDigit(s[0]) then 0 else 1 + HexEnd(s[1..])
  }

  function HexValue(s: string): nat
    requires forall i :: 0 <= i < |s| ==> IsHexDigit(s[i])
  {
    if s == "" then 0 else HexValue(s[..|s| - 1]) * 16 + HexDigit(s[|s| - 1])
  }

  predicate LineEndAt(s: string, p: nat) {
    p + 2 <= |s| && s[p] == '\r' && s[p + 1] == '\n'
  }

  /** The chunk at the start of s, if it is there as a whole: total bytes, with the data at start. */
  datatype Chunk = NoChunk | Chunk(start: nat, len: nat, total: nat)

  function ChunkOf(s: string): (c: Chunk)
    ensures c.Chunk? ==> 3 <= c.start && c.start + c.len + 2 == c.total <= |s|
  {
    var i := HexEnd(s);
    if i == 0 || !LineEndAt(s, i) then NoChunk
    else
      var n := HexValue(s[..i]);
      if LineEndAt(s, i + 2 + n) then Chunk(i + 2, n, i + n + 4) else NoChunk
  }

  /** The bodies of the chunks that are complete, what is behind them, and whether the last chunk, the one
      of length 0, was among them. */
  datatype Decoded = Decoded(body: string, rest: string, last: bool)

  function Decode(s: string): (d: Decoded)
    ensures |d.body| + |d.rest| <= |s|
    ensures d.rest == s ==> d.body == "" && !d.last
    decreases |s|
  {
    var c := ChunkOf(s);
    if c.NoChunk? then Decoded("", s, false)
    else if c.len == 0 then Decoded("", s[c.total..], true)
    else
      var d := Decode(s[c.total..]);
      Decoded(s[c.start..c.start + c.len] + d.body, d.rest, d.last)
  }

  /** What the parser makes of the start of s. Its counters are kept in a size_t, so the announced length and
      the position behind the data are reduced modulo SIZE_LIMIT. */
  function Scanned(s: string): (c: Chunk)
    ensures c.Chunk? ==> 3 <= c.start <= |s| && 2 < c.total <= |s|
  {
    var i := HexEnd(s);
    if i == 0 || !LineEndAt(s, i) then NoChunk
    else
      var n := HexValue(s[..i]) % SIZE_LIMIT;
      var q := (i + 2 + n) % SIZE_LIMIT;
      if q == 0 || !LineEndAt(s, q) then NoChunk else Chunk(i + 2, n, q + 2)
  }

  /** What the loop over the chunks makes of s. Outside: some chunk taken for complete has data that goes beyond
      the end of s. */
  datatype Taken = Taken(d: Decoded) | Outside

  function Add(data: string, t: Taken): Taken {
    match t
    case Taken(d) => Taken(Decoded(data + d.body, d.rest, d.last))
    case Outside => Outside
  }

  function TakeAll(s: string): (t: Taken)
    ensures t.Taken? ==> |t.d.rest| <= |s|
    decreases |s|
  {
    var c := Scanned(s);
    if c.NoChunk? then Taken(Decoded("", s, false))
    else if c.start + c.len > |s| then Outside
    else if c.len == 0 then Taken(Decoded("", s[c.total..], true))
    else Add(s[c.start..c.start + c.len], TakeAll(s[c.total..]))
  }

  /** Nothing that matters is lost: the first chunk's announced length, together with what precedes it, fits a
      size_t, or there is no line end where the reduced position points. */
  predicate LengthKept(s: string) {
    var i := HexEnd(s);
    i == 0 || !LineEndAt(s, i) || i + 2 + HexValue(s[..i]) < SIZE_LIMIT
    || (var q := (i + 2 + HexValue(s[..i]) % SIZE_LIMIT) % SIZE_LIMIT; q == 0 || !LineEndAt(s, q))
  }

  /** So it is for every chunk that is read. */
  predicate LengthsKept(s: string)
    decreases |s|
  {
    var c := ChunkOf(s);
    LengthKept(s) && (c.Chunk? && c.len > 0 ==> LengthsKept(s[c.total..]))
  }

  /** The parser finds the chunk that is there if and only if no length is lost. */
  lemma {:induction false} ScannedIsChunk(s: string)
    requires |s| < SIZE_LIMIT
    ensures Scanned(s) == ChunkOf(s) <==> LengthKept(s)
    ensures !LengthKept(s) ==> Scanned(s).Chunk? && ChunkOf(s).NoChunk?
  {
    var i := HexEnd(s);
    if i > 0 && LineEndAt(s, i) && i + 2 + HexValue(s[..i]) >= SIZE_LIMIT {
      assert ChunkOf(s).NoChunk?;
    }
  }

  /** The loop decodes what is there if and only if no length is lost in any chunk it reads. When one is lost, it
      reaches beyond its input or swallows characters that decoding leaves. */
  lemma {:induction false} TakesWhatIsThere(s: string)
    requires |s| < SIZE_LIMIT
    ensures TakeAll(s) == Taken(Decode(s)) <==> LengthsKept(s)
    ensures TakeAll(s).Taken? && !LengthsKept(s) ==> |TakeAll(s).d.rest| < |Decode(s).rest|
    decreases |s|
  {
    hide Scanned, ChunkOf, LengthKept;
    ScannedIsChunk(s);
    DecodeStep(s);
    var c := ChunkOf(s);
    if LengthKept(s) && c.Chunk? && c.len > 0 {
      TakesWhatIsThere(s[c.total..]);
    }
  }

  lemma {:induction false} HexAppend(s: string, c: char)
    requires IsHexDigit(c) && forall i :: 0 <= i < |s| ==> IsHexDigit(s[i])
    ensures HexValue(s + [c]) == HexValue(s) * 16 + HexDigit(c)
  {
    assert (s + [c])[..|s|] == s;
  }

  /** k digits F. */
  lemma {:induction false} HexAllF(k: nat) returns (s: string)
    ensures s == seq(k, i => 'F') && HexValue(s) + 1 == Power16(k)
  {
    s := "";
    if k > 0 {
      s := HexAllF(k - 1);
      HexAppend(s, 'F');
      s := s + "F";
    }
  }

  lemma {:induction false} HexZeros(k: nat) returns (s: string)
    ensures s == "1" + seq(k, i => '0') && HexValue(s) == Power16(k)
  {
    s := "1";
    if k == 0 {
      HexAppend("", '1');
      assert "" + "1" == "1";
    } else {
      s := HexZeros(k - 1);
      HexAppend(s, '0');
      s := s + "0";
    }
  }

  lemma {:induction false} DigitE()
    ensures HexDigit('E') == 14
  {
  }

  function Power16(k: nat): nat {
    if k == 0 then 1 else 16 * Power16(k - 1)
  }

  lemma {:induction false} SixteenDigits()
    ensures Power16(15) == SIZE_LIMIT / 16 && Power16(16) == SIZE_LIMIT
  {
    assert Power16(4) == 0x1_0000 && Power16(8) == 0x1_0000_0000 && Power16(12) == 0x1_0000_0000_0000 by {
      assert Power16(6) == 0x100_0000 && Power16(10) == 0x100_0000_0000;
    }
    assert Power16(14) == 0x100_0000_0000_0000;
  }

  /** Both readings of a text that begins with i digits of this value and a line end. */
  lemma {:induction false} HeaderRead(digits: string, after: string, n: nat, q: nat)
    requires digits != "" && forall k :: 0 <= k < |digits| ==> IsHexDigit(digits[k])
    requires n == HexValue(digits) % SIZE_LIMIT && q == (|digits| + 2 + n) % SIZE_LIMIT
    ensures var s, i := digits + "\r\n" + after, |digits|;
            && s[..i] == digits && HexEnd(s) == i && LineEndAt(s, i)
            && Scanned(s) == (if q == 0 || !LineEndAt(s, q) then NoChunk else Chunk(i + 2, n, q + 2))
            && (i + 2 + HexValue(digits) + 2 > |s| ==> ChunkOf(s) == NoChunk)
  {
    var s := digits + "\r\n" + after;
    assert s[..|digits|] == digits;
    HexEndIs(s, |digits|);
  }

  /** A chunk of which only the header is there is taken for complete: the position behind its data is reduced to
      that of the line end of the header itself. */
  lemma {:induction false} HeaderTakenForChunk()
    ensures var s := seq(15, k => 'F') + "E" + "\r\n" + "";
            ChunkOf(s).NoChunk? && Scanned(s) == Chunk(18, SIZE_LIMIT - 2, 18) && TakeAll(s).Outside? && !LengthsKept(s)
  {
    hide Scanned, ChunkOf, HexValue, HexEnd, LengthsKept, LengthKept, TakeAll, LineEndAt, HexDigit;
    var f := HexAllF(15);
    var digits := f + ['E'];
    HexAppend(f, 'E');
    DigitE();
    SixteenDigits();
    LineWritten(digits, "");
    HeaderRead(digits, "", SIZE_LIMIT - 2, 16);
    LostLength(digits + "\r\n" + "");
  }

  /** A line end behind digits, and what follows. */
  lemma {:induction false} LineWritten(digits: string, after: string)
    ensures var s := digits + "\r\n" + after;
            |s| == |digits| + 2 + |after| && s == digits + ("\r\n" + after) && s[|digits| + 2..] == after
    ensures LineEndAt(digits + "\r\n" + after, |digits|)
    ensures after == "\r\n" ==> LineEndAt(digits + "\r\n" + after, |digits| + 2)
  {
  }

  /** A chunk of 2 to the 64 bytes is taken for the last one. */
  lemma {:induction false} HugeTakenForLast()
    ensures var s := "1" + seq(16, k => '0') + "\r\n" + "\r\n";
            && Decode(s) == Decoded("", s, false) && TakeAll(s) == Taken(Decoded("", "", true)) && !LengthsKept(s)
  {
    hide Scanned, ChunkOf, HexValue, HexEnd, LengthsKept, LengthKept, TakeAll, LineEndAt, HexDigit;
    var digits := HexZeros(16);
    SixteenDigits();
    LineWritten(digits, "\r\n");
    HeaderRead(digits, "\r\n", 0, 19);
    LostLength(digits + "\r\n" + "\r\n");
  }

  /** When the two readings of the first chunk differ, so does the loop. */
  lemma {:induction false} LostLength(s: string)
    requires |s| < SIZE_LIMIT && ChunkOf(s).NoChunk? && Scanned(s).Chunk?
    ensures !LengthsKept(s) && Decode(s) == Decoded("", s, false)
    ensures var c := Scanned(s);
            && (c.start + c.len > |s| ==> TakeAll(s).Outside?)
            && (c.start <= |s| && c.len == 0 ==> TakeAll(s) == Taken(Decoded("", s[c.total..], true)))
  {
    ScannedIsChunk(s);
  }

  lemma {:induction false} HexEndIs(s: string, n: nat)
    requires n <= |s| && (n < |s| ==> !IsHexDigit(s[n])) && forall i :: 0 <= i < n ==> IsHexDigit(s[i])
    ensures HexEnd(s) == n
  {
    if n > 0 {
      HexEndIs(s[1..], n - 1);
    }
  }

  /** A chunk that is there is not changed by what follows. */
  lemma {:induction false} ChunkStays(s: string, t: string)
    requires ChunkOf(s).Chunk?
    ensures ChunkOf(s + t) == ChunkOf(s)
  {
    var i := HexEnd(s);
    HexEndIs(s + t, i);
    assert (s + t)[..i] == s[..i];
  }

  /** Decoding may be interrupted anywhere: the undecoded rest and the new bytes together decode to what
      the whole stream has beyond the part already decoded. */
  lemma {:induction false} DecodeExtends(s: string, t: string)
    requires !Decode(s).last
    ensures var d, e := Decode(s), Decode(Decode(s).rest + t);
            Decode(s + t) == Decoded(d.body + e.body, e.rest, e.last)
    decreases |s|
  {
    hide ChunkOf, Decode;
    var c := ChunkOf(s);
    DecodeStep(s);
    if c.Chunk? {
      ChunkStays(s, t);
      DecodeStep(s + t);
      var data, after := s[c.start..c.start + c.len], s[c.total..];
      assert (s + t)[c.total..] == after + t && (s + t)[c.start..c.start + c.len] == data;
      DecodeExtends(after, t);
      var more := Decode(Decode(after).rest + t).body;
      assert data + (Decode(after).body + more) == data + Decode(after).body + more;
    } else {
      assert "" + Decode(s + t).body == Decode(s + t).body;
    }
  }

  lemma {:induction false} DecodeStep(s: string)
    ensures var c := ChunkOf(s);
            Decode(s) ==
              if c.NoChunk? then Decoded("", s, false)
              else if c.len == 0 then Decoded("", s[c.total..], true)
              else
                var d := Decode(s[c.total..]);
                Decoded(s[c.start..c.start + c.len] + d.body, d.rest, d.last)
  {
  }

  /** The digits that the conversion %lX writes. */
  function HexText(n: nat): (s: string)
    ensures s != "" && (forall i :: 0 <= i < |s| ==> IsHexDigit(s[i])) && HexValue(s) == n
  {
    var d := n % 16;
    var last := [if d < 10 then ('0' as int + d) as char else ('A' as int + (d - 10)) as char];
    assert HexDigit(last[0]) == d;
    assert last[..0] == "";
    if n < 16 then last
    else
      var front := HexText(n / 16);
      assert (front + last)[..|front|] == front;
      front + last
  }

  /** One chunk as mg_send_http_chunk sends it. */
  function Encode(body: string): string {
    HexText(|body|) + "\r\n" + body + "\r\n"
  }

  lemma {:induction false} ChunkOfEncoded(body: string, t: string)
    ensures var s, n := Encode(body) + t, |HexText(|body|)|;
            ChunkOf(s) == Chunk(n + 2, |body|, n + |body| + 4) && s[n + 2..n + 2 + |body|] == body
            && s[n + |body| + 4..] == t && LineEndAt(s, HexEnd(s)) && HexEnd(s) == n
            && HexValue(s[..n]) == |body|
  {
    var digits := HexText(|body|);
    var s, n := Encode(body) + t, |digits|;
    assert s[n] == '\r' && s[n + 1] == '\n' && s[..n] == digits;
    assert forall i :: 0 <= i < n ==> s[i] == digits[i];
    HexEndIs(s, n);
    assert s[n + 2 + |body|] == '\r' && s[n + 3 + |body|] == '\n';
  }

  lemma {:induction false} DecodeEncoded(body: string, more: string)
    ensures Decode(Encode(body) + more) ==
              if body == "" then Decoded("", more, true)
              else var d := Decode(more); Decoded(body + d.body, d.rest, d.last)
  {
    hide ChunkOf, Encode, HexEnd, HexValue, Decode;
    ChunkOfEncoded(body, more);
    DecodeStep(Encode(body) + more);
  }

  function EncodeAll(bodies: seq<string>): string {
    if bodies == [] then "" else Encode(bodies[0]) + EncodeAll(bodies[1..])
  }

  function FirstEmpty(bodies: seq<string>): (n: nat)
    ensures n <= |bodies| && (n < |bodies| ==> bodies[n] == "") && forall i :: 0 <= i < n ==> bodies[i] != ""
  {
    if bodies == [] || bodies[0] == "" then 0 else 1 + FirstEmpty(bodies[1..])
  }

  /** Decoding what was sent gives back the bodies up to the first empty one, which is the last chunk. */
  lemma {:induction false} EncodedBodies(bodies: seq<string>, t: string)
    requires FirstEmpty(bodies) < |bodies|
    ensures var n := FirstEmpty(bodies);
            Decode(EncodeAll(bodies) + t) == Decoded(Join(bodies[..n]), EncodeAll(bodies[n + 1..]) + t, true)
    decreases |bodies|
  {
    hide Encode, Decode;
    var n, more := FirstEmpty(bodies), EncodeAll(bodies[1..]) + t;
    assert EncodeAll(bodies) + t == Encode(bodies[0]) + more;
    DecodeEncoded(bodies[0], more);
    if n > 0 {
      var tail := bodies[1..];
      EncodedBodies(tail, t);
      assert bodies[..n] == [bodies[0]] + tail[..n - 1] && bodies[n + 1..] == tail[n..];
      JoinFront(bodies[0], tail[..n - 1]);
    } else {
      assert bodies[..0] == [];
    }
  }

  // ---------------------------------------------------------------------------------------------
  // Chunks as any sender may write them

  /** A hexadecimal digit in either case. */
  function DigitChar(d: nat, upper: bool): char
    requires d < 16
  {
    if upper then "0123456789ABCDEF"[d] else "0123456789abcdef"[d]
  }

  lemma {:induction false} DigitCharRead(d: nat, upper: bool)
    requires d < 16
    ensures IsHexDigit(DigitChar(d, upper)) && HexDigit(DigitChar(d, upper)) == d
  {
    var upperCase, lowerCase := "0123456789ABCDEF", "0123456789abcdef";
    if d < 4 {
      assert d == 0 || d == 1 || d == 2 || d == 3;
    } else if d < 8 {
      assert d == 4 || d == 5 || d == 6 || d == 7;
    } else if d < 12 {
      assert d == 8 || d == 9 || d == 10 || d == 11;
    } else {
      assert d == 12 || d == 13 || d == 14 || d == 15;
    }
  }

  /** A digit, from 0 to 15, and the case it is written in. */
  datatype Digit = Digit(d: nat, upper: bool)

  /** The number with these digits in base 16. */
  function NumberOf(digits: seq<Digit>): nat {
    if digits == [] then 0 else NumberOf(digits[..|digits| - 1]) * 16 + digits[|digits| - 1].d
  }

  predicate ProperDigits(digits: seq<Digit>) {
    digits != [] && forall i :: 0 <= i < |digits| ==> digits[i].d < 16
  }

  function DigitText(digits: seq<Digit>): (t: string)
    requires forall i :: 0 <= i < |digits| ==> digits[i].d < 16
    ensures |t| == |digits|
  {
    seq(|digits|, i requires 0 <= i < |digits| => DigitChar(digits[i].d, digits[i].upper))
  }

  lemma {:induction false} DigitTextRead(digits: seq<Digit>)
    requires forall i :: 0 <= i < |digits| ==> digits[i].d < 16
    ensures var t := DigitText(digits);
            (forall i :: 0 <= i < |t| ==> IsHexDigit(t[i])) && HexValue(t) == NumberOf(digits)
    decreases |digits|
  {
    hide DigitChar, HexDigit, IsHexDigit;
    if digits != [] {
      var front, last := digits[..|digits| - 1], digits[|digits| - 1];
      DigitTextRead(front);
      DigitCharRead(last.d, last.upper);
      assert DigitText(digits) == DigitText(front) + [DigitChar(last.d, last.upper)];
      HexAppend(DigitText(front), DigitChar(last.d, last.upper));
    }
  }

  /** A chunk whose length is written with these digits: in either case, and with any number of leading zeros. */
  datatype Written = Written(digits: seq<Digit>, body: string)

  predicate ProperChunk(c: Written) {
    ProperDigits(c.digits) && NumberOf(c.digits) == |c.body|
  }

  function WriteChunk(c: Written): string
    requires ProperChunk(c)
  {
    DigitText(c.digits) + "\r\n" + c.body + "\r\n"
  }

  lemma {:induction false} ChunkOfWritten(c: Written, t: string)
    requires ProperChunk(c)
    ensures var s, n := WriteChunk(c) + t, |c.digits|;
            ChunkOf(s) == Chunk(n + 2, |c.body|, n + |c.body| + 4) && s[n + 2..n + 2 + |c.body|] == c.body
            && s[n + |c.body| + 4..] == t
  {
    hide DigitChar, IsHexDigit;
    var digits := DigitText(c.digits);
    var s, n := WriteChunk(c) + t, |digits|;
    DigitTextRead(c.digits);
    assert s[n] == '\r' && s[n + 1] == '\n' && s[..n] == digits;
    assert !IsHexDigit('\r') by { NoDigit(); }
    assert forall i :: 0 <= i < n ==> s[i] == digits[i];
    HexEndIs(s, n);
    assert s[n + 2 + |c.body|] == '\r' && s[n + 3 + |c.body|] == '\n';
  }

  lemma {:induction false} NoDigit()
    ensures !IsHexDigit('\r')
  {
  }

  function WriteChunks(chunks: seq<Written>): string
    requires forall i :: 0 <= i < |chunks| ==> ProperChunk(chunks[i])
  {
    if chunks == [] then "" else WriteChunk(chunks[0]) + WriteChunks(chunks[1..])
  }

  function Bodies(chunks: seq<Written>): string {
    if chunks == [] then "" else chunks[0].body + Bodies(chunks[1..])
  }

  /** Chunks written by anyone, with lengths in upper or lower case or mixed, decode to their bodies; the last one is
      empty. */
  lemma {:induction false} WrittenBodies(chunks: seq<Written>, last: Written, t: string)
    requires forall i :: 0 <= i < |chunks| ==> ProperChunk(chunks[i]) && chunks[i].body != ""
    requires ProperChunk(last) && last.body == ""
    ensures Decode(WriteChunks(chunks) + WriteChunk(last) + t) == Decoded(Bodies(chunks), t, true)
    decreases |chunks|
  {
    hide WriteChunk, Decode, ChunkOf, ProperChunk;
    if chunks == [] {
      assert WriteChunks(chunks) + WriteChunk(last) + t == WriteChunk(last) + t;
      ChunkOfWritten(last, t);
      DecodeStep(WriteChunk(last) + t);
    } else {
      var more := WriteChunks(chunks[1..]) + WriteChunk(last) + t;
      assert WriteChunks(chunks) + WriteChunk(last) + t == WriteChunk(chunks[0]) + more;
      ChunkOfWritten(chunks[0], more);
      DecodeStep(WriteChunk(chunks[0]) + more);
      WrittenBodies(chunks[1..], last, t);
    }
  }

  /** What is sent is written in upper case, without leading zeros. */
  lemma {:induction false} SentIsWritten(body: string) returns (c: Written)
    ensures ProperChunk(c) && c.body == body && WriteChunk(c) == Encode(body)
    ensures forall i :: 0 <= i < |c.digits| ==> c.digits[i].upper
    ensures |c.digits| > 1 ==> c.digits[0].d > 0
  {
    var digits := HexTextDigits(|body|);
    c := Written(digits, body);
  }

  lemma {:induction false} HexTextDigits(n: nat) returns (digits: seq<Digit>)
    ensures ProperDigits(digits) && NumberOf(digits) == n && DigitText(digits) == HexText(n)
    ensures forall i :: 0 <= i < |digits| ==> digits[i].upper
    ensures if n == 0 then |digits| == 1 else digits[0].d > 0
  {
    hide DigitChar, HexValue, HexDigit, IsHexDigit, DigitText, NumberOf;
    var d := n % 16;
    UpperDigit(d);
    if n < 16 {
      digits := [Digit(d, true)];
      OneMoreDigit([], Digit(d, true));
    } else {
      var front := HexTextDigits(n / 16);
      OneMoreDigit(front, Digit(d, true));
      digits := front + [Digit(d, true)];
    }
  }

  lemma {:induction false} OneMoreDigit(front: seq<Digit>, last: Digit)
    requires (forall i :: 0 <= i < |front| ==> front[i].d < 16) && last.d < 16
    ensures DigitText(front + [last]) == DigitText(front) + [DigitChar(last.d, last.upper)]
    ensures NumberOf(front + [last]) == NumberOf(front) * 16 + last.d
    ensures front == [] ==> DigitText(front) == "" && NumberOf(front) == 0 && [] + [last] == [last]
  {
    hide DigitChar;
    assert (front + [last])[..|front|] == front;
  }

  lemma {:induction false} UpperDigit(d: nat)
    requires d < 16
    ensures DigitChar(d, true) == if d < 10 then ('0' as int + d) as char else ('A' as int + (d - 10)) as char
  {
    DigitCharRead(d, true);
    var upperCase := "0123456789ABCDEF";
    if d < 8 {
      assert d == 0 || d == 1 || d == 2 || d == 3 || d == 4 || d == 5 || d == 6 || d == 7;
    } else {
      assert d == 8 || d == 9 || d == 10 || d == 11 || d == 12 || d == 13 || d == 14 || d == 15;
    }
  }
}
