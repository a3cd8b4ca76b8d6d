/** Base64 as in section 4 of RFC 4648: streaming and one-shot encoding, and decoding. */
module Base64 {
  import opened Bytes
  import opened Memory

  const UPPERCASES := "ABCDEFGHIJKLMNOPQRSTUVWXYZ"
  const LOWERCASES := "abcdefghijklmnopqrstuvwxyz"
  const DIGITS := "0123456789"
  const TABLE := UPPERCASES + LOWERCASES + DIGITS + "+/"

  const PAD := 200        // what the decoding table holds for '='
  const ILLEGAL := 255

  /** cs_base64_emit_code: the character for a value of 6 bits. */
  function Digit(v: int): char
    requires 0 <= v < 64
  {
    if v < 26 then (v + 'A' as int) as char
    else if v < 52 then (v - 26 + 'a' as int) as char
    else if v < 62 then (v - 52 + '0' as int) as char
    else if v - 62 == 0 then '+' else '/'
  }

  /** from_b64: the value of a character, of which only the 7 low bits are looked at. */
  function FromB64(ch: char): (v: nat)
    ensures v < 64 || v == PAD || v == ILLEGAL
  {
    var c := ch as int % 128;
    if 'A' as int <= c <= 'Z' as int then c - 'A' as int
    else if 'a' as int <= c <= 'z' as int then c - 'a' as int + 26
    else if '0' as int <= c <= '9' as int then c - '0' as int + 52
    else if c == '+' as int then 62
    else if c == '/' as int then 63
    else if c == '=' as int then PAD
    else ILLEGAL
  }

  lemma {:induction false} DigitBack(v: int)
    requires 0 <= v < 64
    ensures FromB64(Digit(v)) == v
  {
  }

  lemma {:induction false} Uppercases(v: int)
    requires 0 <= v < 26
    ensures |UPPERCASES| == 26 && UPPERCASES[v] == (v + 'A' as int) as char
  {
    if v < 6 {
    } else if v < 12 {
    } else if v < 18 {
    }
  }

  lemma {:induction false} Lowercases(v: int)
    requires 0 <= v < 26
    ensures |LOWERCASES| == 26 && LOWERCASES[v] == (v + 'a' as int) as char
  {
    if v < 6 {
    } else if v < 12 {
    } else if v < 18 {
    }
  }

  lemma {:induction false} Digits(v: int)
    requires 0 <= v < 10
    ensures |DIGITS| == 10 && DIGITS[v] == (v + '0' as int) as char
  {
  }

  /** The table of the one-shot encoder and the arithmetic of the streaming one give the same characters. */
  lemma {:induction false} TableIsDigit(v: int)
    requires 0 <= v < 64
    ensures |TABLE| == 64 && TABLE[v] == Digit(v)
  {
    hide UPPERCASES, LOWERCASES, DIGITS;
    Uppercases(0);
    Lowercases(0);
    Digits(0);
    if v < 26 {
      Uppercases(v);
    } else if v < 52 {
      Lowercases(v - 26);
    } else if v < 62 {
      Digits(v - 52);
    }
  }

  /** The four values that three bytes are cut into. */
  function First(a: byte): (v: nat) ensures v < 64 { a / 4 }
  function Second(a: byte, b: byte): (v: nat) ensures v < 64 { a % 4 * 16 + b / 16 }
  function Third(b: byte, c: byte): (v: nat) ensures v < 64 { b % 16 * 4 + c / 64 }
  function Fourth(c: byte): (v: nat) ensures v < 64 { c % 64 }

  /** The encoding: four characters for three bytes, padded with '=' at the end. */
  function Encode(src: seq<byte>): (text: string)
    ensures |text| == (|src| + 2) / 3 * 4
  {
    if src == [] then ""
    else if |src| == 1 then [Digit(First(src[0])), Digit(Second(src[0], 0)), '=', '=']
    else if |src| == 2 then [Digit(First(src[0])), Digit(Second(src[0], src[1])), Digit(Third(src[1], 0)), '=']
    else
      assert (|src| + 2) / 3 == 1 + (|src[3..]| + 2) / 3;
      [Digit(First(src[0])), Digit(Second(src[0], src[1])), Digit(Third(src[1], src[2])), Digit(Fourth(src[2]))]
      + Encode(src[3..])
  }

  /** Whole groups can be encoded one after the other. */
  lemma {:induction false} EncodeSplits(a: seq<byte>, b: seq<byte>)
    requires |a| % 3 == 0
    ensures Encode(a + b) == Encode(a) + Encode(b)
    decreases |a|
  {
    if a == [] {
      assert a + b == b;
    } else {
      assert (a + b)[3..] == a[3..] + b;
      EncodeSplits(a[3..], b);
    }
  }

  /** cs_base64_ctx; what b64_putc is given is collected in out. */
  class Context {
    const chunk: array<byte>
    var chunkSize: nat
    var out: string
    ghost var message: seq<byte>

    constructor ()
      ensures Valid() && message == [] && out == "" && fresh(chunk)
    {
      chunk, chunkSize, out, message := new byte[3], 0, "", [];
    }

    /** Whole groups have been encoded, the rest is in the chunk. */
    ghost predicate Valid()
      reads this, chunk
    {
      && chunk.Length == 3 && chunkSize == |message| % 3
      && chunk[..chunkSize] == message[|message| - chunkSize..]
      && out == Encode(message[..|message| - chunkSize])
    }

    /** cs_base64_emit_chunk */
    method EmitChunk()
      requires chunk.Length == 3 && 0 < chunkSize <= 3
      requires forall i :: chunkSize <= i < 3 ==> chunk[i] == 0
      modifies this`out
      ensures var text := Encode(chunk[..chunkSize]); out == old(out) + text[..chunkSize + 1]
    {
      var a, b, c := chunk[0], chunk[1], chunk[2];
      out := out + [Digit(a / 4)];
      out := out + [Digit(a % 4 * 16 + b / 16)];
      if chunkSize > 1 {
        out := out + [Digit(b % 16 * 4 + c / 64)];
      }
      if chunkSize > 2 {
        out := out + [Digit(c % 64)];
      }
    }

    /** cs_base64_update */
    method Update(data: seq<byte>)
      requires Valid()
      modifies this, chunk
      ensures Valid() && message == old(message) + data
    {
      ghost var before := message;
      for i := 0 to |data|
        invariant Valid() && message == before + data[..i]
      {
        Put(data[i]);
        assert before + data[..i] + [data[i]] == before + data[..i + 1];
      }
      assert data[..|data|] == data;
    }

    /** The body of the loop of cs_base64_update. */
    method Put(x: byte)
      requires Valid()
      modifies this, chunk
      ensures Valid() && message == old(message) + [x]
    {
      hide Encode;
      ghost var whole, group := message[..|message| - chunkSize], chunk[..chunkSize] + [x];
      Regroup(message, |message| - chunkSize, x);
      message := message + [x];
      chunk[chunkSize] := x;
      chunkSize := chunkSize + 1;
      assert chunk[..chunkSize] == group;
      if chunkSize == 3 {
        EmitChunk();
        EncodeSplits(whole, group);
        chunkSize := 0;
      }
    }

    /** cs_base64_finish: then the text is the encoding of everything, however it was split. */
    method Finish()
      requires Valid()
      modifies this`out, chunk
      ensures out == Encode(message)
    {
      hide Encode;
      ghost var whole, group := message[..|message| - chunkSize], chunk[..chunkSize];
      assert message == whole + group;
      EncodeSplits(whole, group);
      if chunkSize > 0 {
        GroupPrefix(group);
        PadsOnly(group);
        Memset(chunk, chunkSize, 0, 3 - chunkSize);
        assert chunk[..chunkSize] == group;
        EmitChunk();
        for i := 0 to 3 - chunkSize
          invariant out == Encode(whole) + Encode(group)[..chunkSize + 1 + i]
        {
          out := out + ['='];
        }
      }
    }
  }

  /** The characters of a group without its padding. */
  function GroupText(a: byte, b: byte, c: byte, n: nat): string {
    [Digit(First(a)), Digit(Second(a, b))] + (if n > 1 then [Digit(Third(b, c))] else [])
    + (if n > 2 then [Digit(Fourth(c))] else [])
  }

  lemma {:induction false} GroupPrefix(group: seq<byte>)
    requires 0 < |group| <= 3
    ensures |Encode(group)| == 4
    ensures Encode(group)[..|group| + 1]
         == GroupText(group[0], if |group| > 1 then group[1] else 0, if |group| > 2 then group[2] else 0, |group|)
  {
    if |group| == 3 {
      assert Encode(group[3..]) == "";
    }
  }

  /** The group of up to three bytes at i. */
  function GroupAt(src: seq<byte>, i: nat): seq<byte>
    requires i < |src|
  {
    if i + 3 <= |src| then src[i..i + 3] else src[i..]
  }

  /** One group of cs_base64_encode, from position i of the source: its characters without the padding. */
  method EncodeGroup(src: seq<byte>, i: nat, dst: array<char>, j: nat) returns (k: nat)
    requires i < |src| && j + 4 <= dst.Length
    modifies dst
    ensures |GroupAt(src, i)| in {1, 2, 3} && |Encode(GroupAt(src, i))| == 4 && k == j + |GroupAt(src, i)| + 1
    ensures dst[..k] == old(dst[..j]) + Encode(GroupAt(src, i))[..|GroupAt(src, i)| + 1]
  {
    hide TABLE, Digit, Encode, First, Second, Third, Fourth;
    ghost var before := dst[..j];
    var a: byte := src[i];
    var b: byte := if i + 1 >= |src| then 0 else src[i + 1];
    var c: byte := if i + 2 >= |src| then 0 else src[i + 2];
    GroupPrefix(GroupAt(src, i));
    k := Out(dst, j, First(a));
    k := Out(dst, k, Second(a, b));
    if i + 1 < |src| {
      k := Out(dst, k, Third(b, c));
    }
    if i + 2 < |src| {
      k := Out(dst, k, Fourth(c));
    }
    assert dst[..k] == before + GroupText(a, b, c, |GroupAt(src, i)|);
  }

  /** BASE64_OUT of the character that the table has for v. */
  method Out(dst: array<char>, j: nat, v: nat) returns (k: nat)
    requires j < dst.Length && v < 64
    modifies dst
    ensures k == j + 1 && dst[..k] == old(dst[..j]) + [Digit(v)]
  {
    TableIsDigit(v);
    dst[j] := TABLE[v];
    k := j + 1;
  }

  /** i bytes of the source have been encoded to j characters; at the end without the padding. */
  ghost predicate EncodedTo(src: seq<byte>, i: nat, text: string) {
    if i < |src| || |src| % 3 == 0 then i <= |src| && i % 3 == 0 && text == Encode(src[..i])
    else text == Encode(src)[..|src| / 3 * 4 + |src| % 3 + 1]
  }

  lemma {:induction false} GroupEncoded(src: seq<byte>, i: nat, text: string)
    requires i < |src| && EncodedTo(src, i, text)
    ensures var group := GroupAt(src, i);
            |group| <= 3 && |Encode(group)| == 4 && EncodedTo(src, i + 3, text + Encode(group)[..|group| + 1])
  {
    hide Encode;
    var group := GroupAt(src, i);
    GroupPrefix(group);
    EncodeSplits(src[..i], group);
    if i + 3 <= |src| {
      assert src[..i + 3] == src[..i] + group;
      if i + 3 == |src| {
        assert src[..i + 3] == src;
      }
      assert Encode(group)[..4] == Encode(group);
    } else {
      assert src == src[..i] + group;
      assert (text + Encode(group))[..|text| + |group| + 1] == text + Encode(group)[..|group| + 1];
    }
  }

  /** What is missing of the text at the end is its padding. */
  lemma {:induction false} PaddingMissing(src: seq<byte>, i: nat, text: string)
    requires i >= |src| && EncodedTo(src, i, text)
    ensures text <= Encode(src) && |Encode(src)| % 4 == 0 && |Encode(src)| - |text| < 4
    ensures forall k :: |text| <= k < |Encode(src)| ==> Encode(src)[k] == '='
    decreases |src|
  {
    hide Encode;
    if |src| % 3 == 0 {
      assert src[..|src|] == src;
    } else {
      var n := |src| / 3 * 3;
      var front, last := Encode(src[..n]), Encode(src[n..]);
      EncodeSplits(src[..n], src[n..]);
      assert src == src[..n] + src[n..];
      PadsOnly(src[n..]);
      forall k | |text| <= k < |Encode(src)|
        ensures Encode(src)[k] == '='
      {
        assert (front + last)[k] == last[k - |front|];
      }
    }
  }

  method PutPadding(dst: array<char>, from: nat, ghost text: string) returns (j: nat)
    requires |text| < dst.Length && |text| % 4 == 0 && from <= |text| < from + 4 && dst[..from] == text[..from]
    requires forall k :: from <= k < |text| ==> text[k] == '='
    modifies dst
    ensures j == |text| && dst[..j] == text && dst[j] == '\0'
  {
    j := from;
    while j % 4 != 0
      invariant j <= |text| < j + 4 && dst[..j] == text[..j]
      decreases |text| - j
    {
      dst[j] := '=';
      j := j + 1;
    }
    dst[j] := '\0';
    assert dst[..j] == text[..j];
  }

  /** cs_base64_encode: the whole text at once, and a zero behind it. */
  method EncodeInto(src: seq<byte>, dst: array<char>) returns (j: nat)
    requires dst.Length > |Encode(src)|
    modifies dst
    ensures j == |Encode(src)| && dst[..j] == Encode(src) && dst[j] == '\0'
  {
    hide Encode, EncodedTo;
    var i := 0;
    j := 0;
    NothingEncoded(src);
    while i < |src|
      invariant j <= i / 3 * 4 && i % 3 == 0 && i < |src| + 3 && j <= dst.Length && EncodedTo(src, i, dst[..j])
    {
      GroupEncoded(src, i, dst[..j]);
      j := EncodeGroup(src, i, dst, j);
      i := i + 3;
    }
    PaddingMissing(src, i, dst[..j]);
    j := PutPadding(dst, j, Encode(src));
  }

  lemma {:induction false} NothingEncoded(src: seq<byte>)
    ensures forall text :: text == "" ==> EncodedTo(src, 0, text)
  {
    assert src[..0] == [] && Encode([]) == "";
  }

  lemma {:induction false} PadsOnly(group: seq<byte>)
    requires 0 < |group| < 3
    ensures forall k :: |group| + 1 <= k < |Encode(group)| ==> Encode(group)[k] == '='
  {
  }

  /** Four characters that the decoder takes. */
  predicate Legal(s: string) {
    && |s| >= 4
    && FromB64(s[0]) != ILLEGAL && FromB64(s[1]) != ILLEGAL && FromB64(s[2]) != ILLEGAL && FromB64(s[3]) != ILLEGAL
  }

  /** Whether padding ends the text in the first group. */
  predicate Padded(s: string)
    requires |s| >= 4
  {
    FromB64(s[0]) == PAD || FromB64(s[1]) == PAD || FromB64(s[2]) == PAD || FromB64(s[3]) == PAD
  }

  /** The bytes of the first group. */
  function GroupBytes(s: string): seq<byte>
    requires |s| >= 4
  {
    Combine(FromB64(s[0]), FromB64(s[1]), FromB64(s[2]), FromB64(s[3]))
  }

  function Combine(a: nat, b: nat, c: nat, d: nat): seq<byte> {
    if a == PAD || b == PAD then []
    else
      [(a * 4 + b / 16) % 256] + (if c == PAD then [] else [(b * 16 + c / 4) % 256])
      + (if c == PAD || d == PAD then [] else [(c * 64 + d) % 256])
  }

  datatype Decoded = Decoded(bytes: seq<byte>, taken: nat)

  /** What is decoded and how many characters are taken: whole groups up to the first padding or the first
      group with an illegal character. */
  function Decode(s: string): Decoded {
    if !Legal(s) then Decoded([], 0)
    else if Padded(s) then Decoded(GroupBytes(s), 4)
    else
      var d := Decode(s[4..]);
      Decoded(GroupBytes(s) + d.bytes, 4 + d.taken)
  }

  lemma {:induction false} ThreeBytes(a: byte, b: byte, c: byte)
    ensures First(a) < 64 && Second(a, b) < 64 && Third(b, c) < 64 && Fourth(c) < 64
    ensures (First(a) * 4 + Second(a, b) / 16) % 256 == a
    ensures (Second(a, b) * 16 + Third(b, c) / 4) % 256 == b
    ensures (Third(b, c) * 64 + Fourth(c)) % 256 == c
  {
    var x, y, z, w := a / 4, a % 4, b / 16, b % 16;
    assert a == 4 * x + y && b == 16 * z + w;
    assert (y * 16 + z) / 16 == y && (w * 4 + c / 64) / 4 == w;
    assert (y * 16 + z) * 16 == y * 256 + z * 16;
    assert (w * 4 + c / 64) * 64 == w * 256 + c / 64 * 64;
  }

  /** The first four characters of an encoding give back the bytes they were made of. */
  lemma {:induction false} GroupBack(src: seq<byte>)
    requires src != []
    ensures var text := Encode(src);
            |text| >= 4 && Legal(text) && (Padded(text) <==> |src| < 3)
            && GroupBytes(text) == if |src| < 3 then src else src[..3]
  {
    hide FromB64, Digit, First, Second, Third, Fourth;
    var a := src[0];
    var b: byte, c: byte := if |src| > 1 then src[1] else 0, if |src| > 2 then src[2] else 0;
    ThreeBytes(a, b, c);
    DigitBack(First(a));
    DigitBack(Second(a, b));
    DigitBack(Third(b, c));
    DigitBack(Fourth(c));
    PadBack();
    if |src| == 1 {
      assert src == [a];
    } else if |src| == 2 {
      assert src == [a, b];
    } else {
      assert src[..3] == [a, b, c];
    }
  }

  lemma {:induction false} PadBack()
    ensures FromB64('=') == PAD
  {
  }

  /** Decoding an encoded text takes all of it and gives the bytes back. */
  lemma {:induction false} RoundTrip(src: seq<byte>)
    ensures Decode(Encode(src)) == Decoded(src, |Encode(src)|)
    decreases |src|
  {
    hide GroupBytes, Legal, Padded;
    if src != [] {
      GroupBack(src);
      if |src| >= 3 {
        RoundTrip(src[3..]);
        assert Encode(src)[4..] == Encode(src[3..]);
        assert src == src[..3] + src[3..];
      }
    } else {
      NothingDecoded();
    }
  }

  lemma {:induction false} NothingDecoded()
    ensures Decode("") == Decoded([], 0)
  {
  }

  /** One group of cs_base64_decode: its bytes are written behind the n already there. */
  method DecodeGroup(s: string, at: nat, dst: array<byte>, n: nat) returns (m: nat, padded: bool)
    requires at + 4 <= |s| && n + 3 <= dst.Length
    modifies dst
    ensures n <= m <= n + 3 && dst[..m] == old(dst[..n]) + GroupBytes(s[at..]) && padded == Padded(s[at..])
  {
    ghost var before, group := dst[..n], s[at..];
    assert group[0] == s[at] && group[1] == s[at + 1] && group[2] == s[at + 2] && group[3] == s[at + 3];
    var a, b, c, d := FromB64(s[at]), FromB64(s[at + 1]), FromB64(s[at + 2]), FromB64(s[at + 3]);
    m, padded := n, true;
    if a == PAD || b == PAD {
      return;
    }
    dst[m] := (a * 4 + b / 16) % 256;
    m := m + 1;
    assert dst[..m] == before + [dst[n]];
    if c == PAD {
      return;
    }
    dst[m] := (b * 16 + c / 4) % 256;
    m := m + 1;
    assert dst[..m] == before + [dst[n], dst[n + 1]];
    if d == PAD {
      return;
    }
    dst[m] := (c * 64 + d) % 256;
    m := m + 1;
    assert dst[..m] == before + [dst[n], dst[n + 1], dst[n + 2]];
    padded := false;
  }

  /** cs_base64_decode: the number of characters taken, and the bytes at the start of dst. */
  method DecodeInto(s: string, dst: array<byte>) returns (taken: nat, n: nat)
    requires dst.Length > |s| / 4 * 3
    modifies dst
    ensures n < dst.Length && dst[n] == 0 && Decoded(dst[..n], taken) == Decode(s)
  {
    hide GroupBytes, Padded, FromB64, Decode;
    n, taken := 0, 0;
    ghost var all := Decode(s);
    assert s[0..] == s && dst[..0] + all.bytes == all.bytes;
    while |s| - taken >= 4 && FromB64(s[taken]) != ILLEGAL && FromB64(s[taken + 1]) != ILLEGAL
          && FromB64(s[taken + 2]) != ILLEGAL && FromB64(s[taken + 3]) != ILLEGAL
      invariant taken <= |s| && n <= taken / 4 * 3 && taken % 4 == 0
      invariant all.bytes == dst[..n] + Decode(s[taken..]).bytes && all.taken == taken + Decode(s[taken..]).taken
    {
      ghost var rest, before := s[taken..], dst[..n];
      assert rest[4..] == s[taken + 4..];
      DecodeStep(rest);
      var padded;
      n, padded := DecodeGroup(s, taken, dst, n);
      taken := taken + 4;
      if padded {
        dst[n] := 0;
        assert dst[..n] == all.bytes;
        return;
      }
      assert before + (GroupBytes(rest) + Decode(rest[4..]).bytes) == dst[..n] + Decode(rest[4..]).bytes;
    }
    DecodeStep(s[taken..]);
    assert dst[..n] + [] == dst[..n];
    dst[n] := 0;
    assert dst[..n] == all.bytes;
  }

  lemma {:induction false} DecodeStep(s: string)
    ensures Decode(s) ==
              if !Legal(s) then Decoded([], 0)
              else if Padded(s) then Decoded(GroupBytes(s), 4)
              else Decoded(GroupBytes(s) + Decode(s[4..]).bytes, 4 + Decode(s[4..]).taken)
  {
  }

  lemma {:induction false} Regroup<T>(m: seq<T>, k: nat, x: T)
    requires k <= |m|
    ensures m + [x] == m[..k] + (m[k..] + [x])
    ensures (m + [x])[..k] == m[..k] && (m + [x])[k..] == m[k..] + [x]
    ensures (m + [x])[..|m| + 1] == m + [x]
  {
  }

  // ---------------------------------------------------------------------------------------------
  // The alphabet, as section 4 of RFC 4648 gives it

  /** The character without its high bits, which the decoder does not look at. */
  function LowBits(ch: char): char { (ch as int % 128) as char }

  /** The decoder knows exactly the characters of the alphabet, by their place in it, and the padding. */
  lemma {:induction false} ValueExactly(ch: char)
    ensures |TABLE| == 64
    ensures FromB64(ch) < 64 <==> LowBits(ch) in TABLE
    ensures FromB64(ch) < 64 ==> TABLE[FromB64(ch)] == LowBits(ch)
    ensures FromB64(ch) == PAD <==> LowBits(ch) == '='
  {
    hide TABLE;
    TableIsDigit(0);
    if FromB64(ch) < 64 {
      TableIsDigit(FromB64(ch));
    }
    if LowBits(ch) in TABLE {
      var v :| 0 <= v < |TABLE| && TABLE[v] == LowBits(ch);
      TableIsDigit(v);
      DigitBack(v);
    }
  }

  /** Three bytes and the four values they are cut into are the same number of 24 bits, the first one highest; a
      group that is not full has zeros for what is missing. */
  lemma {:induction false} SameNumber(a: byte, b: byte, c: byte)
    ensures ((First(a) * 64 + Second(a, b)) * 64 + Third(b, c)) * 64 + Fourth(c) == (a * 256 + b) * 256 + c
    ensures (First(a) * 64 + Second(a, b)) * 64 + Third(b, 0) == (a * 256 + b) * 4
    ensures First(a) * 64 + Second(a, 0) == a * 16
  {
  }

  predicate InAlphabet(ch: char) { LowBits(ch) in TABLE || LowBits(ch) == '=' }

  lemma {:induction false} LegalExactly(s: string)
    requires |s| >= 4
    ensures Legal(s) <==> InAlphabet(s[0]) && InAlphabet(s[1]) && InAlphabet(s[2]) && InAlphabet(s[3])
    ensures Padded(s) <==> LowBits(s[0]) == '=' || LowBits(s[1]) == '=' || LowBits(s[2]) == '=' || LowBits(s[3]) == '='
  {
    hide TABLE, FromB64, LowBits;
    ValueExactly(s[0]); ValueExactly(s[1]); ValueExactly(s[2]); ValueExactly(s[3]);
  }

  /** Where decoding stops: not enough characters are left, a character of the next group is outside the alphabet,
      or the group just taken holds the padding. */
  ghost predicate StopsAt(s: string, at: nat) {
    && at <= |s|
    && (|| at + 4 > |s|
        || !(InAlphabet(s[at]) && InAlphabet(s[at + 1]) && InAlphabet(s[at + 2]) && InAlphabet(s[at + 3]))
        || (at >= 4 && exists i :: at - 4 <= i < at && LowBits(s[i]) == '='))
  }

  /** Whole groups are taken up to the first place where decoding stops; all of their characters are in the
      alphabet, and padding is only in the last group. */
  lemma {:induction false} DecodeStops(s: string)
    ensures var n := Decode(s).taken;
            && n % 4 == 0 && StopsAt(s, n)
            && (forall i :: 0 <= i < n ==> InAlphabet(s[i]))
            && (forall i :: 0 <= i < n - 4 ==> LowBits(s[i]) != '=')
    decreases |s|
  {
    hide TABLE, FromB64, LowBits, Legal, Padded, Combine, InAlphabet;
    if |s| >= 4 {
      LegalExactly(s);
      if Legal(s) && Padded(s) {
        OnePadded(s);
      } else if Legal(s) {
        var t, n := s[4..], Decode(s[4..]).taken;
        DecodeStops(t);
        assert forall i :: 4 <= i < |s| ==> s[i] == t[i - 4];
        NoneInFirst(s);
        if n >= 4 && exists i :: n - 4 <= i < n && LowBits(t[i]) == '=' {
          var i :| n - 4 <= i < n && LowBits(t[i]) == '=';
          assert LowBits(s[i + 4]) == '=';
        }
      }
    } else {
      TooShort(s);
    }
  }

  lemma {:induction false} TooShort(s: string)
    requires |s| < 4
    ensures Decode(s) == Decoded([], 0)
  {
  }

  lemma {:induction false} OnePadded(s: string)
    requires |s| >= 4 && Legal(s) && Padded(s)
    ensures Decode(s).taken == 4 && exists i :: 0 <= i < 4 && LowBits(s[i]) == '='
  {
    hide TABLE, FromB64, LowBits, Combine;
    LegalExactly(s);
  }

  lemma {:induction false} NoneInFirst(s: string)
    requires |s| >= 4 && Legal(s) && !Padded(s)
    ensures forall i :: 0 <= i < 4 ==> InAlphabet(s[i]) && LowBits(s[i]) != '='
  {
    hide TABLE, FromB64, LowBits, InAlphabet;
    LegalExactly(s);
  }
}
