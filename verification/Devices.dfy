/** Two devices that put the contents of a file into a subevent: as bytes, and as numbers read line by line. */
module Devices {
  import opened Bytes

  const SUBEVENT_HEADER := 4    // SEVTHEADERLENGTH, in words
  const CSTRING_FORMAT := 4     // IDCSTR
  const INTEGER_FORMAT := 6     // ID4EVT

  /** A subevent where it is put: the header fields and the data area behind them. */
  class Subevent<T(0)> {
    var subLength: int          // in words
    var subId: int
    var subType: int
    var subDecoding: int
    var subPadding: int
    var reserved: (int, int)
    const data: array<T>

    constructor (data: array<T>)
      ensures this.data == data
    {
      this.data := data;
    }

    /** The header as it is before the payload is known. */
    method PutHeader(id: int, kind: int, decoding: int)
      modifies this
      ensures subLength == SUBEVENT_HEADER && Describes(id, kind, decoding)
    {
      subLength, subId, subType, subDecoding, reserved := SUBEVENT_HEADER, id, kind, decoding, (0, 0);
    }

    method Copy(bytes: seq<T>)
      requires |bytes| <= data.Length
      modifies data
      ensures data[..|bytes|] == bytes
      ensures forall i :: |bytes| <= i < data.Length ==> data[i] == old(data[i])
    {
      forall i | 0 <= i < |bytes| {
        data[i] := bytes[i];
      }
    }

    ghost predicate Describes(id: int, kind: int, decoding: int)
      reads this
    {
      subId == id && subType == kind && subDecoding == decoding && reserved == (0, 0)
    }
  }

  /** What stat, open and read find: size is the length that stat gives, content what read can get, if it does
      not fail. */
  datatype File = Missing | Unreadable | Broken(size: nat) | Readable(size: nat, content: seq<byte>)

  /** The payload is cut to this many bytes when the file and its padding would not fit the room. */
  function ByteLimit(size: nat, room: int): int {
    if (size + 3) / 4 + SUBEVENT_HEADER + 1 >= room then 4 * (room - SUBEVENT_HEADER - 2) else size
  }

  /** So a file is kept whole exactly up to 4 * (room - 6) bytes and cut there otherwise: a cut payload is a whole
      number of words. It leaves a word of the room unused, and always four bytes more would have fitted. */
  lemma {:induction false} CutAt(size: nat, room: int)
    ensures ByteLimit(size, room) == if size <= 4 * (room - 6) then size else 4 * (room - 6)
    ensures room >= 6 ==> 4 + PayloadWords(ByteLimit(size, room)) < room
    ensures room >= 6 ==> 4 + PayloadWords(4 * (room - 6) + 4) <= room < 4 + PayloadWords(4 * (room - 6) + 9)
  {
  }

  /** What read returns: -1 if it fails, as it does when it is asked for less than nothing. */
  function BytesRead(file: File, room: int): int
    requires file.Readable? || file.Broken?
  {
    if file.Broken? || ByteLimit(file.size, room) < 0 then -1 else Min(ByteLimit(file.size, room), |file.content|)
  }

  /** The words behind the header for this result of read. A read that fails counts as two words. */
  function PayloadWords(c: int): int {
    if c < 0 then 2 else (c + 7) / 8 * 2
  }

  function Min(a: nat, b: nat): nat {
    if a <= b then a else b
  }

  class FileDevice {
    const eventType: int
    const subeventId: int
    const maxLength: int

    constructor (eventType: int, subeventId: int, maxLength: int)
      ensures this.eventType == eventType && this.subeventId == subeventId && this.maxLength == maxLength
    {
      this.eventType, this.subeventId, this.maxLength := eventType, subeventId, maxLength;
    }

    function MaxLength(etype: int): int {
      if etype != eventType then 0 else maxLength + SUBEVENT_HEADER + 1
    }

    /** put_data, for room of so many words. The data area is given in bytes. The exact size of the payload
        can be told from the length and the padding. The subevent stays within the room exactly if that is at
        least 6 words, and within what max_length announces exactly if its payload does: the room decides, not
        the announced length. */
    method PutData(etype: int, sevt: Subevent<byte>, room: int, file: File) returns (words: int)
      requires sevt.data.Length >= 4 * (room - SUBEVENT_HEADER)
      modifies sevt, sevt.data
      ensures words > 0 <==> etype == eventType && (file.Readable? || file.Broken?)
      ensures words <= 0 ==> words == 0
      ensures words > 0 ==>
                var c := BytesRead(file, room);
                && words == sevt.subLength && words % 2 == 0 && (words <= room <==> room >= 6)
                && sevt.Describes(subeventId, 1, 4)
                && c == 4 * (words - SUBEVENT_HEADER) - sevt.subPadding
                && (if c < 0 then sevt.subPadding == 9 else 0 <= sevt.subPadding < 8)
                && (c >= 0 ==> sevt.data[..c] == file.content[..c])
                && (words <= MaxLength(etype) <==> PayloadWords(c) <= maxLength + 1)
      ensures forall i :: 0 <= i < sevt.data.Length && 4 * (room - SUBEVENT_HEADER) <= i ==>
                sevt.data[i] == old(sevt.data[i])
    {
      if etype != eventType || file.Missing? || file.Unreadable? {
        return 0;
      }
      var nbytes: int := file.size;
      if (nbytes + 3) / 4 + SUBEVENT_HEADER + 1 >= room {
        nbytes := 4 * (room - SUBEVENT_HEADER - 2);
      }
      sevt.PutHeader(subeventId, 1, CSTRING_FORMAT);
      var c := -1;
      if nbytes >= 0 && file.Readable? {
        c := Min(nbytes, |file.content|);
        sevt.Copy(file.content[..c]);
      }
      // The remainder keeps the sign of a failed read.
      sevt.subPadding := if c < 0 then -1 else c % 8;
      if sevt.subPadding != 0 {
        sevt.subPadding := 8 - sevt.subPadding;
      }
      sevt.subLength := sevt.subLength + (c + sevt.subPadding) / 4;
      words := sevt.subLength;
      WholePairs(c, sevt.subPadding);
    }
  }

  /** A file of 16 bytes and a device that announces 7 words: with room for more, it puts 8. */
  method MoreThanAnnounced() returns (announced: int, words: int)
    ensures announced == 7 && words == 8
  {
    var device := new FileDevice(1, 1001, 2);
    var data := new byte[64];
    var sevt := new Subevent(data);
    announced := device.MaxLength(1);
    words := device.PutData(1, sevt, 20, Readable(16, seq(16, i => 0)));
  }

  lemma {:induction false} WholePairs(c: int, padding: int)
    requires -1 <= c && padding == if c < 0 then 9 else if c % 8 == 0 then 0 else 8 - c % 8
    ensures (c + padding) / 4 == PayloadWords(c) && 4 * ((c + padding) / 4) == c + padding
  {
    var q := (c + 7) / 8;
    assert c >= 0 ==> c + padding == 8 * q;
  }

  /** A line of the file: the number it starts with, if any. */
  datatype Line = NoNumber | Number(value: int)

  function Numbers(lines: seq<Line>): (values: seq<int>)
    ensures |values| <= |lines|
  {
    if lines == [] then []
    else
      var last := lines[|lines| - 1];
      Numbers(lines[..|lines| - 1]) + (if last.Number? then [last.value] else [])
  }

  /** How many numbers are taken at most: the first one is taken whatever the room. */
  function NumberLimit(room: int): nat {
    if room <= SUBEVENT_HEADER + 2 then 1 else room - SUBEVENT_HEADER - 1
  }

  /** With their padding so many numbers fit the room; one more would have fitted exactly if that is even. */
  lemma {:induction false} NumbersCutAt(room: int)
    requires room >= 6
    ensures NumberLimit(room) == room - 5 && 4 + (NumberLimit(room) + 1) / 2 * 2 <= room
    ensures 4 + (NumberLimit(room) + 2) / 2 * 2 <= room <==> room % 2 == 0
  {
  }

  class FileNumbersDevice {
    const eventType: int
    const subeventId: int
    const maxLength: int

    constructor (eventType: int, subeventId: int, maxLength: int)
      ensures this.eventType == eventType && this.subeventId == subeventId && this.maxLength == maxLength
    {
      this.eventType, this.subeventId, this.maxLength := eventType, subeventId, maxLength;
    }

    function MaxLength(etype: int): int {
      if etype != eventType then 0 else maxLength + SUBEVENT_HEADER + 1
    }

    /** put_data: numbers from as many lines as it takes to fill the room but one word, at least one. The
        subevent stays within the room from 6 words on, and within what max_length announces exactly if the
        numbers, in pairs, do. */
    method PutData(etype: int, sevt: Subevent<int>, room: int, isOpen: bool, lines: seq<Line>) returns (words: int)
      requires sevt.data.Length >= NumberLimit(room)
      modifies sevt, sevt.data
      ensures words > 0 <==> etype == eventType && isOpen
      ensures words <= 0 ==> words == 0
      ensures words > 0 ==>
                && words == sevt.subLength && words % 2 == 0 && (room >= 6 ==> words <= room)
                && sevt.Describes(subeventId, 4, 6)
                && 0 <= sevt.subPadding < 2
                && (var n := words - SUBEVENT_HEADER - sevt.subPadding;
                    && n == Min(NumberLimit(room), |Numbers(lines)|)
                    && sevt.data[..n] == Numbers(lines)[..n])
      ensures words > 0 ==>
                (words <= MaxLength(etype) <==>
                 (Min(NumberLimit(room), |Numbers(lines)|) + 1) / 2 * 2 <= maxLength + 1)
      ensures forall i :: NumberLimit(room) <= i < sevt.data.Length ==> sevt.data[i] == old(sevt.data[i])
    {
      if etype != eventType || !isOpen {
        return 0;
      }
      sevt.PutHeader(subeventId, 4, INTEGER_FORMAT);
      var i, line, goOn := 0, 0, true;
      while line < |lines| && goOn
        invariant line <= |lines| && sevt.subLength == SUBEVENT_HEADER && sevt.Describes(subeventId, 4, INTEGER_FORMAT)
        invariant if goOn then i < NumberLimit(room) else i == NumberLimit(room)
        invariant i == |Numbers(lines[..line])| && sevt.data[..i] == Numbers(lines[..line])
        invariant forall k :: NumberLimit(room) <= k < sevt.data.Length ==> sevt.data[k] == old(sevt.data[k])
        modifies sevt.data
      {
        assert lines[..line + 1][..line] == lines[..line];
        // A line that does not start with a number leaves 0 in the place of the next one.
        sevt.data[i] := if lines[line].Number? then lines[line].value else 0;
        if lines[line].Number? {
          i := i + 1;
          if i + SUBEVENT_HEADER + 1 >= room {
            goOn := false;
          }
        }
        line := line + 1;
      }
      NumbersPrefix(lines, line);
      sevt.subPadding := i % 2;
      sevt.subLength := sevt.subLength + (i + sevt.subPadding);
      words := sevt.subLength;
    }
  }

  /** Three numbers and a device that announces 7 words: with room for more, it puts 8. */
  method MoreNumbersThanAnnounced() returns (announced: int, words: int)
    ensures announced == 7 && words == 8
  {
    var device := new FileNumbersDevice(1, 1001, 2);
    var data := new int[64];
    var sevt := new Subevent(data);
    announced := device.MaxLength(1);
    var lines := [Number(1), Number(2), Number(3)];
    assert |Numbers(lines)| == 3 by {
      assert lines[..2] == [Number(1), Number(2)] && lines[..2][..1] == [Number(1)];
    }
    words := device.PutData(1, sevt, 20, true, lines);
  }

  lemma {:induction false} NumbersPrefix(lines: seq<Line>, n: nat)
    requires n <= |lines|
    ensures |Numbers(lines[..n])| <= |Numbers(lines)|
    ensures Numbers(lines)[..|Numbers(lines[..n])|] == Numbers(lines[..n])
    ensures n == |lines| ==> lines[..n] == lines
    decreases |lines| - n
  {
    if n < |lines| {
      NumbersPrefix(lines, n + 1);
      assert lines[..n + 1][..n] == lines[..n];
    } else {
      assert lines[..n] == lines;
    }
  }
}
