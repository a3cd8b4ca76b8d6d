/** The MD5 of the web server, with an arbitrary compression function in place of MD5Transform. */
module Md5 {
  import opened BlockHashing
  import opened Bytes
  import opened BlockBuffers

  class Context<S(!new)> {
    const block: BlockBuffer<S>     // buf and in
    var low: nat                    // bits[0]
    var high: nat                   // bits[1]
    ghost var message: seq<byte>    // everything taken in
    ghost var counted: nat          // the sum of the lengths, each cut to 32 bits

    constructor (transform: (S, seq<byte>) -> S, init: S)
      ensures Valid() && message == [] && counted == 0 && fresh(block) && fresh(block.input)
      ensures block.transform == transform && block.init == init
    {
      block := new BlockBuffer(transform, init);
      low, high, message, counted := 0, 0, [], 0;
    }

    ghost predicate Valid()
      reads this, block, block.input
    {
      block.Holds(message) && Counting() && counted % WORD == |message| % WORD
    }

    ghost predicate Counting()
      reads this`low, this`high, this`counted
    {
      low < WORD && high < WORD && high * WORD + low == BitLength(counted)
    }

    /** The counter in two words, with a carry; the result is how full the buffer is. */
    method CountBits(len: nat) returns (t: nat)
      requires Counting()
      modifies this`low, this`high, this`counted
      ensures Counting() && counted == old(counted) + len % WORD && t == old(counted) % 64
    {
      hide BitLength;
      CountIndex(low, high, counted);
      var len32 := len % WORD;
      t := low;
      AddBitsCounts(low, high, len32, counted);
      low := (t + len32 * 8 % WORD) % WORD;
      if low < t {
        high := (high + 1) % WORD;
      }
      high := (high + len32 / 0x2000_0000) % WORD;
      counted := counted + len32;
      t := t / 8 % 64;
    }

    /** MD5_Update. The counter takes the length of the data modulo 2 to the 32. */
    method Update(data: seq<byte>)
      requires Valid()
      modifies this, block`state, block.input
      ensures Valid() && message == old(message) + data && counted == old(counted) + |data| % WORD
    {
      hide BlockBuffer.Holds, Counting;
      ghost var m := message;
      var len, off := |data|, 0;
      SameRest(counted, |m|, len);
      var t := CountBits(len);
      message := m + data;
      if t != 0 {
        var at := t;
        t := 64 - t;
        if len < t {
          block.Take(at, data, 0, len, m);
          assert data[0..len] == data;
          return;
        }
        block.Take(at, data, 0, t, m);
        FilledUp(m, data[0..t]);
        off := t;
      } else {
        assert m + data[0..0] == m;
      }
      block.TakeBlocks(data, off, m);
    }

    lemma {:induction false} CountedLength()
      requires Valid()
      ensures low / 8 % 64 == |message| % 64
      ensures LittleEndian(BitLength(counted), 8) == LittleEndian(low, 4) + LittleEndian(high, 4)
    {
      hide BitLength, LittleEndian, BlockBuffer.Holds;
      CountIndex(low, high, counted);
      TwoWords(low, high);
      SameRest(counted, |message|, 0);
    }

    /** MD5_Final: the state after the padded message. */
    method Final() returns (digest: S)
      requires Valid()
      modifies block`state, block.input
      ensures digest == Fold(block.transform, block.init, Padded(message, LittleEndian(BitLength(counted), 8)))
    {
      hide Fold, Padded, LittleEndian, BitLength, Zeros, Buffered, Counting;
      var count := low / 8 % 64;
      CountedLength();
      ghost var left, lengthField := block.input[..count], LittleEndian(low, 4) + LittleEndian(high, 4);
      block.Padding(lengthField, message);
      block.input[count] := 0x80;
      assert block.input[..count + 1] == left + [0x80];
      var p := count + 1;
      count := 64 - 1 - count;
      if count < 8 {
        block.PutZeros(p, count);
        assert block.input[..p + count] == block.input[..];
        block.state := block.transform(block.state, block.input[..]);
        block.PutZeros(0, 56);
        assert block.input[..56] == Zeros(56);
      } else {
        block.PutZeros(p, count - 8);
      }
      block.PutLength(low, high);
      block.state := block.transform(block.state, block.input[..]);
      digest := block.state;
    }
  }

  lemma {:induction false} SameRest(counted: nat, total: nat, len: nat)
    requires counted % WORD == total % WORD
    ensures counted % 64 == total % 64 && (counted + len % WORD) % WORD == (total + len) % WORD
  {
    assert counted == counted / WORD * WORD + counted % WORD && total == total / WORD * WORD + total % WORD;
    assert len == len / WORD * WORD + len % WORD;
    var a, b := counted + len % WORD, total + len;
    assert b - a == (total / WORD - counted / WORD + len / WORD) * WORD;
    assert b == b / WORD * WORD + b % WORD && a == a / WORD * WORD + a % WORD;
  }

  /** The length that goes into the padding is right exactly if what the cut lengths leave out is a multiple
      of 2 to the 61 bytes; a single update does so for a length with (len >> 32) divisible by 2 to the 29,
      in particular for every length below 2 to the 32. */
  lemma {:induction false} LengthRight(total: nat, counted: nat)
    requires counted <= total && counted % WORD == total % WORD
    ensures BitLength(counted) == BitLength(total) <==> (total - counted) / WORD % 0x2000_0000 == 0
  {
    var k := (total - counted) / WORD;
    assert total == total / WORD * WORD + total % WORD && counted == counted / WORD * WORD + counted % WORD;
    assert total - counted == (total / WORD - counted / WORD) * WORD;
    assert total == counted + k * WORD;
    var d, r := k / 0x2000_0000, k % 0x2000_0000;
    assert 8 * total == 8 * counted + 8 * WORD * r + d * (WORD * WORD);
    Congruent(8 * total, 8 * counted + 8 * WORD * r, d);
    ShiftedCount(8 * counted, 8 * WORD * r);
  }

  lemma {:induction false} ShiftedCount(a: nat, b: nat)
    requires b < WORD * WORD
    ensures (a + b) % (WORD * WORD) == a % (WORD * WORD) <==> b == 0
  {
    var m := WORD * WORD;
    var x, y := a % m, (a + b) % m;
    assert a == a / m * m + x && a + b == (a + b) / m * m + y;
    if x == y {
      assert b == ((a + b) / m - a / m) * m;
    }
  }
}
