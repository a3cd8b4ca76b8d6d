/** The SHA-1 of the web server, with an arbitrary compression function in place of cs_sha1_transform. */
module Sha1 {
  import opened BlockHashing
  import opened Bytes
  import opened BlockBuffers

  class Context<S(!new)> {
    const block: BlockBuffer<S>     // state and buffer
    var low: nat                    // count[0]
    var high: nat                   // count[1]
    ghost var message: seq<byte>

    constructor (transform: (S, seq<byte>) -> S, init: S)
      ensures Valid() && message == [] && fresh(block) && fresh(block.input)
      ensures block.transform == transform && block.init == init
    {
      block := new BlockBuffer(transform, init);
      low, high, message := 0, 0, [];
    }

    ghost predicate Valid()
      reads this, block, block.input
    {
      block.Holds(message) && Counting(|message|)
    }

    ghost predicate Counting(len: nat)
      reads this`low, this`high
    {
      low < WORD && high < WORD && high * WORD + low == BitLength(len)
    }

    /** The counter in two words, with a carry; the result is how full the buffer is. */
    method CountBits(len: nat, ghost total: nat) returns (j: nat)
      requires Counting(total) && len < WORD
      modifies this`low, this`high
      ensures Counting(total + len) && j == total % 64
    {
      hide BitLength;
      CountIndex(low, high, total);
      AddBitsCounts(low, high, len, total);
      j := low;
      low := (low + len * 8 % WORD) % WORD;
      if low < j {
        high := (high + 1) % WORD;
      }
      high := (high + len / 0x2000_0000) % WORD;
      j := j / 8 % 64;
    }

    /** cs_sha1_update. Lengths are 32-bit numbers, and so is what is in the buffer and the data together:
        exactly if that sum wraps, all of the data is copied to the end of the buffer, which is outside. */
    method Update(data: seq<byte>) returns (outside: bool)
      requires Valid() && |data| < WORD
      modifies this, block`state, block.input
      ensures outside <==> old(|message|) % 64 + |data| >= WORD
      ensures !outside ==> Valid() && message == old(message) + data
    {
      hide BlockBuffer.Holds, Counting, BitLength;
      ghost var m := message;
      var len, i := |data|, 0;
      var j := CountBits(len, |m|);
      message := m + data;
      outside := (j + len) % WORD <= 63 && j + len > 64;
      if outside {
        return;
      }
      if (j + len) % WORD > 63 {
        block.Take(j, data, 0, 64 - j, m);
        FilledUp(m, data[0..64 - j]);
        i := block.TakeWholeBlocks(data, 64 - j, m);
        j := 0;
      } else {
        assert m + data[0..0] == m;
      }
      block.Take(j, data, i, len - i, m + data[0..i]);
      assert m + data[0..i] + data[i..i + (len - i)] == m + data;
    }

    /** cs_sha1_final: the padding goes through Update byte by byte. */
    method Final() returns (digest: S)
      requires Valid()
      modifies this, block`state, block.input
      ensures digest == Fold(block.transform, block.init, Padded(old(message), BigEndian(BitLength(|old(message)|), 8)))
    {
      hide Fold, BlockBuffer.Holds, BigEndian, BitLength, Counting;
      ghost var m := message;
      var finalCount := LengthBytes();
      var _ := Update([0x80]);
      ghost var zeros := 0;
      CountIs();
      while low / 8 % 64 != 56
        invariant Valid() && zeros <= ZeroCount(|m|) && message == m + [0x80] + Zeros(zeros)
        invariant low / 8 % 64 == |message| % 64
        decreases ZeroCount(|m|) - zeros
      {
        var _ := Update([0]);
        zeros := zeros + 1;
        assert m + [0x80] + Zeros(zeros - 1) + [0] == m + [0x80] + Zeros(zeros);
        CountIs();
      }
      var _ := Update(finalCount);
      assert zeros == ZeroCount(|m|);
      assert message == Padded(m, finalCount);
      WholeState();
      digest := block.state;
    }

    /** The counter, high byte first. */
    method LengthBytes() returns (bytes: seq<byte>)
      requires Counting(|message|)
      ensures bytes == BigEndian(BitLength(|message|), 8)
    {
      bytes := BigEndian(high, 4) + BigEndian(low, 4);
      TwoWords(low, high);
    }

    lemma {:induction false} CountIs()
      requires Valid()
      ensures low / 8 % 64 == |message| % 64
    {
      CountIndex(low, high, |message|);
    }

    lemma {:induction false} WholeState()
      requires Valid()
      ensures block.state == Fold(block.transform, block.init, message)
    {
    }
  }
}
