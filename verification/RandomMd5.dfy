/** The MD5 of the random number generator: another way of buffering around the same compression function. */
module RandomMd5 {
  import opened BlockHashing
  import opened Bytes
  import opened BlockBuffers

  class Context<S(!new)> {
    const block: BlockBuffer<S>     // buf and in
    var low: nat                    // bytes[0]
    var high: nat                   // bytes[1]
    ghost var message: seq<byte>

    constructor (transform: (S, seq<byte>) -> S, init: S)
      ensures Valid() && message == [] && fresh(block) && fresh(block.input)
      ensures block.transform == transform && block.init == init
    {
      block := new BlockBuffer(transform, init);
      low, high, message := 0, 0, [];
    }

    ghost predicate Valid()
      reads this, block, block.input
    {
      block.Holds(message) && Counting(|message|)
    }

    /** The number of bytes, modulo 2 to the 64. */
    ghost predicate Counting(len: nat)
      reads this`low, this`high
    {
      low < WORD && high < WORD && high * WORD + low == len % (WORD * WORD)
    }

    /** The counter; the result is the space left in the buffer, at least 1. */
    method CountBytes(len: nat, ghost total: nat) returns (t: nat)
      requires Counting(total) && len < 0x8000_0000
      modifies this`low, this`high
      ensures Counting(total + len) && t == 64 - total % 64
    {
      t := low;
      ByteIndex(low, high, total);
      AddBytes(low, high, len, total);
      low := (t + len) % WORD;
      if low < t {
        high := (high + 1) % WORD;
      }
      t := 64 - t % 64;
    }

    /** xMD5Update, for a length that an int can hold. */
    method Update(data: seq<byte>)
      requires Valid() && |data| < 0x8000_0000
      modifies this, block`state, block.input
      ensures Valid() && message == old(message) + data
    {
      hide BlockBuffer.Holds, Counting;
      ghost var m := message;
      var t := CountBytes(|data|, |m|);
      message := m + data;
      if t > |data| {
        block.Take(64 - t, data, 0, |data|, m);
        assert data[0..|data|] == data;
        return;
      }
      block.Take(64 - t, data, 0, t, m);
      FilledUp(m, data[0..t]);
      block.TakeBlocks(data, t, m);
    }

    /** xMD5Final: the state after the padded message. */
    method Final() returns (digest: S)
      requires Valid()
      modifies block`state, block.input
      ensures digest == Fold(block.transform, block.init, Padded(message, LittleEndian(BitLength(|message|), 8)))
    {
      hide Fold, Padded, LittleEndian, BitLength, Zeros, Buffered;
      ByteIndex(low, high, |message|);
      BitWords(low, high, |message|);
      var count := low % 64;
      // The words of the length in bits: a shift by 3 bits from one to the other.
      var lowBits, highBits := low * 8 % WORD, high * 8 % WORD + low / 0x2000_0000;
      ghost var left, lengthField := block.input[..count], LittleEndian(lowBits, 4) + LittleEndian(highBits, 4);
      block.Padding(lengthField, message);
      block.input[count] := 0x80;
      assert block.input[..count + 1] == left + [0x80];
      var p, room: int := count + 1, 56 - 1 - count;
      if room < 0 {
        block.PutZeros(p, room + 8);
        assert block.input[..p + (room + 8)] == block.input[..];
        block.state := block.transform(block.state, block.input[..]);
        p, room := 0, 56;
      }
      ghost var front := block.input[..p];
      block.PutZeros(p, room + 8);
      TwoRuns(front, room, 8);
      assert block.input[..56] == block.input[..p + (room + 8)][..p + room];
      block.PutLength(lowBits, highBits);
      block.state := block.transform(block.state, block.input[..]);
      digest := block.state;
    }
  }

  lemma {:induction false} TwoRuns(front: seq<byte>, m: nat, n: nat)
    ensures (front + Zeros(m + n))[..|front| + m] == front + Zeros(m)
    ensures front == [] ==> front + Zeros(m) == Zeros(m)
  {
  }

  lemma {:induction false} ByteIndex(low: nat, high: nat, len: nat)
    requires low < WORD && high * WORD + low == len % (WORD * WORD)
    ensures low % 64 == len % 64
  {
    assert len == len / (WORD * WORD) * (WORD * WORD) + high * WORD + low;
  }

  lemma {:induction false} AddBytes(low: nat, high: nat, len: nat, total: nat)
    requires low < WORD && high < WORD && len < WORD && high * WORD + low == total % (WORD * WORD)
    ensures var newLow := (low + len) % WORD;
            var newHigh := if newLow < low then (high + 1) % WORD else high;
            newLow < WORD && newHigh < WORD && newHigh * WORD + newLow == (total + len) % (WORD * WORD)
  {
    var newLow := (low + len) % WORD;
    var carry := if newLow < low then 1 else 0;
    assert low + len == carry * WORD + newLow;
    assert (high * WORD + low) + len == (high + carry) * WORD + newLow;
    Congruent(total + len, (high + carry) * WORD + newLow, total / (WORD * WORD));
    HighPart(high + carry, newLow);
  }

  /** Three bits are shifted from the low to the high word. */
  lemma {:induction false} BitWords(low: nat, high: nat, len: nat)
    requires low < WORD && high < WORD && high * WORD + low == len % (WORD * WORD)
    ensures LittleEndian(BitLength(len), 8)
         == LittleEndian(low * 8 % WORD, 4) + LittleEndian(high * 8 % WORD + low / 0x2000_0000, 4)
  {
    hide LittleEndian;
    var l, up := low * 8 % WORD, low / 0x2000_0000;
    assert low * 8 == up * WORD + l;
    var sum := high * 8 + up;
    assert 8 * (high * WORD + low) == sum * WORD + l;
    Congruent(8 * len, sum * WORD + l, 8 * (len / (WORD * WORD)));
    HighPart(sum, l);
    DisjointBits(high, up);
    TwoWords(l, sum % WORD);
  }

  lemma {:induction false} DisjointBits(high: nat, up: nat)
    requires up < 8
    ensures high * 8 % WORD + up == (high * 8 + up) % WORD
  {
    var q := high / 0x2000_0000;
    assert high * 8 == q * WORD + high % 0x2000_0000 * 8;
  }
}
