/** The part that the three hash contexts share: the state and a buffer for an incomplete block. */
module BlockBuffers {
  import opened BlockHashing
  import opened Bytes
  import opened Memory

  class BlockBuffer<S(!new)> {
    const transform: (S, seq<byte>) -> S    // the compression function
    const init: S
    const input: array<byte>
    var state: S

    constructor (transform: (S, seq<byte>) -> S, init: S)
      ensures Holds([]) && this.transform == transform && this.init == init && fresh(input)
    {
      this.transform, this.init, input, state := transform, init, new byte[64], init;
    }

    /** The message m is in the state and in the buffer. */
    ghost predicate Holds(m: seq<byte>)
      reads this`state, input
    {
      input.Length == 64 && Buffered(transform, init, m, state, input[..|m| % 64])
    }

    /** n bytes of data, from off on, are copied into the buffer behind what it holds of m; a full block goes
        through the compression function. */
    method Take(at: nat, data: seq<byte>, off: nat, n: nat, ghost m: seq<byte>)
      requires Holds(m) && at == |m| % 64 && at + n <= 64 && off + n <= |data|
      modifies this`state, input
      ensures Holds(m + data[off..off + n])
    {
      ghost var left, piece := input[..at], data[off..off + n];
      forall k | at <= k < at + n {
        input[k] := data[off + k - at];
      }
      assert input[..at + n] == left + piece;
      Feed(transform, init, m, state, left, piece);
      if at + n == 64 {
        assert input[..] == left + piece && |m + piece| % 64 == 0;
        state := transform(state, input[..]);
        assert input[..0] == [];
      }
    }

    /** A block is taken directly from the data when the buffer is empty. */
    method TakeDirectly(data: seq<byte>, off: nat, ghost m: seq<byte>)
      requires Holds(m) && |m| % 64 == 0 && off + 64 <= |data|
      modifies this`state
      ensures Holds(m + data[off..off + 64])
    {
      ghost var piece := data[off..off + 64];
      assert input[..0] == [] && [] + piece == piece;
      Feed(transform, init, m, state, [], piece);
      state := transform(state, data[off..off + 64]);
    }

    /** The whole blocks of data from from on, directly; the result is where they end. */
    method TakeWholeBlocks(data: seq<byte>, from: nat, ghost m: seq<byte>) returns (i: nat)
      requires from <= |data| && Holds(m + data[0..from]) && |m + data[0..from]| % 64 == 0
      modifies this`state
      ensures from <= i <= |data| < i + 64 && |m + data[0..i]| % 64 == 0 && Holds(m + data[0..i])
    {
      hide Holds;
      i := from;
      while i + 63 < |data|
        invariant from <= i <= |data| && |m + data[0..i]| % 64 == 0 && Holds(m + data[0..i])
      {
        TakeDirectly(data, i, m + data[0..i]);
        assert m + data[0..i] + data[i..i + 64] == m + data[0..i + 64];
        i := i + 64;
      }
    }

    /** The whole blocks of data from from on, through the buffer, and then what is left behind them. */
    method TakeBlocks(data: seq<byte>, from: nat, ghost m: seq<byte>)
      requires from <= |data| && Holds(m + data[0..from]) && |m + data[0..from]| % 64 == 0
      modifies this`state, input
      ensures Holds(m + data)
    {
      hide Holds;
      var off: nat, len: nat := from, |data| - from;
      while len >= 64
        invariant off + len == |data| && |m + data[0..off]| % 64 == 0 && Holds(m + data[0..off])
      {
        Take(0, data, off, 64, m + data[0..off]);
        assert m + data[0..off] + data[off..off + 64] == m + data[0..off + 64];
        off, len := off + 64, len - 64;
      }
      Take(0, data, off, len, m + data[0..off]);
      assert m + data[0..off] + data[off..off + len] == m + data;
    }

    /** What the compression function must still be given at the end of message m. */
    ghost predicate Pads(left: seq<byte>, before: S, lengthField: seq<byte>, m: seq<byte>)
      requires |lengthField| == 8
    {
      |left| < 64 && Fold(transform, init, Padded(m, lengthField)) ==
        if |left| < 56 then transform(before, left + [0x80] + Zeros(55 - |left|) + lengthField)
        else transform(transform(before, left + [0x80] + Zeros(63 - |left|)), Zeros(56) + lengthField)
    }

    lemma {:induction false} Padding(lengthField: seq<byte>, m: seq<byte>)
      requires Holds(m) && |lengthField| == 8
      ensures Pads(input[..|m| % 64], state, lengthField, m)
    {
      var left := input[..|m| % 64];
      if |left| < 56 {
        PadOneBlock(transform, init, m, state, left, lengthField);
      } else {
        PadTwoBlocks(transform, init, m, state, left, lengthField);
      }
    }

    /** The two words of the length go to the end of the block, low byte first. */
    method PutLength(low: nat, high: nat)
      requires input.Length == 64
      modifies input
      ensures input[..56] == old(input[..56])
      ensures input[..] == old(input[..56]) + (LittleEndian(low, 4) + LittleEndian(high, 4))
    {
      ghost var front := input[..56];
      var bytes := LittleEndian(low, 4) + LittleEndian(high, 4);
      forall k | 56 <= k < 64 {
        input[k] := bytes[k - 56];
      }
      assert input[..56] == front && input[56..] == bytes;
    }

    /** Zeros behind the first at bytes. */
    method PutZeros(at: nat, n: nat)
      requires at + n <= input.Length
      modifies input
      ensures input[..at] == old(input[..at]) && input[..at + n] == old(input[..at]) + Zeros(n)
    {
      ghost var front := input[..at];
      Memset(input, at, 0, n);
      assert input[..at] == front && input[at..at + n] == Zeros(n);
      assert input[..at + n] == input[..at] + input[at..at + n];
    }
  }
}
