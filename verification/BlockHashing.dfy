/** Hashing a message block by block with an arbitrary compression function. */
module BlockHashing {
  import opened Bytes

  /** The state after all whole blocks of 64 bytes; what is left over at the end is ignored. */
  function Fold<S>(transform: (S, seq<byte>) -> S, state: S, message: seq<byte>): S
    decreases |message|
  {
    if |message| < 64 then state else Fold(transform, transform(state, message[..64]), message[64..])
  }

  lemma {:induction false} FoldWhole<S>(transform: (S, seq<byte>) -> S, state: S, a: seq<byte>, b: seq<byte>)
    requires |a| % 64 == 0
    ensures Fold(transform, state, a + b) == Fold(transform, Fold(transform, state, a), b)
    decreases |a|
  {
    if a == [] {
      assert a + b == b;
    } else {
      assert (a + b)[..64] == a[..64] && (a + b)[64..] == a[64..] + b;
      FoldWhole(transform, transform(state, a[..64]), a[64..], b);
    }
  }

  /** A context that has taken in the message: whole blocks are in the state, the rest is in the buffer. */
  ghost predicate Buffered<S(!new)>(transform: (S, seq<byte>) -> S, init: S, message: seq<byte>, state: S,
                                        buffer: seq<byte>) {
    && |buffer| == |message| % 64 && buffer == message[|message| - |buffer|..]
    && state == Fold(transform, init, message)
  }

  /** Bytes that at most fill the buffer: a full one goes through the compression function. */
  lemma {:induction false} Feed<S(!new)>(transform: (S, seq<byte>) -> S, init: S, message: seq<byte>, state: S,
                                         buffer: seq<byte>, piece: seq<byte>)
    requires Buffered(transform, init, message, state, buffer) && |buffer| + |piece| <= 64
    ensures if |buffer| + |piece| < 64
            then Buffered(transform, init, message + piece, state, buffer + piece)
            else Buffered(transform, init, message + piece, transform(state, buffer + piece), [])
  {
    var whole := message[..|message| - |buffer|];
    assert message == whole + buffer && message + piece == whole + (buffer + piece);
    FoldWhole(transform, init, whole, buffer);
    FoldWhole(transform, init, whole, buffer + piece);
    assert (buffer + piece)[..|buffer + piece|] == buffer + piece;
  }

  lemma {:induction false} FilledUp(m: seq<byte>, piece: seq<byte>)
    requires |m| % 64 + |piece| == 64
    ensures |m + piece| % 64 == 0
  {
  }

  function Zeros(n: nat): (bytes: seq<byte>)
    ensures |bytes| == n
  {
    seq(n, i => 0)
  }

  /** The zeros that bring a message and the byte 0x80 to 56 bytes modulo 64. */
  function ZeroCount(len: nat): (n: nat)
    ensures n < 64 && (len + 1 + n) % 64 == 56
  {
    (119 - len % 64) % 64
  }

  lemma {:induction false} ZerosJoin(m: nat, n: nat)
    ensures Zeros(m) + Zeros(n) == Zeros(m + n)
  {
  }

  /** The message with its padding: one bit, zeros, and a length field of 8 bytes. Sections 3.1 and 3.2 of
      RFC 1321 and section 5.1.1 of FIPS 180-4. */
  function Padded(message: seq<byte>, lengthField: seq<byte>): (padded: seq<byte>)
    requires |lengthField| == 8
    ensures |padded| % 64 == 0
  {
    message + [0x80] + Zeros(ZeroCount(|message|)) + lengthField
  }

  /** Behind the message come a byte with only its top bit set, as few zeros as bring the length field to the end of a
      block, and that field. */
  lemma {:induction false} PaddedLayout(message: seq<byte>, lengthField: seq<byte>)
    requires |lengthField| == 8
    ensures var p, n := Padded(message, lengthField), |message|;
            && p[..n] == message && p[n] == 128 && p[|p| - 8..] == lengthField
            && (forall i :: n < i < |p| - 8 ==> p[i] == 0)
            && |p| % 64 == 0 && n + 9 <= |p| < n + 9 + 64
  {
  }

  /** The length of the message in bits, modulo 2 to the 64. */
  function BitLength(len: nat): nat {
    8 * len % (WORD * WORD)
  }

  /** The last block when the padding still fits into it. */
  lemma {:induction false} PadOneBlock<S(!new)>(transform: (S, seq<byte>) -> S, init: S, message: seq<byte>, state: S,
                                                buffer: seq<byte>, lengthField: seq<byte>)
    requires Buffered(transform, init, message, state, buffer) && |buffer| < 56 && |lengthField| == 8
    ensures Fold(transform, init, Padded(message, lengthField))
         == transform(state, buffer + [0x80] + Zeros(55 - |buffer|) + lengthField)
  {
    var piece := [0x80] + Zeros(55 - |buffer|) + lengthField;
    assert ZeroCount(|message|) == 55 - |buffer|;
    Feed(transform, init, message, state, buffer, piece);
    assert message + piece == Padded(message, lengthField);
    assert buffer + piece == buffer + [0x80] + Zeros(55 - |buffer|) + lengthField;
  }

  /** The last two blocks when it does not. */
  lemma {:induction false} PadTwoBlocks<S(!new)>(transform: (S, seq<byte>) -> S, init: S, message: seq<byte>, state: S,
                                                 buffer: seq<byte>, lengthField: seq<byte>)
    requires Buffered(transform, init, message, state, buffer) && |buffer| >= 56 && |lengthField| == 8
    ensures Fold(transform, init, Padded(message, lengthField))
         == transform(transform(state, buffer + [0x80] + Zeros(63 - |buffer|)), Zeros(56) + lengthField)
  {
    var first, second := [0x80] + Zeros(63 - |buffer|), Zeros(56) + lengthField;
    assert ZeroCount(|message|) == (63 - |buffer|) + 56;
    Feed(transform, init, message, state, buffer, first);
    assert buffer + first == buffer + [0x80] + Zeros(63 - |buffer|);
    Feed(transform, init, message + first, transform(state, buffer + first), [], second);
    assert [] + second == second;
    ZerosJoin(63 - |buffer|, 56);
    assert message + first + second == Padded(message, lengthField);
  }

  /** A 64-bit counter of bits in two words, after a length in bytes is added, with a carry. */
  function AddBits(low: nat, high: nat, len: nat): (nat, nat) {
    var newLow := (low + len * 8 % WORD) % WORD;
    var carried := if newLow < low then (high + 1) % WORD else high;
    (newLow, (carried + len / 0x2000_0000) % WORD)
  }

  lemma {:induction false} AddBitsCounts(low: nat, high: nat, len: nat, total: nat)
    requires low < WORD && high < WORD && len < WORD && high * WORD + low == BitLength(total)
    ensures var (newLow, newHigh) := AddBits(low, high, len);
            newLow < WORD && newHigh < WORD && newHigh * WORD + newLow == BitLength(total + len)
  {
    var (newLow, newHigh) := AddBits(low, high, len);
    var carry := if newLow < low then 1 else 0;
    AddLow(low, newLow, len);
    var sum := high + carry + len / 0x2000_0000;
    assert newHigh == sum % WORD;
    assert (high * WORD + low) + 8 * len == sum * WORD + newLow;
    Congruent(8 * (total + len), sum * WORD + newLow, 8 * total / (WORD * WORD));
    HighPart(sum, newLow);
  }

  lemma {:induction false} AddLow(low: nat, newLow: nat, len: nat)
    requires low < WORD && newLow == (low + len * 8 % WORD) % WORD
    ensures low + 8 * len == ((if newLow < low then 1 else 0) + len / 0x2000_0000) * WORD + newLow
  {
    assert len * 8 == len / 0x2000_0000 * WORD + len * 8 % WORD;
  }

  lemma {:induction false} Congruent(a: nat, b: nat, k: nat)
    requires a == k * (WORD * WORD) + b
    ensures a % (WORD * WORD) == b % (WORD * WORD)
  {
    var m := WORD * WORD;
    assert b == b / m * m + b % m;
    assert a == (k + b / m) * m + b % m;
  }

  lemma {:induction false} HighPart(sum: nat, low: nat)
    requires low < WORD
    ensures (sum * WORD + low) % (WORD * WORD) == sum % WORD * WORD + low
  {
    var q, r := sum / WORD, sum % WORD;
    assert sum * WORD + low == q * (WORD * WORD) + (r * WORD + low);
  }

  /** The low word of a bit count tells how full the buffer is. */
  lemma {:induction false} CountIndex(low: nat, high: nat, len: nat)
    requires low < WORD && high < WORD && high * WORD + low == BitLength(len)
    ensures low / 8 % 64 == len % 64
  {
    var q := 8 * len / (WORD * WORD);
    assert 8 * len == q * (WORD * WORD) + high * WORD + low;
  }
}
