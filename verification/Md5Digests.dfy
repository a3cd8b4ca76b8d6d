/** The two MD5 implementations side by side, each fed in pieces of its own. */
module Md5Digests {
  import opened Bytes
  import opened Sequences
  import opened BlockHashing
  import Md5
  import RandomMd5

  /** The sum of the lengths as MD5_Update takes them, each modulo 2 to the 32. */
  function Counted(pieces: seq<seq<byte>>): nat {
    if pieces == [] then 0 else Counted(pieces[..|pieces| - 1]) + |pieces[|pieces| - 1]| % WORD
  }

  /** What the cut lengths leave out is a multiple of 2 to the 61 bytes; so it is if no piece has 2 to the 32
      bytes or more. */
  predicate CountedRight(pieces: seq<seq<byte>>) {
    (|Join(pieces)| - Counted(pieces)) / WORD % 0x2000_0000 == 0
  }

  lemma {:induction false} CountedPart(pieces: seq<seq<byte>>)
    ensures Counted(pieces) <= |Join(pieces)| && Counted(pieces) % WORD == |Join(pieces)| % WORD
    ensures (forall i :: 0 <= i < |pieces| ==> |pieces[i]| < WORD) ==> Counted(pieces) == |Join(pieces)|
    decreases |pieces|
  {
    if pieces != [] {
      var init, last := pieces[..|pieces| - 1], pieces[|pieces| - 1];
      CountedPart(init);
      Md5.SameRest(Counted(init), |Join(init)|, |last|);
    }
  }

  lemma {:induction false} LittleEndianInjective(a: nat, b: nat, n: nat)
    requires a < Power(n) && b < Power(n) && LittleEndian(a, n) == LittleEndian(b, n)
    ensures a == b
  {
    if n > 0 {
      assert LittleEndian(a, n)[1..] == LittleEndian(a / 256, n - 1)
          && LittleEndian(b, n)[1..] == LittleEndian(b / 256, n - 1);
      LittleEndianInjective(a / 256, b / 256, n - 1);
      assert LittleEndian(a, n)[0] == a % 256 && LittleEndian(b, n)[0] == b % 256;
    }
  }

  lemma {:induction false} LengthBytes(a: nat, b: nat)
    ensures LittleEndian(BitLength(a), 8) == LittleEndian(BitLength(b), 8) <==> BitLength(a) == BitLength(b)
  {
    hide LittleEndian;
    assert Power(8) == WORD * WORD by {
      assert Power(0) == 1 && Power(2) == 65536 && Power(4) == WORD && Power(6) == 65536 * WORD;
    }
    if LittleEndian(BitLength(a), 8) == LittleEndian(BitLength(b), 8) {
      LittleEndianInjective(BitLength(a), BitLength(b), 8);
    }
  }

  /** What the web server's MD5 hashes, for a message given in these pieces. */
  function Md5Input(pieces: seq<seq<byte>>): seq<byte> {
    Padded(Join(pieces), LittleEndian(BitLength(Counted(pieces)), 8))
  }

  /** What it should hash, and the generator's MD5 does. */
  function RightInput(message: seq<byte>): seq<byte> { Padded(message, LittleEndian(BitLength(|message|), 8)) }

  /** The padded messages are the same exactly if the length is counted right. */
  lemma {:induction false} SameInput(pieces: seq<seq<byte>>)
    ensures Md5Input(pieces) == RightInput(Join(pieces)) <==> CountedRight(pieces)
  {
    var m, x, y := Join(pieces), LittleEndian(BitLength(Counted(pieces)), 8),
        LittleEndian(BitLength(|Join(pieces)|), 8);
    CountedPart(pieces);
    Md5.LengthRight(|m|, Counted(pieces));
    LengthBytes(Counted(pieces), |m|);
    var front := m + [0x80] + Zeros(ZeroCount(|m|));
    assert Padded(m, x)[|front|..] == x && Padded(m, y)[|front|..] == y;
  }

  method Md5Of<S(!new)>(transform: (S, seq<byte>) -> S, init: S, pieces: seq<seq<byte>>) returns (digest: S)
    ensures digest == Fold(transform, init, Md5Input(pieces))
  {
    hide Fold, Padded, LittleEndian, BitLength, Md5.Context.Valid;
    var context := new Md5.Context(transform, init);
    for i := 0 to |pieces|
      invariant context.Valid() && fresh(context) && fresh(context.block) && fresh(context.block.input)
      invariant context.block.transform == transform && context.block.init == init
      invariant context.message == Join(pieces[..i]) && context.counted == Counted(pieces[..i])
    {
      assert pieces[..i + 1][..i] == pieces[..i];
      context.Update(pieces[i]);
    }
    assert pieces[..|pieces|] == pieces;
    digest := context.Final();
  }

  method RandomMd5Of<S(!new)>(transform: (S, seq<byte>) -> S, init: S, pieces: seq<seq<byte>>) returns (digest: S)
    requires forall i :: 0 <= i < |pieces| ==> |pieces[i]| < 0x8000_0000
    ensures digest == Fold(transform, init, RightInput(Join(pieces)))
  {
    hide Fold, Padded, LittleEndian, BitLength, RandomMd5.Context.Valid;
    var context := new RandomMd5.Context(transform, init);
    for i := 0 to |pieces|
      invariant context.Valid() && fresh(context) && fresh(context.block) && fresh(context.block.input)
      invariant context.block.transform == transform && context.block.init == init
      invariant context.message == Join(pieces[..i])
    {
      assert pieces[..i + 1][..i] == pieces[..i];
      context.Update(pieces[i]);
    }
    assert pieces[..|pieces|] == pieces;
    digest := context.Final();
  }

  /** The same message, split in two ways: the digests agree, whatever the compression function, if the first
      way counts its length right. */
  method BothDigests<S(!new)>(transform: (S, seq<byte>) -> S, init: S, pieces: seq<seq<byte>>, others: seq<seq<byte>>)
    returns (one: S, other: S)
    requires Join(pieces) == Join(others) && forall i :: 0 <= i < |others| ==> |others[i]| < 0x8000_0000
    ensures CountedRight(pieces) ==> one == other
    ensures one == Fold(transform, init, Md5Input(pieces)) && other == Fold(transform, init, RightInput(Join(others)))
  {
    hide Fold, Md5Input, RightInput, CountedRight;
    SameInput(pieces);
    one := Md5Of(transform, init, pieces);
    other := RandomMd5Of(transform, init, others);
  }

  /** A compression function that forgets nothing. */
  function Collect(state: seq<byte>, input: seq<byte>): seq<byte> { state + input }

  lemma {:induction false} FoldCollects(state: seq<byte>, message: seq<byte>)
    requires |message| % 64 == 0
    ensures Fold(Collect, state, message) == state + message
    decreases |message|
  {
    if message != [] {
      FoldCollects(Collect(state, message[..64]), message[64..]);
      assert message[..64] + message[64..] == message;
    }
  }

  /** The digests agree for every compression function only if the length is counted right. */
  lemma {:induction false} DigestsAgree(pieces: seq<seq<byte>>)
    ensures Fold(Collect, [], Md5Input(pieces)) == Fold(Collect, [], RightInput(Join(pieces))) <==> CountedRight(pieces)
  {
    hide Padded, LittleEndian, BitLength, CountedRight, Fold;
    var x, y := Md5Input(pieces), RightInput(Join(pieces));
    FoldCollects([], x);
    FoldCollects([], y);
    assert [] + x == x && [] + y == y;
    SameInput(pieces);
  }

  /** A piece of 2 to the 32 bytes counts for nothing. */
  lemma {:induction false} CutLength()
    ensures Counted([Zeros(WORD)]) == 0 && !CountedRight([Zeros(WORD)])
  {
    var pieces := [Zeros(WORD)];
    assert pieces[..0] == [];
    assert Join(pieces) == Zeros(WORD);
  }
}
