/** A chunked body that comes in pieces, each taken by the loop as it arrives. */
module ChunkStreams {
  import opened Sequences
  import opened ChunkCoding

  /** What the loop makes of the pieces, one after the other, with rest left over from before. It is not called
      again behind the last chunk. */
  function TakePieces(rest: string, pieces: seq<string>): (t: Taken)
    decreases |pieces|
  {
    if pieces == [] then Taken(Decoded("", rest, false))
    else
      match TakeAll(rest + pieces[0])
      case Outside => Outside
      case Taken(d) =>
        if d.last then Taken(Decoded(d.body, d.rest + Join(pieces[1..]), true))
        else Add(d.body, TakePieces(d.rest, pieces[1..]))
  }

  lemma {:induction false} JoinFirst(pieces: seq<string>)
    requires pieces != []
    ensures Join(pieces) == pieces[0] + Join(pieces[1..])
  {
    assert pieces == [pieces[0]] + pieces[1..];
    JoinFront(pieces[0], pieces[1..]);
  }

  /** A length that is lost in what has arrived is lost for good. */
  lemma {:induction false} KeptBefore(s: string, t: string)
    requires LengthKept(s + t)
    ensures LengthKept(s)
  {
    var i := HexEnd(s);
    if i < |s| {
      HexEndIs(s + t, i);
      assert (s + t)[..i] == s[..i];
    }
  }

  /** Lengths are kept in a stream exactly if they are kept before and behind any place in it. */
  lemma {:induction false} LengthsExtend(s: string, t: string)
    requires |s| < SIZE_LIMIT && !Decode(s).last
    ensures LengthsKept(s + t) <==> LengthsKept(s) && LengthsKept(Decode(s).rest + t)
    decreases |s|
  {
    hide ChunkOf, Decode, LengthKept;
    var c := ChunkOf(s);
    DecodeStep(s);
    if c.Chunk? {
      ChunkStays(s, t);
      assert (s + t)[c.total..] == s[c.total..] + t;
      LengthsExtend(s[c.total..], t);
      KeptIfThere(s);
      KeptIfThere(s + t);
    } else if LengthsKept(s + t) {
      KeptBefore(s, t);
    }
  }

  /** A chunk that is there as a whole keeps its length. */
  lemma {:induction false} KeptIfThere(s: string)
    requires ChunkOf(s).Chunk? && ChunkOf(s).total < SIZE_LIMIT
    ensures LengthKept(s)
  {
  }

  /** Behind the last chunk nothing is decoded, and no length matters. */
  lemma {:induction false} LastExtends(s: string, t: string)
    requires |s| < SIZE_LIMIT && Decode(s).last
    ensures Decode(s + t) == Decoded(Decode(s).body, Decode(s).rest + t, true)
    ensures LengthsKept(s) && LengthsKept(s + t)
    decreases |s|
  {
    hide ChunkOf, Decode, LengthKept;
    var c := ChunkOf(s);
    DecodeStep(s);
    ChunkStays(s, t);
    DecodeStep(s + t);
    KeptIfThere(s);
    KeptIfThere(s + t);
    assert (s + t)[c.total..] == s[c.total..] + t;
    assert (s + t)[c.start..c.start + c.len] == s[c.start..c.start + c.len];
    if c.len > 0 {
      LastExtends(s[c.total..], t);
    }
  }

  /** Decoding never gets past a chunk whose length is lost. */
  lemma {:induction false} StuckAtLost(s: string, t: string)
    requires |s + t| < SIZE_LIMIT && !LengthsKept(s)
    ensures Decode(s + t).rest == Decode(s).rest + t
    decreases |s|
  {
    hide ChunkOf, Decode, LengthKept;
    var c := ChunkOf(s);
    DecodeStep(s);
    DecodeStep(s + t);
    if c.Chunk? {
      ChunkStays(s, t);
      KeptIfThere(s);
      assert (s + t)[c.total..] == s[c.total..] + t;
      StuckAtLost(s[c.total..], t);
    } else {
      LostStays(s, t);
    }
  }

  lemma {:induction false} LostStays(s: string, t: string)
    requires |s + t| < SIZE_LIMIT && !LengthKept(s)
    ensures ChunkOf(s + t).NoChunk?
  {
    if LengthKept(s + t) {
      KeptBefore(s, t);
    }
    ScannedIsChunk(s + t);
  }

  /** Decoding twice changes nothing. */
  lemma {:induction false} RestUndecoded(s: string)
    requires |s| < SIZE_LIMIT && !Decode(s).last && LengthsKept(s)
    ensures Decode(Decode(s).rest) == Decoded("", Decode(s).rest, false) && LengthsKept(Decode(s).rest)
    decreases |s|
  {
    hide ChunkOf, Decode, LengthKept;
    DecodeStep(s);
    if ChunkOf(s).Chunk? {
      RestUndecoded(s[ChunkOf(s).total..]);
    }
  }

  lemma {:induction false} TakenInside(s: string)
    requires |s| < SIZE_LIMIT
    ensures TakeAll(s).Taken? ==> |TakeAll(s).d.body| + |TakeAll(s).d.rest| <= |s|
    decreases |s|
  {
    hide HexEnd, HexValue, LineEndAt;
    var c := Scanned(s);
    if c.Chunk? && c.start + c.len <= |s| && c.len > 0 {
      assert c.total == c.start + c.len + 2;
      TakenInside(s[c.total..]);
    }
  }

  lemma {:induction false} PiecesInside(rest: string, pieces: seq<string>)
    requires |rest + Join(pieces)| < SIZE_LIMIT
    ensures var t := TakePieces(rest, pieces);
            t.Taken? ==> |t.d.body| + |t.d.rest| <= |rest + Join(pieces)|
    decreases |pieces|
  {
    hide TakeAll, Join;
    if pieces != [] {
      JoinFirst(pieces);
      TakenInside(rest + pieces[0]);
      var t := TakeAll(rest + pieces[0]);
      if t.Taken? && !t.d.last {
        PiecesInside(t.d.rest, pieces[1..]);
      }
    } else {
      assert Join(pieces) == "" by { NoPieces(); }
    }
  }

  lemma {:induction false} NoPieces()
    ensures Join<char>([]) == ""
  {
  }

  /** However the stream is split, taking the pieces as they arrive gives what decoding the whole stream gives, if
      and only if no announced length is lost in it. */
  lemma {:induction false} PiecesExactly(rest: string, pieces: seq<string>)
    requires |rest + Join(pieces)| < SIZE_LIMIT && Decode(rest) == Decoded("", rest, false) && LengthsKept(rest)
    ensures var whole := rest + Join(pieces);
            && (TakePieces(rest, pieces) == Taken(Decode(whole)) <==> LengthsKept(whole))
            && (TakePieces(rest, pieces).Taken? && !LengthsKept(whole) ==>
                  |TakePieces(rest, pieces).d.rest| < |Decode(whole).rest|)
    decreases |pieces|
  {
    hide TakeAll, Join, Decode, LengthsKept;
    NoPieces();
    if pieces == [] {
      assert rest + Join(pieces) == rest;
    } else {
      var s, more := rest + pieces[0], Join(pieces[1..]);
      JoinFirst(pieces);
      assert rest + Join(pieces) == s + more;
      TakesWhatIsThere(s);
      if !LengthsKept(s) {
        LostInPiece(rest, pieces);
      } else if Decode(s).last {
        LastExtends(s, more);
      } else {
        DecodeExtends(s, more);
        LengthsExtend(s, more);
        RestUndecoded(s);
        PiecesExactly(Decode(s).rest, pieces[1..]);
      }
    }
  }

  /** A length is lost in the first piece. */
  lemma {:induction false} LostInPiece(rest: string, pieces: seq<string>)
    requires pieces != [] && |rest + Join(pieces)| < SIZE_LIMIT && !LengthsKept(rest + pieces[0])
    ensures var whole := rest + Join(pieces);
            && !LengthsKept(whole)
            && (TakePieces(rest, pieces).Taken? ==> |TakePieces(rest, pieces).d.rest| < |Decode(whole).rest|)
  {
    hide TakeAll, Join, Decode, LengthsKept;
    var s, more := rest + pieces[0], Join(pieces[1..]);
    JoinFirst(pieces);
    assert rest + Join(pieces) == s + more;
    TakesWhatIsThere(s);
    StuckAtLost(s, more);
    if Decode(s).last {
      LastExtends(s, more);
    } else {
      LengthsExtend(s, more);
    }
    var t := TakeAll(s);
    if t.Taken? && !t.d.last {
      PiecesInside(t.d.rest, pieces[1..]);
    }
  }
}
