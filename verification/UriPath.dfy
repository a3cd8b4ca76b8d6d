/** Normalisation of a URI path, in place: "." and ".." segments are resolved. */
module UriPath {
  import opened Sequences
  import opened Memory

  /** The position of the first slash, or the length if there is none. */
  function Slash(s: string): (n: nat)
    ensures n <= |s| && (n < |s| ==> s[n] == '/')
    ensures forall i :: 0 <= i < n ==> s[i] != '/'
  {
    if s == "" || s[0] == '/' then 0 else 1 + Slash(s[1..])
  }

  /** The length of the first piece: a segment and the slash that ends it, if any. */
  function PieceLength(s: string): (n: nat)
    requires s != ""
    ensures 0 < n <= |s|
  {
    var n := Slash(s);
    if n < |s| then n + 1 else n
  }

  function Pieces(s: string): seq<string> {
    if s == "" then [] else [s[..PieceLength(s)]] + Pieces(s[PieceLength(s)..])
  }

  /** A piece without the slash that ends it. */
  function Name(piece: string): string {
    piece[..Slash(piece)]
  }

  /** What one piece does to the stack of pieces kept so far; the root is never popped. */
  function Push(stack: seq<string>, piece: string): seq<string> {
    if Name(piece) == "." then stack
    else if Name(piece) == ".." then if |stack| > 1 then stack[..|stack| - 1] else stack
    else stack + [piece]
  }

  function PushAll(stack: seq<string>, pieces: seq<string>): seq<string>
    decreases |pieces|
  {
    if pieces == [] then stack else PushAll(Push(stack, pieces[0]), pieces[1..])
  }

  /** The normal form of an absolute path. */
  function Normal(s: string): string {
    Join(PushAll([], Pieces(s)))
  }

  /** A piece that is ended by a slash. */
  predicate Closed(piece: string) {
    piece != "" && Slash(piece) == |piece| - 1
  }

  /** Only the last piece may lack its slash. */
  ghost predicate PieceList(pieces: seq<string>) {
    && (forall i :: 0 <= i < |pieces| - 1 ==> Closed(pieces[i]))
    && (pieces != [] ==> var last := pieces[|pieces| - 1]; last != "" && (Closed(last) || Slash(last) == |last|))
  }

  predicate Rooted(stack: seq<string>) {
    |stack| > 0 && stack[0] == "/"
  }

  ghost predicate Plain(pieces: seq<string>) {
    forall i :: 0 <= i < |pieces| ==> Name(pieces[i]) != "." && Name(pieces[i]) != ".."
  }

  /** A stack that can still grow. */
  ghost predicate Open(stack: seq<string>) {
    Rooted(stack) && Plain(stack) && forall i :: 0 <= i < |stack| ==> Closed(stack[i])
  }

  lemma {:induction false} SlashIs(s: string, n: nat)
    requires n <= |s| && (n < |s| ==> s[n] == '/') && forall i :: 0 <= i < n ==> s[i] != '/'
    ensures Slash(s) == n
  {
    if s != "" && s[0] != '/' {
      SlashIs(s[1..], n - 1);
    }
  }

  /** A closed piece followed by anything is cut off again. */
  lemma {:induction false} FirstPiece(piece: string, rest: string)
    requires Closed(piece) || (piece != "" && Slash(piece) == |piece| && rest == "")
    ensures Pieces(piece + rest) == [piece] + Pieces(rest)
  {
    var s := piece + rest;
    SlashIs(s, Slash(piece));
    assert PieceLength(s) == |piece| && s[..|piece|] == piece && s[|piece|..] == rest;
  }

  lemma {:induction false} PiecesOfJoin(pieces: seq<string>)
    requires PieceList(pieces)
    ensures Pieces(Join(pieces)) == pieces
  {
    if pieces != [] {
      assert pieces == [pieces[0]] + pieces[1..];
      JoinFront(pieces[0], pieces[1..]);
      PiecesOfJoin(pieces[1..]);
      assert |pieces| > 1 || Join(pieces[1..]) == "";
      FirstPiece(pieces[0], Join(pieces[1..]));
    }
  }

  lemma {:induction false} PieceKinds(s: string)
    requires s != ""
    ensures var n := PieceLength(s);
            var piece := s[..n];
            (Closed(piece) || (n == |s| && Slash(piece) == n)) && Name(piece) == s[..Slash(s)]
  {
    var n := PieceLength(s);
    SlashIs(s[..n], Slash(s));
  }

  lemma {:induction false} PushKeepsOpen(stack: seq<string>, piece: string)
    requires Open(stack) && Closed(piece)
    ensures Open(Push(stack, piece))
  {
  }

  /** Whatever is pushed on an open stack, the result is rooted, has no dot segment and only its last piece
      may lack a slash. */
  lemma {:induction false} NormalShape(stack: seq<string>, s: string)
    requires Open(stack)
    ensures var f := PushAll(stack, Pieces(s)); Rooted(f) && Plain(f) && PieceList(f)
    decreases |s|
  {
    if s != "" {
      var n := PieceLength(s);
      var piece, rest := s[..n], s[n..];
      PieceKinds(s);
      assert Pieces(s)[1..] == Pieces(rest);
      if Closed(piece) {
        PushKeepsOpen(stack, piece);
        NormalShape(Push(stack, piece), rest);
      } else {
        assert rest == "" && Pieces(rest) == [];
        assert PushAll(Push(stack, piece), []) == Push(stack, piece);
      }
    }
  }

  lemma {:induction false} PushPlain(stack: seq<string>, pieces: seq<string>)
    requires Plain(pieces)
    ensures PushAll(stack, pieces) == stack + pieces
    decreases |pieces|
  {
    if pieces != [] {
      PushPlain(stack + [pieces[0]], pieces[1..]);
      assert stack + [pieces[0]] + pieces[1..] == stack + pieces;
    } else {
      assert stack + pieces == stack;
    }
  }

  lemma {:induction false} RootFirst(s: string)
    requires s != "" && s[0] == '/'
    ensures PushAll([], Pieces(s)) == PushAll(["/"], Pieces(s[1..]))
    ensures Open(["/"])
  {
    assert s[..1] == "/" && PieceLength(s) == 1;
    assert Slash("/") == 0 && Name("/") == "";
    assert Push([], "/") == ["/"];
    assert Pieces(s)[1..] == Pieces(s[1..]);
  }

  /** The normal form of an absolute path is absolute, has no "." or ".." segment, and is its own normal form. */
  lemma {:induction false} NormalForm(s: string)
    requires s != "" && s[0] == '/'
    ensures Normal(s) != "" && Normal(s)[0] == '/'
    ensures Plain(Pieces(Normal(s)))
    ensures Normal(Normal(s)) == Normal(s)
  {
    RootFirst(s);
    NormalShape(["/"], s[1..]);
    var f := PushAll([], Pieces(s));
    PiecesOfJoin(f);
    PushPlain([], f);
    assert [] + f == f;
    assert f == [f[0]] + f[1..];
    JoinFront(f[0], f[1..]);
  }

  /** The output without its last segment and the slash before it, if any. */
  function DropLast(output: string): string {
    if output == "" then ""
    else if output[|output| - 1] == '/' then output[..|output| - 1]
    else DropLast(output[..|output| - 1])
  }

  predicate StartsWith(s: string, prefix: string) {
    |prefix| <= |s| && s[..|prefix|] == prefix
  }

  /** The length of the first path segment, with the slash it starts with but not the next one. */
  function SegmentLength(s: string): (n: nat)
    requires s != ""
    ensures 0 < n <= |s|
  {
    1 + Slash(s[1..])
  }

  /** The algorithm of section 5.2.4 of RFC 3986: input buffer and output buffer, steps A to E. */
  function RemoveDotSegments(input: string, output: string): string
    decreases |input|
  {
    if input == "" then output
    else if StartsWith(input, "../") then RemoveDotSegments(input[3..], output)
    else if StartsWith(input, "./") then RemoveDotSegments(input[2..], output)
    else if StartsWith(input, "/./") then RemoveDotSegments(input[2..], output)
    else if input == "/." then RemoveDotSegments("/", output)
    else if StartsWith(input, "/../") then RemoveDotSegments(input[3..], DropLast(output))
    else if input == "/.." then RemoveDotSegments("/", DropLast(output))
    else if input == "." || input == ".." then output
    else
      var n := SegmentLength(input);
      RemoveDotSegments(input[n..], output + input[..n])
  }

  /** The text of an open stack without its final slash. */
  function Output(stack: seq<string>): string
    requires Join(stack) != ""
  {
    Join(stack)[..|Join(stack)| - 1]
  }

  lemma {:induction false} OpenText(stack: seq<string>)
    requires Open(stack)
    ensures Join(stack) != "" && Join(stack)[|Join(stack)| - 1] == '/'
    ensures Join(stack) == Output(stack) + "/"
  {
    var last := stack[|stack| - 1];
    assert Closed(last) && last[|last| - 1] == '/';
  }

  lemma {:induction false} DropLastOf(a: string, name: string)
    requires a != "" && a[|a| - 1] == '/' && forall i :: 0 <= i < |name| ==> name[i] != '/'
    ensures DropLast(a + name) == a[..|a| - 1]
  {
    if name == "" {
      assert a + name == a;
    } else {
      var n := |name| - 1;
      assert (a + name)[..|a| + n] == a + name[..n];
      DropLastOf(a, name[..n]);
    }
  }

  /** Popping the stack is dropping the last segment of the output. */
  lemma {:induction false} PopIsDropLast(stack: seq<string>)
    requires Open(stack)
    ensures Join(stack) != ""
    ensures |stack| > 1 ==> Open(stack[..|stack| - 1]) && Join(stack[..|stack| - 1]) != ""
    ensures DropLast(Output(stack)) == Output(if |stack| > 1 then stack[..|stack| - 1] else stack)
  {
    OpenText(stack);
    var init, last := stack[..|stack| - 1], stack[|stack| - 1];
    if |stack| > 1 {
      OpenText(init);
      assert Output(stack) == Join(init) + last[..|last| - 1];
      DropLastOf(Join(init), last[..|last| - 1]);
    } else {
      assert Join(stack) == "" + "/";
    }
  }

  /** Which step of the standard's algorithm an input that starts with a slash takes. */
  lemma {:induction false} DotPrefixes(s: string)
    ensures var input := "/" + s;
            && !StartsWith(input, "../") && !StartsWith(input, "./") && input != "." && input != ".."
            && (StartsWith(input, "/./") <==> s[..Slash(s)] == "." && Slash(s) < |s|)
            && (input == "/." <==> s[..Slash(s)] == "." && Slash(s) == |s|)
            && (StartsWith(input, "/../") <==> s[..Slash(s)] == ".." && Slash(s) < |s|)
            && (input == "/.." <==> s[..Slash(s)] == ".." && Slash(s) == |s|)
  {
    var input, k, name := "/" + s, Slash(s), s[..Slash(s)];
    assert input[0] == '/' && input[1..] == s && (k == |s| ==> s == name);
    OneDot(s);
    TwoDots(s);
  }

  lemma {:induction false} OneDot(s: string)
    ensures StartsWith("/" + s, "/./") <==> s[..Slash(s)] == "." && Slash(s) < |s|
  {
    var input, k := "/" + s, Slash(s);
    if StartsWith(input, "/./") {
      assert input[..3][1] == s[0] == '.' && input[..3][2] == s[1] == '/';
      SlashIs(s, 1);
    }
    if s[..k] == "." && k < |s| {
      assert s[..k][0] == s[0];
      assert input[..3] == "/./";
    }
  }

  lemma {:induction false} TwoDots(s: string)
    ensures StartsWith("/" + s, "/../") <==> s[..Slash(s)] == ".." && Slash(s) < |s|
  {
    var input, k := "/" + s, Slash(s);
    if StartsWith(input, "/../") {
      assert input[..4][1] == s[0] == '.' && input[..4][2] == s[1] == '.' && input[..4][3] == s[2] == '/';
      SlashIs(s, 2);
    }
    if s[..k] == ".." && k < |s| {
      assert s[..k][0] == s[0] && s[..k][1] == s[1];
      assert input[..4] == "/../";
    }
  }

  /** One piece of the input of the standard's algorithm, which always starts with a slash here. */
  lemma {:induction false} OneSegment(s: string, output: string)
    requires s != ""
    ensures var n := PieceLength(s);
            var rest := "/" + s[n..];
            var name := s[..Slash(s)];
            RemoveDotSegments("/" + s, output) ==
              if name == "." then RemoveDotSegments(rest, output)
              else if name == ".." then RemoveDotSegments(rest, DropLast(output))
              else if n > |name| then RemoveDotSegments(rest, output + "/" + name)
              else output + "/" + name
  {
    hide StartsWith, DropLast, Slash;
    var n, k := PieceLength(s), Slash(s);
    var input, name := "/" + s, s[..k];
    DotPrefixes(s);
    AfterPiece(s);
    assert input[1..] == s && SegmentLength(input) == k + 1;
    assert output + ("/" + name) == output + "/" + name;
  }

  /** What is left of the input of the standard's algorithm behind a first segment of that length. */
  lemma {:induction false} AfterPiece(s: string)
    requires s != ""
    ensures var (n, k) := (PieceLength(s), Slash(s));
            var input := "/" + s;
            && input[..k + 1] == "/" + s[..k] && input[k + 1..] == s[k..]
            && (k < |s| ==> n == k + 1 && s[k..] == "/" + s[n..])
            && (k == |s| ==> n == k && s[k..] == "" && "/" + s[n..] == "/")
            && (k == 1 ==> input[2..] == s[1..]) && (k == 2 ==> input[3..] == s[2..])
  {
  }

  /** On every open stack the fold and the standard's algorithm go on alike. */
  lemma {:induction false} FoldIsRemoval(stack: seq<string>, s: string)
    requires Open(stack)
    ensures Join(stack) != ""
    ensures Join(PushAll(stack, Pieces(s))) == RemoveDotSegments("/" + s, Output(stack))
    decreases |s|
  {
    OpenText(stack);
    if s == "" {
      OnlySlash(Output(stack));
      assert "/" + s == "/";
    } else {
      var n := PieceLength(s);
      var piece, rest := s[..n], s[n..];
      PieceKinds(s);
      OneSegment(s, Output(stack));
      assert Pieces(s)[1..] == Pieces(rest);
      if Name(piece) == "." || Name(piece) == ".." || Closed(piece) {
        PushText(stack, piece);
        FoldIsRemoval(Push(stack, piece), rest);
        assert Closed(piece) ==> n > |Name(piece)|;
      } else {
        JoinAppend(stack, piece);
        assert rest == "" && Pieces(rest) == [] && piece == Name(piece);
        assert PushAll(stack + [piece], []) == stack + [piece];
        assert Output(stack) + "/" + piece == Join(stack) + piece;
      }
    }
  }

  lemma {:induction false} OnlySlash(output: string)
    ensures RemoveDotSegments("/", output) == output + "/"
  {
    assert SegmentLength("/") == 1 && "/"[1..] == "" && "/"[..1] == "/";
    assert RemoveDotSegments("", output + "/") == output + "/";
  }

  lemma {:induction false} ClosedText(piece: string)
    requires Closed(piece)
    ensures piece == Name(piece) + "/"
  {
    assert piece[|piece| - 1..] == "/";
  }

  /** What a push does to the text. */
  lemma {:induction false} PushText(stack: seq<string>, piece: string)
    requires Open(stack) && (Name(piece) == "." || Name(piece) == ".." || Closed(piece))
    ensures Open(Push(stack, piece)) && Join(stack) != "" && Join(Push(stack, piece)) != ""
    ensures Output(Push(stack, piece)) ==
              if Name(piece) == "." then Output(stack)
              else if Name(piece) == ".." then DropLast(Output(stack))
              else Output(stack) + "/" + Name(piece)
  {
    hide Open, Closed, Slash, Join, Name, DropLast;
    OpenText(stack);
    if Name(piece) == "." {
    } else if Name(piece) == ".." {
      PopIsDropLast(stack);
    } else {
      JoinAppend(stack, piece);
      PushKeepsOpen(stack, piece);
      ClosedText(piece);
      assert Join(stack) + piece == Output(stack) + "/" + Name(piece) + "/";
    }
  }

  /** For every absolute path the normal form is what section 5.2.4 of RFC 3986 prescribes. */
  lemma {:induction false} NormalIsRemoveDotSegments(s: string)
    requires s != "" && s[0] == '/'
    ensures Normal(s) == RemoveDotSegments(s, "")
  {
    hide RemoveDotSegments, PushAll, Pieces, Open;
    RootFirst(s);
    FoldIsRemoval(["/"], s[1..]);
    JoinAppend([], "/");
    assert [] + ["/"] == ["/"];
    assert s == "/" + s[1..];
  }

  /** parse_uri_component: the component up to the separator, and the position after the separator. */
  method ParseComponent(a: array<char>, p: nat, end: nat, sep: char) returns (len: nat, next: nat)
    requires p <= end <= a.Length
    ensures p + len <= end && (forall i :: p <= i < p + len ==> a[i] != sep)
    ensures p + len < end ==> a[p + len] == sep && next == p + len + 1
    ensures p + len == end ==> next == end
  {
    next := p;
    while next < end && a[next] != sep
      invariant p <= next <= end
      invariant forall i :: p <= i < next ==> a[i] != sep
    {
      next := next + 1;
    }
    len := next - p;
    if next < end {
      next := next + 1;
    }
  }

  /** Where the text of a stack is cut to pop its last piece: behind a slash, with no other slash from there
      to the final one. */
  lemma {:induction false} CutPoint(stack: seq<string>) returns (keep: nat)
    requires Open(stack)
    ensures 0 < keep <= |Join(stack)|
    ensures Join(stack)[..keep] == Join(if |stack| > 1 then stack[..|stack| - 1] else stack)
    ensures Join(stack)[keep - 1] == '/' == Join(stack)[|Join(stack)| - 1]
    ensures forall i :: keep <= i < |Join(stack)| - 1 ==> Join(stack)[i] != '/'
    ensures if |stack| > 1 then keep < |Join(stack)| else |Join(stack)| == 1
  {
    OpenText(stack);
    var init, last := stack[..|stack| - 1], stack[|stack| - 1];
    if |stack| > 1 {
      OpenText(init);
      keep := |Join(init)|;
      assert forall i :: keep <= i < |Join(stack)| ==> Join(stack)[i] == last[i - keep];
    } else {
      keep := 1;
      assert Join(stack) == "" + "/";
    }
  }

  /** Back to the previous slash, but not past the root: from a text that ends with a slash, d is moved to
      keep. */
  method Backtrack(a: array<char>, cp: nat, d: nat, ghost keep: nat) returns (e: nat)
    requires cp < keep <= d <= a.Length && a[keep - 1] == '/' == a[d - 1]
    requires forall i :: keep <= i < d - 1 ==> a[i] != '/'
    requires keep < d || d == cp + 1
    ensures e == keep
  {
    e := d;
    if e > cp + 1 && a[e - 1] == '/' {
      e := e - 1;
    }
    while e > cp && a[e - 1] != '/'
      invariant keep <= e <= d && (keep < d ==> e < d)
    {
      e := e - 1;
    }
  }

  /** One piece [s, next) is handled; the output [cp, d) never grows past what has been read. */
  method PushPiece(a: array<char>, cp: nat, d: nat, s: nat, len: nat, next: nat, ghost stack: seq<string>)
    returns (e: nat)
    requires cp <= d <= s <= s + len <= next <= a.Length && s < next
    requires a[cp..d] == Join(stack) && (Open(stack) || (stack == [] && len == 0))
    requires Name(a[s..next]) == a[s..s + len]
    modifies a
    ensures cp <= e <= next && a[cp..e] == Join(Push(stack, old(a[s..next])))
    ensures forall i :: 0 <= i < a.Length && !(cp <= i < next) ==> a[i] == old(a[i])
  {
    hide Open, Slash, Name, Join;
    ghost var piece, name := a[s..next], a[s..s + len];
    DotNames(name);
    if len == 1 && a[s] == '.' {
      e := d;
    } else if len == 2 && a[s] == '.' && a[s + 1] == '.' {
      ghost var keep := CutPoint(stack);
      assert forall i :: 0 <= i < d - cp ==> a[cp + i] == Join(stack)[i];
      e := Backtrack(a, cp, d, cp + keep);
      assert a[cp..e] == Join(stack)[..keep];
    } else {
      e := AppendPiece(a, cp, d, s, next);
      JoinAppend(stack, piece);
    }
  }

  lemma {:induction false} DotNames(name: string)
    ensures name == "." <==> |name| == 1 && name[0] == '.'
    ensures name == ".." <==> |name| == 2 && name[0] == '.' && name[1] == '.'
  {
  }

  method AppendPiece(a: array<char>, cp: nat, d: nat, s: nat, next: nat) returns (e: nat)
    requires cp <= d <= s <= next <= a.Length
    modifies a
    ensures cp <= e <= next && a[cp..e] == old(a[cp..d]) + old(a[s..next])
    ensures forall i :: 0 <= i < a.Length && !(cp <= i < next) ==> a[i] == old(a[i])
  {
    ghost var text, piece := a[cp..d], a[s..next];
    Memmove(a, d, s, next - s);
    e := d + (next - s);
    assert a[cp..d] == text;
    assert a[d..e] == piece;
    assert a[cp..e] == a[cp..d] + a[d..e];
  }

  /** The piece that starts at at, whose component has n characters, goes on the stack. */
  lemma {:induction false} PieceStep(path: string, at: nat, n: nat, next: nat, stack: seq<string>)
    requires at + n <= |path| && at < |path| && (forall i :: at <= i < at + n ==> path[i] != '/')
    requires at + n < |path| ==> path[at + n] == '/' && next == at + n + 1
    requires at + n == |path| ==> next == |path|
    ensures at < next && Name(path[at..next]) == path[at..at + n]
    ensures PushAll(stack, Pieces(path[at..])) == PushAll(Push(stack, path[at..next]), Pieces(path[next..]))
    ensures stack == [] && at == 0 && path[0] == '/' ==> n == 0 && Open(Push(stack, path[at..next]))
    ensures Open(stack) && next < |path| ==> Open(Push(stack, path[at..next]))
  {
    hide Open, Push, PushAll, Pieces, Name, Closed, Slash, PieceLength;
    PieceAt(path, at, n, next);
    UnfoldPush(stack, path[at..]);
    if Open(stack) && next < |path| {
      PushKeepsOpen(stack, path[at..next]);
    } else if stack == [] && at == 0 && path[0] == '/' {
      RootPushed(path, next);
    }
  }

  lemma {:induction false} PieceAt(path: string, at: nat, n: nat, next: nat)
    requires at + n <= |path| && at < |path| && (forall i :: at <= i < at + n ==> path[i] != '/')
    requires at + n < |path| ==> path[at + n] == '/' && next == at + n + 1
    requires at + n == |path| ==> next == |path|
    ensures at < next && PieceLength(path[at..]) == next - at && Name(path[at..next]) == path[at..at + n]
    ensures path[at..][..next - at] == path[at..next] && path[at..][next - at..] == path[next..]
    ensures next < |path| ==> Closed(path[at..next])
  {
    var s := path[at..];
    SlashIs(s, n);
    assert s[..next - at] == path[at..next] && s[..n] == path[at..at + n];
    PieceKinds(s);
  }

  lemma {:induction false} RootPushed(path: string, next: nat)
    requires path != "" && path[0] == '/' && next == 1
    ensures path[0..next] == "/" && Open(Push([], "/"))
  {
    RootFirst(path);
    assert Name("/") == "" && Push([], "/") == ["/"];
  }

  lemma {:induction false} UnfoldPush(stack: seq<string>, s: string)
    requires s != ""
    ensures PushAll(stack, Pieces(s)) == PushAll(Push(stack, s[..PieceLength(s)]), Pieces(s[PieceLength(s)..]))
  {
    assert Pieces(s)[1..] == Pieces(s[PieceLength(s)..]);
  }

  /** What has been read, path[..s - cp], is on the stack; its text is the output, and the rest of the
      path is still in place. */
  ghost predicate Scanned(a: array<char>, cp: nat, d: nat, s: nat, path: string, stack: seq<string>)
    reads a
  {
    && cp <= d <= s <= cp + |path| <= a.Length && a[cp..d] == Join(stack)
    && (forall i :: s - cp <= i < |path| ==> a[cp + i] == path[i])
    && PushAll(stack, Pieces(path[s - cp..])) == PushAll([], Pieces(path))
    && (if s == cp then stack == [] else s < cp + |path| ==> Open(stack))
  }

  /** One round of the loop. */
  method TakePiece(a: array<char>, cp: nat, d: nat, s: nat, se: nat, ghost path: string, ghost stack: seq<string>)
    returns (e: nat, next: nat, ghost pushed: seq<string>)
    requires Scanned(a, cp, d, s, path, stack) && s < se == cp + |path| && path[0] == '/'
    modifies a
    ensures s < next <= se && Scanned(a, cp, e, next, path, pushed)
    ensures forall i :: 0 <= i < a.Length && !(cp <= i < se) ==> a[i] == old(a[i])
  {
    hide Open, PushAll, Push, Pieces, Name, Slash;
    var n;
    n, next := ParseComponent(a, s, se, '/');
    forall i | s - cp <= i < s - cp + n
      ensures path[i] != '/'
    {
      assert a[cp + i] == path[i];
    }
    assert s - cp + n < |path| ==> a[cp + (s - cp + n)] == path[s - cp + n];
    PieceStep(path, s - cp, n, next - cp, stack);
    SamePiece(a, cp, s, s + n, path);
    SamePiece(a, cp, s, next, path);
    pushed := Push(stack, path[s - cp..next - cp]);
    e := PushPiece(a, cp, d, s, n, next, stack);
  }

  lemma {:induction false} SamePiece(a: array<char>, cp: nat, from: nat, to: nat, path: string)
    requires cp <= from <= to <= cp + |path| <= a.Length
    requires forall i :: from - cp <= i < |path| ==> a[cp + i] == path[i]
    ensures a[from..to] == path[from - cp..to - cp]
  {
    forall i | 0 <= i < to - from
      ensures a[from..to][i] == path[from - cp..to - cp][i]
    {
      assert a[cp + (from - cp + i)] == path[from - cp + i];
    }
  }

  lemma {:induction false} ScanStarts(a: array<char>, cp: nat, path: string)
    requires cp + |path| <= a.Length && path == a[cp..cp + |path|]
    ensures Scanned(a, cp, cp, cp, path, [])
  {
    assert path[0..] == path;
    assert a[cp..cp] == Join<char>([]);
  }

  lemma {:induction false} ScanEnds(a: array<char>, cp: nat, d: nat, path: string, stack: seq<string>)
    requires Scanned(a, cp, d, cp + |path|, path, stack) && path != "" && path[0] == '/'
    ensures a[cp..d] == Normal(path) && cp < d <= cp + |path|
  {
    assert path[|path|..] == "";
    NormalForm(path);
  }

  /** The loop over the pieces of an absolute path. */
  method NormalizeAbsolute(a: array<char>, cp: nat, len: nat) returns (d: nat)
    requires cp + len <= a.Length && len > 0 && a[cp] == '/'
    modifies a
    ensures cp < d <= cp + len && a[cp..d] == Normal(old(a[cp..cp + len]))
    ensures forall i :: 0 <= i < a.Length && !(cp <= i < cp + len) ==> a[i] == old(a[i])
  {
    hide Normal, Scanned;
    var s, se: nat := cp, cp + len;
    d := cp;
    ghost var path, stack := a[cp..se], [];
    ScanStarts(a, cp, path);
    while s < se
      invariant s <= se && Scanned(a, cp, d, s, path, stack)
      invariant forall i :: 0 <= i < a.Length && !(cp <= i < se) ==> a[i] == old(a[i])
    {
      d, s, stack := TakePiece(a, cp, d, s, se, path, stack);
    }
    ScanEnds(a, cp, d, path, stack);
    if d == cp {
      // The root is always kept, so the slash never has to be put back.
      assert false;
    }
  }

  /** mg_normalize_uri_path, in the one way it is called: the output replaces the input. */
  method NormalizeUriPath(a: array<char>, cp: nat, len: nat) returns (ok: bool, outLen: nat)
    requires cp + len <= a.Length
    modifies a
    ensures ok <==> len > 0 && old(a[cp]) == '/'
    ensures ok ==> outLen <= len && a[cp..cp + outLen] == Normal(old(a[cp..cp + len]))
    ensures !ok ==> outLen == 0 && a[..] == old(a[..])
    ensures forall i :: 0 <= i < a.Length && !(cp <= i < cp + len) ==> a[i] == old(a[i])
  {
    if len == 0 || a[cp] != '/' {
      return false, 0;
    }
    hide Normal;
    var d := NormalizeAbsolute(a, cp, len);
    ok, outLen := true, d - cp;
    assert cp + outLen == d;
  }
}
