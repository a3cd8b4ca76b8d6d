/** The parser itself: it walks over the text and fills the token table as it goes. */
module JsonParser {
  import opened JsonGrammar
  import opened JsonTokens

  const END_OF_STRING := -1

  /** The character at p, or the end marker. */
  function Peek(s: string, p: nat): int
    requires p <= |s|
  {
    if p == |s| then END_OF_STRING else s[p] as int
  }

  class Frozen {
    const s: string
    const tokens: array<Token>     // no table is a table of length 0
    var cur: nat
    var numTokens: nat

    constructor (s: string, tokens: array<Token>)
      ensures this.s == s && this.tokens == tokens && cur == 0 && numTokens == 0
    {
      this.s, this.tokens, cur, numTokens := s, tokens, 0, 0;
    }

    /** The tokens captured so far. */
    ghost function Table(): seq<Token>
      requires numTokens <= tokens.Length
      reads this`numTokens, tokens
    {
      tokens[..numTokens]
    }

    /** The tokens before are still there. */
    ghost predicate Kept(before: seq<Token>)
      reads this`numTokens, tokens
    {
      numTokens <= tokens.Length && before <= Table()
    }

    /** Behind the tokens before, those of the trees have been captured, if there is a table. */
    ghost predicate Taken(before: seq<Token>, trees: Forest)
      reads this`numTokens, tokens
    {
      Kept(before) && (tokens.Length > 0 ==> Table() == before + Flatten(trees))
    }

    /** A token has been begun behind the tokens before, and its descendants so far are captured. */
    ghost predicate Begun(before: seq<Token>, ptr: nat, kind: Kind, kids: Forest)
      reads this`numTokens, tokens
    {
      Kept(before) && (tokens.Length > 0 ==> OpenEnded(Table(), before, ptr, kind, kids))
    }

    /** What a parsing method has done. */
    ghost predicate Parsed(r: Parse, before: seq<Token>, ret: int)
      reads this, tokens
    {
      && Kept(before) && cur <= |s| && ret == Code(tokens.Length, r, |before|) && (r.Fail? ==> r.code < 0)
      && (ret == 0 ==> cur == r.next && Taken(before, r.trees))
    }

    method SkipWhitespaces()
      requires cur <= |s|
      modifies this`cur
      ensures cur == Skip(s, old(cur))
    {
      while cur < |s| && IsSpace(s[cur])
        invariant cur <= |s| && Skip(s, cur) == Skip(s, old(cur))
      {
        cur := cur + 1;
      }
    }

    method Cur() returns (ch: int)
      requires cur <= |s|
      modifies this`cur
      ensures cur == Skip(s, old(cur)) && ch == Peek(s, cur)
    {
      SkipWhitespaces();
      ch := if cur >= |s| then END_OF_STRING else s[cur] as int;
    }

    method TestAndSkip(expected: char) returns (ret: int)
      requires cur <= |s|
      modifies this`cur
      ensures ret == Expected(s, Skip(s, old(cur)), expected)
      ensures cur == if ret == 0 then Skip(s, old(cur)) + 1 else Skip(s, old(cur))
    {
      var ch := Cur();
      if ch == expected as int {
        cur := cur + 1;
        return 0;
      }
      ret := if ch == END_OF_STRING then INCOMPLETE else INVALID;
    }

    method TestNoSkip(expected: char) returns (ret: int)
      requires cur <= |s|
      modifies this`cur
      ensures cur == Skip(s, old(cur)) && ret == Expected(s, cur, expected)
    {
      var ch := Cur();
      if ch == expected as int {
        return 0;
      }
      ret := if ch == END_OF_STRING then INCOMPLETE else INVALID;
    }

    method CapturePtr(ptr: nat, kind: Kind, ghost before: seq<Token>) returns (ret: int)
      requires Taken(before, Nil)
      modifies this`numTokens, tokens
      ensures ret == if 0 < tokens.Length <= |before| then TOO_SMALL else 0
      ensures Kept(before) && (ret == 0 ==> Begun(before, ptr, kind, Nil))
    {
      assert before + Flatten(Nil) == before;
      if tokens.Length == 0 {
        return 0;
      }
      if numTokens >= tokens.Length {
        return TOO_SMALL;
      }
      tokens[numTokens] := tokens[numTokens].(ptr := ptr, kind := kind);
      numTokens := numTokens + 1;
      ret := 0;
    }

    method CaptureLen(index: int, ptr: nat) returns (ret: int)
      requires numTokens <= tokens.Length
      modifies tokens
      ensures ret == if tokens.Length == 0 || 0 <= index < tokens.Length then 0 else INVALID
      ensures forall i :: 0 <= i < tokens.Length && i != index ==> tokens[i] == old(tokens[i])
      ensures 0 <= index < tokens.Length ==>
                tokens[index] == old(tokens[index]).(len := ptr - old(tokens[index]).ptr,
                    numDesc := (numTokens - 1) - index)
    {
      if tokens.Length == 0 {
        return 0;
      }
      if !(0 <= index < tokens.Length) {
        return INVALID;
      }
      tokens[index] := tokens[index].(len := ptr - tokens[index].ptr, numDesc := (numTokens - 1) - index);
      ret := 0;
    }

    /** The end of a token is reached: its length and its number of descendants are entered. */
    method Finish(index: int, ptr: nat, ghost before: seq<Token>, ghost start: nat, ghost kind: Kind,
                  ghost kids: Forest)
      requires Begun(before, start, kind, kids) && (tokens.Length > 0 ==> index == |before|)
      modifies tokens
      ensures Taken(before, Node(kind, start, ptr, kids, Nil))
    {
      ghost var descendants := if tokens.Length > 0 then tokens[|before| + 1..numTokens] else [];
      var _ := CaptureLen(index, ptr);
      if tokens.Length > 0 {
        ghost var n := |before|;
        assert tokens[n] == Token(start, ptr - start, Size(kids), kind);
        assert tokens[..n] == before;
        assert tokens[n + 1..numTokens] == descendants;
        assert Table() == tokens[..n] + ([tokens[n]] + tokens[n + 1..numTokens]);
        OneNode(kind, start, ptr, kids);
      }
    }

    method ParseIdentifier(ghost before: seq<Token>) returns (ret: int)
      requires Taken(before, Nil) && cur < |s| && IsAlpha(s[cur])
      modifies this, tokens
      ensures Parsed(Leaf(StringToken, old(cur), At(NameEnd(s, old(cur))), 0), before, ret)
    {
      hide Flatten;
      ghost var start := cur;
      ret := CapturePtr(cur, StringToken, before);
      if ret < 0 {
        return ret;
      }
      while cur < |s| && IsNamePart(s[cur])
        invariant start <= cur <= |s| && NameEnd(s, cur) == NameEnd(s, start) && Begun(before, start, StringToken, Nil)
      {
        cur := cur + 1;
      }
      Finish(numTokens - 1, cur, before, start, StringToken, Nil);
      ret := 0;
    }

    lemma {:induction false} LeafFailed(before: seq<Token>, kind: Kind, start: nat, code: int, after: nat)
      requires Begun(before, start, kind, Nil) && code < 0 && cur <= |s|
      ensures Parsed(Leaf(kind, start, Bad(code), after), before, code)
    {
    }

    lemma {:induction false} LeafDone(before: seq<Token>, kind: Kind, start: nat, pos: nat, after: nat)
      requires Taken(before, Node(kind, start, pos, Nil, Nil)) && cur == pos + after <= |s|
      ensures Parsed(Leaf(kind, start, At(pos), after), before, 0)
    {
    }

    lemma {:induction false} LeafNoRoom(before: seq<Token>, kind: Kind, start: nat, scan: Scan, after: nat)
      requires Kept(before) && cur <= |s| && 0 < tokens.Length <= |before| && (scan.Bad? ==> scan.code < 0)
      ensures Parsed(Leaf(kind, start, scan, after), before, TOO_SMALL)
    {
    }

    lemma {:induction false} LastBegun(before: seq<Token>, kind: Kind, start: nat)
      requires Begun(before, start, kind, Nil)
      ensures tokens.Length > 0 ==> numTokens - 1 == |before|
    {
    }

    method ParseString(ghost before: seq<Token>) returns (ret: int)
      requires Taken(before, Nil) && cur <= |s|
      modifies this, tokens
      ensures Parsed(Quoted(s, old(cur)), before, ret)
    {
      hide Flatten, Taken, Kept, Begun, OpenEnded, Parsed, EscapeLen, Leaf, Skip;
      ret := TestAndSkip('"');
      if ret < 0 {
        NothingTaken(before, ret);
        return ret;
      }
      ghost var start := cur;
      ret := CapturePtr(cur, StringToken, before);
      if ret < 0 {
        LeafNoRoom(before, StringToken, start, StringEnd(s, start), 1);
        return ret;
      }
      while cur < |s|
        invariant start <= cur <= |s| && StringEnd(s, cur) == StringEnd(s, start)
                  && Begun(before, start, StringToken, Nil)
      {
        var ch := s[cur];
        var len := CharLen(ch);
        if ch < ' ' {
          ret := INVALID;
          LeafFailed(before, StringToken, start, ret, 1);
          return ret;
        }
        if len >= |s| - cur {
          ret := INCOMPLETE;
          LeafFailed(before, StringToken, start, ret, 1);
          return ret;
        }
        if ch == '\\' {
          var n := EscapeLen(s, cur + 1, |s| - cur);
          if n <= 0 {
            LeafFailed(before, StringToken, start, n, 1);
            return n;
          }
          len := len + n;
        } else if ch == '"' {
          LastBegun(before, StringToken, start);
          Finish(numTokens - 1, cur, before, start, StringToken, Nil);
          cur := cur + 1;
          LeafDone(before, StringToken, start, cur - 1, 1);
          return 0;
        }
        cur := cur + len;
      }
      ret := INCOMPLETE;
      LeafFailed(before, StringToken, start, ret, 1);
    }

    method SkipDigits()
      requires cur <= |s|
      modifies this`cur
      ensures cur == Digits(s, old(cur))
    {
      while cur < |s| && IsDigit(s[cur])
        invariant cur <= |s| && Digits(s, cur) == Digits(s, old(cur))
      {
        cur := cur + 1;
      }
    }

    /** The digits that must come next. */
    method NeedDigits() returns (ret: int)
      requires cur <= |s|
      modifies this`cur
      ensures match SomeDigits(s, old(cur)) case At(pos) => ret == 0 && cur == pos case Bad(code) => ret == code
      ensures cur <= |s|
    {
      if cur >= |s| {
        return INCOMPLETE;
      }
      if !IsDigit(s[cur]) {
        return INVALID;
      }
      SkipDigits();
      ret := 0;
    }

    /** The text of a number, from its first character. */
    method ScanNumber() returns (ret: int)
      requires cur < |s|
      modifies this`cur
      ensures match NumberEnd(s, old(cur)) case At(pos) => ret == 0 && cur == pos case Bad(code) => ret == code
      ensures cur <= |s|
    {
      hide SomeDigits, IsDigit;
      if s[cur] == '-' {
        cur := cur + 1;
      }
      ret := NeedDigits();
      if ret < 0 {
        return ret;
      }
      if cur < |s| && s[cur] == '.' {
        cur := cur + 1;
        ret := NeedDigits();
        if ret < 0 {
          return ret;
        }
      }
      if cur < |s| && (s[cur] == 'e' || s[cur] == 'E') {
        cur := cur + 1;
        if cur >= |s| {
          return INCOMPLETE;
        }
        if s[cur] == '+' || s[cur] == '-' {
          cur := cur + 1;
        }
        ret := NeedDigits();
      }
    }

    method ParseNumber(ghost before: seq<Token>) returns (ret: int)
      requires Taken(before, Nil) && cur < |s|
      modifies this, tokens
      ensures Parsed(Leaf(NumberToken, old(cur), NumberEnd(s, old(cur)), 0), before, ret)
    {
      hide Flatten, NumberEnd;
      ghost var start := cur;
      ret := CapturePtr(cur, NumberToken, before);
      if ret < 0 {
        return ret;
      }
      ret := ScanNumber();
      if ret < 0 {
        return ret;
      }
      Finish(numTokens - 1, cur, before, start, NumberToken, Nil);
    }

    /** A word of the language, such as null. */
    method Expect(word: string, kind: Kind, ghost before: seq<Token>) returns (ret: int)
      requires Taken(before, Nil) && cur <= |s|
      modifies this, tokens
      ensures Parsed(Leaf(kind, old(cur), WordEnd(s, old(cur), word, 0), 0), before, ret)
    {
      hide Flatten;
      ghost var start := cur;
      var n := |s| - cur;
      ret := CapturePtr(cur, kind, before);
      if ret < 0 {
        return ret;
      }
      for i := 0 to |word|
        invariant cur == start && i <= n && WordEnd(s, cur, word, i) == WordEnd(s, start, word, 0)
        invariant Begun(before, start, kind, Nil)
      {
        if i >= n {
          return INCOMPLETE;
        }
        if s[cur + i] != word[i] {
          return INVALID;
        }
      }
      cur := cur + |word|;
      Finish(numTokens - 1, cur, before, start, kind, Nil);
      ret := 0;
    }

    method ParseValue(ghost before: seq<Token>) returns (ret: int)
      requires Taken(before, Nil) && cur <= |s|
      modifies this, tokens
      ensures Parsed(Value(s, old(cur)), before, ret)
      decreases |s| - cur, 1
    {
      hide Flatten, Taken, Kept, NumberEnd, WordEnd, Leaf, Quoted, Container, Code;
      SameAfterSkip(s, cur);
      var ch := Cur();
      if ch == '"' as int {
        ret := ParseString(before);
      } else if ch == '{' as int {
        ret := ParseObject(before);
      } else if ch == '[' as int {
        ret := ParseArray(before);
      } else if ch == 'n' as int {
        ret := Expect("null", NullToken, before);
      } else if ch == 't' as int {
        ret := Expect("true", TrueToken, before);
      } else if ch == 'f' as int {
        ret := Expect("false", FalseToken, before);
      } else if ch == '-' as int || '0' as int <= ch <= '9' as int {
        ret := ParseNumber(before);
      } else {
        ret := if ch == END_OF_STRING then INCOMPLETE else INVALID;
        NothingTaken(before, ret);
      }
    }

    lemma {:induction false} NothingTaken(before: seq<Token>, code: int)
      requires Taken(before, Nil) && code < 0 && cur <= |s|
      ensures Parsed(Fail(code, 0), before, code)
    {
    }

    method ParseKey(ghost before: seq<Token>) returns (ret: int)
      requires Taken(before, Nil) && cur <= |s|
      modifies this, tokens
      ensures Parsed(Key(s, old(cur)), before, ret)
    {
      hide Flatten, Taken, Kept, Leaf, Quoted, Code;
      var ch := Cur();
      if ch != END_OF_STRING && IsAlpha(s[cur]) {
        ret := ParseIdentifier(before);
      } else if ch == '"' as int {
        ret := ParseString(before);
      } else {
        ret := if ch == END_OF_STRING then INCOMPLETE else INVALID;
        NothingTaken(before, ret);
      }
    }

    /** Past a comma, if there is one, and to what follows. */
    method NextItem() returns (ch: int)
      requires cur <= |s|
      modifies this`cur
      ensures cur == Skip(s, OptionalComma(s, old(cur))) && ch == Peek(s, cur)
    {
      ch := Cur();
      if ch == ',' as int {
        cur := cur + 1;
      }
      ch := Cur();
    }

    method ParseArray(ghost before: seq<Token>) returns (ret: int)
      requires Taken(before, Nil) && cur <= |s|
      modifies this, tokens
      ensures Parsed(Container(s, old(cur), ArrayToken), before, ret)
      decreases |s| - cur, 0
    {
      hide Flatten, Taken, Kept, OpenEnded, Items, Value, Pair, Code, Prepend, Skip, Bracketed, Begun, Parsed, Size,
        Collected, Append, OptionalComma, Table, IsSpace;
      ret := TestAndSkip('[');
      if ret < 0 {
        NotOpened(before, ArrayToken, old(cur), ret);
        return ret;
      }
      ghost var p, got := cur, Nil;
      ret := CapturePtr(cur - 1, ArrayToken, before);
      if ret < 0 {
        NoRoom(before, ArrayToken, p, ret);
        return ret;
      }
      var ind := numTokens - 1;
      NothingYet(before, ArrayToken, p);
      var ch := Cur();
      while ch != ']' as int
        invariant p <= cur <= |s| && ch == Peek(s, cur) && numTokens <= tokens.Length
        invariant Collected(before, ArrayToken, p, got, cur) && (tokens.Length > 0 ==> ind == |before|)
        decreases |s| - cur
      {
        ghost var at, inner := cur, Table();
        InsideItems(before, ArrayToken, p, got, at);
        ret := ParseValue(inner);
        if ret < 0 {
          ItemFailed(before, ArrayToken, p, got, at, inner, ret);
          return ret;
        }
        ItemTaken(before, ArrayToken, p, got, at, inner, ret);
        got := Append(got, Item(s, at, ArrayToken).trees);
        ch := NextItem();
      }
      ListEnds(before, ArrayToken, p, got, cur);
      ret := TestAndSkip(']');
      if ret < 0 {
        return ret;
      }
      Finish(ind, cur, before, p - 1, ArrayToken, got);
      ListDone(before, ArrayToken, p, got);
      ret := 0;
    }

    method ParseObject(ghost before: seq<Token>) returns (ret: int)
      requires Taken(before, Nil) && cur <= |s|
      modifies this, tokens
      ensures Parsed(Container(s, old(cur), ObjectToken), before, ret)
      decreases |s| - cur, 0
    {
      hide Flatten, Taken, Kept, OpenEnded, Items, Value, Pair, Code, Prepend, Skip, Bracketed, Begun, Parsed, Size,
        Collected, Append, OptionalComma, Table, IsSpace;
      ret := TestAndSkip('{');
      if ret < 0 {
        NotOpened(before, ObjectToken, old(cur), ret);
        return ret;
      }
      ghost var p, got := cur, Nil;
      ret := CapturePtr(cur - 1, ObjectToken, before);
      if ret < 0 {
        NoRoom(before, ObjectToken, p, ret);
        return ret;
      }
      var ind := numTokens - 1;
      NothingYet(before, ObjectToken, p);
      var ch := Cur();
      while ch != '}' as int
        invariant p <= cur <= |s| && ch == Peek(s, cur) && numTokens <= tokens.Length
        invariant Collected(before, ObjectToken, p, got, cur) && (tokens.Length > 0 ==> ind == |before|)
        decreases |s| - cur
      {
        ghost var at, inner := cur, Table();
        InsideItems(before, ObjectToken, p, got, at);
        ret := ParsePair(inner);
        if ret < 0 {
          ItemFailed(before, ObjectToken, p, got, at, inner, ret);
          return ret;
        }
        ItemTaken(before, ObjectToken, p, got, at, inner, ret);
        got := Append(got, Item(s, at, ObjectToken).trees);
        ch := NextItem();
      }
      ListEnds(before, ObjectToken, p, got, cur);
      ret := TestAndSkip('}');
      if ret < 0 {
        return ret;
      }
      Finish(ind, cur, before, p - 1, ObjectToken, got);
      ListDone(before, ObjectToken, p, got);
      ret := 0;
    }

    method ParsePair(ghost before: seq<Token>) returns (ret: int)
      requires Taken(before, Nil) && cur <= |s|
      modifies this, tokens
      ensures Parsed(Pair(s, old(cur)), before, ret)
      decreases |s| - cur, 1
    {
      hide Flatten, Taken, Kept, Key, Value, Code, Prepend, Skip, Parsed, Pair, Size;
      ghost var at, key := cur, Key(s, cur);
      ret := ParseKey(before);
      if ret < 0 {
        KeyFailed(before, at, ret);
        return ret;
      }
      KeyTaken(before, at, ret);
      ghost var inner := Table();
      ret := TestAndSkip(':');
      if ret < 0 {
        NoColon(before, at, ret);
        return ret;
      }
      ret := ParseValue(inner);
      ValueTaken(before, at, inner, ret);
    }

    lemma {:induction false} KeyFailed(before: seq<Token>, at: nat, ret: int)
      requires at <= |s| && Parsed(Key(s, at), before, ret) && ret < 0
      ensures Parsed(Pair(s, at), before, ret)
    {
      hide Key, Pair, Size;
      PairCapturesKey(s, at);
    }

    lemma {:induction false} KeyTaken(before: seq<Token>, at: nat, ret: int)
      requires at <= |s| && Parsed(Key(s, at), before, ret) && ret >= 0
      ensures Key(s, at).Done? && at < cur == Key(s, at).next && Taken(before, Key(s, at).trees)
      ensures numTokens <= tokens.Length && before <= Table() && Taken(Table(), Nil)
    {
      assert Table() + Flatten(Nil) == Table();
    }

    lemma {:induction false} NoColon(before: seq<Token>, at: nat, ret: int)
      requires at <= |s| && cur <= |s| && Key(s, at).Done? && ret < 0
      requires Taken(before, Key(s, at).trees) && ret == Expected(s, Skip(s, Key(s, at).next), ':')
      ensures Parsed(Pair(s, at), before, ret)
    {
    }

    lemma {:induction false} ValueTaken(before: seq<Token>, at: nat, inner: seq<Token>, ret: int)
      requires at <= |s| && Key(s, at).Done? && Expected(s, Skip(s, Key(s, at).next), ':') == 0
      requires before <= inner && (tokens.Length > 0 ==> inner == before + Flatten(Key(s, at).trees))
      requires Parsed(Value(s, Skip(s, Key(s, at).next) + 1), inner, ret)
      ensures Parsed(Pair(s, at), before, ret)
    {
      hide Key, Value, Skip, Size, Flatten;
      var key, value := Key(s, at), Value(s, Skip(s, Key(s, at).next) + 1);
      PrependTwice(key.trees, Nil, value);
      FlattenAppend(key.trees, Nil);
      AppendNil(key.trees);
      if ret == 0 {
        FlattenAppend(key.trees, value.trees);
        assert before + Flatten(key.trees) + Flatten(value.trees)
            == before + (Flatten(key.trees) + Flatten(value.trees));
      }
    }

    /** The items up to position at of the list that starts at p have been captured. */
    ghost predicate Collected(before: seq<Token>, kind: Kind, p: nat, got: Forest, at: nat)
      reads this`numTokens, tokens
    {
      && 0 < p <= at <= |s| && Skip(s, at) == at && Begun(before, p - 1, kind, got)
      && Items(s, p, kind) == Prepend(got, Items(s, at, kind))
    }

    lemma {:induction false} NotOpened(before: seq<Token>, kind: Kind, p: nat, code: int)
      requires Taken(before, Nil) && p <= |s| && code < 0 && cur <= |s| && code == Expected(s, Skip(s, p), Open(kind))
      ensures Parsed(Container(s, p, kind), before, code)
    {
    }

    lemma {:induction false} NoRoom(before: seq<Token>, kind: Kind, p: nat, code: int)
      requires Kept(before) && 0 < p <= |s| && cur <= |s| && code == TOO_SMALL && 0 < tokens.Length <= |before|
      ensures Parsed(Bracketed(p - 1, kind, Items(s, p, kind)), before, code)
    {
    }

    lemma {:induction false} NothingYet(before: seq<Token>, kind: Kind, p: nat)
      requires 0 < p <= |s| && Begun(before, p - 1, kind, Nil)
      ensures Collected(before, kind, p, Nil, Skip(s, p))
      ensures numTokens <= tokens.Length && (tokens.Length > 0 ==> numTokens - 1 == |before|)
    {
      SameItems(s, p, kind);
    }

    lemma {:induction false} InsideItems(before: seq<Token>, kind: Kind, p: nat, got: Forest, at: nat)
      requires numTokens <= tokens.Length && Collected(before, kind, p, got, at)
      ensures Taken(Table(), Nil) && before <= Table()
      ensures 0 < p <= at <= |s| && Skip(s, at) == at && Items(s, p, kind) == Prepend(got, Items(s, at, kind))
      ensures tokens.Length > 0 ==> OpenEnded(Table(), before, p - 1, kind, got)
    {
      assert Table() + Flatten(Nil) == Table();
    }

    lemma {:induction false} ItemFailed(before: seq<Token>, kind: Kind, p: nat, got: Forest, at: nat,
                                        inner: seq<Token>, ret: int)
      requires 0 < p <= at <= |s| && Skip(s, at) == at && Peek(s, at) != Close(kind) as int
      requires Items(s, p, kind) == Prepend(got, Items(s, at, kind))
      requires before <= inner && (tokens.Length > 0 ==> OpenEnded(inner, before, p - 1, kind, got))
      requires Parsed(Item(s, at, kind), inner, ret) && ret < 0
      ensures Parsed(Bracketed(p - 1, kind, Items(s, p, kind)), before, ret)
    {
      var first := Item(s, at, kind);
      var rest := if first.Done? then Items(s, OptionalComma(s, first.next), kind) else first;
      PrependTwice(got, Nil, Items(s, at, kind));
      if first.Done? {
        PrependTwice(first.trees, Nil, rest);
      }
    }

    lemma {:induction false} ItemTaken(before: seq<Token>, kind: Kind, p: nat, got: Forest, at: nat, inner: seq<Token>,
                                       ret: int)
      requires 0 < p <= at <= |s| && Skip(s, at) == at && Peek(s, at) != Close(kind) as int
      requires Items(s, p, kind) == Prepend(got, Items(s, at, kind))
      requires before <= inner && (tokens.Length > 0 ==> OpenEnded(inner, before, p - 1, kind, got))
      requires Parsed(Item(s, at, kind), inner, ret) && ret >= 0
      ensures numTokens <= tokens.Length
      ensures var first := Item(s, at, kind);
              && first.Done? && at < cur == first.next
              && Collected(before, kind, p, Append(got, first.trees), Skip(s, OptionalComma(s, cur)))
    {
      var first := Item(s, at, kind);
      PrependTwice(got, first.trees, Items(s, OptionalComma(s, first.next), kind));
      FlattenAppend(got, first.trees);
      SameItems(s, OptionalComma(s, first.next), kind);
      if tokens.Length > 0 {
        Grown(inner, before, p - 1, kind, got, first.trees);
      }
    }

    lemma {:induction false} ListEnds(before: seq<Token>, kind: Kind, p: nat, got: Forest, at: nat)
      requires at <= |s| && Collected(before, kind, p, got, at) && Peek(s, at) == Close(kind) as int
      ensures 0 < p <= at <= |s| && Items(s, p, kind) == Done(got, at) && Begun(before, p - 1, kind, got)
              && Skip(s, at) == at
      ensures Expected(s, at, Close(kind)) == 0
    {
      AppendNil(got);
    }

    lemma {:induction false} ListDone(before: seq<Token>, kind: Kind, p: nat, got: Forest)
      requires 0 < p < cur <= |s| && Items(s, p, kind) == Done(got, cur - 1)
      requires Taken(before, Node(kind, p - 1, cur, got, Nil))
      ensures Parsed(Bracketed(p - 1, kind, Items(s, p, kind)), before, 0)
    {
    }

    /** doit: one object or array, and the token that marks the end. */
    method Doit() returns (ret: int)
      requires cur == 0 && numTokens == 0
      modifies this, tokens
      ensures ret == Code(tokens.Length, Ended(Document(s)), 0) && ret <= 0
      ensures ret == 0 ==> cur == Document(s).next && EndMarked(Document(s).trees)
    {
      hide Flatten, Container, Skip, Taken, Begun, Parsed, Append;
      EndedCaptures(Document(s));
      NothingCaptured();
      if |s| == 0 {
        return INCOMPLETE;
      }
      ret := TestNoSkip('{');
      if ret == 0 {
        ret := ParseObject([]);
        DocumentTaken(ret);
      } else {
        ret := TestNoSkip('[');
        if ret != 0 {
          return ret;
        }
        ret := ParseArray([]);
        DocumentTaken(ret);
      }
      if ret < 0 {
        return ret;
      }
      ghost var before := Table();
      ret := CapturePtr(cur, EofToken, before);
      if ret < 0 {
        return ret;
      }
      LastCaptured(before, cur);
      // One past the token just captured.
      var _ := CaptureLen(numTokens, cur);
      assert tokens.Length > 0 ==> tokens[..numTokens - 1] == before;
    }

    lemma {:induction false} NothingCaptured()
      requires numTokens == 0
      ensures Taken([], Nil)
    {
    }

    lemma {:induction false} LastCaptured(before: seq<Token>, ptr: nat)
      requires Begun(before, ptr, EofToken, Nil)
      ensures tokens.Length > 0 ==>
                && numTokens == |before| + 1 <= tokens.Length && tokens[..|before|] == before
                && tokens[|before|].kind == EofToken && tokens[|before|].ptr == ptr
    {
    }

    lemma {:induction false} DocumentTaken(ret: int)
      requires Parsed(Document(s), [], ret)
      ensures ret <= 0 && (ret < 0 ==> ret == Code(tokens.Length, Ended(Document(s)), 0))
      ensures ret == 0 ==>
                numTokens <= tokens.Length && Taken(Table(), Nil) && Document(s).Done? && cur == Document(s).next
      ensures ret == 0 && tokens.Length > 0 ==> Table() == Flatten(Document(s).trees)
    {
      EndedCaptures(Document(s));
      if ret == 0 {
        assert Table() + Flatten(Nil) == Table();
        assert [] + Flatten(Document(s).trees) == Flatten(Document(s).trees);
      }
    }

    /** The table holds the trees in preorder and then the end marker. */
    ghost predicate EndMarked(trees: Forest)
      reads this, tokens
    {
      tokens.Length > 0 ==>
        && numTokens == Size(trees) + 1 <= tokens.Length
        && tokens[..Size(trees)] == Flatten(trees)
        && tokens[Size(trees)].kind == EofToken && tokens[Size(trees)].ptr == cur
    }
  }

  /** The trees of a document and the token behind them. */
  function Ended(r: Parse): Parse {
    match r
    case Done(trees, next) => Done(Append(trees, Node(EofToken, next, next, Nil, Nil)), next)
    case Fail(_, _) => r
  }

  lemma {:induction false} EndedCaptures(r: Parse)
    ensures Captured(Ended(r)) == if r.Done? then Size(r.trees) + 1 else r.captured
  {
    if r.Done? {
      FlattenAppend(r.trees, Node(EofToken, r.next, r.next, Nil, Nil));
    }
  }

  /** parse_json: the number of bytes taken, or an error code. An array of length 0 stands for no array. */
  method ParseJson(s: string, arr: array<Token>) returns (ret: int)
    modifies arr
    ensures match Document(s)
            case Fail(code, captured) => ret == if 0 < arr.Length < captured then -3 else code
            case Done(trees, next) =>
              if 0 < arr.Length < Size(trees) + 1 then ret == -3
              else
                && ret == next
                && (arr.Length > 0 ==>
                      && arr[..Size(trees)] == Flatten(trees)
                      && arr[Size(trees)].kind == EofToken && arr[Size(trees)].ptr == ret)
  {
    hide Flatten, Document;
    var frozen := new Frozen(s, arr);
    ret := frozen.Doit();
    EndedCaptures(Document(s));
    if ret < 0 {
      return ret;
    }
    ret := frozen.cur;
  }

  /** 0 or the error code, when was tokens are already captured in a table for max tokens (0 for no table):
      that the table is full is found before any error further on. */
  function Code(max: nat, r: Parse, was: nat): int {
    if max > 0 && was + Captured(r) > max then TOO_SMALL else if r.Fail? then r.code else 0
  }

  /** The table ends with a token of which only position and kind are entered, and its descendants so far. */
  ghost predicate OpenEnded(table: seq<Token>, before: seq<Token>, ptr: nat, kind: Kind, kids: Forest) {
    && |table| == |before| + 1 + Size(kids) && before <= table
    && table[|before|].ptr == ptr && table[|before|].kind == kind
    && table[|before| + 1..] == Flatten(kids)
  }

  /** What a test for one character returns. */
  function Expected(s: string, p: nat, c: char): int
    requires p <= |s|
  {
    if p == |s| then INCOMPLETE else if s[p] == c then 0 else INVALID
  }

  lemma {:induction false} OneNode(kind: Kind, start: nat, end: nat, kids: Forest)
    ensures Flatten(Node(kind, start, end, kids, Nil)) == [Token(start, end - start, Size(kids), kind)] + Flatten(kids)
  {
  }

  lemma {:induction false} SameAfterSkip(s: string, p: nat)
    requires p <= |s|
    ensures Value(s, p) == Value(s, Skip(s, p))
  {
    assert Skip(s, Skip(s, p)) == Skip(s, p);
  }

  lemma {:induction false} PairCapturesKey(s: string, at: nat)
    requires at <= |s|
    ensures Captured(Pair(s, at)) >= Captured(Key(s, at))
    ensures Key(s, at).Fail? ==> Pair(s, at) == Key(s, at)
  {
    hide Key, Value, Skip, Size;
    var key := Key(s, at);
    if key.Done? {
      var c := Skip(s, key.next);
      if c < |s| && s[c] == ':' {
        PrependTwice(key.trees, Nil, Value(s, c + 1));
      }
    }
  }

  lemma {:induction false} SameItems(s: string, p: nat, kind: Kind)
    requires p <= |s|
    ensures Items(s, p, kind) == Items(s, Skip(s, p), kind) == Prepend(Nil, Items(s, Skip(s, p), kind))
    ensures Skip(s, Skip(s, p)) == Skip(s, p)
  {
  }

  /** More descendants behind an unfinished token. */
  lemma {:induction false} Grown(table: seq<Token>, before: seq<Token>, ptr: nat, kind: Kind, kids: Forest,
                                 more: Forest)
    requires OpenEnded(table, before, ptr, kind, kids)
    ensures OpenEnded(table + Flatten(more), before, ptr, kind, Append(kids, more))
  {
    FlattenAppend(kids, more);
    assert (table + Flatten(more))[|before| + 1..] == table[|before| + 1..] + Flatten(more);
  }
}
