/** What the token table of a parsed text looks like: kinds, spans and descendant counts. */
module JsonShape {
  import opened JsonGrammar
  import opened JsonTokens

  /** The text of a token of this kind. Strings are without their quotes; keys may be bare names. */
  ghost predicate KindText(s: string, kind: Kind, start: nat, end: nat)
    requires start <= end <= |s|
  {
    match kind
    case ObjectToken => start + 2 <= end && s[start] == '{' && s[end - 1] == '}'
    case ArrayToken => start + 2 <= end && s[start] == '[' && s[end - 1] == ']'
    case StringToken =>
      || (0 < start && end < |s| && s[start - 1] == '"' && s[end] == '"')
      || (start < end && IsAlpha(s[start]) && forall i :: start <= i < end ==> IsNamePart(s[i]))
    case NumberToken => start < end && NumberEnd(s, start) == At(end)
    case TrueToken => s[start..end] == "true"
    case FalseToken => s[start..end] == "false"
    case NullToken => s[start..end] == "null"
    case EofToken => false
  }

  predicate IsContainer(kind: Kind) {
    kind == ObjectToken || kind == ArrayToken
  }

  /** key, value, key, value, ... */
  ghost predicate Pairs(f: Forest) {
    match f
    case Nil => true
    case Node(kind, _, _, kids, rest) => kind == StringToken && kids == Nil && rest.Node? && Pairs(rest.rest)
  }

  /** The trees lie in [lo, hi) one behind the other; those below them strictly inside their parent. */
  ghost predicate Spans(s: string, f: Forest, lo: nat, hi: nat) {
    match f
    case Nil => lo <= hi
    case Node(kind, start, end, kids, rest) =>
      && lo <= start <= end <= hi <= |s| && KindText(s, kind, start, end)
      && (if IsContainer(kind) then Spans(s, kids, start + 1, end - 1) else kids == Nil)
      && (kind == ObjectToken ==> Pairs(kids))
      && Spans(s, rest, end, hi)
  }

  lemma {:induction false} SpansOrder(s: string, f: Forest, lo: nat, hi: nat)
    requires Spans(s, f, lo, hi)
    ensures lo <= hi
  {
    if f.Node? {
      SpansOrder(s, f.rest, f.end, hi);
    }
  }

  lemma {:induction false} SpansWiden(s: string, f: Forest, lo: nat, hi: nat, lower: nat, higher: nat)
    requires Spans(s, f, lo, hi) && lower <= lo && hi <= higher <= |s|
    ensures Spans(s, f, lower, higher)
  {
    if f.Node? {
      SpansWiden(s, f.rest, f.end, hi, f.end, higher);
    }
  }

  lemma {:induction false} SpansAppend(s: string, f: Forest, g: Forest, lo: nat, mid: nat, hi: nat)
    requires Spans(s, f, lo, mid) && Spans(s, g, mid, hi) && hi <= |s|
    ensures Spans(s, Append(f, g), lo, hi)
  {
    SpansOrder(s, g, mid, hi);
    if f.Node? {
      SpansAppend(s, f.rest, g, f.end, mid, hi);
      SpansOrder(s, f.rest, f.end, mid);
    } else {
      SpansWiden(s, g, mid, hi, lo, hi);
    }
  }

  /** What a successful parse of one value, one item or a list of items lays out. */
  ghost predicate Shaped(s: string, r: Parse, p: nat, kind: Kind) {
    r.Done? ==> p <= r.next <= |s| && Spans(s, r.trees, p, r.next) && (kind == ObjectToken ==> Pairs(r.trees))
  }

  lemma {:induction false} QuotedShape(s: string, p: nat)
    requires p <= |s|
    ensures Shaped(s, Quoted(s, p), p, StringToken)
  {
  }

  lemma {:induction false} WordShape(s: string, q: nat, word: string, kind: Kind)
    requires q <= |s| && word != "" && kind in {TrueToken, FalseToken, NullToken}
    requires word == if kind == TrueToken then "true" else if kind == FalseToken then "false" else "null"
    ensures Shaped(s, Leaf(kind, q, WordEnd(s, q, word, 0), 0), q, StringToken)
  {
    var r := WordEnd(s, q, word, 0);
    if r.At? {
      assert s[q..r.pos] == word;
    }
  }

  lemma {:induction false} ValueShape(s: string, p: nat)
    requires p <= |s|
    ensures Shaped(s, Value(s, p), p, ArrayToken)
    decreases |s| - p, 1
  {
    hide Quoted, Container, NumberEnd, WordEnd;
    var q := Skip(s, p);
    var r := Value(s, p);
    if r.Done? {
      if s[q] == '"' {
        QuotedShape(s, q);
      } else if s[q] == '{' {
        ContainerShape(s, q, ObjectToken);
      } else if s[q] == '[' {
        ContainerShape(s, q, ArrayToken);
      } else if s[q] == 'n' {
        WordShape(s, q, "null", NullToken);
      } else if s[q] == 't' {
        WordShape(s, q, "true", TrueToken);
      } else if s[q] == 'f' {
        WordShape(s, q, "false", FalseToken);
      }
      SpansWiden(s, r.trees, q, r.next, p, r.next);
    }
  }

  lemma {:induction false} ContainerShape(s: string, p: nat, kind: Kind)
    requires p <= |s| && IsContainer(kind)
    ensures Shaped(s, Container(s, p, kind), p, ArrayToken)
    decreases |s| - p, 0
  {
    var q := Skip(s, p);
    if q < |s| && s[q] == Open(kind) {
      ItemsShape(s, q + 1, kind);
    }
  }

  lemma {:induction false} ItemsShape(s: string, p: nat, kind: Kind)
    requires p <= |s| && IsContainer(kind)
    ensures Shaped(s, Items(s, p, kind), p, kind)
    decreases |s| - p, 3
  {
    hide Value, Pair, Spans, Pairs, OptionalComma;
    var q := Skip(s, p);
    var r, first := Items(s, p, kind), Item(s, q, kind);
    if r.Done? {
      if q < |s| && s[q] == Close(kind) {
        NoTrees(s, p, q);
      } else {
        ItemShape(s, q, kind);
        var at := OptionalComma(s, first.next);
        var rest := Items(s, at, kind);
        ItemsShape(s, at, kind);
        SpansWiden(s, first.trees, q, first.next, p, at);
        SpansAppend(s, first.trees, rest.trees, p, at, r.next);
        if kind == ObjectToken {
          PairsAppend(first.trees, rest.trees);
        }
      }
    }
  }

  lemma {:induction false} NoTrees(s: string, lo: nat, hi: nat)
    requires lo <= hi
    ensures Spans(s, Nil, lo, hi) && Pairs(Nil)
  {
  }

  lemma {:induction false} PairsAppend(f: Forest, g: Forest)
    requires Pairs(f) && Pairs(g)
    ensures Pairs(Append(f, g))
  {
    if f.Node? {
      PairsAppend(f.rest.rest, g);
    }
  }

  lemma {:induction false} ItemShape(s: string, p: nat, kind: Kind)
    requires p <= |s| && IsContainer(kind)
    ensures Shaped(s, Item(s, p, kind), p, kind)
    decreases |s| - p, 2
  {
    if kind == ObjectToken {
      PairShape(s, p);
    } else {
      ValueShape(s, p);
    }
  }

  lemma {:induction false} KeyShape(s: string, p: nat)
    requires p <= |s|
    ensures Shaped(s, Key(s, p), p, ArrayToken)
    ensures var key := Key(s, p); key.Done? ==> key.trees.kind == StringToken && key.trees.kids == Nil
  {
    QuotedShape(s, Skip(s, p));
  }

  lemma {:induction false} PairShape(s: string, p: nat)
    requires p <= |s|
    ensures Shaped(s, Pair(s, p), p, ObjectToken)
    decreases |s| - p, 1
  {
    hide Key, Value;
    KeyShape(s, p);
    var key := Key(s, p);
    if key.Done? {
      var c := Skip(s, key.next);
      if c < |s| && s[c] == ':' {
        var value := Value(s, c + 1);
        ValueShape(s, c + 1);
        if value.Done? {
          SpansWiden(s, key.trees, p, key.next, p, c + 1);
          SpansAppend(s, key.trees, value.trees, p, c + 1, value.next);
          assert Append(key.trees, value.trees) == key.trees.(rest := value.trees);
          assert Pairs(value.trees.rest);
        }
      }
    }
  }

  /** Every successfully parsed text is one object or array whose tokens have the right text, with the
      members of objects in pairs, children inside their parents and siblings one behind the other. */
  lemma {:induction false} DocumentShape(s: string)
    requires Document(s).Done?
    ensures var t := Document(s).trees;
            t.Node? && t.rest == Nil && IsContainer(t.kind) && Spans(s, t, 0, Document(s).next)
  {
    var q := Skip(s, 0);
    var kind := if s[q] == '{' then ObjectToken else ArrayToken;
    ContainerShape(s, q, kind);
    SpansWiden(s, Document(s).trees, q, Document(s).next, 0, Document(s).next);
  }

  predicate Within(inner: Token, outer: Token) {
    outer.ptr < inner.ptr && inner.ptr + inner.len < outer.ptr + outer.len
  }

  ghost predicate Counts(table: seq<Token>) {
    forall i :: 0 <= i < |table| ==> 0 <= table[i].numDesc < |table| - i && table[i].len >= 0
  }

  ghost predicate Inside(table: seq<Token>, lo: int, hi: int) {
    forall i :: 0 <= i < |table| ==> lo <= table[i].ptr && table[i].ptr + table[i].len <= hi
  }

  predicate InOrder(i: nat, first: Token, j: nat, second: Token) {
    if j <= i + first.numDesc then Within(second, first) else first.ptr + first.len <= second.ptr
  }

  /** The descendants of a token are the numDesc tokens behind it: exactly these lie inside it, and
      everything further on lies behind its end. */
  ghost predicate Nested(table: seq<Token>) {
    Counts(table) && forall i, j :: 0 <= i < j < |table| ==> InOrder(i, table[i], j, table[j])
  }

  lemma {:induction false} NestedParts(head: Token, kids: seq<Token>, rest: seq<Token>, lo: int, hi: int)
    requires Nested(kids) && Nested(rest)
    requires head.numDesc == |kids| && head.len >= 0 && lo <= head.ptr
    requires Inside(kids, head.ptr + 1, head.ptr + head.len - 1)
    requires Inside(rest, head.ptr + head.len, hi) && head.ptr + head.len <= hi
    ensures Nested([head] + kids + rest) && Inside([head] + kids + rest, lo, hi)
  {
    var table, n := [head] + kids + rest, 1 + |kids|;
    forall i | 0 <= i < |table|
      ensures 0 <= table[i].numDesc < |table| - i && table[i].len >= 0
      ensures lo <= table[i].ptr && table[i].ptr + table[i].len <= hi
    {
      if 0 < i < n {
        assert table[i] == kids[i - 1];
      } else if n <= i {
        assert table[i] == rest[i - n];
      }
    }
    forall i, j | 0 <= i < j < |table|
      ensures InOrder(i, table[i], j, table[j])
    {
      if n <= i {
        assert InOrder(i - n, rest[i - n], j - n, rest[j - n]);
      } else if j < n && 0 < i {
        assert InOrder(i - 1, kids[i - 1], j - 1, kids[j - 1]);
      }
    }
  }

  lemma {:induction false} SpansNest(s: string, f: Forest, lo: nat, hi: nat)
    requires Spans(s, f, lo, hi)
    ensures Nested(Flatten(f)) && Inside(Flatten(f), lo, hi)
  {
    if f.Node? {
      var head := Token(f.start, f.end - f.start, Size(f.kids), f.kind);
      if IsContainer(f.kind) {
        SpansNest(s, f.kids, f.start + 1, f.end - 1);
      }
      SpansNest(s, f.rest, f.end, hi);
      NestedParts(head, Flatten(f.kids), Flatten(f.rest), lo, hi);
    }
  }

  /** The table that a successful parse leaves: num_desc counts exactly the tokens inside a token. */
  lemma {:induction false} TableNests(s: string)
    requires Document(s).Done?
    ensures var table := Flatten(Document(s).trees);
            Nested(table) && |table| > 0 && table[0].numDesc == |table| - 1 && Inside(table, 0, Document(s).next)
  {
    DocumentShape(s);
    SpansNest(s, Document(s).trees, 0, Document(s).next);
  }
}
