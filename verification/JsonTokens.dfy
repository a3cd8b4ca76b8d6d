/** The token table: the trees of the grammar in preorder. */
module JsonTokens {
  import opened JsonGrammar

  datatype Token = Token(ptr: int, len: int, numDesc: int, kind: Kind)

  function Flatten(f: Forest): (tokens: seq<Token>)
    ensures |tokens| == Size(f)
  {
    match f
    case Nil => []
    case Node(kind, start, end, kids, rest) =>
      [Token(start, end - start, Size(kids), kind)] + Flatten(kids) + Flatten(rest)
  }

  /** The number of tokens a parse begins, whether it succeeds or not. */
  function Captured(r: Parse): nat {
    if r.Done? then Size(r.trees) else r.captured
  }

  lemma {:induction false} FlattenAppend(f: Forest, g: Forest)
    ensures Flatten(Append(f, g)) == Flatten(f) + Flatten(g)
    ensures Size(Append(f, g)) == Size(f) + Size(g)
  {
    if f.Node? {
      FlattenAppend(f.rest, g);
      Regroup([Token(f.start, f.end - f.start, Size(f.kids), f.kind)] + Flatten(f.kids), Flatten(f.rest), Flatten(g));
    }
  }

  lemma {:induction false} Regroup<T>(a: seq<T>, b: seq<T>, c: seq<T>)
    ensures a + b + c == a + (b + c)
  {
  }

  lemma {:induction false} AppendAssociates(f: Forest, g: Forest, h: Forest)
    ensures Append(Append(f, g), h) == Append(f, Append(g, h))
  {
    if f.Node? {
      AppendAssociates(f.rest, g, h);
    }
  }

  lemma {:induction false} AppendNil(f: Forest)
    ensures Append(f, Nil) == f
  {
    if f.Node? {
      AppendNil(f.rest);
    }
  }

  lemma {:induction false} PrependTwice(f: Forest, g: Forest, r: Parse)
    ensures Prepend(f, Prepend(g, r)) == Prepend(Append(f, g), r)
    ensures Captured(Prepend(f, r)) == Size(f) + Captured(r)
  {
    FlattenAppend(f, g);
    if r.Done? {
      AppendAssociates(f, g, r.trees);
      FlattenAppend(f, r.trees);
    }
  }
}
