/** Finding a token by a path such as "a.b[3].c": in the tree, and in the token table by skipping over
    descendants. */
module JsonPath {
  import opened JsonGrammar
  import opened JsonTokens
  import opened JsonShape

  /** The first part of a path: an index or a key, and where the part ends. */
  datatype Part = NoPart | IndexPart(index: nat, n: nat) | KeyPart(n: nat)

  function KeyLen(path: string): (n: nat)
    ensures n <= |path| && (n < |path| ==> path[n] == '[' || path[n] == '.')
    ensures forall i :: 0 <= i < n ==> path[i] != '[' && path[i] != '.'
  {
    if path == "" || path[0] == '[' || path[0] == '.' then 0 else 1 + KeyLen(path[1..])
  }

  function Number(digits: string): nat
    requires forall i :: 0 <= i < |digits| ==> IsDigit(digits[i])
  {
    if digits == "" then 0
    else
      assert IsDigit(digits[|digits| - 1]);
      Number(digits[..|digits| - 1]) * 10 + (digits[|digits| - 1] as int - '0' as int)
  }

  function FirstPart(path: string): (part: Part)
    requires path != ""
    ensures part.IndexPart? ==> 0 < part.n <= |path|
    ensures part.KeyPart? ==> part.n <= |path| && (part.n == 0 ==> path[0] == '.')
  {
    if path[0] != '[' then KeyPart(KeyLen(path))
    else if |path| < 2 || !IsDigit(path[1]) then NoPart
    else
      var m := Digits(path, 1);
      if m < |path| && path[m] == ']' then IndexPart(Number(path[1..m]), m + 1) else NoPart
  }

  function AfterDot(path: string): (rest: string)
    ensures |rest| <= |path| && (path != "" && path[0] == '.' ==> |rest| < |path|)
  {
    if path != "" && path[0] == '.' then path[1..] else path
  }

  function Text(s: string, start: int, end: int): string {
    if 0 <= start <= end <= |s| then s[start..end] else ""
  }

  /** The siblings from the i-th on, counted from 0. */
  function ElementAt(f: Forest, i: nat): Forest {
    if f.Nil? || i == 0 then f else ElementAt(f.rest, i - 1)
  }

  /** The siblings from the value of the first key with this text on. Keys are compared as they are
      written. */
  function Member(s: string, f: Forest, name: string): Forest {
    if f.Nil? then Nil
    else if Text(s, f.start, f.end) == name then f.rest
    else if f.rest.Nil? then Nil
    else Member(s, f.rest.rest, name)
  }

  function Child(s: string, t: Forest, path: string, part: Part): Forest
    requires t.Node? && (part.KeyPart? ==> part.n <= |path|)
  {
    match part
    case NoPart => Nil
    case IndexPart(i, _) => if t.kind == ArrayToken then ElementAt(t.kids, i) else Nil
    case KeyPart(n) => if t.kind == ObjectToken then Member(s, t.kids, path[..n]) else Nil
  }

  /** The tree below t that a path leads to, or Nil. */
  function Lookup(s: string, t: Forest, path: string): Forest
    requires t.Node?
    decreases |path|
  {
    if path == "" then Nil
    else
      var part := FirstPart(path);
      var child := Child(s, t, path, part);
      if part.NoPart? || child.Nil? then Nil
      else
        var rest := AfterDot(path[part.n..]);
        if rest == "" then child else Lookup(s, child, rest)
  }

  /** The table holds the tokens of these trees from at on. */
  ghost predicate Holds(table: seq<Token>, at: nat, f: Forest) {
    at + Size(f) <= |table| && table[at..at + Size(f)] == Flatten(f)
  }

  lemma {:induction false} HoldsParts(table: seq<Token>, at: nat, f: Forest)
    requires Holds(table, at, f) && f.Node?
    ensures at < |table| && table[at] == Token(f.start, f.end - f.start, Size(f.kids), f.kind)
    ensures Holds(table, at + 1, f.kids) && Holds(table, at + 1 + Size(f.kids), f.rest)
  {
    var head := Token(f.start, f.end - f.start, Size(f.kids), f.kind);
    SliceParts(table, at, [head], Flatten(f.kids), Flatten(f.rest));
  }

  lemma {:induction false} SliceParts<T>(table: seq<T>, at: nat, a: seq<T>, b: seq<T>, c: seq<T>)
    requires at + |a| + |b| + |c| <= |table| && table[at..at + |a| + |b| + |c|] == a + b + c
    ensures table[at..at + |a|] == a && table[at + |a|..at + |a| + |b|] == b
    ensures table[at + |a| + |b|..at + |a| + |b| + |c|] == c
    ensures |a| > 0 ==> table[at] == a[0]
  {
    var all := a + b + c;
    assert forall i :: 0 <= i < |all| ==> table[at + i] == table[at..at + |a| + |b| + |c|][i] == all[i];
    assert forall i :: 0 <= i < |a| ==> table[at + i] == all[i] == a[i];
    assert forall i :: 0 <= i < |b| ==> table[at + |a| + i] == table[at + (|a| + i)] == all[|a| + i] == b[i];
    assert forall i :: 0 <= i < |c| ==>
        table[at + |a| + |b| + i] == table[at + (|a| + |b| + i)] == all[|a| + |b| + i] == c[i];
  }

  /** path_part_len */
  method PathPartLen(path: string) returns (i: nat)
    ensures i == KeyLen(path)
  {
    i := 0;
    while i < |path| && path[i] != '[' && path[i] != '.'
      invariant i <= |path| && KeyLen(path[i..]) == KeyLen(path) - i
    {
      assert path[i..][1..] == path[i + 1..];
      i := i + 1;
    }
  }

  /** compare */
  method Compare(path: string, s: string, start: nat, len: nat) returns (same: bool)
    requires len <= |path| && start + len <= |s|
    ensures same <==> path[..len] == s[start..start + len]
  {
    var i := 0;
    while i < len && path[i] == s[start + i]
      invariant 0 <= i <= len && path[..i] == s[start..start + i]
    {
      assert path[..i + 1] == path[..i] + [path[i]];
      i := i + 1;
    }
    same := i == len;
    if !same {
      assert path[..len][i] != s[start..start + len][i];
    }
  }

  /** The bracketed index at the start of a path. */
  method ParseIndex(path: string) returns (ok: bool, ind: nat, n: nat)
    requires path != "" && path[0] == '['
    ensures FirstPart(path) == if ok then IndexPart(ind, n) else NoPart
  {
    ind, n := 0, 1;
    if |path| < 2 || !IsDigit(path[1]) {
      return false, ind, n;
    }
    while n < |path| && path[n] != ']'
      invariant 1 <= n <= |path| && Digits(path, n) == Digits(path, 1)
      invariant forall i :: 1 <= i < n ==> IsDigit(path[i])
      invariant ind == Number(path[1..n])
    {
      if !IsDigit(path[n]) {
        return false, ind, n;
      }
      assert path[1..n + 1][..n - 1] == path[1..n];
      ind := ind * 10 + (path[n] as int - '0' as int);
      n := n + 1;
    }
    if n == |path| {
      return false, ind, n;
    }
    ok, n := true, n + 1;
  }

  /** What is left of the search through the children: f is what has not been passed over yet. */
  function Pick(s: string, f: Forest, isArray: bool, ind: int, name: string): Forest {
    if isArray then (if ind < 0 then Nil else ElementAt(f, ind)) else Member(s, f, name)
  }

  /** One round of the search: rest begins with an element, or with a key and its value. */
  lemma {:induction false} ChildStep(s: string, toks: seq<Token>, pos: nat, rest: Forest, isArray: bool, ind: int,
                                     name: string)
    requires Holds(toks, pos, rest) && rest.Node? && Spans(s, rest, 0, |s|) && (!isArray ==> Pairs(rest))
    ensures pos < |toks| && toks[pos] == Token(rest.start, rest.end - rest.start, Size(rest.kids), rest.kind)
    ensures rest.start <= rest.end <= |s|
    ensures !isArray ==> rest.kind == StringToken && rest.rest.Node?
    ensures var value := if isArray then rest else rest.rest;
            var p := if isArray then pos else pos + 1;
            && p < |toks| && Holds(toks, p, value) && Spans(s, value, 0, |s|)
            && toks[p].numDesc == Size(value.kids) && (!IsContainer(toks[p].kind) ==> Size(value.kids) == 0)
            && Holds(toks, p + 1 + Size(value.kids), value.rest) && Spans(s, value.rest, 0, |s|)
            && Size(rest) == p - pos + 1 + Size(value.kids) + Size(value.rest)
            && (!isArray ==> Pairs(value.rest))
            && (if (if isArray then ind == 0 else Text(s, rest.start, rest.end) == name)
                then Pick(s, rest, isArray, ind, name) == value
                else Pick(s, rest, isArray, ind, name)
                       == Pick(s, value.rest, isArray, if isArray then ind - 1 else ind, name))
  {
    HoldsParts(toks, pos, rest);
    SpansWiden(s, rest.rest, rest.end, |s|, 0, |s|);
    if !isArray {
      HoldsParts(toks, pos + 1, rest.rest);
      SpansWiden(s, rest.rest.rest, rest.rest.end, |s|, 0, |s|);
    }
  }

  /** The inner loop: from child to child, over the descendants of each. at is the first child, count the
      number of descendants; the result is count if nothing was found. ind is -1 to look for a key. */
  method SelectChild(s: string, toks: seq<Token>, at: nat, count: nat, path: string, ind: int, n: nat, skip: nat,
                     ghost kids: Forest)
    returns (ok: bool, i: nat)
    requires Holds(toks, at, kids) && count == Size(kids) && n <= |path|
    requires ind >= -1 && skip == (if ind == -1 then 2 else 1) && (ind == -1 ==> Pairs(kids))
    requires Spans(s, kids, 0, |s|)
    ensures ok && i <= count
    ensures var child := Pick(s, kids, ind != -1, ind, path[..n]);
            if i == count then child.Nil? else child.Node? && Holds(toks, at + i, child) && Spans(s, child, 0, |s|)
  {
    hide Holds, Flatten, Spans, Pick, Pairs;
    ghost var isArray, rest, name := ind != -1, kids, path[..n];
    var ind2 := 0;
    i := 0;
    while i < count
      invariant i <= count && Holds(toks, at + i, rest) && i + Size(rest) == count
      invariant Spans(s, rest, 0, |s|) && (!isArray ==> Pairs(rest))
      invariant isArray ==> ind2 <= ind
      invariant Pick(s, kids, isArray, ind, name) == Pick(s, rest, isArray, if isArray then ind - ind2 else ind, name)
    {
      ChildStep(s, toks, at + i, rest, isArray, if isArray then ind - ind2 else ind, name);
      if ind == -1 && toks[at + i].kind != StringToken {
        return false, i;
      }
      var same := false;
      if ind == -1 && toks[at + i].len == n {
        same := Compare(path, s, toks[at + i].ptr, n);
      }
      if ind2 == ind || same {
        i := i + skip - 1;
        return true, i;
      }
      var last := toks[at + i - 1 + skip];
      if last.kind == ArrayToken || last.kind == ObjectToken {
        i := i + last.numDesc;
      }
      rest := if isArray then rest.rest else rest.rest.rest;
      i := i + skip;
      ind2 := ind2 + 1;
    }
    ok := true;
    NothingLeft(s, isArray, if isArray then ind - ind2 else ind, name);
  }

  lemma {:induction false} NothingLeft(s: string, isArray: bool, ind: int, name: string)
    ensures Pick(s, Nil, isArray, ind, name) == Nil
  {
  }

  /** The body of the outer loop: from the token at at to the child that the first part of the path names,
      and the length of that part. */
  method SelectPart(s: string, toks: seq<Token>, at: nat, path: string, ghost node: Forest)
    returns (ok: bool, childAt: nat, n: nat)
    requires node.Node? && Spans(s, node, 0, |s|) && Holds(toks, at, node) && path != ""
    ensures var part := FirstPart(path);
            var child := Child(s, node, path, part);
            && (ok <==> !part.NoPart? && child.Node?)
            && (ok ==> n == part.n && Holds(toks, childAt, child) && Spans(s, child, 0, |s|))
  {
    hide Holds, Spans, Pairs, Pick, Flatten, Size;
    NodeAt(s, toks, at, node);
    var ind: int, skip := -1, 2;
    childAt, ok := 0, false;
    n := PathPartLen(path);
    if path[0] == '[' {
      if toks[at].kind != ArrayToken {
        return;
      }
      var parsed;
      parsed, ind, n := ParseIndex(path);
      if !parsed {
        return;
      }
      skip := 1;
    } else if toks[at].kind != ObjectToken {
      return;
    }
    var count, i := toks[at].numDesc, 0;
    ok, i := SelectChild(s, toks, at + 1, count, path, ind, n, skip, node.kids);
    ChildIsPick(s, node, path, ind, n);
    if i == count {
      return false, 0, n;
    }
    childAt := at + 1 + i;
  }

  /** find_json_token on a table that starts with the tokens of t: the index of the token that the path leads
      to, or -1. */
  method FindJsonToken(s: string, toks: seq<Token>, path: string, ghost t: Forest) returns (found: int)
    requires t.Node? && Spans(s, t, 0, |s|) && Holds(toks, 0, t)
    ensures var target := Lookup(s, t, path);
            if target.Nil? then found == -1 else 0 <= found && Holds(toks, found, target)
  {
    hide Holds, Spans, Child;
    var rest, at: nat := path, 0;
    ghost var node := t;
    while rest != ""
      invariant node.Node? && Spans(s, node, 0, |s|) && Holds(toks, at, node)
      invariant Lookup(s, node, rest) == Lookup(s, t, path)
      decreases |rest|
    {
      ghost var child := Child(s, node, rest, FirstPart(rest));
      var ok, childAt, n := SelectPart(s, toks, at, rest, node);
      if !ok {
        return -1;
      }
      rest := rest[n..];
      if rest != "" && rest[0] == '.' {
        rest := rest[1..];
      }
      if rest == "" {
        return childAt;
      }
      at, node := childAt, child;
    }
    found := -1;
  }

  lemma {:induction false} NodeAt(s: string, toks: seq<Token>, at: nat, node: Forest)
    requires Holds(toks, at, node) && node.Node? && Spans(s, node, 0, |s|)
    ensures at < |toks| && toks[at].kind == node.kind && toks[at].numDesc == Size(node.kids)
    ensures IsContainer(node.kind) ==> Holds(toks, at + 1, node.kids) && Spans(s, node.kids, 0, |s|)
    ensures node.kind == ObjectToken ==> Pairs(node.kids)
  {
    HoldsParts(toks, at, node);
    if IsContainer(node.kind) {
      SpansWiden(s, node.kids, node.start + 1, node.end - 1, 0, |s|);
    }
  }

  lemma {:induction false} ChildIsPick(s: string, node: Forest, path: string, ind: int, n: nat)
    requires node.Node? && path != "" && n <= |path|
    requires FirstPart(path) == if path[0] == '[' then IndexPart(if ind < 0 then 0 else ind, n) else KeyPart(n)
    requires node.kind == if path[0] == '[' then ArrayToken else ObjectToken
    requires if path[0] == '[' then ind >= 0 else ind == -1
    ensures Child(s, node, path, FirstPart(path)) == Pick(s, node.kids, ind != -1, ind, path[..n])
  {
  }

  /** One step from a token to one of its children. */
  datatype Step = Element(index: nat) | Field(name: string)

  function Decimal(n: nat): (digits: string)
    ensures digits != "" && forall i :: 0 <= i < |digits| ==> IsDigit(digits[i])
    ensures Number(digits) == n
  {
    var last := [('0' as int + n % 10) as char];
    if n < 10 then
      assert last[..0] == "" && Number("") == 0;
      last
    else
      var front := Decimal(n / 10);
      assert (front + last)[..|front|] == front;
      front + last
  }

  /** The next digit, from the front. */
  lemma {:induction false} DecimalStep(n: nat)
    ensures Decimal(n)[|Decimal(n)| - 1] == "0123456789"[n % 10]
    ensures n >= 10 ==> Decimal(n)[..|Decimal(n)| - 1] == Decimal(n / 10)
    ensures n < 10 ==> |Decimal(n)| == 1
  {
    var digits := "0123456789";
    var d := n % 10;
    assert d == 0 || d == 1 || d == 2 || d == 3 || d == 4 || d == 5 || d == 6 || d == 7 || d == 8 || d == 9;
  }

  /** A name that can be written in a path. */
  predicate Writable(name: string) {
    name != "" && forall i :: 0 <= i < |name| ==> name[i] != '.' && name[i] != '['
  }

  ghost predicate AllWritable(steps: seq<Step>) {
    forall i :: 0 <= i < |steps| ==> steps[i].Field? ==> Writable(steps[i].name)
  }

  /** The steps written as a path: "a.b[3].c". */
  function PathText(steps: seq<Step>, atStart: bool): string {
    if steps == [] then ""
    else
      var first := match steps[0]
                   case Element(index) => "[" + Decimal(index) + "]"
                   case Field(name) => if atStart then name else "." + name;
      first + PathText(steps[1..], false)
  }

  /** Where the steps lead in the tree, or Nil. */
  function Follow(s: string, t: Forest, steps: seq<Step>): Forest
    decreases |steps|
  {
    if t.Nil? || steps == [] then t
    else
      match steps[0]
      case Element(index) => if t.kind == ArrayToken then Follow(s, ElementAt(t.kids, index), steps[1..]) else Nil
      case Field(name) => if t.kind == ObjectToken then Follow(s, Member(s, t.kids, name), steps[1..]) else Nil
  }

  lemma {:induction false} KeyLenIs(name: string, rest: string)
    requires forall i :: 0 <= i < |name| ==> name[i] != '.' && name[i] != '['
    requires rest == "" || rest[0] == '.' || rest[0] == '['
    ensures KeyLen(name + rest) == |name|
  {
    var n := KeyLen(name + rest);
    assert (name + rest)[|name|..] == rest;
  }

  lemma {:induction false} DigitsIs(digits: string, rest: string)
    requires forall i :: 0 <= i < |digits| ==> IsDigit(digits[i])
    ensures Digits("[" + digits + "]" + rest, 1) == |digits| + 1
  {
    var text := "[" + digits + "]" + rest;
    var m := Digits(text, 1);
    assert text[|digits| + 1] == ']';
    assert text[1..|digits| + 1] == digits;
  }

  /** The first part of a written path is its first step, and what follows it is the path of the others. */
  lemma {:induction false} FirstPartOf(steps: seq<Step>)
    requires steps != [] && AllWritable(steps)
    ensures var text := PathText(steps, true);
            && text != ""
            && FirstPart(text) == (match steps[0]
                                   case Element(index) => IndexPart(index, |Decimal(index)| + 2)
                                   case Field(name) => KeyPart(|name|))
            && (steps[0].Field? ==> text[..|steps[0].name|] == steps[0].name)
            && AfterDot(text[FirstPart(text).n..]) == PathText(steps[1..], true)
  {
    var text, rest := PathText(steps, true), PathText(steps[1..], false);
    if |steps| > 1 {
      assert steps[1..][0] == steps[1];
    }
    assert |steps| > 1 ==> AllWritable(steps[1..]);
    match steps[0]
    case Element(index) =>
      var digits := Decimal(index);
      DigitsIs(digits, rest);
      assert text == "[" + digits + "]" + rest;
      assert text[1] == digits[0] && text[1..|digits| + 1] == digits && text[|digits| + 1] == ']';
      assert text[|digits| + 2..] == rest;
      RestOf(steps[1..]);
    case Field(name) =>
      RestOf(steps[1..]);
      KeyLenIs(name, rest);
      assert text == name + rest && text[0] == name[0] && text[|name|..] == rest && text[..|name|] == name;
  }

  lemma {:induction false} RestOf(steps: seq<Step>)
    requires AllWritable(steps)
    ensures var rest := PathText(steps, false);
            (rest == "" || rest[0] == '.' || rest[0] == '[') && AfterDot(rest) == PathText(steps, true)
  {
    if steps != [] && steps[0].Field? {
      var name, tail := steps[0].name, PathText(steps[1..], false);
      assert ("." + name + tail)[1..] == name + tail;
    }
  }

  /** Looking a written path up is following its steps. */
  lemma {:induction false} LookupFollows(s: string, t: Forest, steps: seq<Step>)
    requires t.Node? && steps != [] && AllWritable(steps)
    ensures Lookup(s, t, PathText(steps, true)) == Follow(s, t, steps)
    decreases |steps|
  {
    hide Member, ElementAt, PathText, FirstPart, AfterDot;
    FirstPartOf(steps);
    var text := PathText(steps, true);
    var child := Child(s, t, text, FirstPart(text));
    PathEnds(steps[1..]);
    if child.Node? && |steps| > 1 {
      assert AllWritable(steps[1..]);
      LookupFollows(s, child, steps[1..]);
    }
  }

  lemma {:induction false} PathEnds(steps: seq<Step>)
    requires AllWritable(steps)
    ensures PathText(steps, true) == "" <==> steps == []
  {
    if steps != [] {
      FirstPartOf(steps);
    }
  }
}
