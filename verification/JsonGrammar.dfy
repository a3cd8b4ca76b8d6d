/** The texts that the JSON parser takes, as a function from the text to the tree of its tokens. */
module JsonGrammar {
  const INVALID := -1       // JSON_STRING_INVALID
  const INCOMPLETE := -2    // JSON_STRING_INCOMPLETE
  const TOO_SMALL := -3     // JSON_TOKEN_ARRAY_TOO_SMALL

  datatype Kind = EofToken | StringToken | NumberToken | ObjectToken | TrueToken | FalseToken | NullToken | ArrayToken

  /** A list of trees, as first child and next sibling. The children of an object are key, value, key, ... */
  datatype Forest = Nil | Node(kind: Kind, start: nat, end: nat, kids: Forest, rest: Forest)

  /** captured is the number of tokens begun before the error was found. */
  datatype Parse = Done(trees: Forest, next: nat) | Fail(code: int, captured: nat)

  datatype Scan = At(pos: nat) | Bad(code: int)

  function Size(f: Forest): nat {
    match f
    case Nil => 0
    case Node(_, _, _, kids, rest) => 1 + Size(kids) + Size(rest)
  }

  function Append(f: Forest, g: Forest): Forest {
    match f
    case Nil => g
    case Node(kind, start, end, kids, rest) => Node(kind, start, end, kids, Append(rest, g))
  }

  predicate IsSpace(c: char) {
    c == ' ' || c == '\t' || c == '\r' || c == '\n'
  }

  predicate IsAlpha(c: char) {
    'a' <= c <= 'z' || 'A' <= c <= 'Z'
  }

  predicate IsDigit(c: char) {
    '0' <= c <= '9'
  }

  predicate IsHexDigit(c: char) {
    IsDigit(c) || 'a' <= c <= 'f' || 'A' <= c <= 'F'
  }

  predicate IsNamePart(c: char) {
    c == '_' || IsAlpha(c) || IsDigit(c)
  }

  function Skip(s: string, p: nat): (q: nat)
    requires p <= |s|
    ensures p <= q <= |s| && (q < |s| ==> !IsSpace(s[q]))
    ensures (p == |s| || !IsSpace(s[p])) ==> q == p
    decreases |s| - p
  {
    if p < |s| && IsSpace(s[p]) then Skip(s, p + 1) else p
  }

  function Digits(s: string, p: nat): (q: nat)
    requires p <= |s|
    ensures p <= q <= |s| && (q < |s| ==> !IsDigit(s[q]))
    ensures forall i :: p <= i < q ==> IsDigit(s[i])
    decreases |s| - p
  {
    if p < |s| && IsDigit(s[p]) then Digits(s, p + 1) else p
  }

  function NameEnd(s: string, p: nat): (q: nat)
    requires p <= |s|
    ensures p <= q <= |s|
    ensures forall i :: p <= i < q ==> IsNamePart(s[i])
    decreases |s| - p
  {
    if p < |s| && IsNamePart(s[p]) then NameEnd(s, p + 1) else p
  }

  /** The bytes of a character, by its first byte. */
  function CharLen(c: char): (n: nat)
    ensures 1 <= n <= 4
  {
    if (c as int) < 0x80 then 1 else if (c as int) >= 0xf0 then 4 else if (c as int) >= 0xe0 then 3 else 2
  }

  /** What follows a backslash at p - 1; len bytes are left from there. Not positive for an error. */
  function EscapeLen(s: string, p: nat, len: int): (n: int)
    requires 0 < p < |s| && len == |s| - p + 1
    ensures n > 0 ==> p + n <= |s|
  {
    if s[p] == 'u' then
      if len < 6 then INCOMPLETE
      else if IsHexDigit(s[p + 1]) && IsHexDigit(s[p + 2]) && IsHexDigit(s[p + 3]) && IsHexDigit(s[p + 4]) then 5
      else INVALID
    else if s[p] in ['"', '\\', '/', 'b', 'f', 'n', 'r', 't'] then
      if len < 2 then INCOMPLETE else 1
    else INVALID
  }

  /** The closing quote. It must not be the last byte of the text. */
  function StringEnd(s: string, p: nat): (r: Scan)
    requires p <= |s|
    ensures r.At? ==> p <= r.pos < |s| && s[r.pos] == '"'
    ensures r.Bad? ==> r.code < 0
    decreases |s| - p
  {
    if p == |s| then Bad(INCOMPLETE)
    else if s[p] < ' ' then Bad(INVALID)
    else if CharLen(s[p]) >= |s| - p then Bad(INCOMPLETE)
    else if s[p] == '\\' then
      var n := EscapeLen(s, p + 1, |s| - p);
      if n > 0 then StringEnd(s, p + 1 + n) else Bad(n)
    else if s[p] == '"' then At(p)
    else StringEnd(s, p + CharLen(s[p]))
  }

  /** One or more digits. */
  function SomeDigits(s: string, p: nat): (r: Scan)
    requires p <= |s|
    ensures r.At? ==> p < r.pos <= |s|
    ensures r.Bad? ==> r.code < 0
  {
    if p == |s| then Bad(INCOMPLETE) else if !IsDigit(s[p]) then Bad(INVALID) else At(Digits(s, p))
  }

  function Fraction(s: string, p: nat): (r: Scan)
    requires p <= |s|
    ensures r.At? ==> p <= r.pos <= |s|
    ensures r.Bad? ==> r.code < 0
  {
    if p < |s| && s[p] == '.' then SomeDigits(s, p + 1) else At(p)
  }

  function Exponent(s: string, p: nat): (r: Scan)
    requires p <= |s|
    ensures r.At? ==> p <= r.pos <= |s|
    ensures r.Bad? ==> r.code < 0
  {
    if p < |s| && (s[p] == 'e' || s[p] == 'E') then
      if p + 1 == |s| then Bad(INCOMPLETE)
      else if s[p + 1] == '+' || s[p + 1] == '-' then SomeDigits(s, p + 2)
      else SomeDigits(s, p + 1)
    else At(p)
  }

  function NumberEnd(s: string, p: nat): (r: Scan)
    requires p < |s|
    ensures r.At? ==> p < r.pos <= |s|
    ensures r.Bad? ==> r.code < 0
  {
    var whole := SomeDigits(s, if s[p] == '-' then p + 1 else p);
    if whole.Bad? then whole
    else
      var fraction := Fraction(s, whole.pos);
      if fraction.Bad? then fraction else Exponent(s, fraction.pos)
  }

  /** The end of a word, or the first reason why it is not there. */
  function WordEnd(s: string, p: nat, word: string, i: nat): (r: Scan)
    requires i <= |word| && p + i <= |s|
    ensures r.At? ==> r.pos == p + |word| <= |s| && forall k :: i <= k < |word| ==> s[p + k] == word[k]
    ensures r.Bad? ==> r.code < 0
    decreases |word| - i
  {
    if i == |word| then At(p + |word|)
    else if p + i >= |s| then Bad(INCOMPLETE)
    else if s[p + i] != word[i] then Bad(INVALID)
    else WordEnd(s, p, word, i + 1)
  }

  function Leaf(kind: Kind, start: nat, end: Scan, after: nat): (r: Parse)
    ensures r.Done? ==> r.trees.Node? && r.trees.rest == Nil
  {
    match end
    case At(pos) => Done(Node(kind, start, pos, Nil, Nil), pos + after)
    case Bad(code) => Fail(code, 1)
  }

  function Close(kind: Kind): char {
    if kind == ObjectToken then '}' else ']'
  }

  function OptionalComma(s: string, p: nat): (q: nat)
    requires p <= |s|
    ensures p <= q <= |s|
  {
    var r := Skip(s, p);
    if r < |s| && s[r] == ',' then r + 1 else r
  }

  function Open(kind: Kind): char {
    if kind == ObjectToken then '{' else '['
  }

  ghost predicate Progress(r: Parse, s: string, p: nat) {
    (r.Done? ==> p < r.next <= |s|) && (r.Fail? ==> r.code < 0)
  }

  function Value(s: string, p: nat): (r: Parse)
    requires p <= |s|
    ensures Progress(r, s, p) && (r.Done? ==> r.trees.Node? && r.trees.rest == Nil)
    decreases |s| - p, 1
  {
    var q := Skip(s, p);
    if q == |s| then Fail(INCOMPLETE, 0)
    else if s[q] == '"' then Quoted(s, q)
    else if s[q] == '{' then Container(s, q, ObjectToken)
    else if s[q] == '[' then Container(s, q, ArrayToken)
    else if s[q] == 'n' then Leaf(NullToken, q, WordEnd(s, q, "null", 0), 0)
    else if s[q] == 't' then Leaf(TrueToken, q, WordEnd(s, q, "true", 0), 0)
    else if s[q] == 'f' then Leaf(FalseToken, q, WordEnd(s, q, "false", 0), 0)
    else if s[q] == '-' || IsDigit(s[q]) then Leaf(NumberToken, q, NumberEnd(s, q), 0)
    else Fail(INVALID, 0)
  }

  function Quoted(s: string, p: nat): (r: Parse)
    requires p <= |s|
    ensures Progress(r, s, p) && (r.Done? ==> r.trees.Node? && r.trees.rest == Nil)
  {
    var q := Skip(s, p);
    if q == |s| then Fail(INCOMPLETE, 0)
    else if s[q] != '"' then Fail(INVALID, 0)
    else Leaf(StringToken, q + 1, StringEnd(s, q + 1), 1)
  }

  /** An object or an array. */
  function Container(s: string, p: nat, kind: Kind): (r: Parse)
    requires p <= |s|
    ensures Progress(r, s, p) && (r.Done? ==> r.trees.Node? && r.trees.rest == Nil)
    decreases |s| - p, 0
  {
    var q := Skip(s, p);
    if q == |s| then Fail(INCOMPLETE, 0)
    else if s[q] != Open(kind) then Fail(INVALID, 0)
    else Bracketed(q, kind, Items(s, q + 1, kind))
  }

  function Bracketed(q: nat, kind: Kind, items: Parse): Parse {
    match items
    case Done(kids, z) => Done(Node(kind, q, z + 1, kids, Nil), z + 1)
    case Fail(code, captured) => Fail(code, 1 + captured)
  }

  /** Elements or members up to the closing bracket, where the result stops. Commas are optional. */
  function Items(s: string, p: nat, kind: Kind): (r: Parse)
    requires p <= |s|
    ensures r.Done? ==> p <= r.next < |s| && s[r.next] == Close(kind)
    ensures r.Fail? ==> r.code < 0
    decreases |s| - p, 3
  {
    var q := Skip(s, p);
    if q < |s| && s[q] == Close(kind) then Done(Nil, q)
    else
      var first := Item(s, q, kind);
      if first.Fail? then first else Prepend(first.trees, Items(s, OptionalComma(s, first.next), kind))
  }

  function Item(s: string, p: nat, kind: Kind): (r: Parse)
    requires p <= |s|
    ensures Progress(r, s, p)
    decreases |s| - p, 2
  {
    if kind == ObjectToken then Pair(s, p) else Value(s, p)
  }

  function Prepend(got: Forest, r: Parse): Parse {
    match r
    case Done(trees, next) => Done(Append(got, trees), next)
    case Fail(code, captured) => Fail(code, Size(got) + captured)
  }

  function Key(s: string, p: nat): (r: Parse)
    requires p <= |s|
    ensures Progress(r, s, p) && (r.Done? ==> r.trees.Node? && r.trees.rest == Nil)
  {
    var q := Skip(s, p);
    if q == |s| then Fail(INCOMPLETE, 0)
    else if IsAlpha(s[q]) then Leaf(StringToken, q, At(NameEnd(s, q)), 0)
    else if s[q] == '"' then Quoted(s, q)
    else Fail(INVALID, 0)
  }

  function Pair(s: string, p: nat): (r: Parse)
    requires p <= |s|
    ensures Progress(r, s, p)
    decreases |s| - p, 1
  {
    var key := Key(s, p);
    if key.Fail? then key
    else
      var c := Skip(s, key.next);
      if c == |s| then Fail(INCOMPLETE, Size(key.trees))
      else if s[c] != ':' then Fail(INVALID, Size(key.trees))
      else Prepend(key.trees, Value(s, c + 1))
  }

  /** A whole text: an object or an array; what follows it is not looked at. */
  function Document(s: string): (r: Parse)
    ensures Progress(r, s, 0) && (r.Done? ==> r.trees.Node? && r.trees.rest == Nil)
  {
    var q := Skip(s, 0);
    if q == |s| then Fail(INCOMPLETE, 0)
    else if s[q] == '{' then Container(s, q, ObjectToken)
    else if s[q] == '[' then Container(s, q, ArrayToken)
    else Fail(INVALID, 0)
  }
}
