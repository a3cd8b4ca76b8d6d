/** JSON values written as texts, with any white space: the parser takes every one of them, and a lookup by path
    finds in the token table what the same steps lead to in the value. */
module JsonTexts {
  import opened JsonGrammar
  import opened JsonTokens
  import opened JsonPath

  /** A value with the white space in it. Strings are as written between their quotes, escapes and all; numbers as
      written. A separator is white space with or without a comma behind it. */
  datatype Json =
    | Null | True | False | Num(text: string) | Str(raw: string)
    | Arr(items: Elements, end: string) | Obj(members: Members, end: string)
  datatype Elements = NoItems | ItemCons(before: string, head: Json, comma: string, tail: Elements)
  datatype Members =
    | NoMembers
    | MemberCons(before: string, key: Name, colon: string, between: string, value: Json, comma: string, tail: Members)

  /** Keys may be bare names. */
  datatype Name = QuotedName(raw: string) | BareName(name: string)

  function Write(v: Json): string {
    match v
    case Null => "null"
    case True => "true"
    case False => "false"
    case Num(text) => text
    case Str(raw) => "\"" + raw + "\""
    case Arr(items, end) => "[" + (WriteItems(items) + (end + "]"))
    case Obj(members, end) => "{" + (WriteMembers(members) + (end + "}"))
  }

  function WriteItems(items: Elements): string {
    match items
    case NoItems => ""
    case ItemCons(before, head, comma, tail) => before + (Write(head) + (comma + WriteItems(tail)))
  }

  function WriteName(key: Name): string {
    match key
    case QuotedName(raw) => "\"" + raw + "\""
    case BareName(name) => name
  }

  function WriteMembers(members: Members): string {
    match members
    case NoMembers => ""
    case MemberCons(before, key, colon, between, value, comma, tail) =>
      before + (WriteName(key) + (colon + (":" + (between + (Write(value) + (comma + WriteMembers(tail)))))))
  }

  /** White space: blanks, tabs, carriage returns and newlines. */
  predicate Blank(t: string) {
    forall i :: 0 <= i < |t| ==> t[i] == ' ' || t[i] == '\t' || t[i] == '\r' || t[i] == '\n'
  }

  predicate Separator(t: string) {
    Blank(t) || (t != "" && t[|t| - 1] == ',' && Blank(t[..|t| - 1]))
  }

  predicate DecimalDigit(c: char) { '0' <= c <= '9' }

  predicate HexDigit(c: char) { '0' <= c <= '9' || 'a' <= c <= 'f' || 'A' <= c <= 'F' }

  predicate Letter(c: char) { 'a' <= c <= 'z' || 'A' <= c <= 'Z' }

  /** A letter, and then letters, digits and underscores. */
  predicate NameText(t: string) {
    t != "" && Letter(t[0]) && forall i :: 0 <= i < |t| ==> Letter(t[i]) || DecimalDigit(t[i]) || t[i] == '_'
  }

  /** The bytes of a character in UTF-8, by its first one; stray continuation bytes count as two. */
  function Utf8Length(c: char): nat {
    if c < 128 as char then 1 else if c < 224 as char then 2 else if c < 240 as char then 3 else 4
  }

  /** What may stand between quotes: printable characters other than quote and backslash, of one or more bytes,
      and escapes. */
  predicate Quotable(t: string) {
    if t == "" then true
    else if t[0] == '\\' then
      |t| >= 2
      && (if t[1] == 'u' then
            |t| >= 6 && HexDigit(t[2]) && HexDigit(t[3]) && HexDigit(t[4]) && HexDigit(t[5]) && Quotable(t[6..])
          else t[1] in ['"', '\\', '/', 'b', 'f', 'n', 'r', 't'] && Quotable(t[2..]))
    else t[0] != '"' && t[0] >= 32 as char && |t| >= Utf8Length(t[0]) && Quotable(t[Utf8Length(t[0])..])
  }

  predicate AllDigits(t: string) {
    t != "" && forall i :: 0 <= i < |t| ==> DecimalDigit(t[i])
  }

  predicate FractionText(t: string) {
    t == "" || (t[0] == '.' && AllDigits(t[1..]))
  }

  predicate ExponentText(t: string) {
    || t == ""
    || ((t[0] == 'e' || t[0] == 'E')
        && (AllDigits(t[1..]) || (|t| > 1 && (t[1] == '+' || t[1] == '-') && AllDigits(t[2..]))))
  }

  /** [ - ] digits [ . digits ] [ e [ + or - ] digits ] */
  ghost predicate NumberText(t: string) {
    exists sign: string, whole: string, fraction: string, exponent: string ::
      IsNumber(t, sign, whole, fraction, exponent)
  }

  predicate IsNumber(t: string, sign: string, whole: string, fraction: string, exponent: string) {
    && t == sign + whole + fraction + exponent
    && (sign == "" || sign == "-") && AllDigits(whole) && FractionText(fraction) && ExponentText(exponent)
  }

  /** c does not go on with the number in front of it: no digit, and no point or exponent where that could follow. */
  predicate Stops(text: string, c: char) {
    && !DecimalDigit(c)
    && ('e' !in text && 'E' !in text ==> c != 'e' && c != 'E' && ('.' !in text ==> c != '.'))
  }

  /** What follows a value does not go on with it. */
  predicate Apart(v: Json, after: string) {
    v.Num? ==> after != "" && Stops(v.text, after[0])
  }

  ghost predicate Proper(v: Json) {
    match v
    case Num(text) => NumberText(text)
    case Str(raw) => Quotable(raw)
    case Arr(items, end) => Blank(end) && ProperItems(items, end + "]")
    case Obj(members, end) => Blank(end) && ProperMembers(members, end + "}")
    case _ => true
  }

  ghost predicate ProperItems(items: Elements, close: string) {
    items.ItemCons? ==>
      && Blank(items.before) && Proper(items.head) && Separator(items.comma) && ProperItems(items.tail, close)
      && Apart(items.head, items.comma + (WriteItems(items.tail) + close))
  }

  predicate ProperName(key: Name) {
    match key
    case QuotedName(raw) => Quotable(raw)
    case BareName(name) => NameText(name)
  }

  ghost predicate ProperMembers(members: Members, close: string) {
    members.MemberCons? ==>
      && Blank(members.before) && ProperName(members.key) && Blank(members.colon) && Blank(members.between)
      && Proper(members.value) && Separator(members.comma) && ProperMembers(members.tail, close)
      && Apart(members.value, members.comma + (WriteMembers(members.tail) + close))
  }

  function KindOf(v: Json): Kind {
    match v
    case Null => NullToken
    case True => TrueToken
    case False => FalseToken
    case Num(_) => NumberToken
    case Str(_) => StringToken
    case Arr(_, _) => ArrayToken
    case Obj(_, _) => ObjectToken
  }

  /** The tree of tokens of a value that is written at p. */
  function TreeOf(v: Json, p: nat): Forest {
    match v
    case Str(raw) => Node(StringToken, p + 1, p + 1 + |raw|, Nil, Nil)
    case Arr(items, _) => Node(ArrayToken, p, p + |Write(v)|, TreesOf(items, p + 1), Nil)
    case Obj(members, _) => Node(ObjectToken, p, p + |Write(v)|, TreesOfMembers(members, p + 1), Nil)
    case _ => Node(KindOf(v), p, p + |Write(v)|, Nil, Nil)
  }

  function TreesOf(items: Elements, p: nat): Forest {
    match items
    case NoItems => Nil
    case ItemCons(before, head, comma, tail) =>
      var h := p + |before|;
      Append(TreeOf(head, h), TreesOf(tail, h + |Write(head)| + |comma|))
  }

  /** The text of the token of a key. */
  function Label(key: Name): string {
    if key.QuotedName? then key.raw else key.name
  }

  function KeyNode(key: Name, k: nat): Forest {
    var start := if key.QuotedName? then k + 1 else k;
    Node(StringToken, start, start + |Label(key)|, Nil, Nil)
  }

  /** Where the value of a member is, when its key is at k, and where the next member is. */
  function ValueAt(members: Members, k: nat): nat
    requires members.MemberCons?
  {
    k + |WriteName(members.key)| + |members.colon| + 1 + |members.between|
  }

  function TreesOfMembers(members: Members, p: nat): Forest {
    match members
    case NoMembers => Nil
    case MemberCons(before, key, colon, between, value, comma, tail) =>
      var k := p + |before|;
      var v := ValueAt(members, k);
      Append(KeyNode(key, k), Append(TreeOf(value, v), TreesOfMembers(tail, v + |Write(value)| + |comma|)))
  }

  /** The text t is at position p of s. */
  predicate Occurs(s: string, p: nat, t: string) {
    p + |t| <= |s| && s[p..p + |t|] == t
  }

  lemma {:induction false} AtParts(s: string, p: nat, a: string, b: string)
    requires Occurs(s, p, a + b)
    ensures Occurs(s, p, a) && Occurs(s, p + |a|, b)
  {
    var t := s[p..p + |a + b|];
    assert t[..|a|] == a && t[|a|..] == b;
    assert s[p..p + |a|] == t[..|a|] && s[p + |a|..p + |a| + |b|] == t[|a|..];
  }

  lemma {:induction false} FourParts(s: string, p: nat, a: string, b: string, c: string, d: string)
    requires Occurs(s, p, a + b + c + d)
    ensures Occurs(s, p, a) && Occurs(s, p + |a|, b) && Occurs(s, p + |a| + |b|, c) && Occurs(s, p + |a| + |b| + |c|, d)
    ensures |a + b + c + d| == |a| + |b| + |c| + |d|
  {
    hide Occurs;
    AtParts(s, p, a + b + c, d);
    AtParts(s, p, a + b, c);
    AtParts(s, p, a, b);
  }

  lemma {:induction false} AtChar(s: string, p: nat, t: string, i: nat)
    requires Occurs(s, p, t) && i < |t|
    ensures p + i < |s| && s[p + i] == t[i]
  {
    assert s[p..p + |t|][i] == t[i];
  }

  /** A quotable text is read up to the quote behind it, which must not be the last character. */
  lemma {:induction false} StringRead(s: string, p: nat, t: string)
    requires Quotable(t) && Occurs(s, p, t) && p + |t| + 1 < |s| && s[p + |t|] == '"'
    ensures StringEnd(s, p) == At(p + |t|)
    decreases |t|
  {
    hide Occurs, StringEnd, Quotable;
    if t == "" {
      QuoteEnds(s, p);
    } else {
      var n := FirstLength(t);
      FirstRead(s, p, t);
      assert t == t[..n] + t[n..];
      AtParts(s, p, t[..n], t[n..]);
      StringRead(s, p + n, t[n..]);
    }
  }

  lemma {:induction false} QuoteEnds(s: string, p: nat)
    requires p + 1 < |s| && s[p] == '"'
    ensures StringEnd(s, p) == At(p)
  {
    assert CharLen('"') == 1;
  }

  /** The length of the first character or escape. */
  function FirstLength(t: string): (n: nat)
    requires t != "" && Quotable(t)
    ensures 0 < n <= |t| && Quotable(t[n..])
  {
    if t[0] != '\\' then Utf8Length(t[0]) else if t[1] == 'u' then 6 else 2
  }

  lemma {:induction false} FirstRead(s: string, p: nat, t: string)
    requires t != "" && Quotable(t) && Occurs(s, p, t) && p + |t| + 1 < |s|
    ensures StringEnd(s, p) == StringEnd(s, p + FirstLength(t))
  {
    hide Occurs;
    AtChar(s, p, t, 0);
    if t[0] == '\\' {
      AtChar(s, p, t, 1);
      if t[1] == 'u' {
        AtChar(s, p, t, 2);
        AtChar(s, p, t, 3);
        AtChar(s, p, t, 4);
        AtChar(s, p, t, 5);
      }
    }
  }

  lemma {:induction false} DigitsRead(s: string, p: nat, t: string)
    requires (forall i :: 0 <= i < |t| ==> DecimalDigit(t[i])) && Occurs(s, p, t)
    requires p + |t| < |s| ==> !DecimalDigit(s[p + |t|])
    ensures Digits(s, p) == p + |t|
    decreases |t|
  {
    if t != "" {
      AtChar(s, p, t, 0);
      assert t == t[..1] + t[1..];
      AtParts(s, p, t[..1], t[1..]);
      DigitsRead(s, p + 1, t[1..]);
    }
  }

  lemma {:induction false} SomeDigitsRead(s: string, p: nat, t: string)
    requires AllDigits(t) && Occurs(s, p, t) && (p + |t| < |s| ==> !DecimalDigit(s[p + |t|]))
    ensures SomeDigits(s, p) == At(p + |t|)
  {
    AtChar(s, p, t, 0);
    DigitsRead(s, p, t);
  }

  /** A number text is read to its end. */
  lemma {:induction false} NumberRead(s: string, p: nat, t: string)
    requires NumberText(t) && Occurs(s, p, t) && p + |t| < |s| && Stops(t, s[p + |t|])
    ensures NumberEnd(s, p) == At(p + |t|) && (s[p] == '-' || DecimalDigit(s[p]))
  {
    var sign, whole, fraction, exponent :| IsNumber(t, sign, whole, fraction, exponent);
    NumberParts(s, p, sign, whole, fraction, exponent);
  }

  /** A number without an exponent has no e in it, and one without a fraction either has no point. */
  lemma {:induction false} NumberChars(t: string, sign: string, whole: string, fraction: string, exponent: string)
    requires IsNumber(t, sign, whole, fraction, exponent)
    ensures exponent == "" ==> 'e' !in t && 'E' !in t
    ensures exponent == "" && fraction == "" ==> '.' !in t
  {
    if exponent == "" {
      forall i | 0 <= i < |t|
        ensures t[i] != 'e' && t[i] != 'E' && (fraction == "" ==> t[i] != '.')
      {
        assert t == sign + (whole + fraction);
        if |sign| <= i {
          assert t[i] == (whole + fraction)[i - |sign|];
          assert i - |sign| > |whole| ==> (whole + fraction)[i - |sign|] == fraction[1..][i - |sign| - |whole| - 1];
        }
      }
    }
  }

  lemma {:induction false} NumberParts(s: string, p: nat, sign: string, whole: string, fraction: string,
                                       exponent: string)
    requires var t := sign + whole + fraction + exponent;
             && IsNumber(t, sign, whole, fraction, exponent) && Occurs(s, p, t)
             && p + |t| < |s| && Stops(t, s[p + |t|])
    ensures NumberEnd(s, p) == At(p + |sign + whole + fraction + exponent|)
    ensures s[p] == '-' || DecimalDigit(s[p])
  {
    hide SomeDigits, Fraction, Exponent, AllDigits, FractionText, ExponentText, Occurs;
    var a := p + |sign|;
    var b := a + |whole|;
    var c := b + |fraction|;
    NumberChars(sign + whole + fraction + exponent, sign, whole, fraction, exponent);
    FourParts(s, p, sign, whole, fraction, exponent);
    Starts(s, a, whole, b, fraction, c, exponent);
    if sign != "" {
      AtChar(s, p, sign, 0);
    }
    SomeDigitsRead(s, a, whole);
    FractionRead(s, b, fraction);
    ExponentRead(s, c, exponent);
  }

  /** The first characters of the parts of a number. */
  lemma {:induction false} Starts(s: string, a: nat, whole: string, b: nat, fraction: string, c: nat, exponent: string)
    requires Occurs(s, a, whole) && Occurs(s, b, fraction) && Occurs(s, c, exponent)
    requires b == a + |whole| && c == b + |fraction| && c + |exponent| < |s| && !DecimalDigit(s[c + |exponent|])
    requires exponent == "" && fraction == "" ==> s[c] != '.'
    requires AllDigits(whole) && FractionText(fraction) && ExponentText(exponent)
    ensures DecimalDigit(s[a]) && a < b && !DecimalDigit(s[b]) && !DecimalDigit(s[c])
            && (fraction == "" ==> s[c] != '.')
  {
    AtChar(s, a, whole, 0);
    if exponent != "" {
      AtChar(s, c, exponent, 0);
    }
    if fraction != "" {
      AtChar(s, b, fraction, 0);
    }
  }

  lemma {:induction false} FractionRead(s: string, p: nat, t: string)
    requires Occurs(s, p, t) && FractionText(t)
    requires p + |t| < |s| && !DecimalDigit(s[p + |t|]) && (t == "" ==> s[p] != '.')
    ensures Fraction(s, p) == At(p + |t|)
  {
    if t != "" {
      AtChar(s, p, t, 0);
      assert t == t[..1] + t[1..];
      AtParts(s, p, t[..1], t[1..]);
      SomeDigitsRead(s, p + 1, t[1..]);
    }
  }

  lemma {:induction false} ExponentRead(s: string, p: nat, t: string)
    requires Occurs(s, p, t) && p + |t| < |s| && !DecimalDigit(s[p + |t|])
    requires t == "" ==> s[p] != 'e' && s[p] != 'E'
    requires ExponentText(t)
    ensures Exponent(s, p) == At(p + |t|)
  {
    if t != "" {
      AtChar(s, p, t, 0);
      var n := if AllDigits(t[1..]) then 1 else 2;
      if |t| > 1 {
        AtChar(s, p, t, 1);
        assert t[1..][0] == t[1];
      }
      assert t == t[..n] + t[n..];
      AtParts(s, p, t[..n], t[n..]);
      SomeDigitsRead(s, p + n, t[n..]);
    }
  }

  // ---------------------------------------------------------------------------------------------
  // White space and separators

  lemma {:induction false} BlankRead(s: string, p: nat, t: string)
    requires Blank(t) && Occurs(s, p, t)
    ensures Skip(s, p) == Skip(s, p + |t|)
    decreases |t|
  {
    if t != "" {
      AtChar(s, p, t, 0);
      assert t == t[..1] + t[1..];
      AtParts(s, p, t[..1], t[1..]);
      BlankRead(s, p + 1, t[1..]);
    }
  }

  /** Parsing starts behind white space. */
  lemma {:induction false} FromSkip(s: string, p: nat, kind: Kind)
    requires p <= |s|
    ensures Skip(s, Skip(s, p)) == Skip(s, p)
    ensures Items(s, p, kind) == Items(s, Skip(s, p), kind) && Value(s, p) == Value(s, Skip(s, p))
  {
    hide Item, Quoted, Container, NumberEnd, WordEnd, OptionalComma;
  }

  /** A separator is read up to where the items go on, when no comma follows. */
  lemma {:induction false} SeparatorRead(s: string, q: nat, comma: string, kind: Kind)
    requires Separator(comma) && Occurs(s, q, comma)
    requires var r := Skip(s, q + |comma|); r < |s| && s[r] != ','
    ensures Items(s, OptionalComma(s, q), kind) == Items(s, q + |comma|, kind)
  {
    hide Items, Occurs;
    if Blank(comma) {
      BlankRead(s, q, comma);
    } else {
      var front := comma[..|comma| - 1];
      assert comma == front + ",";
      AtParts(s, q, front, ",");
      AtChar(s, q + |front|, ",", 0);
      BlankRead(s, q, front);
    }
    FromSkip(s, q + |comma|, kind);
  }

  /** The characters that values start with. */
  predicate Opens(c: char) {
    c == '"' || c == '[' || c == '{' || c == 'n' || c == 't' || c == 'f' || c == '-' || DecimalDigit(c)
  }

  lemma {:induction false} FirstChar(v: Json)
    requires Proper(v)
    ensures Write(v) != "" && Opens(Write(v)[0])
  {
    if v.Num? {
      var sign, whole, fraction, exponent :| IsNumber(v.text, sign, whole, fraction, exponent);
      assert v.text[0] == if sign == "" then whole[0] else sign[0];
    }
  }

  lemma {:induction false} WordRead(s: string, p: nat, word: string, i: nat)
    requires Occurs(s, p, word) && i <= |word|
    ensures WordEnd(s, p, word, i) == At(p + |word|)
    decreases |word| - i
  {
    if i < |word| {
      AtChar(s, p, word, i);
      WordRead(s, p, word, i + 1);
    }
  }

  /** A string between its quotes. */
  lemma {:induction false} QuotedRead(s: string, p: nat, raw: string)
    requires Quotable(raw) && Occurs(s, p, "\"" + raw + "\"") && p + |raw| + 2 < |s|
    ensures s[p] == '"' && Quoted(s, p) == Done(Node(StringToken, p + 1, p + 1 + |raw|, Nil, Nil), p + |raw| + 2)
  {
    hide Quotable, Occurs;
    AtParts(s, p, "\"" + raw, "\"");
    AtParts(s, p, "\"", raw);
    AtChar(s, p, "\"", 0);
    AtChar(s, p + 1 + |raw|, "\"", 0);
    StringRead(s, p + 1, raw);
  }

  /** A value is read as its tree when what follows does not go on with it. */
  lemma {:induction false} ValueRead(s: string, p: nat, v: Json)
    requires Proper(v) && Occurs(s, p, Write(v)) && p + |Write(v)| < |s|
    requires v.Num? ==> Stops(v.text, s[p + |Write(v)|])
    ensures Value(s, p) == Done(TreeOf(v, p), p + |Write(v)|)
    ensures Skip(s, p) == p && Opens(s[p])
    decreases v, 1
  {
    hide Occurs, Quotable, NumberText, Items, NumberEnd, WordEnd, Quoted, Container;
    FirstChar(v);
    AtChar(s, p, Write(v), 0);
    match v
    case Null =>
      WordRead(s, p, "null", 0);
    case True =>
      WordRead(s, p, "true", 0);
    case False =>
      WordRead(s, p, "false", 0);
    case Num(text) =>
      NumberRead(s, p, text);
    case Str(raw) =>
      QuotedRead(s, p, raw);
    case Arr(_, _) =>
      ContainerRead(s, p, v);
    case Obj(_, _) =>
      ContainerRead(s, p, v);
  }

  /** An array or object is read as its tree whatever follows. */
  lemma {:induction false} ContainerRead(s: string, p: nat, v: Json)
    requires Proper(v) && Occurs(s, p, Write(v)) && (v.Arr? || v.Obj?)
    ensures p < |s| && s[p] == Open(KindOf(v)) && Skip(s, p) == p
    ensures Container(s, p, KindOf(v)) == Done(TreeOf(v, p), p + |Write(v)|)
    decreases v, 0
  {
    hide Occurs, Items, TreesOf, TreesOfMembers, WriteItems, WriteMembers;
    AtChar(s, p, Write(v), 0);
    match v
    case Arr(items, end) =>
      AtParts(s, p, "[", WriteItems(items) + (end + "]"));
      ItemsRead(s, p + 1, items, end);
    case Obj(members, end) =>
      AtParts(s, p, "{", WriteMembers(members) + (end + "}"));
      MembersRead(s, p + 1, members, end);
  }

  /** One item in front of the others. */
  lemma {:induction false} ItemFirst(s: string, p: nat, kind: Kind, first: Forest, next: nat, more: nat, others: Forest,
                                     z: nat)
    requires p <= |s| && next <= |s| && more <= |s|
    requires var h := Skip(s, p); h < |s| && s[h] != Close(kind) && Item(s, h, kind) == Done(first, next)
    requires Items(s, OptionalComma(s, next), kind) == Items(s, more, kind) == Done(others, z)
    ensures Items(s, p, kind) == Done(Append(first, others), z)
  {
    hide Item, OptionalComma;
  }

  /** The closing bracket behind white space. */
  lemma {:induction false} EndRead(s: string, p: nat, end: string, kind: Kind)
    requires Blank(end) && Occurs(s, p, end + [Close(kind)]) && (kind == ArrayToken || kind == ObjectToken)
    ensures Skip(s, p) == p + |end| < |s| && s[p + |end|] == Close(kind)
    ensures Items(s, p, kind) == Done(Nil, p + |end|)
  {
    AtParts(s, p, end, [Close(kind)]);
    AtChar(s, p + |end|, [Close(kind)], 0);
    BlankRead(s, p, end);
  }

  /** The parts of a list of items and where they are. */
  lemma {:induction false} ItemsAt(s: string, p: nat, items: Elements, close: string)
    requires items.ItemCons? && Occurs(s, p, WriteItems(items) + close)
    ensures var h := p + |items.before|;
            var q := h + |Write(items.head)|;
            && Occurs(s, p, items.before) && Occurs(s, h, Write(items.head)) && Occurs(s, q, items.comma)
            && Occurs(s, q, items.comma + (WriteItems(items.tail) + close))
            && Occurs(s, q + |items.comma|, WriteItems(items.tail) + close)
            && |WriteItems(items)| == |items.before| + |Write(items.head)| + |items.comma| + |WriteItems(items.tail)|
  {
    hide Occurs, Write;
    var rest := WriteItems(items.tail) + close;
    var h := p + |items.before|;
    assert WriteItems(items) + close == items.before + (Write(items.head) + (items.comma + rest));
    AtParts(s, p, items.before, Write(items.head) + (items.comma + rest));
    AtParts(s, h, Write(items.head), items.comma + rest);
    AtParts(s, h + |Write(items.head)|, items.comma, rest);
  }

  lemma {:induction false} ItemsRead(s: string, p: nat, items: Elements, end: string)
    requires Blank(end) && ProperItems(items, end + "]") && Occurs(s, p, WriteItems(items) + (end + "]"))
    ensures Items(s, p, ArrayToken) == Done(TreesOf(items, p), p + |WriteItems(items)| + |end|)
    ensures var r := Skip(s, p); r < |s| && s[r] != ','
    decreases items, 0
  {
    hide Occurs, Value, Write, TreeOf, Append, OptionalComma, Skip, Items, Separator, Blank;
    if items.NoItems? {
      assert WriteItems(items) + (end + "]") == end + "]";
      EndRead(s, p, end, ArrayToken);
    } else {
      var h := p + |items.before|;
      var q := h + |Write(items.head)|;
      ItemsAt(s, p, items, end + "]");
      BlankRead(s, p, items.before);
      AtChar(s, q, items.comma + (WriteItems(items.tail) + (end + "]")), 0);
      ValueRead(s, h, items.head);
      ItemsRead(s, q + |items.comma|, items.tail, end);
      SeparatorRead(s, q, items.comma, ArrayToken);
      ItemFirst(s, p, ArrayToken, TreeOf(items.head, h), q, q + |items.comma|, TreesOf(items.tail, q + |items.comma|),
                p + |WriteItems(items)| + |end|);
    }
  }

  /** The parts of a list of members and where they are. */
  lemma {:induction false} MembersAt(s: string, p: nat, members: Members, close: string)
    requires members.MemberCons? && Occurs(s, p, WriteMembers(members) + close)
    ensures var k := p + |members.before|;
            var c := k + |WriteName(members.key)|;
            var v := ValueAt(members, k);
            var q := v + |Write(members.value)|;
            && Occurs(s, p, members.before) && Occurs(s, k, WriteName(members.key)) && Occurs(s, c, members.colon)
            && Occurs(s, c + |members.colon|, ":") && Occurs(s, c + |members.colon| + 1, members.between)
            && Occurs(s, v, Write(members.value)) && Occurs(s, q, members.comma)
            && Occurs(s, q, members.comma + (WriteMembers(members.tail) + close))
            && Occurs(s, q + |members.comma|, WriteMembers(members.tail) + close)
            && p + |WriteMembers(members)| == q + |members.comma| + |WriteMembers(members.tail)|
  {
    hide Occurs, Write, WriteName;
    var k, rest := p + |members.before|, WriteMembers(members.tail) + close;
    var value := Write(members.value) + (members.comma + rest);
    var key := WriteName(members.key) + (members.colon + (":" + (members.between + value)));
    MembersText(members, close);
    AtParts(s, p, members.before, key);
    KeyAt(s, k, WriteName(members.key), members.colon, members.between, value);
    AtParts(s, ValueAt(members, k), Write(members.value), members.comma + rest);
    AtParts(s, ValueAt(members, k) + |Write(members.value)|, members.comma, rest);
  }

  lemma {:induction false} MembersText(members: Members, close: string)
    requires members.MemberCons?
    ensures var rest := WriteMembers(members.tail) + close;
            WriteMembers(members) + close ==
              members.before + (WriteName(members.key) + (members.colon + (":" + (members.between +
                (Write(members.value) + (members.comma + rest))))))
    ensures |WriteMembers(members)| == |members.before| + |WriteName(members.key)| + |members.colon| + 1
                                       + |members.between| + |Write(members.value)| + |members.comma|
                                       + |WriteMembers(members.tail)|
  {
    hide Write, WriteName;
    var all, tail := WriteMembers(members), WriteMembers(members.tail);
    var e := members.comma + tail;
    Reassociate(members.comma, tail, close);
    Reassociate(Write(members.value), e, close);
    Reassociate(members.between, Write(members.value) + e, close);
    Reassociate(":", members.between + (Write(members.value) + e), close);
    Reassociate(members.colon, ":" + (members.between + (Write(members.value) + e)), close);
    Reassociate(WriteName(members.key), members.colon + (":" + (members.between + (Write(members.value) + e))), close);
    Reassociate(members.before,
                WriteName(members.key) + (members.colon + (":" + (members.between + (Write(members.value) + e)))),
                close);
  }

  lemma {:induction false} Reassociate(a: string, b: string, c: string)
    ensures (a + b) + c == a + (b + c)
  {
  }

  lemma {:induction false} KeyAt(s: string, k: nat, key: string, colon: string, between: string, value: string)
    requires Occurs(s, k, key + (colon + (":" + (between + value))))
    ensures var c := k + |key| + |colon|;
            && Occurs(s, k, key) && Occurs(s, k + |key|, colon) && Occurs(s, c, ":") && Occurs(s, c + 1, between)
            && Occurs(s, c + 1 + |between|, value)
  {
    hide Occurs;
    var c := k + |key| + |colon|;
    AtParts(s, k, key, colon + (":" + (between + value)));
    AtParts(s, k + |key|, colon, ":" + (between + value));
    AtParts(s, c, ":", between + value);
    AtParts(s, c + 1, between, value);
  }

  lemma {:induction false} NameRead(s: string, k: nat, name: string)
    requires (forall i :: 0 <= i < |name| ==> Letter(name[i]) || DecimalDigit(name[i]) || name[i] == '_')
    requires Occurs(s, k, name) && k + |name| < |s| && !IsNamePart(s[k + |name|])
    ensures NameEnd(s, k) == k + |name|
    decreases |name|
  {
    if name != "" {
      AtChar(s, k, name, 0);
      assert name == name[..1] + name[1..];
      AtParts(s, k, name[..1], name[1..]);
      NameRead(s, k + 1, name[1..]);
    }
  }

  /** A key and the colon behind it. */
  lemma {:induction false} KeyRead(s: string, k: nat, key: Name, colon: string)
    requires ProperName(key) && Blank(colon) && Occurs(s, k, WriteName(key))
    requires var c := k + |WriteName(key)|; Occurs(s, c, colon) && Occurs(s, c + |colon|, ":")
    ensures Skip(s, k) == k < |s| && s[k] != ',' && s[k] != '}'
    ensures Key(s, k) == Done(KeyNode(key, k), k + |WriteName(key)|)
    ensures var c := k + |WriteName(key)| + |colon|; Skip(s, k + |WriteName(key)|) == c < |s| && s[c] == ':'
  {
    hide Occurs, Quotable, NameEnd, Quoted;
    var c := k + |WriteName(key)|;
    AtChar(s, c + |colon|, ":", 0);
    BlankRead(s, c, colon);
    if colon != "" {
      AtChar(s, c, colon, 0);
    }
    match key
    case QuotedName(raw) =>
      QuotedRead(s, k, raw);
    case BareName(name) =>
      AtChar(s, k, name, 0);
      NameRead(s, k, name);
  }

  lemma {:induction false} PairRead(s: string, k: nat, key: Forest, next: nat, c: nat, between: string, v: nat,
                                    value: Forest, q: nat)
    requires k <= |s| && next <= |s| && Key(s, k) == Done(key, next) && Skip(s, next) == c < |s| && s[c] == ':'
    requires Blank(between) && Occurs(s, c + 1, between) && v == c + 1 + |between| && v <= |s|
    requires Value(s, v) == Done(value, q)
    ensures Pair(s, k) == Done(Append(key, value), q)
  {
    hide Key, Value, Occurs;
    BlankRead(s, c + 1, between);
    FromSkip(s, c + 1, ObjectToken);
    FromSkip(s, v, ObjectToken);
  }

  lemma {:induction false} MembersRead(s: string, p: nat, members: Members, end: string)
    requires Blank(end) && ProperMembers(members, end + "}") && Occurs(s, p, WriteMembers(members) + (end + "}"))
    ensures Items(s, p, ObjectToken) == Done(TreesOfMembers(members, p), p + |WriteMembers(members)| + |end|)
    ensures var r := Skip(s, p); r < |s| && s[r] != ','
    decreases members, 1
  {
    hide Occurs, Items, Skip, WriteMembers, ProperMembers;
    if members.NoMembers? {
      assert WriteMembers(members) == "" by { NoMembersText(); }
      assert WriteMembers(members) + (end + "}") == end + "}";
      EndRead(s, p, end, ObjectToken);
    } else {
      FirstMemberRead(s, p, members, end);
    }
  }

  lemma {:induction false} NoMembersText()
    ensures WriteMembers(NoMembers) == ""
  {
  }

  lemma {:induction false} FirstMemberRead(s: string, p: nat, members: Members, end: string)
    requires members.MemberCons? && Blank(end) && ProperMembers(members, end + "}")
    requires Occurs(s, p, WriteMembers(members) + (end + "}"))
    ensures Items(s, p, ObjectToken) == Done(TreesOfMembers(members, p), p + |WriteMembers(members)| + |end|)
    ensures var r := Skip(s, p); r < |s| && s[r] != ','
    decreases members, 0
  {
    hide Occurs, Value, Pair, Key, Write, WriteName, WriteMembers, TreeOf, Append, OptionalComma, Skip, Items,
      Separator, Blank, KeyNode;
    var k := p + |members.before|;
    var c := k + |WriteName(members.key)| + |members.colon|;
    var v := ValueAt(members, k);
    var q := v + |Write(members.value)|;
    MembersAt(s, p, members, end + "}");
    BlankRead(s, p, members.before);
    AtChar(s, q, members.comma + (WriteMembers(members.tail) + (end + "}")), 0);
    KeyRead(s, k, members.key, members.colon);
    ValueRead(s, v, members.value);
    PairRead(s, k, KeyNode(members.key, k), k + |WriteName(members.key)|, c, members.between, v,
        TreeOf(members.value, v), q);
    MembersRead(s, q + |members.comma|, members.tail, end);
    SeparatorRead(s, q, members.comma, ObjectToken);
    var others := TreesOfMembers(members.tail, q + |members.comma|);
    AppendAssociates(KeyNode(members.key, k), TreeOf(members.value, v), others);
    ItemFirst(s, p, ObjectToken, Append(KeyNode(members.key, k), TreeOf(members.value, v)), q, q + |members.comma|,
              others, p + |WriteMembers(members)| + |end|);
  }

  /** The parser takes every array or object that is written so, with white space before and anything behind it. */
  lemma {:induction false} DocumentRead(lead: string, v: Json, after: string)
    requires Blank(lead) && Proper(v) && (v.Arr? || v.Obj?)
    ensures Document(lead + Write(v) + after) == Done(TreeOf(v, |lead|), |lead| + |Write(v)|)
  {
    hide Container, Occurs;
    var s := lead + Write(v) + after;
    WrittenAt(lead, Write(v), after);
    BlankRead(s, 0, lead);
    ContainerRead(s, |lead|, v);
  }

  lemma {:induction false} WrittenAt(lead: string, text: string, after: string)
    ensures Occurs(lead + text + after, 0, lead) && Occurs(lead + text + after, |lead|, text)
  {
  }

  datatype Selected = Missing | Found(value: Json)

  function Nth(items: Elements, i: nat): Selected {
    match items
    case NoItems => Missing
    case ItemCons(_, head, _, tail) => if i == 0 then Found(head) else Nth(tail, i - 1)
  }

  /** The value of the first member whose key is written like this. */
  function FirstNamed(members: Members, name: string): Selected {
    match members
    case NoMembers => Missing
    case MemberCons(_, key, _, _, value, _, tail) => if Label(key) == name then Found(value) else FirstNamed(tail, name)
  }

  /** Where the steps lead in the value itself. */
  function Select(v: Json, steps: seq<Step>): Selected
    decreases |steps|
  {
    if steps == [] then Found(v)
    else
      var child := ChildOf(v, steps[0]);
      if child.Missing? then Missing else Select(child.value, steps[1..])
  }

  /** The text of the token for a value. */
  function TokenText(v: Json): string {
    if v.Str? then v.raw else Write(v)
  }

  /** The tree found, if any, is the one for the value found. */
  ghost predicate Agrees(s: string, found: Forest, selected: Selected) {
    match selected
    case Missing => found.Nil?
    case Found(v) => found.Node? && found.kind == KindOf(v) && Text(s, found.start, found.end) == TokenText(v)
  }

  lemma {:induction false} SkipTree(v: Json, p: nat, g: Forest)
    ensures var t := Append(TreeOf(v, p), g);
            t.Node? && t.rest == g && t.kind == KindOf(v) && t.kids == TreeOf(v, p).kids
    ensures var t := Append(TreeOf(v, p), g); t.start == TreeOf(v, p).start && t.end == TreeOf(v, p).end
  {
  }

  lemma {:induction false} ElementFound(s: string, p: nat, items: Elements, close: string, i: nat)
    returns (q: nat, g: Forest)
    requires ProperItems(items, close) && Occurs(s, p, WriteItems(items) + close)
    ensures match Nth(items, i)
            case Missing => ElementAt(TreesOf(items, p), i).Nil?
            case Found(w) =>
              ElementAt(TreesOf(items, p), i) == Append(TreeOf(w, q), g) && Proper(w) && Occurs(s, q, Write(w))
    decreases items
  {
    hide Occurs, Write, TreeOf, Blank, Separator, Apart;
    q, g := p, Nil;
    if items.ItemCons? {
      ItemsAt(s, p, items, close);
      var h := p + |items.before|;
      var next := h + |Write(items.head)| + |items.comma|;
      SkipTree(items.head, h, TreesOf(items.tail, next));
      if i == 0 {
        q, g := h, TreesOf(items.tail, next);
      } else {
        q, g := ElementFound(s, next, items.tail, close, i - 1);
      }
    }
  }

  lemma {:induction false} LabelRead(s: string, k: nat, key: Name)
    requires Occurs(s, k, WriteName(key))
    ensures var n := KeyNode(key, k); Text(s, n.start, n.end) == Label(key)
  {
    if key.QuotedName? {
      AtParts(s, k, "\"" + key.raw, "\"");
      AtParts(s, k, "\"", key.raw);
    }
  }

  lemma {:induction false} BehindKey(key: Name, k: nat, g: Forest)
    ensures Append(KeyNode(key, k), g) == KeyNode(key, k).(rest := g)
  {
  }

  lemma {:induction false} MemberFound(s: string, p: nat, members: Members, close: string, name: string)
    returns (q: nat, g: Forest)
    requires ProperMembers(members, close) && Occurs(s, p, WriteMembers(members) + close)
    ensures match FirstNamed(members, name)
            case Missing => Member(s, TreesOfMembers(members, p), name).Nil?
            case Found(w) =>
              && Member(s, TreesOfMembers(members, p), name) == Append(TreeOf(w, q), g)
              && Proper(w) && Occurs(s, q, Write(w))
    decreases members
  {
    hide Occurs, Write, WriteName, WriteMembers, TreeOf, Text, Blank, Separator, Apart, ProperName, Label;
    q, g := p, Nil;
    if members.MemberCons? {
      MembersAt(s, p, members, close);
      var k := p + |members.before|;
      var v := ValueAt(members, k);
      var next := v + |Write(members.value)| + |members.comma|;
      var others := TreesOfMembers(members.tail, next);
      LabelRead(s, k, members.key);
      SkipTree(members.value, v, others);
      BehindKey(members.key, k, Append(TreeOf(members.value, v), others));
      if Label(members.key) == name {
        q, g := v, others;
      } else {
        q, g := MemberFound(s, next, members.tail, close, name);
      }
    }
  }

  function ChildOf(v: Json, step: Step): Selected {
    match step
    case Element(i) => if v.Arr? then Nth(v.items, i) else Missing
    case Field(name) => if v.Obj? then FirstNamed(v.members, name) else Missing
  }

  function ChildTree(s: string, t: Forest, step: Step): Forest
    requires t.Node?
  {
    match step
    case Element(i) => if t.kind == ArrayToken then ElementAt(t.kids, i) else Nil
    case Field(name) => if t.kind == ObjectToken then Member(s, t.kids, name) else Nil
  }

  /** One step down, in the value and in the tree. */
  lemma {:induction false} ChildWritten(s: string, p: nat, v: Json, step: Step) returns (q: nat, g: Forest)
    requires Proper(v) && Occurs(s, p, Write(v))
    ensures match ChildOf(v, step)
            case Missing => ChildTree(s, TreeOf(v, p), step).Nil?
            case Found(w) =>
              ChildTree(s, TreeOf(v, p), step) == Append(TreeOf(w, q), g) && Proper(w) && Occurs(s, q, Write(w))
  {
    hide Occurs, WriteItems, WriteMembers, TreesOf, TreesOfMembers, ElementAt, Member, Nth, FirstNamed, Append;
    q, g := p, Nil;
    if step.Element? && v.Arr? {
      AtParts(s, p, "[", WriteItems(v.items) + (v.end + "]"));
      q, g := ElementFound(s, p + 1, v.items, v.end + "]", step.index);
    } else if step.Field? && v.Obj? {
      AtParts(s, p, "{", WriteMembers(v.members) + (v.end + "}"));
      q, g := MemberFound(s, p + 1, v.members, v.end + "}", step.name);
    }
  }

  /** Following steps in the tree of a written value finds the token of what they lead to in the value. */
  lemma {:induction false} FollowWritten(s: string, p: nat, v: Json, g: Forest, steps: seq<Step>)
    requires Proper(v) && Occurs(s, p, Write(v))
    ensures Agrees(s, Follow(s, Append(TreeOf(v, p), g), steps), Select(v, steps))
    decreases |steps|
  {
    hide Occurs, Write, Proper, TreeOf, Append, ElementAt, Member, Nth, FirstNamed;
    SkipTree(v, p, g);
    if steps == [] {
      TextOfTree(s, p, v);
    } else {
      var q, h := ChildWritten(s, p, v, steps[0]);
      SkipTree(v, p, Nil);
      AppendNil(TreeOf(v, p));
      var child := ChildOf(v, steps[0]);
      assert ChildTree(s, Append(TreeOf(v, p), g), steps[0]) == ChildTree(s, TreeOf(v, p), steps[0]);
      if child.Found? {
        FollowWritten(s, q, child.value, h, steps[1..]);
      } else {
        NoFurther(s, steps[1..]);
      }
    }
  }

  lemma {:induction false} NoFurther(s: string, steps: seq<Step>)
    ensures Follow(s, Nil, steps) == Nil
  {
  }

  lemma {:induction false} TextOfTree(s: string, p: nat, v: Json)
    requires Occurs(s, p, Write(v))
    ensures var t := TreeOf(v, p); t.kind == KindOf(v) && Text(s, t.start, t.end) == TokenText(v)
  {
    if v.Str? {
      AtParts(s, p, "\"" + v.raw, "\"");
      AtParts(s, p, "\"", v.raw);
    }
  }

  /** Writing, parsing and looking up agree: a path finds in the parsed text what its steps lead to in the
      value. */
  lemma {:induction false} LookupInWritten(lead: string, v: Json, after: string, steps: seq<Step>)
    requires Blank(lead) && Proper(v) && (v.Arr? || v.Obj?) && steps != [] && AllWritable(steps)
    ensures var s := lead + Write(v) + after;
            && Document(s).Done?
            && Agrees(s, Lookup(s, Document(s).trees, PathText(steps, true)), Select(v, steps))
  {
    hide Occurs, Proper, TreeOf, Write;
    var s := lead + Write(v) + after;
    DocumentRead(lead, v, after);
    WrittenAt(lead, Write(v), after);
    SkipTree(v, |lead|, Nil);
    AppendNil(TreeOf(v, |lead|));
    LookupFollows(s, TreeOf(v, |lead|), steps);
    FollowWritten(s, |lead|, v, Nil, steps);
  }
}
