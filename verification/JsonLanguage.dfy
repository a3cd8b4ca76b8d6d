/** The parser takes nothing but values written as texts. */
module JsonLanguage {
  import opened JsonGrammar
  import opened JsonTexts

  lemma {:induction false} SkipsBlank(s: string, p: nat)
    requires p <= |s|
    ensures Blank(s[p..Skip(s, p)])
    decreases |s| - p
  {
    if p < |s| && IsSpace(s[p]) {
      SkipsBlank(s, p + 1);
      assert s[p..Skip(s, p)] == [s[p]] + s[p + 1..Skip(s, p)];
    }
  }

  lemma {:induction false} TwoBlanks(a: string, b: string)
    requires Blank(a) && Blank(b)
    ensures Blank(a + b)
  {
  }

  /** The text from p to r is that up to q and that from q on. */
  lemma {:induction false} Split(s: string, p: nat, q: nat, r: nat)
    requires p <= q <= r <= |s|
    ensures s[p..r] == s[p..q] + s[q..r]
  {
  }

  lemma {:induction false} StringWritten(s: string, p: nat)
    requires p <= |s| && StringEnd(s, p).At?
    ensures Quotable(s[p..StringEnd(s, p).pos])
    decreases |s| - p
  {
    var e := StringEnd(s, p).pos;
    var t := s[p..e];
    if p < e {
      hide StringEnd, Quotable;
      var n := if s[p] == '\\' then 1 + EscapeLen(s, p + 1, |s| - p) else CharLen(s[p]);
      StringStep(s, p, n);
      StringWritten(s, p + n);
      assert t[n..] == s[p + n..e];
      FirstWritten(s, p, e, n);
    }
  }

  lemma {:induction false} FirstWritten(s: string, p: nat, e: nat, n: int)
    requires p < e <= |s| && 0 < n <= e - p && s[p] != '"' && s[p] >= ' '
    requires s[p] == '\\' ==> p + 1 < |s|
    requires n == if s[p] == '\\' then 1 + EscapeLen(s, p + 1, |s| - p) else CharLen(s[p])
    requires Quotable(s[p..e][n..])
    ensures Quotable(s[p..e])
  {
    var t := s[p..e];
    assert forall i :: 0 <= i < |t| ==> t[i] == s[p + i];
  }

  lemma {:induction false} StringStep(s: string, p: nat, n: int)
    requires p < |s| && StringEnd(s, p).At? && p < StringEnd(s, p).pos
    requires n == if s[p] == '\\' then 1 + EscapeLen(s, p + 1, |s| - p) else CharLen(s[p])
    ensures 0 < n <= |s| - p && StringEnd(s, p) == StringEnd(s, p + n)
    ensures s[p] != '"' && s[p] >= ' ' && (s[p] == '\\' ==> p + 1 < |s|)
  {
  }

  lemma {:induction false} DigitsWritten(s: string, p: nat)
    requires p <= |s| && SomeDigits(s, p).At?
    ensures var e := SomeDigits(s, p).pos; AllDigits(s[p..e]) && (e < |s| ==> !DecimalDigit(s[e]))
  {
  }

  lemma {:induction false} NumberWritten(s: string, p: nat)
    requires p < |s| && NumberEnd(s, p).At?
    ensures var e := NumberEnd(s, p).pos; NumberText(s[p..e]) && (e < |s| ==> Stops(s[p..e], s[e]))
  {
    hide SomeDigits, AllDigits;
    var a := if s[p] == '-' then p + 1 else p;
    var b := SomeDigits(s, a).pos;
    var c := Fraction(s, b).pos;
    var e := Exponent(s, c).pos;
    DigitsWritten(s, a);
    FractionWritten(s, b);
    ExponentWritten(s, c);
    var t := s[p..e];
    Split(s, p, a, b);
    Split(s, p, b, c);
    Split(s, p, c, e);
    assert IsNumber(t, s[p..a], s[a..b], s[b..c], s[c..e]);
    if e < |s| {
      EndOfNumber(s, p, b, c, e);
    }
  }

  /** Behind a number comes no point or exponent that it could go on with. */
  lemma {:induction false} EndOfNumber(s: string, p: nat, b: nat, c: nat, e: nat)
    requires p <= b <= c <= e < |s| && !DecimalDigit(s[e])
    requires c == b ==> s[b] != '.'
    requires e == c ==> s[c] != 'e' && s[c] != 'E'
    requires c > b ==> s[b] == '.'
    requires e > c ==> s[c] == 'e' || s[c] == 'E'
    ensures Stops(s[p..e], s[e])
  {
    var t := s[p..e];
    assert c > b ==> t[b - p] == '.';
    assert e > c ==> t[c - p] == s[c];
  }

  lemma {:induction false} FractionWritten(s: string, b: nat)
    requires b <= |s| && Fraction(s, b).At?
    ensures var c := Fraction(s, b).pos;
            && FractionText(s[b..c]) && (c > b ==> s[b] == '.' && (c < |s| ==> !DecimalDigit(s[c])))
            && (c == b < |s| ==> s[b] != '.')
  {
    if Fraction(s, b).pos > b {
      DigitsWritten(s, b + 1);
      assert s[b..Fraction(s, b).pos][1..] == s[b + 1..Fraction(s, b).pos];
    }
  }

  lemma {:induction false} ExponentWritten(s: string, c: nat)
    requires c <= |s| && Exponent(s, c).At?
    ensures var e := Exponent(s, c).pos;
            && ExponentText(s[c..e]) && (e > c ==> (s[c] == 'e' || s[c] == 'E') && (e < |s| ==> !DecimalDigit(s[e])))
            && (e == c < |s| ==> s[c] != 'e' && s[c] != 'E')
  {
    var e := Exponent(s, c).pos;
    if e > c {
      var t := s[c..e];
      if s[c + 1] == '+' || s[c + 1] == '-' {
        DigitsWritten(s, c + 2);
        assert t[2..] == s[c + 2..e];
      } else {
        DigitsWritten(s, c + 1);
        assert t[1..] == s[c + 1..e];
      }
    }
  }

  lemma {:induction false} WordWritten(s: string, q: nat, word: string)
    requires q <= |s| && WordEnd(s, q, word, 0).At?
    ensures s[q..q + |word|] == word && WordEnd(s, q, word, 0).pos == q + |word| <= |s|
  {
  }

  lemma {:induction false} QuotedWritten(s: string, q: nat)
    requires q < |s| && s[q] == '"' && Quoted(s, q).Done?
    ensures var e := Quoted(s, q).next;
            q + 2 <= e <= |s| && Quotable(s[q + 1..e - 1]) && s[q..e] == "\"" + s[q + 1..e - 1] + "\""
  {
    hide StringEnd, Quotable;
    StringWritten(s, q + 1);
  }

  /** A value that is read is written there, behind white space. */
  lemma {:induction false} ValueWritten(s: string, p: nat) returns (before: string, v: Json)
    requires p <= |s| && Value(s, p).Done?
    ensures var n := Value(s, p).next;
            && Blank(before) && Proper(v) && s[p..n] == before + Write(v)
            && (v.Num? && n < |s| ==> Stops(v.text, s[n]))
    decreases |s| - p, 1
  {
    hide Quoted, Container, NumberEnd, WordEnd, Skip, NumberText, Quotable, Stops, Blank;
    var q, n := Skip(s, p), Value(s, p).next;
    before := s[p..q];
    SkipsBlank(s, p);
    Split(s, p, q, n);
    if s[q] == '"' {
      QuotedWritten(s, q);
      v := Str(s[q + 1..n - 1]);
    } else if s[q] == '{' {
      v := ContainerWritten(s, q, ObjectToken);
    } else if s[q] == '[' {
      v := ContainerWritten(s, q, ArrayToken);
    } else if s[q] == 'n' {
      WordWritten(s, q, "null");
      v := Null;
    } else if s[q] == 't' {
      WordWritten(s, q, "true");
      v := True;
    } else if s[q] == 'f' {
      WordWritten(s, q, "false");
      v := False;
    } else {
      NumberWritten(s, q);
      v := Num(s[q..n]);
    }
  }

  lemma {:induction false} ContainerWritten(s: string, q: nat, kind: Kind) returns (v: Json)
    requires q < |s| && s[q] == Open(kind) && (kind == ArrayToken || kind == ObjectToken) && Container(s, q, kind).Done?
    ensures Proper(v) && (v.Arr? || v.Obj?) && KindOf(v) == kind && s[q..Container(s, q, kind).next] == Write(v)
    decreases |s| - q, 0
  {
    hide Items, WriteItems, WriteMembers, Blank, Container, ProperItems, ProperMembers;
    BracketsStep(s, q, kind);
    if kind == ArrayToken {
      var items, end := ItemsWritten(s, q + 1);
      v := Arr(items, end);
      Around("[", WriteItems(items), end, "]");
    } else {
      var members, end := MembersWritten(s, q + 1);
      v := Obj(members, end);
      Around("{", WriteMembers(members), end, "}");
    }
  }

  lemma {:induction false} BracketsStep(s: string, q: nat, kind: Kind)
    requires q < |s| && s[q] == Open(kind) && (kind == ArrayToken || kind == ObjectToken) && Container(s, q, kind).Done?
    ensures Items(s, q + 1, kind).Done?
    ensures var z := Items(s, q + 1, kind).next;
            && q < z < |s| && Container(s, q, kind).next == z + 1
            && s[q..z + 1] == [Open(kind)] + s[q + 1..z] + [Close(kind)]
  {
    hide Items;
    assert Skip(s, q) == q;
  }

  lemma {:induction false} Around(open: string, inner: string, end: string, close: string)
    ensures open + (inner + end) + close == open + (inner + (end + close))
  {
  }

  /** What follows an item up to the next one is a separator. */
  lemma {:induction false} CommaWritten(s: string, n: nat)
    requires n <= |s|
    ensures n <= OptionalComma(s, n) <= |s| && Separator(s[n..OptionalComma(s, n)])
  {
    hide Blank;
    var r := Skip(s, n);
    SkipsBlank(s, n);
    if r < |s| && s[r] == ',' {
      assert s[n..r + 1][..r - n] == s[n..r];
    }
  }

  lemma {:induction false} ItemsStep(s: string, p: nat, kind: Kind)
    requires p <= |s| && Items(s, p, kind).Done?
    ensures var q := Skip(s, p);
            && q < |s| && p <= q <= Items(s, p, kind).next
            && (s[q] == Close(kind) ==> Items(s, p, kind).next == q)
            && (s[q] != Close(kind) ==>
                  var first := Item(s, q, kind);
                  && first.Done? && q < first.next <= |s|
                  && var o := OptionalComma(s, first.next);
                     first.next <= o <= |s| && Items(s, o, kind).Done?
                         && Items(s, o, kind).next == Items(s, p, kind).next)
  {
    hide Item, OptionalComma, Skip;
  }

  /** Items that are read are written there, up to the white space before the bracket. */
  lemma {:induction false} ItemsWritten(s: string, p: nat) returns (items: Elements, end: string)
    requires p <= |s| && Items(s, p, ArrayToken).Done?
    ensures Blank(end) && ProperItems(items, end + "]")
    ensures s[p..Items(s, p, ArrayToken).next] == WriteItems(items) + end
    decreases |s| - p, 3
  {
    hide Items, Value, Skip, OptionalComma, Blank, Separator, Proper, Write, Apart;
    var q, z := Skip(s, p), Items(s, p, ArrayToken).next;
    ItemsStep(s, p, ArrayToken);
    SkipsBlank(s, p);
    if s[q] == ']' {
      items, end := NoItems, s[p..q];
      assert "" + end == end;
    } else {
      var n := Value(s, q).next;
      var o := OptionalComma(s, n);
      var blank, head := ValueWritten(s, q);
      CommaWritten(s, n);
      var tail;
      tail, end := ItemsWritten(s, o);
      items := ItemCons(s[p..q] + blank, head, s[n..o], tail);
      TwoBlanks(s[p..q], blank);
      Pieces(s, p, q, n, o, z, blank, Write(head), WriteItems(tail), end, "]");
      ApartHere(s, n, o, z, head, WriteItems(tail), end, "]");
    }
  }

  /** Put together from the pieces of the text. */
  lemma {:induction false} Pieces(s: string, p: nat, q: nat, n: nat, o: nat, z: nat, blank: string, value: string,
                                  tail: string, end: string, close: string)
    requires p <= q <= n <= o <= z <= |s| && s[q..n] == blank + value && s[o..z] == tail + end
    ensures s[p..z] == (s[p..q] + blank) + (value + (s[n..o] + tail)) + end
  {
    Split(s, p, q, z);
    Split(s, q, n, z);
    Split(s, n, o, z);
    assert s[p..z] == s[p..q] + ((blank + value) + (s[n..o] + (tail + end)));
  }

  lemma {:induction false} ApartHere(s: string, n: nat, o: nat, z: nat, v: Json, tail: string, end: string,
                                     close: string)
    requires n <= o <= z < |s| && s[o..z] == tail + end && close == [s[z]]
    requires v.Num? ==> Stops(v.text, s[n])
    ensures Apart(v, s[n..o] + (tail + (end + close)))
  {
    hide Stops;
    var after := s[n..o] + (tail + (end + close));
    Split(s, n, o, z + 1);
    Split(s, o, z, z + 1);
    assert tail + (end + close) == (tail + end) + close;
    assert after == s[n..z + 1];
  }

  lemma {:induction false} NameWritten(s: string, q: nat)
    requires q < |s| && IsAlpha(s[q])
    ensures q < NameEnd(s, q) <= |s| && NameText(s[q..NameEnd(s, q)])
  {
  }

  lemma {:induction false} KeyWritten(s: string, q: nat) returns (key: Name)
    requires q < |s| && Skip(s, q) == q && Key(s, q).Done?
    ensures var n := Key(s, q).next; q < n <= |s| && ProperName(key) && s[q..n] == WriteName(key)
  {
    hide Quoted, NameEnd, Quotable, NameText;
    var n := Key(s, q).next;
    if IsAlpha(s[q]) {
      NameWritten(s, q);
      key := BareName(s[q..n]);
    } else {
      QuotedWritten(s, q);
      key := QuotedName(s[q + 1..n - 1]);
    }
  }

  lemma {:induction false} PairStep(s: string, q: nat)
    requires q <= |s| && Pair(s, q).Done?
    ensures Key(s, q).Done?
    ensures var n := Key(s, q).next;
            && q < n <= |s|
            && var c := Skip(s, n);
               n <= c < |s| && s[c] == ':' && Value(s, c + 1).Done? && Value(s, c + 1).next == Pair(s, q).next
  {
    hide Key, Value, Skip;
  }

  lemma {:induction false} MembersWritten(s: string, p: nat) returns (members: Members, end: string)
    requires p <= |s| && Items(s, p, ObjectToken).Done?
    ensures Blank(end) && ProperMembers(members, end + "}")
    ensures s[p..Items(s, p, ObjectToken).next] == WriteMembers(members) + end
    decreases |s| - p, 3
  {
    hide Items, Pair, Skip, OptionalComma, Blank, Separator, Proper, ProperName, Write, WriteName, Apart;
    var q, z := Skip(s, p), Items(s, p, ObjectToken).next;
    ItemsStep(s, p, ObjectToken);
    SkipsBlank(s, p);
    if s[q] == '}' {
      members, end := NoMembers, s[p..q];
      assert "" + end == end;
    } else {
      var n := Pair(s, q).next;
      var o := OptionalComma(s, n);
      var key, colon, between, value := PairWritten(s, q);
      CommaWritten(s, n);
      var tail;
      tail, end := MembersWritten(s, o);
      members := MemberCons(s[p..q], key, colon, between, value, s[n..o], tail);
      var pair := WriteName(key) + (colon + (":" + (between + Write(value))));
      assert "" + pair == pair && s[p..q] + "" == s[p..q];
      Pieces(s, p, q, n, o, z, "", pair, WriteMembers(tail), end, "}");
      Nested(WriteName(key), colon, between, Write(value), s[n..o] + WriteMembers(tail));
      ApartHere(s, n, o, z, value, WriteMembers(tail), end, "}");
    }
  }

  lemma {:induction false} Nested(key: string, colon: string, between: string, value: string, rest: string)
    ensures key + (colon + (":" + (between + value))) + rest == key + (colon + (":" + (between + (value + rest))))
  {
  }

  lemma {:induction false} SkipStays(s: string, p: nat)
    requires p <= |s|
    ensures Skip(s, Skip(s, p)) == Skip(s, p)
  {
  }

  lemma {:induction false} PairWritten(s: string, q: nat)
    returns (key: Name, colon: string, between: string, value: Json)
    requires q < |s| && Skip(s, q) == q && Pair(s, q).Done?
    ensures var n := Pair(s, q).next;
            && q < n <= |s| && ProperName(key) && Blank(colon) && Blank(between) && Proper(value)
            && s[q..n] == WriteName(key) + (colon + (":" + (between + Write(value))))
            && (value.Num? && n < |s| ==> Stops(value.text, s[n]))
    decreases |s| - q, 2
  {
    hide Key, Value, Skip, Pair, Blank, Proper, ProperName, Write, WriteName, Stops;
    PairStep(s, q);
    var k, n := Key(s, q).next, Pair(s, q).next;
    var c := Skip(s, k);
    key := KeyWritten(s, q);
    SkipsBlank(s, k);
    colon := s[k..c];
    between, value := ValueWritten(s, c + 1);
    Split(s, q, k, n);
    Split(s, k, c, n);
    Split(s, c, c + 1, n);
  }

  /** s begins with white space and an array or object. */
  ghost predicate IsDocument(s: string, lead: string, v: Json, after: string) {
    s == lead + Write(v) + after && Blank(lead) && Proper(v) && (v.Arr? || v.Obj?)
  }

  lemma {:induction false} DocumentWritten(s: string) returns (lead: string, v: Json, after: string)
    requires Document(s).Done?
    ensures IsDocument(s, lead, v, after)
  {
    hide Container, Write, Proper, Blank;
    var q := Skip(s, 0);
    SkipsBlank(s, 0);
    v := ContainerWritten(s, q, if s[q] == '{' then ObjectToken else ArrayToken);
    var n := Document(s).next;
    lead, after := s[0..q], s[n..];
    Split(s, 0, q, |s|);
    Split(s, q, n, |s|);
  }

  /** The parser takes a text exactly if it begins with a written array or object, and its tokens are those of that
      value. */
  lemma {:induction false} DocumentExactly(s: string)
    ensures Document(s).Done? <==> exists lead, v, after :: IsDocument(s, lead, v, after)
    ensures forall lead, v, after :: IsDocument(s, lead, v, after) ==>
              Document(s) == Done(TreeOf(v, |lead|), |lead| + |Write(v)|)
  {
    hide Document, TreeOf, Write, Proper, Blank;
    if Document(s).Done? {
      var lead, v, after := DocumentWritten(s);
      assert IsDocument(s, lead, v, after);
    }
    forall lead, v, after | IsDocument(s, lead, v, after)
      ensures Document(s) == Done(TreeOf(v, |lead|), |lead| + |Write(v)|)
    {
      DocumentRead(lead, v, after);
    }
  }
}
