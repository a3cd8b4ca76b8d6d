/** What a text decides about all texts that begin with it. */
module JsonPrefix {
  import opened JsonGrammar

  /** t is the beginning of s. */
  ghost predicate Begins(t: string, s: string) {
    |t| <= |s| && forall i :: 0 <= i < |t| ==> s[i] == t[i]
  }

  lemma {:induction false} SkipDecided(t: string, s: string, p: nat)
    requires Begins(t, s) && p <= |t|
    ensures Skip(t, p) < |t| ==> Skip(s, p) == Skip(t, p)
    decreases |t| - p
  {
    if p < |t| && IsSpace(t[p]) {
      SkipDecided(t, s, p + 1);
    }
  }

  lemma {:induction false} DigitsDecided(t: string, s: string, p: nat)
    requires Begins(t, s) && p <= |t|
    ensures Digits(t, p) < |t| ==> Digits(s, p) == Digits(t, p)
    decreases |t| - p
  {
    if p < |t| && IsDigit(t[p]) {
      DigitsDecided(t, s, p + 1);
    }
  }

  lemma {:induction false} NameDecided(t: string, s: string, p: nat)
    requires Begins(t, s) && p <= |t|
    ensures NameEnd(t, p) < |t| ==> NameEnd(s, p) == NameEnd(t, p)
    decreases |t| - p
  {
    if p < |t| && IsNamePart(t[p]) {
      NameDecided(t, s, p + 1);
    }
  }

  /** A scan of t is decided if it is the scan of s, or reports that t is incomplete. */
  ghost predicate ScanDecided(r: Scan, of: Scan) {
    (r.Bad? ==> r.code == -1 || r.code == -2) && (r == of || r == Bad(-2))
  }

  /** Or it may go on, where it reaches the end of t. */
  ghost predicate ScanOpen(r: Scan, of: Scan, t: string) {
    (r.Bad? ==> r.code == -1 || r.code == -2) && (r == of || r == Bad(-2) || r == At(|t|))
  }

  lemma {:induction false} EscapeDecided(t: string, s: string, p: nat)
    requires Begins(t, s) && p < |t| && t[p] == '\\' && CharLen(t[p]) < |t| - p
    ensures var n := EscapeLen(t, p + 1, |t| - p);
            && (n > 0 || n == -1 || n == -2)
            && (n != -2 ==> EscapeLen(s, p + 1, |s| - p) == n)
  {
  }

  lemma {:induction false} StringDecided(t: string, s: string, p: nat)
    requires Begins(t, s) && p <= |t|
    ensures ScanDecided(StringEnd(t, p), StringEnd(s, p))
    decreases |t| - p
  {
    hide EscapeLen;
    if p < |t| && t[p] >= ' ' && CharLen(t[p]) < |t| - p {
      if t[p] == '\\' {
        EscapeDecided(t, s, p);
        var n := EscapeLen(t, p + 1, |t| - p);
        if n > 0 {
          StringDecided(t, s, p + 1 + n);
        }
      } else if t[p] != '"' {
        StringDecided(t, s, p + CharLen(t[p]));
      }
    }
  }

  lemma {:induction false} SomeDigitsDecided(t: string, s: string, p: nat)
    requires Begins(t, s) && p <= |t|
    ensures ScanOpen(SomeDigits(t, p), SomeDigits(s, p), t)
  {
    DigitsDecided(t, s, p);
  }

  lemma {:induction false} FractionDecided(t: string, s: string, p: nat)
    requires Begins(t, s) && p <= |t|
    ensures ScanOpen(Fraction(t, p), Fraction(s, p), t)
  {
    hide SomeDigits;
    if p < |t| {
      SomeDigitsDecided(t, s, p + 1);
    }
  }

  lemma {:induction false} ExponentDecided(t: string, s: string, p: nat)
    requires Begins(t, s) && p <= |t|
    ensures ScanOpen(Exponent(t, p), Exponent(s, p), t)
  {
    hide SomeDigits;
    if p + 1 < |t| {
      SomeDigitsDecided(t, s, p + 1);
      SomeDigitsDecided(t, s, p + 2);
    }
  }

  lemma {:induction false} NumberDecided(t: string, s: string, p: nat)
    requires Begins(t, s) && p < |t|
    ensures ScanOpen(NumberEnd(t, p), NumberEnd(s, p), t)
  {
    hide SomeDigits;
    var a := if t[p] == '-' then p + 1 else p;
    SomeDigitsDecided(t, s, a);
    var whole := SomeDigits(t, a);
    if whole.At? {
      FractionDecided(t, s, whole.pos);
      var fraction := Fraction(t, whole.pos);
      if fraction.At? {
        ExponentDecided(t, s, fraction.pos);
      }
    }
  }

  lemma {:induction false} WordDecided(t: string, s: string, p: nat, word: string, i: nat)
    requires Begins(t, s) && i <= |word| && p + i <= |t|
    ensures ScanDecided(WordEnd(t, p, word, i), WordEnd(s, p, word, i))
    decreases |word| - i
  {
    if i < |word| && p + i < |t| && t[p + i] == word[i] {
      WordDecided(t, s, p, word, i + 1);
    }
  }

  /** A parse of t is decided if it is the parse of s, or reports that t is incomplete. */
  ghost predicate Decided(r: Parse, of: Parse) {
    (r.Fail? ==> r.code == -1 || r.code == -2) && (r == of || (r.Fail? && r.code == -2))
  }

  ghost predicate DecidedOrOpen(r: Parse, of: Parse, t: string) {
    (r.Fail? ==> r.code == -1 || r.code == -2) && (r == of || (r.Fail? && r.code == -2) || (r.Done? && r.next == |t|))
  }

  lemma {:induction false} QuotedDecided(t: string, s: string, p: nat)
    requires Begins(t, s) && p <= |t|
    ensures Decided(Quoted(t, p), Quoted(s, p))
  {
    hide StringEnd;
    SkipDecided(t, s, p);
    var q := Skip(t, p);
    if q < |t| {
      StringDecided(t, s, q + 1);
    }
  }

  lemma {:induction false} ValueDecided(t: string, s: string, p: nat)
    requires Begins(t, s) && p <= |t|
    ensures DecidedOrOpen(Value(t, p), Value(s, p), t)
    decreases |t| - p, 1
  {
    hide Quoted, Container, NumberEnd, WordEnd, Skip;
    SkipDecided(t, s, p);
    var q := Skip(t, p);
    if q < |t| {
      if t[q] == '"' {
        QuotedDecided(t, s, q);
      } else if t[q] == '{' {
        ContainerDecided(t, s, q, ObjectToken);
      } else if t[q] == '[' {
        ContainerDecided(t, s, q, ArrayToken);
      } else if t[q] == 'n' {
        WordDecided(t, s, q, "null", 0);
      } else if t[q] == 't' {
        WordDecided(t, s, q, "true", 0);
      } else if t[q] == 'f' {
        WordDecided(t, s, q, "false", 0);
      } else if t[q] == '-' || IsDigit(t[q]) {
        NumberDecided(t, s, q);
      }
    }
  }

  lemma {:induction false} ContainerDecided(t: string, s: string, p: nat, kind: Kind)
    requires Begins(t, s) && p <= |t|
    ensures Decided(Container(t, p, kind), Container(s, p, kind))
    decreases |t| - p, 0
  {
    hide Items, Skip;
    SkipDecided(t, s, p);
    var q := Skip(t, p);
    if q < |t| && t[q] == Open(kind) {
      ItemsDecided(t, s, q + 1, kind);
    }
  }

  lemma {:induction false} CommaDecided(t: string, s: string, p: nat)
    requires Begins(t, s) && p <= |t|
    ensures OptionalComma(t, p) == OptionalComma(s, p) || OptionalComma(t, p) == |t|
  {
    hide Skip;
    SkipDecided(t, s, p);
  }

  /** At its end a text is incomplete. */
  lemma {:induction false} AtTheEnd(t: string, kind: Kind)
    ensures Items(t, |t|, kind).Fail? && Items(t, |t|, kind).code == -2
  {
    assert Skip(t, |t|) == |t|;
    assert Key(t, |t|) == Fail(-2, 0) && Value(t, |t|) == Fail(-2, 0);
    assert Item(t, |t|, kind) == Fail(-2, 0);
  }

  lemma {:induction false} ItemDecided(t: string, s: string, p: nat, kind: Kind)
    requires Begins(t, s) && p <= |t|
    ensures DecidedOrOpen(Item(t, p, kind), Item(s, p, kind), t)
    decreases |t| - p, 3
  {
    hide Pair, Value;
    if kind == ObjectToken {
      PairDecided(t, s, p);
    } else {
      ValueDecided(t, s, p);
    }
  }

  lemma {:induction false} ItemsDecided(t: string, s: string, p: nat, kind: Kind)
    requires Begins(t, s) && p <= |t|
    ensures Decided(Items(t, p, kind), Items(s, p, kind))
    decreases |t| - p, 4
  {
    hide Item, Skip, OptionalComma;
    SkipDecided(t, s, p);
    var q := Skip(t, p);
    ItemDecided(t, s, q, kind);
    var first := Item(t, q, kind);
    AtTheEnd(t, kind);
    if first.Done? && (q == |t| || t[q] != Close(kind)) {
      CommaDecided(t, s, first.next);
      var o := OptionalComma(t, first.next);
      ItemsDecided(t, s, o, kind);
    }
  }

  lemma {:induction false} KeyDecided(t: string, s: string, p: nat)
    requires Begins(t, s) && p <= |t|
    ensures DecidedOrOpen(Key(t, p), Key(s, p), t)
  {
    hide Quoted, Skip, NameEnd;
    SkipDecided(t, s, p);
    var q := Skip(t, p);
    if q < |t| {
      NameDecided(t, s, q);
      QuotedDecided(t, s, q);
    }
  }

  lemma {:induction false} PairDecided(t: string, s: string, p: nat)
    requires Begins(t, s) && p <= |t|
    ensures DecidedOrOpen(Pair(t, p), Pair(s, p), t)
    decreases |t| - p, 2
  {
    hide Key, Value, Skip;
    KeyDecided(t, s, p);
    var key := Key(t, p);
    if key.Done? {
      SkipDecided(t, s, key.next);
      var c := Skip(t, key.next);
      if c < |t| {
        ValueDecided(t, s, c + 1);
      }
    }
  }

  /** A text that is not incomplete decides about every text that begins with it: what follows is not looked at. The
      only errors are -1, invalid, and -2, incomplete. */
  lemma {:induction false} DocumentDecided(t: string, more: string)
    ensures Document(t).Fail? ==> Document(t).code == -1 || Document(t).code == -2
    ensures Document(t + more) == Document(t) || (Document(t).Fail? && Document(t).code == -2)
  {
    hide Container, Skip;
    var s := t + more;
    SkipDecided(t, s, 0);
    var q := Skip(t, 0);
    if q < |t| {
      ContainerDecided(t, s, q, ObjectToken);
      ContainerDecided(t, s, q, ArrayToken);
    }
  }

  /** A document that has not arrived as a whole is incomplete, wherever it was cut. */
  lemma {:induction false} CutIsIncomplete(s: string, k: nat)
    requires Document(s).Done? && k < Document(s).next
    ensures Document(s[..k]).Fail? && Document(s[..k]).code == -2
  {
    hide Document;
    DocumentDecided(s[..k], s[k..]);
    assert s[..k] + s[k..] == s;
    assert Progress(Document(s[..k]), s[..k], 0);
  }
}
