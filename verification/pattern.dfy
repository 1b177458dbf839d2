/** The fragment of JavaScript regular expressions the triage rules use:
    literal text, one-character classes (`[aá]`, `\s`, `\d`, `\w`), the
    quantifiers `?`, `+` and `*`, and the word boundary `\b`. A rule is an
    alternation, written as a sequence of alternatives; `RegExp.test` holds
    when some alternative matches starting at some position. */
module Pattern {
  import opened Text

  datatype Class = Chars(cs: string) | Space | Digit | Word {
    predicate Has(c: char) {
      match this
      case Chars(cs) => c in cs
      case Space => IsSpace(c)
      case Digit => IsDigit(c)
      case Word => IsWordChar(c)
    }
  }

  datatype Atom =
    | Lit(w: string)      // the text itself
    | One(k: Class)       // exactly one character of the class
    | Opt(k: Class)       // `k?`
    | Plus(k: Class)      // `k+`
    | Star(k: Class)      // `k*`
    | Boundary            // `\b`

  /** One alternative: a concatenation of atoms. */
  type Alt = seq<Atom>

  /** Shorthands: `\s+`, `\s*`, `\d`, a bracket class and an optional bracket class. */
  const Spaces1: Atom := Plus(Space)
  const Spaces0: Atom := Star(Space)
  const Dig: Atom := One(Digit)

  function In(cs: string): Atom {
    One(Chars(cs))
  }

  function Maybe(cs: string): Atom {
    Opt(Chars(cs))
  }

  /** `\b` at position `i`: exactly one of the neighbouring characters is a word character. */
  predicate AtBoundary(s: string, i: nat)
    requires i <= |s|
  {
    (i > 0 && IsWordChar(s[i - 1])) != (i < |s| && IsWordChar(s[i]))
  }

  /** The alternative `p` matches some text that starts at position `i` of `s`. */
  predicate MatchAt(s: string, i: nat, p: Alt)
    requires i <= |s|
    decreases |s| - i, |p|
  {
    if |p| == 0 then true
    else match p[0]
      case Lit(w) => i + |w| <= |s| && s[i..i + |w|] == w && MatchAt(s, i + |w|, p[1..])
      case One(k) => i < |s| && k.Has(s[i]) && MatchAt(s, i + 1, p[1..])
      case Opt(k) => (i < |s| && k.Has(s[i]) && MatchAt(s, i + 1, p[1..])) || MatchAt(s, i, p[1..])
      case Plus(k) => i < |s| && k.Has(s[i]) && MatchAt(s, i + 1, [Star(k)] + p[1..])
      case Star(k) => MatchAt(s, i, p[1..]) || (i < |s| && k.Has(s[i]) && MatchAt(s, i + 1, p))
      case Boundary => AtBoundary(s, i) && MatchAt(s, i, p[1..])
  }

  /** The alternative matches starting at position `i` or later. */
  predicate SearchFrom(s: string, i: nat, p: Alt)
    requires i <= |s|
    decreases |s| - i
  {
    MatchAt(s, i, p) || (i < |s| && SearchFrom(s, i + 1, p))
  }

  /** `RegExp.test(s)` for the alternation `alts`. */
  predicate Test(s: string, alts: seq<Alt>) {
    |alts| > 0 && (SearchFrom(s, 0, alts[0]) || Test(s, alts[1..]))
  }

  lemma {:induction false} SearchFromIff(s: string, i: nat, p: Alt)
    requires i <= |s|
    ensures SearchFrom(s, i, p) <==> exists k :: i <= k <= |s| && MatchAt(s, k, p)
    decreases |s| - i
  {
    if MatchAt(s, i, p) {
      assert exists k :: i <= k <= |s| && MatchAt(s, k, p);
    } else if i < |s| {
      SearchFromIff(s, i + 1, p);
      if exists k :: i <= k <= |s| && MatchAt(s, k, p) {
        var k :| i <= k <= |s| && MatchAt(s, k, p);
        assert k != i;
      }
    }
  }

  /** The reference reading of `test`: some alternative matches at some position. */
  lemma {:induction false} TestIff(s: string, alts: seq<Alt>)
    ensures Test(s, alts) <==> exists a, k :: a in alts && 0 <= k <= |s| && MatchAt(s, k, a)
  {
    if |alts| > 0 {
      TestIff(s, alts[1..]);
      SearchFromIff(s, 0, alts[0]);
      if exists a, k :: a in alts && 0 <= k <= |s| && MatchAt(s, k, a) {
        var a, k :| a in alts && 0 <= k <= |s| && MatchAt(s, k, a);
        if a != alts[0] { assert a in alts[1..]; }
      }
    }
  }

  lemma {:induction false} TestWitness(s: string, alts: seq<Alt>, a: Alt, k: nat)
    requires a in alts && k <= |s| && MatchAt(s, k, a)
    ensures Test(s, alts)
  {
    if a == alts[0] {
      SearchFromIff(s, 0, a);
      assert exists k' :: 0 <= k' <= |s| && MatchAt(s, k', a);
    } else {
      assert a in alts[1..];
      TestWitness(s, alts[1..], a, k);
    }
  }

  /** Every literal atom of a matching alternative occurs in the text. */
  lemma {:induction false} MatchContainsLiterals(s: string, i: nat, p: Alt, w: string)
    requires i <= |s| && MatchAt(s, i, p) && Lit(w) in p
    ensures Contains(s, w)
    decreases |s| - i, |p|
  {
    match p[0]
    case Lit(v) =>
      if v == w {
        assert OccursAt(s, w, i);
        ContainsWitness(s, w, i);
      } else {
        assert Lit(w) in p[1..];
        MatchContainsLiterals(s, i + |v|, p[1..], w);
      }
    case One(k) =>
      MatchContainsLiterals(s, i + 1, p[1..], w);
    case Opt(k) =>
      if i < |s| && k.Has(s[i]) && MatchAt(s, i + 1, p[1..]) {
        MatchContainsLiterals(s, i + 1, p[1..], w);
      } else {
        MatchContainsLiterals(s, i, p[1..], w);
      }
    case Plus(k) =>
      assert Lit(w) in [Star(k)] + p[1..];
      MatchContainsLiterals(s, i + 1, [Star(k)] + p[1..], w);
    case Star(k) =>
      if MatchAt(s, i, p[1..]) {
        MatchContainsLiterals(s, i, p[1..], w);
      } else {
        MatchContainsLiterals(s, i + 1, p, w);
      }
    case Boundary =>
      MatchContainsLiterals(s, i, p[1..], w);
  }

  /** A rule whose every alternative carries a literal absent from the text
      does not match it. */
  lemma NoMatchWithoutLiterals(s: string, alts: seq<Alt>)
    requires forall a :: a in alts ==> exists w :: Lit(w) in a && !Contains(s, w)
    ensures !Test(s, alts)
  {
    TestIff(s, alts);
    if Test(s, alts) {
      var a, k :| a in alts && 0 <= k <= |s| && MatchAt(s, k, a);
      var w :| Lit(w) in a && !Contains(s, w);
      MatchContainsLiterals(s, k, a, w);
    }
  }

  /** A single literal alternative is `String.includes`. */
  lemma LiteralTestIsContains(s: string, w: string)
    ensures Test(s, [[Lit(w)]]) <==> Contains(s, w)
  {
    if Contains(s, w) {
      ContainsIff(s, w);
      var k :| OccursAt(s, w, k);
      assert [Lit(w)][1..] == [];
      assert MatchAt(s, k + |w|, []);
      assert MatchAt(s, k, [Lit(w)]);
      TestWitness(s, [[Lit(w)]], [Lit(w)], k);
    }
    if Test(s, [[Lit(w)]]) {
      TestIff(s, [[Lit(w)]]);
      var a, k :| a in [[Lit(w)]] && 0 <= k <= |s| && MatchAt(s, k, a);
      assert a == [Lit(w)];
      assert OccursAt(s, w, k);
      ContainsWitness(s, w, k);
    }
  }

  /** An alternative carrying a literal absent from the text is found nowhere. */
  lemma NoSearchWithout(s: string, a: Alt, w: string)
    requires Lit(w) in a && !Contains(s, w)
    ensures !SearchFrom(s, 0, a)
  {
    SearchFromIff(s, 0, a);
    if SearchFrom(s, 0, a) {
      var k :| 0 <= k <= |s| && MatchAt(s, k, a);
      MatchContainsLiterals(s, k, a, w);
    }
  }

  /** A rule none of whose alternatives is found does not match. */
  lemma {:induction false} TestNone(s: string, alts: seq<Alt>)
    requires forall i :: 0 <= i < |alts| ==> !SearchFrom(s, 0, alts[i])
    ensures !Test(s, alts)
  {
    if |alts| > 0 {
      assert forall i :: 0 <= i < |alts[1..]| ==> alts[1..][i] == alts[i + 1];
      TestNone(s, alts[1..]);
    }
  }
}
