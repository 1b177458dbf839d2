/** String helpers with the semantics of the JavaScript string methods the
    source relies on: `toLowerCase`, `trim`, `includes`, `startsWith`,
    `endsWith` and `join`. */
module Text {

  /** The characters JavaScript treats as white space, both for `trim` and
      for the `\s` class of a regular expression. */
  predicate IsSpace(c: char) {
    || ('\t' <= c <= '\r')
    || c == ' '
    || c == '\U{00A0}'
    || c == '\U{1680}'
    || ('\U{2000}' <= c <= '\U{200A}')
    || c == '\U{2028}'
    || c == '\U{2029}'
    || c == '\U{202F}'
    || c == '\U{205F}'
    || c == '\U{3000}'
    || c == '\U{FEFF}'
  }

  predicate IsDigit(c: char) {
    '0' <= c <= '9'
  }

  /** The `\w` class of a (non-Unicode) JavaScript regular expression. */
  predicate IsWordChar(c: char) {
    ('a' <= c <= 'z') || ('A' <= c <= 'Z') || IsDigit(c) || c == '_'
  }

  /** Upper-case letters of the Basic Latin and Latin-1 blocks. */
  predicate IsUpper(c: char) {
    ('A' <= c <= 'Z') || ('\U{00C0}' <= c <= '\U{00DE}' && c != '\U{00D7}')
  }

  function LowerChar(c: char): (r: char)
    ensures !IsUpper(r)
    ensures !IsUpper(c) ==> r == c
  {
    if IsUpper(c) then (c as int + 32) as char else c
  }

  predicate NoUpper(s: string) {
    forall i :: 0 <= i < |s| ==> !IsUpper(s[i])
  }

  /** `s.toLowerCase()`, restricted to the Latin-1 letters. */
  function ToLower(s: string): (r: string)
    ensures |r| == |s|
    ensures forall i :: 0 <= i < |s| ==> r[i] == LowerChar(s[i])
  {
    if |s| == 0 then "" else [LowerChar(s[0])] + ToLower(s[1..])
  }

  /** Character-wise check that `n` is the lower-cased `q`, from position `i` on. */
  predicate LowerFrom(q: string, n: string, i: nat)
    decreases |q| - i
  {
    i >= |q| || (i < |n| && n[i] == LowerChar(q[i]) && LowerFrom(q, n, i + 1))
  }

  lemma {:induction false} LowerFromSound(q: string, n: string, i: nat)
    requires |q| == |n| && LowerFrom(q, n, i)
    ensures forall j :: i <= j < |q| ==> n[j] == LowerChar(q[j])
    decreases |q| - i
  {
    if i < |q| {
      LowerFromSound(q, n, i + 1);
    }
  }

  /** The character-wise check establishes `n == ToLower(q)`. */
  lemma LowerFromGives(q: string, n: string)
    requires |q| == |n| && LowerFrom(q, n, 0)
    ensures ToLower(q) == n
  {
    LowerFromSound(q, n, 0);
  }

  /** ... and holds whenever `n == ToLower(q)`. */

  lemma {:induction false} LowerFromComplete(q: string, n: string, i: nat)
    requires ToLower(q) == n
    ensures LowerFrom(q, n, i)
    decreases |q| - i
  {
    if i < |q| {
      assert i < |n| && n[i] == LowerChar(q[i]);
      LowerFromComplete(q, n, i + 1);
      assert LowerFrom(q, n, i + 1);
    }
  }

  lemma ToLowerHasNoUpper(s: string)
    ensures NoUpper(ToLower(s))
  {
  }

  /** Lower-casing changes nothing in a string without upper-case letters. */
  lemma ToLowerOfNoUpper(s: string)
    requires NoUpper(s)
    ensures ToLower(s) == s
  {
  }

  lemma ToLowerIdempotent(s: string)
    ensures ToLower(ToLower(s)) == ToLower(s)
  {
    ToLowerHasNoUpper(s);
    ToLowerOfNoUpper(ToLower(s));
  }

  predicate AllSpace(s: string) {
    forall i :: 0 <= i < |s| ==> IsSpace(s[i])
  }

  function TrimStart(s: string): (r: string)
    ensures |r| <= |s| && r == s[|s| - |r|..]
    ensures AllSpace(s[..|s| - |r|])
    ensures |r| > 0 ==> !IsSpace(r[0])
    decreases |s|
  {
    if |s| > 0 && IsSpace(s[0]) then TrimStart(s[1..]) else s
  }

  function TrimEnd(s: string): (r: string)
    ensures |r| <= |s| && r == s[..|r|]
    ensures AllSpace(s[|r|..])
    ensures |r| > 0 ==> !IsSpace(r[|r| - 1])
    decreases |s|
  {
    if |s| > 0 && IsSpace(s[|s| - 1]) then TrimEnd(s[..|s| - 1]) else s
  }

  /** Leading white space is skipped up to the first other character. */
  lemma {:induction false} TrimStartSkips(a: string, b: string)
    requires AllSpace(a) && (|b| > 0 ==> !IsSpace(b[0]))
    ensures TrimStart(a + b) == b
    decreases |a|
  {
    if |a| > 0 {
      assert (a + b)[0] == a[0];
      assert (a + b)[1..] == a[1..] + b;
      TrimStartSkips(a[1..], b);
    } else {
      assert a + b == b;
    }
  }

  /** `s.trim()`: the longest infix of `s` that neither starts nor ends with
      white space; everything cut away is white space. */
  function Trim(s: string): (r: string)
    ensures exists a, b :: 0 <= a <= b <= |s| && r == s[a..b] && AllSpace(s[..a]) && AllSpace(s[b..])
    ensures |r| > 0 ==> !IsSpace(r[0]) && !IsSpace(r[|r| - 1])
  {
    var t := TrimStart(s);
    var r := TrimEnd(t);
    var a := |s| - |t|;
    assert r == s[a..a + |r|];
    assert s[a + |r|..] == t[|r|..];
    r
  }

  /** Trimming leaves alone a string that neither starts nor ends with white space. */
  lemma TrimNoop(s: string)
    requires |s| > 0 ==> !IsSpace(s[0]) && !IsSpace(s[|s| - 1])
    ensures Trim(s) == s
  {
  }

  /** A string is blank when trimming leaves nothing. */
  predicate IsBlank(s: string) {
    |Trim(s)| == 0
  }

  lemma BlankIffAllSpace(s: string)
    ensures IsBlank(s) <==> AllSpace(s)
  {
    var r := Trim(s);
    var a, b :| 0 <= a <= b <= |s| && r == s[a..b] && AllSpace(s[..a]) && AllSpace(s[b..]);
    if |r| == 0 {
      forall i | 0 <= i < |s| ensures IsSpace(s[i]) {
        if i < a { assert s[..a][i] == s[i]; } else { assert s[b..][i - b] == s[i]; }
      }
    } else {
      assert r[0] == s[a];
    }
  }

  predicate StartsWith(s: string, prefix: string) {
    |prefix| <= |s| && s[..|prefix|] == prefix
  }

  predicate EndsWith(s: string, suffix: string) {
    |suffix| <= |s| && s[|s| - |suffix|..] == suffix
  }

  /** `s.includes(t)`: `t` occurs in `s` at the position `i` or later. */
  predicate ContainsFrom(s: string, t: string, i: nat)
    decreases |s| - i
  {
    i + |t| <= |s| && (s[i..i + |t|] == t || ContainsFrom(s, t, i + 1))
  }

  predicate Contains(s: string, t: string) {
    ContainsFrom(s, t, 0)
  }

  /** The reference reading of `includes`: some position holds the needle. */
  predicate OccursAt(s: string, t: string, i: int) {
    0 <= i && i + |t| <= |s| && s[i..i + |t|] == t
  }

  lemma {:induction false} ContainsFromIff(s: string, t: string, i: nat)
    ensures ContainsFrom(s, t, i) <==> exists k :: i <= k && OccursAt(s, t, k)
    decreases |s| - i
  {
    if i + |t| <= |s| {
      ContainsFromIff(s, t, i + 1);
      if s[i..i + |t|] == t {
        assert OccursAt(s, t, i);
      } else if exists k :: i <= k && OccursAt(s, t, k) {
        var k :| i <= k && OccursAt(s, t, k);
        assert k != i;
      }
    } else {
      forall k | i <= k ensures !OccursAt(s, t, k) {}
    }
  }

  lemma ContainsIff(s: string, t: string)
    ensures Contains(s, t) <==> exists k :: OccursAt(s, t, k)
  {
    ContainsFromIff(s, t, 0);
  }

  lemma ContainsWitness(s: string, t: string, k: nat)
    requires OccursAt(s, t, k)
    ensures Contains(s, t)
  {
    ContainsIff(s, t);
  }

  lemma ContainsEmpty(s: string)
    ensures Contains(s, "")
  {
    assert OccursAt(s, "", 0);
    ContainsWitness(s, "", 0);
  }

  /** A needle that occurs inside a part of a string occurs in the string. */
  lemma ContainsInfix(s: string, a: nat, b: nat, t: string)
    requires a <= b <= |s| && Contains(s[a..b], t)
    ensures Contains(s, t)
  {
    ContainsIff(s[a..b], t);
    var k :| OccursAt(s[a..b], t, k);
    var u := s[a..b];
    assert 0 <= k && k + |t| <= |u| == b - a;
    forall j | 0 <= j < |t| ensures s[a + k..a + k + |t|][j] == t[j] {
      assert t[j] == u[k..k + |t|][j] == u[k + j] == s[a + k + j];
    }
    assert s[a + k..a + k + |t|] == t;
    ContainsWitness(s, t, a + k);
  }

  /** A needle with a character the text lacks is not contained in it. */
  lemma AbsentChar(s: string, t: string, c: char)
    requires c in t && c !in s
    ensures !Contains(s, t)
  {
    ContainsIff(s, t);
  }

  /** A piece of an occurrence is itself an occurrence, shifted by its offset. */
  lemma OccursAtPiece(s: string, t: string, k: int, a: nat, b: nat)
    requires OccursAt(s, t, k) && a <= b <= |t|
    ensures OccursAt(s, t[a..b], k + a)
  {
    forall j | 0 <= j < b - a ensures s[k + a..k + b][j] == t[a..b][j] {
      assert s[k..k + |t|][a + j] == t[a + j];
    }
  }

  /** A piece of a contained needle is contained. */
  lemma ContainsPiece(s: string, t: string, a: nat, b: nat)
    requires Contains(s, t) && a <= b <= |t|
    ensures Contains(s, t[a..b])
  {
    ContainsIff(s, t);
    var k :| OccursAt(s, t, k);
    OccursAtPiece(s, t, k, a, b);
    ContainsWitness(s, t[a..b], k + a);
  }

  lemma ContainsSelf(s: string)
    ensures Contains(s, s)
  {
    assert OccursAt(s, s, 0);
    ContainsWitness(s, s, 0);
  }

  /** Character-wise reading of an occurrence: `t[j..]` lines up with `s`
      from position `i + j` on. */
  predicate AgreeFrom(s: string, t: string, i: nat, j: nat)
    decreases |t| - j
  {
    if j >= |t| then i + |t| <= |s| else i + j < |s| && s[i + j] == t[j] && AgreeFrom(s, t, i, j + 1)
  }

  /** Character-wise reading of `includes`, scanning positions from `i` on. */
  predicate ScanFrom(s: string, t: string, i: nat)
    decreases |s| - i
  {
    AgreeFrom(s, t, i, 0) || (i < |s| && ScanFrom(s, t, i + 1))
  }

  lemma {:induction false} AgreeFromIff(s: string, t: string, i: nat, j: nat)
    requires j <= |t|
    ensures AgreeFrom(s, t, i, j) <==> i + |t| <= |s| && s[i + j..i + |t|] == t[j..]
    decreases |t| - j
  {
    if j < |t| {
      AgreeFromIff(s, t, i, j + 1);
      assert t[j..] == [t[j]] + t[j + 1..];
      if i + |t| <= |s| {
        assert s[i + j..i + |t|] == [s[i + j]] + s[i + j + 1..i + |t|];
      }
    }
  }

  /** The character-wise scan and the slice-wise search agree. */
  lemma {:induction false} ScanFromIff(s: string, t: string, i: nat)
    ensures ScanFrom(s, t, i) <==> ContainsFrom(s, t, i)
    decreases |s| - i
  {
    AgreeFromIff(s, t, i, 0);
    if i < |s| {
      ScanFromIff(s, t, i + 1);
    } else {
      assert !ContainsFrom(s, t, i + 1);
    }
  }

  /** Lower-casing works character by character, so it distributes over concatenation. */
  lemma ToLowerAppend(a: string, b: string)
    ensures ToLower(a + b) == ToLower(a) + ToLower(b)
  {
    var r := ToLower(a + b);
    forall i | 0 <= i < |r| ensures r[i] == (ToLower(a) + ToLower(b))[i] {
      if i < |a| {
        assert (a + b)[i] == a[i];
      } else {
        assert (a + b)[i] == b[i - |a|];
      }
    }
  }

  /** `parts.join(sep)`. */
  function Join(parts: seq<string>, sep: string): (r: string)
    ensures |parts| == 1 ==> r == parts[0]
    ensures |parts| == 0 ==> r == ""
  {
    if |parts| == 0 then ""
    else if |parts| == 1 then parts[0]
    else parts[0] + sep + Join(parts[1..], sep)
  }

  /** Joining starts with the first part. */
  lemma JoinStartsWithFirst(parts: seq<string>, sep: string)
    requires |parts| > 0
    ensures StartsWith(Join(parts, sep), parts[0])
  {
  }

  /** Every part occurs in the joined string. */
  lemma {:induction false} JoinContainsEach(parts: seq<string>, sep: string, i: nat)
    requires i < |parts|
    ensures Contains(Join(parts, sep), parts[i])
  {
    var r := Join(parts, sep);
    if i == 0 {
      JoinStartsWithFirst(parts, sep);
      ContainsWitness(r, parts[0], 0);
    } else {
      var rest := Join(parts[1..], sep);
      JoinContainsEach(parts[1..], sep, i - 1);
      var a := |parts[0] + sep|;
      assert r == (parts[0] + sep) + rest;
      assert r[a..|r|] == rest;
      ContainsInfix(r, a, |r|, parts[i]);
    }
  }
}
