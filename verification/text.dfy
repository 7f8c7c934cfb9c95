/**
 The answer normalisation of the quiz: a typed line and an expected answer
 are compared after lower-casing and trimming both, as Go's
 `strings.TrimSpace(strings.ToLower(x))` does. Only ASCII is modelled:
 the upper-case letters A-Z and the six ASCII white-space characters.
 */
module Text {

  /** The ASCII characters `strings.TrimSpace` removes: space, tab,
      newline, vertical tab, form feed and carriage return. */
  predicate IsSpace(c: char) {
    c == ' ' || c == '\t' || c == '\n' || c == '\U{B}' || c == '\U{C}' || c == '\r'
  }

  predicate AllSpace(s: string) {
    forall i :: 0 <= i < |s| ==> IsSpace(s[i])
  }

  predicate IsUpper(c: char) {
    'A' <= c <= 'Z'
  }

  /** The distance between an upper-case ASCII letter and its lower-case partner. */
  const CaseGap: int := 'a' as int - 'A' as int

  function LowerChar(c: char): char {
    if IsUpper(c) then (c as int + CaseGap) as char else c
  }

  /** `strings.ToLower` on ASCII. */
  function ToLower(s: string): (r: string)
    ensures |r| == |s|
  {
    if |s| == 0 then [] else [LowerChar(s[0])] + ToLower(s[1..])
  }

  /** Lower-casing replaces each upper-case letter by its lower-case partner,
      keeps every other character in place, and leaves no upper-case letter. */
  lemma {:induction false} ToLowerSpec(s: string)
    ensures forall i :: 0 <= i < |s| ==> !IsUpper(ToLower(s)[i])
    ensures forall i :: 0 <= i < |s| ==> IsUpper(s[i]) ==> ToLower(s)[i] as int == s[i] as int + CaseGap
    ensures forall i :: 0 <= i < |s| ==> !IsUpper(s[i]) ==> ToLower(s)[i] == s[i]
  {
    if |s| > 0 {
      ToLowerSpec(s[1..]);
      assert forall i :: 0 < i < |s| ==> ToLower(s)[i] == ToLower(s[1..])[i - 1];
    }
  }

  /** The number of white-space characters that open `s`. */
  function LeadingSpace(s: string): (n: nat)
    ensures n <= |s|
  {
    if |s| == 0 || !IsSpace(s[0]) then 0 else 1 + LeadingSpace(s[1..])
  }

  /** The length of `s` once its white-space tail is cut off. */
  function TrailingStart(s: string): (m: nat)
    ensures m <= |s|
  {
    if |s| == 0 || !IsSpace(s[|s| - 1]) then |s| else TrailingStart(s[..|s| - 1])
  }

  /** `strings.TrimSpace`: drops the white space at both ends. */
  function TrimSpace(s: string): (r: string)
    ensures |r| <= |s|
  {
    var n := LeadingSpace(s);
    s[n..n + TrailingStart(s[n..])]
  }

  /** The leading run is all white space and stops at the first other character. */
  lemma {:induction false} LeadingSpaceSpec(s: string)
    ensures AllSpace(s[..LeadingSpace(s)])
    ensures LeadingSpace(s) < |s| ==> !IsSpace(s[LeadingSpace(s)])
  {
    if |s| > 0 && IsSpace(s[0]) {
      LeadingSpaceSpec(s[1..]);
      assert s[..LeadingSpace(s)] == [s[0]] + s[1..][..LeadingSpace(s[1..])];
    }
  }

  /** The cut-off tail is all white space and the kept part does not end in white space. */
  lemma {:induction false} TrailingStartSpec(s: string)
    ensures AllSpace(s[TrailingStart(s)..])
    ensures TrailingStart(s) > 0 ==> !IsSpace(s[TrailingStart(s) - 1])
  {
    if |s| > 0 && IsSpace(s[|s| - 1]) {
      var s' := s[..|s| - 1];
      TrailingStartSpec(s');
      assert s[TrailingStart(s)..] == s'[TrailingStart(s')..] + [s[|s| - 1]];
    }
  }

  /** `s` splits into a white-space head, the trimmed text and a white-space
      tail, and the trimmed text neither starts nor ends with white space. */
  lemma {:induction false} TrimSpaceSpec(s: string)
    ensures var n, r := LeadingSpace(s), TrimSpace(s);
            && n + |r| <= |s|
            && s == s[..n] + r + s[n + |r|..]
            && AllSpace(s[..n])
            && AllSpace(s[n + |r|..])
            && Trimmed(r)
  {
    var n := LeadingSpace(s);
    var t := s[n..];
    var m := TrailingStart(t);
    var r := TrimSpace(s);
    assert r == t[..m];
    LeadingSpaceSpec(s);
    TrailingStartSpec(t);
    assert s[n + m..] == t[m..];
    if m > 0 {
      assert r[0] == s[n];
      assert r[m - 1] == t[m - 1];
    }
    SplitAt(s, n, n + m);
  }

  lemma SplitAt(s: string, i: nat, j: nat)
    requires i <= j <= |s|
    ensures s == s[..i] + s[i..j] + s[j..]
  {
  }

  /** The key both sides of an answer comparison are reduced to, as the
      program computes it: `strings.TrimSpace(strings.ToLower(s))`. */
  function Normalize(s: string): string {
    TrimSpace(ToLower(s))
  }

  /** `Normalize` unfolded one character at a time: peel white space off
      either end, then lower-case what remains. */
  function Key(s: string): string
    decreases |s|
  {
    if |s| > 0 && IsSpace(s[0]) then Key(s[1..])
    else if |s| > 0 && IsSpace(s[|s| - 1]) then Key(s[..|s| - 1])
    else ToLower(s)
  }

  /** A typed line counts as the expected answer exactly when both normalise
      alike. The rule is `Normalize`, the program's own expression; it is
      written here through `Key`, its recursive form, because a definition
      that unfolds one character per step keeps proofs about whole attempts
      small. `KeyIsNormalize` shows the two are equal, and `MatchesIff`
      states this predicate in terms of `Normalize` directly. */
  predicate Matches(line: string, expected: string) {
    Key(line) == Key(expected)
  }

  /** A string with no white-space at either end. */
  predicate Trimmed(t: string) {
    |t| > 0 ==> !IsSpace(t[0]) && !IsSpace(t[|t| - 1])
  }

  lemma AllSpaceAppend(a: string, b: string)
    requires AllSpace(a) && AllSpace(b)
    ensures AllSpace(a + b)
  {
  }

  /** Trimming is determined by its specification: whatever white space
      surrounds a trimmed string, trimming gives back exactly that string. */
  lemma {:induction false} TrimSpaceUnique(a: string, t: string, b: string)
    requires AllSpace(a) && AllSpace(b) && Trimmed(t)
    ensures TrimSpace(a + t + b) == t
  {
    var s := a + t + b;
    var n := LeadingSpace(s);
    var r := TrimSpace(s);
    TrimSpaceSpec(s);
    if |t| == 0 {
      assert s == a + b;
      AllSpaceAppend(a, b);
      LeadingSpaceSpec(s);
      assert n == |s|;
    } else {
      assert s[|a|] == t[0];
      assert n == |a|;
      assert |r| > 0;
      var last := |a| + |t| - 1;
      assert s[last] == t[|t| - 1];
      assert n + |r| - 1 == last;
      assert r == s[n..n + |r|];
      assert s[n..n + |r|] == t;
    }
  }

  lemma {:induction false} ToLowerAppend(a: string, b: string)
    ensures ToLower(a + b) == ToLower(a) + ToLower(b)
  {
    var l, r := ToLower(a + b), ToLower(a) + ToLower(b);
    ToLowerSpec(a + b);
    ToLowerSpec(a);
    ToLowerSpec(b);
    forall i | 0 <= i < |a + b|
      ensures l[i] == r[i]
    {
      if i < |a| {
        assert (a + b)[i] == a[i];
        assert r[i] == ToLower(a)[i];
      } else {
        assert (a + b)[i] == b[i - |a|];
        assert r[i] == ToLower(b)[i - |a|];
      }
    }
  }

  /** Lower-casing keeps white space where it was and creates none. */
  lemma ToLowerKeepsSpace(s: string)
    ensures AllSpace(s) <==> AllSpace(ToLower(s))
    ensures Trimmed(s) <==> Trimmed(ToLower(s))
  {
    ToLowerSpec(s);
  }

  /** Lower-casing a string with no upper-case letter leaves it unchanged. */
  lemma ToLowerIdentity(s: string)
    requires forall i :: 0 <= i < |s| ==> !IsUpper(s[i])
    ensures ToLower(s) == s
  {
    ToLowerSpec(s);
  }

  /** The two steps of the normalisation commute: lower-casing then
      trimming gives the same key as trimming then lower-casing. */
  lemma NormalizeCommutes(s: string)
    ensures Normalize(s) == ToLower(TrimSpace(s))
  {
    var n := LeadingSpace(s);
    var t := TrimSpace(s);
    var a, b := s[..n], s[n + |t|..];
    TrimSpaceSpec(s);
    ToLowerAppend(a + t, b);
    ToLowerAppend(a, t);
    ToLowerKeepsSpace(a);
    ToLowerKeepsSpace(b);
    ToLowerKeepsSpace(t);
    TrimSpaceUnique(ToLower(a), ToLower(t), ToLower(b));
  }

  lemma Regroup(a: string, a': string, t: string, b': string, b: string)
    ensures a + (a' + t + b') + b == (a + a') + t + (b' + b)
  {
  }

  /** White space added around a string does not change what trimming keeps. */
  lemma TrimSpacePadded(a: string, s: string, b: string)
    requires AllSpace(a) && AllSpace(b)
    ensures TrimSpace(a + s + b) == TrimSpace(s)
  {
    var n := LeadingSpace(s);
    var t := TrimSpace(s);
    var a', b' := s[..n], s[n + |t|..];
    TrimSpaceSpec(s);
    assert Trimmed(t) && AllSpace(a') && AllSpace(b');
    assert s == a' + t + b';
    Regroup(a, a', t, b', b);
    AllSpaceAppend(a, a');
    AllSpaceAppend(b', b);
    TrimSpaceUnique(a + a', t, b' + b);
  }

  /** A white-space character at the front does not change the key. */
  lemma NormalizeDropsFirst(s: string)
    requires |s| > 0 && IsSpace(s[0])
    ensures Normalize(s) == Normalize(s[1..])
  {
    NormalizeCommutes(s);
    NormalizeCommutes(s[1..]);
    assert s == [s[0]] + s[1..] + [];
    TrimSpacePadded([s[0]], s[1..], []);
  }

  /** A white-space character at the back does not change the key. */
  lemma NormalizeDropsLast(s: string)
    requires |s| > 0 && IsSpace(s[|s| - 1])
    ensures Normalize(s) == Normalize(s[..|s| - 1])
  {
    NormalizeCommutes(s);
    NormalizeCommutes(s[..|s| - 1]);
    assert s == [] + s[..|s| - 1] + [s[|s| - 1]];
    TrimSpacePadded([], s[..|s| - 1], [s[|s| - 1]]);
  }

  /** The key of a string without surrounding white space is its lower-casing. */
  lemma NormalizeTrimmed(s: string)
    requires Trimmed(s)
    ensures Normalize(s) == ToLower(s)
  {
    NormalizeCommutes(s);
    assert s == [] + s + [];
    TrimSpaceUnique([], s, []);
  }

  /** Peeling white space off either end and then lower-casing is exactly
      the program's normalisation. */
  lemma {:induction false} KeyIsNormalize(s: string)
    ensures Key(s) == Normalize(s)
    decreases |s|
  {
    if |s| > 0 && IsSpace(s[0]) {
      KeyIsNormalize(s[1..]);
      NormalizeDropsFirst(s);
    } else if |s| > 0 && IsSpace(s[|s| - 1]) {
      KeyIsNormalize(s[..|s| - 1]);
      NormalizeDropsLast(s);
    } else {
      NormalizeTrimmed(s);
    }
  }

  /** Matching is equality of the program's normalised texts; equivalently,
      of the trimmed texts once lower-cased, so any difference inside the
      text, white space included, makes the answer wrong. */
  lemma MatchesIff(line: string, expected: string)
    ensures Matches(line, expected) <==> Normalize(line) == Normalize(expected)
    ensures Matches(line, expected) <==> ToLower(TrimSpace(line)) == ToLower(TrimSpace(expected))
  {
    KeyIsNormalize(line);
    KeyIsNormalize(expected);
    NormalizeCommutes(line);
    NormalizeCommutes(expected);
  }

  /** Matching ignores the white space around the typed line, including the
      line terminator a line read keeps. */
  lemma MatchIgnoresPadding(a: string, line: string, b: string, expected: string)
    requires AllSpace(a) && AllSpace(b)
    ensures Matches(a + line + b, expected) <==> Matches(line, expected)
  {
    TrimSpacePadded(a, line, b);
    MatchesIff(a + line + b, expected);
    MatchesIff(line, expected);
  }

  /** Matching ignores letter case: lines that lower-case alike match. */
  lemma MatchIgnoresCase(line: string, expected: string)
    requires ToLower(line) == ToLower(expected)
    ensures Matches(line, expected)
  {
    MatchesIff(line, expected);
  }

  /** Normalising twice gives the same key as normalising once, so the
      key of a key is itself. */
  lemma NormalizeIdempotent(s: string)
    ensures Normalize(Normalize(s)) == Normalize(s)
    ensures Key(Key(s)) == Key(s)
  {
    var k := Normalize(s);
    ToLowerSpec(s);
    TrimSpaceSpec(ToLower(s));
    ToLowerIdentity(k);
    TrimSpaceUnique([], k, []);
    assert [] + k + [] == k;
    KeyIsNormalize(s);
    KeyIsNormalize(k);
  }

  /** The expected answer "Paris" accepts the typed line " paris \n". */
  lemma ParisExample()
    ensures Matches(" paris \n", "Paris")
  {
    assert " paris \n" == " " + "paris" + " \n";
    MatchIgnoresPadding(" ", "paris", " \n", "Paris");
    MatchIgnoresCase("paris", "Paris");
  }
}
