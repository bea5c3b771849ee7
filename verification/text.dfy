/**
 The search widget's string matcher `includes(a, b)`: both strings are
 lower-cased, every whitespace character is removed, and the result tells
 whether the normalised `b` occurs inside the normalised `a`.
 */
module Text {

  /** The characters the ECMAScript regular-expression class `\s` matches. */
  predicate IsSpace(c: char) {
    || c == ' ' || c == '\t' || c == '\n' || c == '\r'
    || c == '\U{000B}' || c == '\U{000C}' || c == '\U{00A0}' || c == '\U{1680}'
    || ('\U{2000}' <= c <= '\U{200A}')
    || c == '\U{2028}' || c == '\U{2029}' || c == '\U{202F}' || c == '\U{205F}'
    || c == '\U{3000}' || c == '\U{FEFF}'
  }

  predicate AllSpace(s: string) {
    forall i :: 0 <= i < |s| ==> IsSpace(s[i])
  }

  predicate IsUpper(c: char) {
    'A' <= c <= 'Z'
  }

  /** Lower-cases one character; only the ASCII capitals are mapped. */
  function LowerChar(c: char): char {
    if IsUpper(c) then (c as int - 'A' as int + 'a' as int) as char else c
  }

  /** `String.prototype.toLowerCase`, over ASCII capitals. */
  function ToLower(s: string): string {
    seq(|s|, i requires 0 <= i < |s| => LowerChar(s[i]))
  }

  /** `s.replace(/\s+/g, "")`: every whitespace character removed. */
  function StripSpace(s: string): (r: string)
    ensures |r| <= |s|
    ensures forall i :: 0 <= i < |r| ==> !IsSpace(r[i])
    ensures forall c :: c in r ==> c in s
  {
    if s == [] then []
    else (if IsSpace(s[0]) then [] else [s[0]]) + StripSpace(s[1..])
  }

  /** The form both arguments of `includes` are brought to before comparing. */
  function Normalize(s: string): (r: string)
    ensures forall i :: 0 <= i < |r| ==> !IsSpace(r[i]) && !IsUpper(r[i])
  {
    var lower := ToLower(s);
    assert forall c :: c in lower ==> !IsUpper(c);
    StripSpace(lower)
  }

  predicate StartsWith(s: string, prefix: string) {
    |prefix| <= |s| && s[..|prefix|] == prefix
  }

  /** `String.prototype.includes`: tries every start position from the left. */
  predicate Contains(hay: string, needle: string)
    decreases |hay|
  {
    StartsWith(hay, needle) || (hay != [] && Contains(hay[1..], needle))
  }

  /** `needle` occurs in `hay` starting at index `i`. */
  ghost predicate OccursAt(hay: string, needle: string, i: int) {
    0 <= i && i + |needle| <= |hay| && hay[i..i + |needle|] == needle
  }

  /** The matcher of the search widget. */
  predicate Includes(a: string, b: string) {
    Contains(Normalize(a), Normalize(b))
  }

  // ---------------------------------------------------------------------
  // Substring search

  /** The left-to-right scan finds the needle exactly when it occurs somewhere. */
  lemma {:induction false} ContainsIff(hay: string, needle: string)
    ensures Contains(hay, needle) <==> exists i :: OccursAt(hay, needle, i)
    decreases |hay|
  {
    if StartsWith(hay, needle) {
      assert OccursAt(hay, needle, 0);
    } else if hay == [] {
    } else {
      ContainsIff(hay[1..], needle);
      if exists i :: OccursAt(hay[1..], needle, i) {
        var i :| OccursAt(hay[1..], needle, i);
        assert hay[i + 1..i + 1 + |needle|] == hay[1..][i..i + |needle|];
        assert OccursAt(hay, needle, i + 1);
      }
      if exists i :: OccursAt(hay, needle, i) {
        var i :| OccursAt(hay, needle, i);
        assert i != 0;
        assert hay[1..][i - 1..i - 1 + |needle|] == hay[i..i + |needle|];
        assert OccursAt(hay[1..], needle, i - 1);
      }
    }
  }

  /** Occurrence is transitive: a substring of a substring is a substring. */
  lemma ContainsTransitive(a: string, b: string, c: string)
    requires Contains(a, b) && Contains(b, c)
    ensures Contains(a, c)
  {
    ContainsIff(a, b);
    ContainsIff(b, c);
    var i :| OccursAt(a, b, i);
    var j :| OccursAt(b, c, j);
    forall k | 0 <= k < |c|
      ensures a[i + j + k] == c[k]
    {
      assert b[j + k] == c[k];
      assert a[i + j + k] == b[j + k];
    }
    assert a[i + j..i + j + |c|] == c;
    assert OccursAt(a, c, i + j);
    ContainsIff(a, c);
  }

  // ---------------------------------------------------------------------
  // Normalisation

  lemma {:induction false} StripSpaceAppend(a: string, b: string)
    ensures StripSpace(a + b) == StripSpace(a) + StripSpace(b)
    decreases |a|
  {
    if a == [] {
      assert a + b == b;
    } else {
      assert (a + b)[1..] == a[1..] + b;
      StripSpaceAppend(a[1..], b);
    }
  }

  /** A string without whitespace is left as it is. */
  lemma {:induction false} StripSpaceOfSpaceless(s: string)
    requires forall i :: 0 <= i < |s| ==> !IsSpace(s[i])
    ensures StripSpace(s) == s
    decreases |s|
  {
    if s != [] {
      StripSpaceOfSpaceless(s[1..]);
    }
  }

  /** Only whitespace is removed entirely, and nothing else is. */
  lemma {:induction false} StripSpaceEmptyIff(s: string)
    ensures StripSpace(s) == [] <==> AllSpace(s)
    decreases |s|
  {
    if s != [] {
      StripSpaceEmptyIff(s[1..]);
      if !IsSpace(s[0]) {
        assert StripSpace(s)[0] == s[0];
      }
    }
  }

  lemma ToLowerIdempotent(s: string)
    ensures ToLower(ToLower(s)) == ToLower(s)
  {
  }

  /** Lower-casing never creates nor destroys whitespace, so the source's
      order (lower-case, then strip) is immaterial. */
  lemma {:induction false} StripSpaceToLowerCommute(s: string)
    ensures StripSpace(ToLower(s)) == ToLower(StripSpace(s))
    decreases |s|
  {
    if s != [] {
      StripSpaceToLowerCommute(s[1..]);
      assert ToLower(s)[1..] == ToLower(s[1..]);
      assert ToLower(s) == [LowerChar(s[0])] + ToLower(s[1..]);
      var rest := StripSpace(s[1..]);
      assert IsSpace(LowerChar(s[0])) == IsSpace(s[0]) by { LowerCharKeepsSpace(s[0]); }
      if IsSpace(s[0]) {
        assert StripSpace(s) == rest;
      } else {
        assert StripSpace(s) == [s[0]] + rest;
        assert ToLower([s[0]] + rest) == [LowerChar(s[0])] + ToLower(rest);
      }
    }
  }

  lemma LowerCharKeepsSpace(c: char)
    ensures IsSpace(LowerChar(c)) == IsSpace(c)
  {
    if IsUpper(c) {
      assert !IsSpace(c) && !IsSpace(LowerChar(c));
    }
  }

  lemma NormalizeIdempotent(s: string)
    ensures Normalize(Normalize(s)) == Normalize(s)
  {
    var n := Normalize(s);
    assert ToLower(n) == n;
    StripSpaceOfSpaceless(n);
  }

  // ---------------------------------------------------------------------
  // Properties of the matcher

  /** `includes(a, b)` holds iff the normalised `b` occurs somewhere in the normalised `a`. */
  lemma IncludesIff(a: string, b: string)
    ensures Includes(a, b) <==> exists i :: OccursAt(Normalize(a), Normalize(b), i)
  {
    ContainsIff(Normalize(a), Normalize(b));
  }

  /** An empty or whitespace-only query matches every string. */
  lemma IncludesBlank(a: string, b: string)
    requires AllSpace(b)
    ensures Includes(a, b)
  {
    StripSpaceToLowerCommute(b);
    StripSpaceEmptyIff(b);
    assert Normalize(b) == [];
    assert StartsWith(Normalize(a), Normalize(b));
  }

  /** Matching ignores letter case on both sides. */
  lemma IncludesIgnoresCase(a: string, b: string)
    ensures Includes(ToLower(a), ToLower(b)) == Includes(a, b)
  {
    ToLowerIdempotent(a);
    ToLowerIdempotent(b);
  }

  /** Matching ignores whitespace on both sides. */
  lemma IncludesIgnoresSpace(a: string, b: string)
    ensures Includes(StripSpace(a), StripSpace(b)) == Includes(a, b)
  {
    forall s | true
      ensures Normalize(StripSpace(s)) == Normalize(s)
    {
      StripSpaceToLowerCommute(StripSpace(s));
      StripSpaceToLowerCommute(s);
      StripSpaceOfSpaceless(StripSpace(s));
    }
  }

  /** Every string matches itself. */
  lemma IncludesReflexive(a: string)
    ensures Includes(a, a)
  {
    var n := Normalize(a);
    assert n[..|n|] == n;
  }

  /** A string matched by a string matched by `a` is matched by `a`. */
  lemma IncludesTransitive(a: string, b: string, c: string)
    requires Includes(a, b) && Includes(b, c)
    ensures Includes(a, c)
  {
    NormalizeIdempotent(b);
    ContainsTransitive(Normalize(a), Normalize(b), Normalize(c));
  }
}
