/**
 * The two JavaScript string operations the pages use to normalise input:
 * String.prototype.trim and String.prototype.toUpperCase.
 */
module Text {

  /** ECMAScript WhiteSpace and LineTerminator code points: exactly what `trim` strips. */
  predicate IsWhitespace(c: char) {
    || c == '\t' || c == '\n' || c == '\U{000B}' || c == '\U{000C}' || c == '\r' || c == ' '
    || c == '\U{00A0}' || c == '\U{1680}' || ('\U{2000}' <= c <= '\U{200A}')
    || c == '\U{2028}' || c == '\U{2029}' || c == '\U{202F}' || c == '\U{205F}'
    || c == '\U{3000}' || c == '\U{FEFF}'
  }

  predicate AllWhitespace(s: string) {
    forall i :: 0 <= i < |s| ==> IsWhitespace(s[i])
  }

  predicate IsLowerAscii(c: char) { 'a' <= c <= 'z' }

  predicate HasNoLowercase(s: string) {
    forall i :: 0 <= i < |s| ==> !IsLowerAscii(s[i])
  }

  /** toUpperCase on one character (ASCII letters only) */
  function UpperChar(c: char): (u: char)
    ensures !IsLowerAscii(u)
    ensures IsWhitespace(u) <==> IsWhitespace(c)
  {
    if IsLowerAscii(c) then (c as int - 32) as char else c
  }

  /** toUpperCase: maps every character, so the length is kept */
  function Upper(s: string): (r: string)
    ensures |r| == |s|
    ensures forall i :: 0 <= i < |s| ==> r[i] == UpperChar(s[i])
    ensures HasNoLowercase(r)
  {
    if s == [] then [] else [UpperChar(s[0])] + Upper(s[1..])
  }

  /** Upper-casing a string without lower-case letters changes nothing */
  lemma UpperKeepsUppercase(s: string)
    requires HasNoLowercase(s)
    ensures Upper(s) == s
  {
  }

  /** Leading whitespace removed: the result is a suffix of s after an all-whitespace prefix */
  function TrimStart(s: string): (r: string)
    ensures |r| <= |s| && r == s[|s| - |r|..]
    ensures AllWhitespace(s[..|s| - |r|])
    ensures r == [] || !IsWhitespace(r[0])
  {
    if s != [] && IsWhitespace(s[0]) then TrimStart(s[1..]) else s
  }

  /** Trailing whitespace removed: the result is a prefix of s before an all-whitespace suffix */
  function TrimEnd(s: string): (r: string)
    ensures |r| <= |s| && r == s[..|r|]
    ensures AllWhitespace(s[|r|..])
    ensures r == [] || !IsWhitespace(r[|r| - 1])
  {
    if s != [] && IsWhitespace(s[|s| - 1]) then TrimEnd(s[..|s| - 1]) else s
  }

  function Trim(s: string): (r: string)
    ensures r == [] || (!IsWhitespace(r[0]) && !IsWhitespace(r[|r| - 1]))
  {
    TrimEnd(TrimStart(s))
  }

  /** `trim` keeps the slice of s between an all-whitespace prefix and an all-whitespace suffix */
  lemma TrimKeepsSlice(s: string)
    ensures exists a, b :: 0 <= a <= b <= |s| && Trim(s) == s[a..b] && AllWhitespace(s[..a]) && AllWhitespace(s[b..])
  {
    var t := TrimStart(s);
    var r := TrimEnd(t);
    var a := |s| - |t|;
    assert r == s[a..a + |r|] && s[a + |r|..] == t[|r|..];
  }

  /** `s.trim().toUpperCase()`, the normalisation the answer forms apply */
  function Normalize(s: string): (r: string)
    ensures HasNoLowercase(r) && |r| <= |s|
  {
    Upper(Trim(s))
  }

  lemma {:induction false} TrimStartPadded(w: string, u: string)
    requires AllWhitespace(w)
    requires u == [] || !IsWhitespace(u[0])
    ensures TrimStart(w + u) == u
  {
    if w != [] {
      assert (w + u)[1..] == w[1..] + u;
      TrimStartPadded(w[1..], u);
    } else {
      assert w + u == u;
    }
  }

  lemma {:induction false} TrimEndPadded(u: string, w: string)
    requires AllWhitespace(w)
    requires u == [] || !IsWhitespace(u[|u| - 1])
    ensures TrimEnd(u + w) == u
  {
    if w != [] {
      assert (u + w)[..|u + w| - 1] == u + w[..|w| - 1];
      TrimEndPadded(u, w[..|w| - 1]);
    } else {
      assert u + w == u;
    }
  }

  /** trim removes exactly the whitespace around a text whose ends are not whitespace */
  lemma TrimPadded(w1: string, t: string, w2: string)
    requires AllWhitespace(w1) && AllWhitespace(w2)
    requires t == [] || (!IsWhitespace(t[0]) && !IsWhitespace(t[|t| - 1]))
    ensures Trim(w1 + t + w2) == t
  {
    assert w1 + t + w2 == w1 + (t + w2);
    if t == [] {
      assert t + w2 == w2;
      TrimStartPadded(w1 + w2, []);
      assert w1 + w2 + [] == w1 + (t + w2);
      TrimEndPadded([], []);
    } else {
      TrimStartPadded(w1, t + w2);
      TrimEndPadded(t, w2);
    }
  }

  lemma TrimUnpadded(s: string)
    requires s == [] || (!IsWhitespace(s[0]) && !IsWhitespace(s[|s| - 1]))
    ensures Trim(s) == s
  {
    assert TrimStart(s) == s;
  }

  /** A string trims to the empty string exactly when it is all whitespace */
  lemma TrimEmptyIff(s: string)
    ensures Trim(s) == [] <==> AllWhitespace(s)
  {
    if AllWhitespace(s) {
      TrimPadded(s, [], []);
      assert s + [] + [] == s;
    }
  }

  /**
   * The normalised form of a padded answer, whatever its letter case, is its upper-case form
   * (provided that form does not itself start or end with whitespace).
   */
  lemma NormalizePadded(w1: string, t: string, w2: string)
    requires AllWhitespace(w1) && AllWhitespace(w2)
    requires Upper(t) == [] || (!IsWhitespace(Upper(t)[0]) && !IsWhitespace(Upper(t)[|t| - 1]))
    ensures Normalize(w1 + t + w2) == Upper(t)
  {
    TrimPadded(w1, t, w2);
  }
}
