/** The few JavaScript value and string operations the page's logic relies on:
    a possibly-null string, `String.prototype.trim`, `toLowerCase` and the
    text a template literal substitutes for a value. */
module JsText {

  /** A value that may be JavaScript `null` (what `FormData.get` and
      `getAttribute` return for a missing entry). */
  datatype Option<T> = None | Some(value: T)

  /** The text `${v}` produces inside a template literal: `null` prints as "null". */
  function TemplateText(v: Option<string>): string
  {
    match v
    case None => "null"
    case Some(s) => s
  }

  /** ECMAScript WhiteSpace and LineTerminator code points: the characters `trim` removes. */
  predicate IsJsSpace(c: char)
  {
    c == '\t' || c == '\n' || c == '\U{000B}' || c == '\U{000C}' || c == '\r' || c == ' ' ||
    c == '\U{00A0}' || c == '\U{1680}' || ('\U{2000}' <= c <= '\U{200A}') ||
    c == '\U{2028}' || c == '\U{2029}' || c == '\U{202F}' || c == '\U{205F}' ||
    c == '\U{3000}' || c == '\U{FEFF}'
  }

  /** Every character of `s` is one `trim` removes. */
  predicate AllSpace(s: string)
  {
    forall i | 0 <= i < |s| :: IsJsSpace(s[i])
  }

  lemma AllSpaceConcat(a: string, b: string)
    requires AllSpace(a) && AllSpace(b)
    ensures AllSpace(a + b)
  {
    assert forall i | 0 <= i < |a + b| :: (a + b)[i] == if i < |a| then a[i] else b[i - |a|];
  }

  /** The number of spaces `s` starts with. */
  function LeadingSpaces(s: string): (n: nat)
    ensures n <= |s|
    ensures AllSpace(s[..n])
    ensures n == |s| || !IsJsSpace(s[n])
  {
    if s != [] && IsJsSpace(s[0]) then
      var k := LeadingSpaces(s[1..]);
      assert s[..k + 1] == [s[0]] + s[1..][..k];
      AllSpaceConcat([s[0]], s[1..][..k]);
      assert k + 1 < |s| ==> s[k + 1] == s[1..][k];
      k + 1
    else
      0
  }

  /** The number of spaces `s` ends with. */
  function TrailingSpaces(s: string): (n: nat)
    ensures n <= |s|
    ensures AllSpace(s[|s| - n..])
    ensures n == |s| || !IsJsSpace(s[|s| - n - 1])
  {
    if s != [] && IsJsSpace(s[|s| - 1]) then
      var front := s[..|s| - 1];
      var k := TrailingSpaces(front);
      assert s[|s| - (k + 1)..] == front[|front| - k..] + [s[|s| - 1]];
      AllSpaceConcat(front[|front| - k..], [s[|s| - 1]]);
      assert k + 1 < |s| ==> s[|s| - (k + 1) - 1] == front[|front| - k - 1];
      k + 1
    else
      0
  }

  /** Removes the longest all-space prefix. */
  function TrimStart(s: string): (r: string)
    ensures |r| <= |s| && r == s[|s| - |r|..]
    ensures AllSpace(s[..|s| - |r|])
    ensures r == [] || !IsJsSpace(r[0])
  {
    s[LeadingSpaces(s)..]
  }

  /** Removes the longest all-space suffix. */
  function TrimEnd(s: string): (r: string)
    ensures |r| <= |s| && r == s[..|r|]
    ensures AllSpace(s[|r|..])
    ensures r == [] || !IsJsSpace(r[|r| - 1])
  {
    s[..|s| - TrailingSpaces(s)]
  }

  /** `s.trim()`: the slice of `s` that starts after its leading spaces and
      leaves out its trailing ones, which are all space. */
  function Trim(s: string): (r: string)
    ensures LeadingSpaces(s) + |r| <= |s|
    ensures r == s[LeadingSpaces(s)..LeadingSpaces(s) + |r|]
    ensures AllSpace(s[LeadingSpaces(s) + |r|..])
    ensures r == [] || (!IsJsSpace(r[0]) && !IsJsSpace(r[|r| - 1]))
  {
    var n := LeadingSpaces(s);
    var t := s[n..];
    var r := TrimEnd(t);
    assert t[|r|..] == s[n + |r|..];
    r
  }

  /** A string that neither starts nor ends with a space is its own trim. */
  lemma TrimUnchanged(s: string)
    requires s == [] || (!IsJsSpace(s[0]) && !IsJsSpace(s[|s| - 1]))
    ensures Trim(s) == s
  {
  }

  /** `trim` yields the empty string exactly on all-space input. */
  lemma TrimEmptyIffAllSpace(s: string)
    ensures Trim(s) == [] <==> AllSpace(s)
  {
    var n := LeadingSpaces(s);
    if Trim(s) == [] {
      assert s == s[..n] + s[n..];
      AllSpaceConcat(s[..n], s[n..]);
    }
    if AllSpace(s) {
      AllLeading(s);
    }
  }

  lemma AllLeading(s: string)
    requires AllSpace(s)
    ensures LeadingSpaces(s) == |s|
  {
  }

  /** How many UTF-16 code units a character takes: two for one above U+FFFF. */
  function CodeUnits(c: char): nat
  {
    if c as int > 0xFFFF then 2 else 1
  }

  /** `s.length`: JavaScript counts UTF-16 code units, so a character outside the Basic
      Multilingual Plane counts twice. */
  function JsLength(s: string): (n: nat)
    ensures |s| <= n <= 2 * |s|
    ensures (forall i | 0 <= i < |s| :: s[i] as int <= 0xFFFF) ==> n == |s|
  {
    if s == [] then 0 else CodeUnits(s[0]) + JsLength(s[1..])
  }

  /** A character above U+FFFF is two code units, any other one. */
  lemma JsLengthOfChar(c: char)
    ensures JsLength([c]) == if c as int > 0xFFFF then 2 else 1
  {
    assert [c][1..] == [];
  }

  /** The length of a concatenation is the sum of the lengths. */
  lemma {:induction false} JsLengthConcat(s: string, t: string)
    ensures JsLength(s + t) == JsLength(s) + JsLength(t)
  {
    if s != [] {
      assert (s + t)[0] == s[0] && (s + t)[1..] == s[1..] + t;
      JsLengthConcat(s[1..], t);
    } else {
      assert s + t == t;
    }
  }

  /** `toLowerCase` on one character; only the ASCII letters are mapped. */
  function LowerChar(c: char): char
  {
    if 'A' <= c <= 'Z' then (c as int + 32) as char else c
  }

  /** `s.toLowerCase()`, character by character. */
  function ToLower(s: string): (r: string)
    ensures |r| == |s|
    ensures forall i | 0 <= i < |s| :: r[i] == LowerChar(s[i])
  {
    if s == [] then [] else [LowerChar(s[0])] + ToLower(s[1..])
  }

  /** Lower-casing twice is lower-casing once. */
  lemma ToLowerIdempotent(s: string)
    ensures ToLower(ToLower(s)) == ToLower(s)
  {
    assert forall i | 0 <= i < |s| :: ToLower(ToLower(s))[i] == ToLower(s)[i];
  }

  /** Lower-casing never turns a non-space into a space or back. */
  lemma LowerCharKeepsSpace(c: char)
    ensures IsJsSpace(LowerChar(c)) <==> IsJsSpace(c)
  {
  }
}
