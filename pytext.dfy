/**
 The Python string operations the brand clean-up uses: `str.strip()` with no
 argument, `str.split(",")[0]` and `str.replace(",", ".")`.
 */
module PyText {

  /** Python's `str.isspace()`: the characters `str.strip()` removes when given no argument. */
  predicate IsSpace(c: char)
  {
    ('\U{9}' <= c <= '\U{D}') || ('\U{1C}' <= c <= '\U{20}') || c == '\U{85}' || c == '\U{A0}'
    || c == '\U{1680}' || ('\U{2000}' <= c <= '\U{200A}') || c == '\U{2028}' || c == '\U{2029}'
    || c == '\U{202F}' || c == '\U{205F}' || c == '\U{3000}'
  }

  /** The number of white space characters `s.lstrip()` removes. */
  function LeadingSpace(s: string): (n: nat)
    ensures n <= |s|
    ensures forall k :: 0 <= k < n ==> IsSpace(s[k])
    ensures n < |s| ==> !IsSpace(s[n])
  {
    if |s| > 0 && IsSpace(s[0]) then 1 + LeadingSpace(s[1..]) else 0
  }

  /** The number of white space characters `s.rstrip()` removes. */
  function TrailingSpace(s: string): (n: nat)
    ensures n <= |s|
    ensures forall k :: |s| - n <= k < |s| ==> IsSpace(s[k])
    ensures n < |s| ==> !IsSpace(s[|s| - 1 - n])
  {
    if |s| > 0 && IsSpace(s[|s| - 1]) then 1 + TrailingSpace(s[..|s| - 1]) else 0
  }

  /** `s.strip()`: `s.lstrip()` and then `.rstrip()`. */
  function Strip(s: string): string
  {
    var t := s[LeadingSpace(s)..];
    t[..|t| - TrailingSpace(t)]
  }

  /**
   What `Strip` promises: the result is a slice `s[i..j]`, everything outside
   it is white space, and it neither starts nor ends with white space.
   */
  lemma StripBounds(s: string) returns (i: nat, j: nat)
    ensures i <= j <= |s| && Strip(s) == s[i..j]
    ensures forall k :: 0 <= k < i ==> IsSpace(s[k])
    ensures forall k :: j <= k < |s| ==> IsSpace(s[k])
    ensures i < j ==> !IsSpace(s[i]) && !IsSpace(s[j - 1])
  {
    i := LeadingSpace(s);
    var t := s[i..];
    var n := TrailingSpace(t);
    j := |s| - n;
    assert forall k :: j <= k < |s| ==> s[k] == t[k - i];
    assert t[..|t| - n] == s[i..j];
    if i < j {
      assert s[i] == t[0];
      assert s[j - 1] == t[|t| - 1 - n];
    }
  }

  /** `s.split(",")[0]`: everything before the first comma, or all of `s` when it has none. */
  function BeforeFirstComma(s: string): (r: string)
    ensures |r| <= |s| && r == s[..|r|]
    ensures ',' !in r
    ensures |r| < |s| ==> s[|r|] == ','
  {
    if s == [] || s[0] == ',' then [] else [s[0]] + BeforeFirstComma(s[1..])
  }

  /** `s.replace(",", ".")`: every comma becomes a dot and nothing else changes. */
  function ReplaceCommas(s: string): (r: string)
    ensures |r| == |s|
    ensures forall i :: 0 <= i < |s| ==> r[i] == (if s[i] == ',' then '.' else s[i])
  {
    if s == [] then [] else [if s[0] == ',' then '.' else s[0]] + ReplaceCommas(s[1..])
  }

  lemma {:induction false} ReplaceCommasAppend(x: string, y: string)
    ensures ReplaceCommas(x + y) == ReplaceCommas(x) + ReplaceCommas(y)
  {
    if x != [] {
      assert (x + y)[1..] == x[1..] + y;
      ReplaceCommasAppend(x[1..], y);
    } else {
      assert x + y == y;
    }
  }

  lemma {:induction false} ReplaceCommasNoComma(x: string)
    requires ',' !in x
    ensures ReplaceCommas(x) == x
  {
    if x != [] {
      assert x[0] in x;
      assert forall c :: c in x[1..] ==> c in x;
      ReplaceCommasNoComma(x[1..]);
    }
  }
}
