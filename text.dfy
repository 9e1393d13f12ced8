/** The two pieces of Go's `strings` package the rewrite engine relies on:
    `ToUpper` (custom values are upper-cased before they are written) and
    `EqualFold` (the delete list is matched case-insensitively). Both are modelled
    for ASCII letters only; every other character is its own case. */
module Text {

  predicate IsLower(c: char)
  {
    'a' <= c <= 'z'
  }

  function UpperChar(c: char): (r: char)
    ensures !IsLower(r)
    ensures IsLower(c) ==> r as int == c as int - 32
    ensures !IsLower(c) ==> r == c
  {
    if IsLower(c) then (c as int - 32) as char else c
  }

  /** `strings.ToUpper`, ASCII letters only. */
  function ToUpper(s: string): (r: string)
    ensures |r| == |s|
    ensures forall i :: 0 <= i < |s| ==> r[i] == UpperChar(s[i])
  {
    if s == [] then [] else [UpperChar(s[0])] + ToUpper(s[1..])
  }

  /** `strings.EqualFold`, ASCII letters only: equal length and equal letter by
      letter up to case. */
  predicate EqualFold(s: string, t: string)
  {
    if s == [] then t == []
    else t != [] && UpperChar(s[0]) == UpperChar(t[0]) && EqualFold(s[1..], t[1..])
  }

  /** Case-insensitive equality is equality of the upper-cased strings. */
  lemma {:induction false} EqualFoldIsUpperEquality(s: string, t: string)
    ensures EqualFold(s, t) <==> ToUpper(s) == ToUpper(t)
  {
    if s != [] && t != [] {
      EqualFoldIsUpperEquality(s[1..], t[1..]);
      assert ToUpper(s) == [UpperChar(s[0])] + ToUpper(s[1..]);
      assert ToUpper(t) == [UpperChar(t[0])] + ToUpper(t[1..]);
      if ToUpper(s) == ToUpper(t) {
        assert ToUpper(s)[1..] == ToUpper(s[1..]);
        assert ToUpper(t)[1..] == ToUpper(t[1..]);
      }
    }
  }

  /** A string matches itself, and matching does not depend on the order of the
      two arguments. */
  lemma {:induction false} EqualFoldReflexiveSymmetric(s: string, t: string)
    ensures EqualFold(s, s)
    ensures EqualFold(s, t) == EqualFold(t, s)
  {
    EqualFoldIsUpperEquality(s, s);
    EqualFoldIsUpperEquality(s, t);
    EqualFoldIsUpperEquality(t, s);
  }
}
