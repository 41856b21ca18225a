/** The two .NET string services the game engine relies on: upper-casing
    (`string.ToUpper`, `char.ToUpper`) and blank detection
    (`string.IsNullOrWhiteSpace`). Upper-casing is modelled on the ASCII
    letters only. */
module Text {

  /** `char.ToUpper` restricted to ASCII: 'a'..'z' become 'A'..'Z', every
      other character is left alone. */
  function UpperChar(c: char): (u: char)
    ensures 'A' <= u <= 'Z' <==> ('A' <= c <= 'Z' || 'a' <= c <= 'z')
    ensures !('a' <= u <= 'z')
  {
    if 'a' <= c <= 'z' then (c as int - 32) as char else c
  }

  /** A string is upper case when upper-casing leaves every character alone. */
  predicate IsUpper(s: string) {
    forall i :: 0 <= i < |s| ==> UpperChar(s[i]) == s[i]
  }

  /** `string.ToUpper`: the result is upper case, has the input's length and
      agrees with it position by position up to case. */
  function Upper(s: string): (u: string)
    ensures |u| == |s| && IsUpper(u)
    ensures forall i :: 0 <= i < |s| ==> u[i] == UpperChar(s[i])
  {
    seq(|s|, i requires 0 <= i < |s| => UpperChar(s[i]))
  }

  /** `char.IsWhiteSpace`: the Unicode space, line and paragraph separators,
      the control characters U+0009 to U+000D, and U+0085. */
  predicate IsWhiteSpace(c: char) {
    c == ' ' || '\t' <= c <= '\r' || c == '\U{85}' || c == '\U{A0}' || c == '\U{1680}'
    || '\U{2000}' <= c <= '\U{200A}' || c == '\U{2028}' || c == '\U{2029}'
    || c == '\U{202F}' || c == '\U{205F}' || c == '\U{3000}'
  }

  /** `string.IsNullOrWhiteSpace` on a present string: empty or only white space. */
  predicate IsNullOrWhiteSpace(s: string): (b: bool)
    ensures s == "" ==> b
    ensures b ==> forall i :: 0 <= i < |s| ==> !('A' <= s[i] <= 'Z' || 'a' <= s[i] <= 'z')
  {
    forall i :: 0 <= i < |s| ==> IsWhiteSpace(s[i])
  }

  /** Upper-casing an upper-case string gives it back unchanged. */
  lemma UpperOfUpper(s: string)
    requires IsUpper(s)
    ensures Upper(s) == s
  {
    assert forall i :: 0 <= i < |s| ==> Upper(s)[i] == s[i];
  }

  /** Upper-casing commutes with appending one character. */
  lemma UpperAppend(s: string, c: char)
    ensures Upper(s + [c]) == Upper(s) + [UpperChar(c)]
  {
    assert forall i :: 0 <= i < |s| ==> (s + [c])[i] == s[i];
  }

  /** Upper-casing never turns a blank string into a non-blank one or back,
      since no white-space character is an ASCII letter. */
  lemma UpperKeepsBlankness(s: string)
    ensures IsNullOrWhiteSpace(Upper(s)) <==> IsNullOrWhiteSpace(s)
  {
    assert forall i :: 0 <= i < |s| ==> (IsWhiteSpace(s[i]) <==> IsWhiteSpace(Upper(s)[i]));
  }
}
