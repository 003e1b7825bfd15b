/** JavaScript string behaviour the pages rely on. */
module Js {
  import Strings

  /** A character `String.prototype.trim` removes. */
  predicate IsWhitespace(c: char) {
    Strings.IsSpace(Strings.JavaScript, c)
  }

  /** `s.trim()`. */
  function Trim(s: string): (r: string)
    ensures |r| <= |s|
  {
    Strings.Trim(Strings.JavaScript, s)
  }

  /** The trimmed string is empty exactly when every character is whitespace. */
  lemma TrimEmptyIffAllWhitespace(s: string)
    ensures Trim(s) == [] <==> forall i :: 0 <= i < |s| ==> IsWhitespace(s[i])
  {
    Strings.TrimEmptyIffAllSpace(Strings.JavaScript, s);
  }

  /** A string whose ends are not whitespace is its own trim. */
  lemma TrimUnpadded(s: string)
    requires s == [] || (!IsWhitespace(s[0]) && !IsWhitespace(s[|s| - 1]))
    ensures Trim(s) == s
  {
    Strings.TrimUnchanged(Strings.JavaScript, s);
  }
}
