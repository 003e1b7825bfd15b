/**
 * String operations shared by the client and the server models, over
 * `string` (a sequence of Unicode scalar values). JavaScript and Python
 * disagree on what whitespace is, so the trimming functions take the
 * convention to follow.
 */
module Strings {

  /** Whose idea of whitespace a trim follows. */
  datatype Convention = JavaScript | Python

  /**
   * `c` is whitespace under the convention. JavaScript's `trim` removes
   * ECMAScript WhiteSpace and LineTerminator: tab to carriage return, space,
   * no-break space, Ogham space mark, en quad to hair space, line and
   * paragraph separators, narrow no-break space, medium mathematical space,
   * ideographic space and the byte order mark. Python (`str.isspace`,
   * `str.strip`, `str.split`, the class `\s`) is restricted here to ASCII:
   * tab to carriage return, the separators 0x1C to 0x1F, and space.
   */
  predicate IsSpace(convention: Convention, c: char) {
    match convention
    case JavaScript =>
      ('\t' <= c <= '\r') || c == ' ' || c == '\U{A0}' || c == '\U{1680}' ||
      ('\U{2000}' <= c <= '\U{200A}') || c == '\U{2028}' || c == '\U{2029}' ||
      c == '\U{202F}' || c == '\U{205F}' || c == '\U{3000}' || c == '\U{FEFF}'
    case Python =>
      ('\t' <= c <= '\r') || ('\U{1C}' <= c <= ' ')
  }

  /** Python's whitespace on ASCII is exactly these ten characters. */
  lemma PythonSpaces(c: char)
    ensures IsSpace(Python, c) <==>
            c in ['\t', '\n', '\U{B}', '\U{C}', '\r', '\U{1C}', '\U{1D}', '\U{1E}', '\U{1F}', ' ']
  {
  }

  /** JavaScript's whitespace is exactly these twenty-five characters. */
  lemma JavaScriptSpaces(c: char)
    ensures IsSpace(JavaScript, c) <==>
            c in ['\t', '\n', '\U{B}', '\U{C}', '\r', ' ', '\U{A0}', '\U{1680}',
                  '\U{2000}', '\U{2001}', '\U{2002}', '\U{2003}', '\U{2004}', '\U{2005}',
                  '\U{2006}', '\U{2007}', '\U{2008}', '\U{2009}', '\U{200A}',
                  '\U{2028}', '\U{2029}', '\U{202F}', '\U{205F}', '\U{3000}', '\U{FEFF}']
  {
  }

  /** `s` begins with `prefix` (JavaScript `startsWith`, Python `startswith`). */
  predicate StartsWith(s: string, prefix: string) {
    |prefix| <= |s| && s[..|prefix|] == prefix
  }

  /** `sub` occurs in `s` at position `i`. */
  predicate OccursAt(s: string, sub: string, i: int) {
    0 <= i && i + |sub| <= |s| && s[i..i + |sub|] == sub
  }

  /** JavaScript `s.includes(sub)`: `sub` occurs somewhere in `s`. */
  function Includes(s: string, sub: string): (found: bool)
    ensures found <==> exists i :: OccursAt(s, sub, i)
    decreases |s|
  {
    if |s| < |sub| then
      false
    else if s[..|sub|] == sub then
      assert OccursAt(s, sub, 0);
      true
    else
      OccursAtShift(s, sub);
      Includes(s[1..], sub)
  }

  /** Without a match at the front, `sub` occurs in `s` exactly when it occurs in `s[1..]`. */
  lemma OccursAtShift(s: string, sub: string)
    requires |sub| <= |s| && s[..|sub|] != sub
    ensures (exists i :: OccursAt(s, sub, i)) <==> (exists j :: OccursAt(s[1..], sub, j))
  {
    if i :| OccursAt(s, sub, i) {
      assert i != 0;
      assert s[1..][i - 1..i - 1 + |sub|] == s[i..i + |sub|];
      assert OccursAt(s[1..], sub, i - 1);
    }
    if j :| OccursAt(s[1..], sub, j) {
      assert s[1..][j..j + |sub|] == s[j + 1..j + 1 + |sub|];
      assert OccursAt(s, sub, j + 1);
    }
  }

  /** A string without the first character of `sub` does not contain `sub`. */
  lemma LacksFirstChar(s: string, sub: string)
    requires sub != [] && sub[0] !in s
    ensures !Includes(s, sub)
  {
    forall i | 0 <= i && i + |sub| <= |s|
      ensures !OccursAt(s, sub, i)
    {
      assert s[i..i + |sub|][0] == s[i];
    }
  }

  /** Drops the leading characters that are whitespace. */
  function TrimStart(convention: Convention, s: string): (r: string)
    ensures |r| <= |s|
    decreases |s|
  {
    if s != [] && IsSpace(convention, s[0]) then TrimStart(convention, s[1..]) else s
  }

  /** Drops the trailing characters that are whitespace. */
  function TrimEnd(convention: Convention, s: string): (r: string)
    ensures |r| <= |s|
    decreases |s|
  {
    if s != [] && IsSpace(convention, s[|s| - 1]) then TrimEnd(convention, s[..|s| - 1]) else s
  }

  /** Drops the characters that are whitespace at both ends. */
  function Trim(convention: Convention, s: string): (r: string)
    ensures |r| <= |s|
  {
    TrimEnd(convention, TrimStart(convention, s))
  }

  /** `TrimStart` leaves a suffix, removes only whitespace, and stops at a non-space. */
  lemma {:induction false} TrimStartFacts(convention: Convention, s: string)
    ensures var r := TrimStart(convention, s);
            && r == s[|s| - |r|..]
            && (forall i :: 0 <= i < |s| - |r| ==> IsSpace(convention, s[i]))
            && (r == [] || !IsSpace(convention, r[0]))
    decreases |s|
  {
    if s != [] && IsSpace(convention, s[0]) {
      TrimStartFacts(convention, s[1..]);
      var r := TrimStart(convention, s[1..]);
      assert s[1..][|s| - 1 - |r|..] == s[|s| - |r|..];
      forall i | 0 < i < |s| - |r|
        ensures IsSpace(convention, s[i])
      {
        assert s[i] == s[1..][i - 1];
      }
    }
  }

  /** `TrimEnd` leaves a prefix, removes only whitespace, and stops at a non-space. */
  lemma {:induction false} TrimEndFacts(convention: Convention, s: string)
    ensures var r := TrimEnd(convention, s);
            && r == s[..|r|]
            && (forall i :: |r| <= i < |s| ==> IsSpace(convention, s[i]))
            && (r == [] || !IsSpace(convention, r[|r| - 1]))
    decreases |s|
  {
    if s != [] && IsSpace(convention, s[|s| - 1]) {
      TrimEndFacts(convention, s[..|s| - 1]);
      var r := TrimEnd(convention, s[..|s| - 1]);
      assert s[..|s| - 1][..|r|] == s[..|r|];
      forall i | |r| <= i < |s| - 1
        ensures IsSpace(convention, s[i])
      {
        assert s[i] == s[..|s| - 1][i];
      }
    }
  }

  /**
   * `r` is the stretch of `s` that begins at `start`, and everything of `s`
   * outside that stretch is whitespace.
   */
  ghost predicate SpaceAround(convention: Convention, s: string, r: string, start: int) {
    0 <= start <= |s| - |r| && r == s[start..start + |r|] &&
    (forall i :: 0 <= i < start ==> IsSpace(convention, s[i])) &&
    (forall i :: start + |r| <= i < |s| ==> IsSpace(convention, s[i]))
  }

  /** What `Trim` leaves is a stretch of `s` with only whitespace around it. */
  lemma TrimFacts(convention: Convention, s: string)
    ensures SpaceAround(convention, s, Trim(convention, s), |s| - |TrimStart(convention, s)|)
  {
    var t := TrimStart(convention, s);
    var r := TrimEnd(convention, t);
    var start := |s| - |t|;
    TrimStartFacts(convention, s);
    TrimEndFacts(convention, t);
    assert r == s[start..start + |r|];
    forall i | start + |r| <= i < |s|
      ensures IsSpace(convention, s[i])
    {
      assert s[i] == t[i - start];
    }
  }

  /** Neither end of what `Trim` leaves is whitespace. */
  lemma TrimEnds(convention: Convention, s: string)
    ensures var r := Trim(convention, s);
            r == [] || (!IsSpace(convention, r[0]) && !IsSpace(convention, r[|r| - 1]))
  {
    var t := TrimStart(convention, s);
    TrimStartFacts(convention, s);
    TrimEndFacts(convention, t);
    var r := TrimEnd(convention, t);
    if r != [] {
      assert r[0] == t[0];
    }
  }

  /** Trimming removes nothing when both ends are already non-space. */
  lemma TrimUnchanged(convention: Convention, s: string)
    requires s == [] || (!IsSpace(convention, s[0]) && !IsSpace(convention, s[|s| - 1]))
    ensures Trim(convention, s) == s
  {
  }

  /** The trimmed string is empty exactly when every character is whitespace. */
  lemma TrimEmptyIffAllSpace(convention: Convention, s: string)
    ensures Trim(convention, s) == [] <==> forall i :: 0 <= i < |s| ==> IsSpace(convention, s[i])
  {
    TrimFacts(convention, s);
    TrimEnds(convention, s);
  }
}
