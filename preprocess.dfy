/**
 * The server's text preprocessing: `clean_text` removes web addresses and
 * punctuation, lower-cases, and normalises whitespace; `tokenize` splits on
 * whitespace and keeps the alphabetic non-stopword tokens longer than two
 * characters. Characters are treated as ASCII: whitespace, case and letters
 * outside ASCII are not recognised (see the README).
 */
module Preprocess {
  import opened Wrappers
  import Strings

  /** Whitespace as Python's `\s`, `str.strip` and `str.split` see it, on ASCII. */
  predicate IsSpace(c: char) {
    Strings.IsSpace(Strings.Python, c)
  }

  /** A character of Python's `string.punctuation`. */
  predicate IsPunctuation(c: char) {
    ('!' <= c <= '/') || (':' <= c <= '@') || ('[' <= c <= '`') || ('{' <= c <= '~')
  }

  /** The punctuation set is exactly the 32 characters of `string.punctuation`. */
  lemma PunctuationListed(c: char)
    ensures IsPunctuation(c) <==> c in "!\"#$%&'()*+,-./:;<=>?@[\\]^_`{|}~"
  {
  }

  predicate IsUpper(c: char) {
    'A' <= c <= 'Z'
  }

  /** Python's `str.isalpha` on one ASCII character. */
  predicate IsLetter(c: char) {
    ('a' <= c <= 'z') || ('A' <= c <= 'Z')
  }

  /** The length of the run of non-whitespace characters that `s` begins with. */
  function WordLength(s: string): (n: nat)
    ensures n <= |s|
    ensures forall i :: 0 <= i < n ==> !IsSpace(s[i])
    ensures n == |s| || IsSpace(s[n])
    decreases |s|
  {
    if s == [] || IsSpace(s[0]) then 0 else 1 + WordLength(s[1..])
  }

  /**
   * The pattern `https?://\S+|www\.\S+` matches at the start of `s`. Its
   * greedy `\S+` always runs to the end of the word, so a match exists
   * exactly when the word is longer than the literal part it begins with.
   */
  predicate UrlStart(s: string) {
    (Strings.StartsWith(s, "http://") && WordLength(s) > 7) ||
    (Strings.StartsWith(s, "https://") && WordLength(s) > 8) ||
    (Strings.StartsWith(s, "www.") && WordLength(s) > 4)
  }

  /**
   * `URL_REGEX.sub(" ", s)`: scanning from the left, every match (which
   * always runs to the end of its word) is replaced by one space; scanning
   * resumes after it.
   */
  function StripUrls(s: string): (r: string)
    ensures forall i :: 0 <= i < |r| ==> r[i] == ' ' || r[i] in s
    decreases |s|
  {
    if s == [] then
      []
    else if UrlStart(s) then
      " " + StripUrls(s[WordLength(s)..])
    else
      [s[0]] + StripUrls(s[1..])
  }

  /** `s.translate(PUNCT_TABLE)`: the punctuation is deleted, everything else kept in order. */
  function RemovePunctuation(s: string): (r: string)
    ensures forall i :: 0 <= i < |r| ==> !IsPunctuation(r[i])
    ensures forall c :: c in r <==> c in s && !IsPunctuation(c)
    decreases |s|
  {
    if s == [] then []
    else if IsPunctuation(s[0]) then RemovePunctuation(s[1..])
    else [s[0]] + RemovePunctuation(s[1..])
  }

  /**
   * The output is a subsequence of the input with every character other
   * than punctuation as often as in the input, which leaves only one
   * possible output.
   */
  lemma {:induction false} RemovePunctuationKeepsOccurrences(s: string)
    ensures IsSubsequence(RemovePunctuation(s), s)
    ensures forall c :: !IsPunctuation(c) ==> multiset(RemovePunctuation(s))[c] == multiset(s)[c]
    decreases |s|
  {
    if s != [] {
      RemovePunctuationKeepsOccurrences(s[1..]);
      assert s == [s[0]] + s[1..];
      var rest := RemovePunctuation(s[1..]);
      if !IsPunctuation(s[0]) {
        assert ([s[0]] + rest)[1..] == rest;
      }
    }
  }

  /** Deleting punctuation from a concatenation deletes it from each part. */
  lemma {:induction false} RemovePunctuationAppend(a: string, b: string)
    ensures RemovePunctuation(a + b) == RemovePunctuation(a) + RemovePunctuation(b)
    decreases |a|
  {
    if a == [] {
      assert a + b == b;
    } else {
      assert (a + b)[1..] == a[1..] + b;
      RemovePunctuationAppend(a[1..], b);
    }
  }

  /** `c.lower()` for an ASCII character. */
  function LowerChar(c: char): (d: char)
    ensures !IsUpper(d)
    ensures IsUpper(c) ==> d as int == c as int + 32
    ensures !IsUpper(c) ==> d == c
  {
    if IsUpper(c) then (c as int + 32) as char else c
  }

  /** `s.lower()`: every capital becomes its small letter; nothing else changes. */
  function ToLower(s: string): (r: string)
    ensures |r| == |s|
    ensures forall i :: 0 <= i < |s| ==> r[i] == LowerChar(s[i])
  {
    seq(|s|, i requires 0 <= i < |s| => LowerChar(s[i]))
  }

  /**
   * `MULTISPACE_REGEX.sub(" ", s)`: every maximal run of whitespace becomes
   * one space. A whitespace character followed by another is dropped; the
   * last of a run is replaced by a space.
   */
  function Collapse(s: string): (r: string)
    ensures r == [] <==> s == []
    ensures r != [] ==> (r[0] == ' ' <==> IsSpace(s[0]))
    ensures forall i :: 0 <= i < |r| && IsSpace(r[i]) ==> r[i] == ' '
    ensures forall i :: 0 <= i < |r| - 1 ==> !(r[i] == ' ' && r[i + 1] == ' ')
    ensures forall c :: !IsSpace(c) ==> (c in r <==> c in s)
    decreases |s|
  {
    if s == [] then
      []
    else if IsSpace(s[0]) then
      if |s| > 1 && IsSpace(s[1]) then Collapse(s[1..]) else " " + Collapse(s[1..])
    else
      [s[0]] + Collapse(s[1..])
  }

  /** `s` with its whitespace deleted. */
  function NonSpace(s: string): string
    decreases |s|
  {
    if s == [] then [] else (if IsSpace(s[0]) then [] else [s[0]]) + NonSpace(s[1..])
  }

  /** Collapsing whitespace touches nothing else: without whitespace, input and output agree. */
  lemma {:induction false} CollapseKeepsText(s: string)
    ensures NonSpace(Collapse(s)) == NonSpace(s)
    decreases |s|
  {
    if s != [] {
      CollapseKeepsText(s[1..]);
      var rest := Collapse(s[1..]);
      if IsSpace(s[0]) {
        if !(|s| > 1 && IsSpace(s[1])) {
          assert (" " + rest)[1..] == rest;
        }
      } else {
        assert ([s[0]] + rest)[1..] == rest;
      }
    }
  }

  /**
   * Collapsing works piece by piece wherever the border between two pieces
   * is not inside a run of whitespace.
   */
  lemma {:induction false} CollapseAppend(a: string, b: string)
    requires a == [] || b == [] || !IsSpace(a[|a| - 1]) || !IsSpace(b[0])
    ensures Collapse(a + b) == Collapse(a) + Collapse(b)
    decreases |a|, 1
  {
    if a == [] {
      assert a + b == b;
    } else if IsSpace(a[0]) {
      CollapseAppendSpace(a, b);
    } else {
      var rest := a[1..];
      assert (a + b)[1..] == rest + b;
      assert Collapse(a + b) == [a[0]] + Collapse(rest + b);
      CollapseAppend(rest, b);
      AppendAssociates([a[0]], Collapse(rest), Collapse(b));
    }
  }

  /** `CollapseAppend` for an `a` that starts with whitespace. */
  lemma {:induction false} CollapseAppendSpace(a: string, b: string)
    requires a != [] && IsSpace(a[0])
    requires b == [] || !IsSpace(a[|a| - 1]) || !IsSpace(b[0])
    ensures Collapse(a + b) == Collapse(a) + Collapse(b)
    decreases |a|, 0
  {
    var rest := a[1..];
    assert (a + b)[1..] == rest + b;
    if |a| == 1 {
      assert rest + b == b;
      assert Collapse(a) == " ";
    } else {
      assert (a + b)[1] == a[1];
      CollapseAppend(rest, b);
      if !IsSpace(a[1]) {
        assert Collapse(a + b) == " " + Collapse(rest + b);
        AppendAssociates(" ", Collapse(rest), Collapse(b));
      }
    }
  }

  /** A run of whitespace, of any length and kind, collapses to one space. */
  lemma {:induction false} CollapseRun(s: string)
    requires s != [] && forall i :: 0 <= i < |s| ==> IsSpace(s[i])
    ensures Collapse(s) == " "
    decreases |s|
  {
    if |s| > 1 {
      assert IsSpace(s[1]);
      CollapseRun(s[1..]);
    }
  }

  /** `s.strip()`. */
  function Strip(s: string): (r: string)
    ensures |r| <= |s|
  {
    Strings.Trim(Strings.Python, s)
  }

  /**
   * The shape `clean_text` promises: no punctuation, no capitals, no
   * whitespace but single spaces between words, nothing at either end.
   */
  ghost predicate Clean(s: string) {
    (forall i :: 0 <= i < |s| ==> !IsPunctuation(s[i]) && !IsUpper(s[i])) &&
    (forall i :: 0 <= i < |s| && IsSpace(s[i]) ==> s[i] == ' ') &&
    (forall i :: 0 <= i < |s| - 1 ==> !(s[i] == ' ' && s[i + 1] == ' ')) &&
    (s == [] || (s[0] != ' ' && s[|s| - 1] != ' '))
  }

  /** The stages of `clean_text` after the empty check, in order. */
  function CleanStages(s: string): string {
    Strip(Collapse(ToLower(RemovePunctuation(StripUrls(s)))))
  }

  /** `clean_text`: "" for a missing or empty text, the cleaned text otherwise. */
  function CleanText(text: Option<string>): (r: string)
    ensures text == None || text == Some("") ==> r == ""
    ensures Clean(r)
  {
    if text == None || text.value == "" then
      ""
    else
      CleanStagesAreClean(text.value);
      CleanStages(text.value)
  }

  /** Lower-casing keeps a string free of punctuation and never creates whitespace. */
  lemma ToLowerKeeps(s: string)
    requires forall i :: 0 <= i < |s| ==> !IsPunctuation(s[i])
    ensures forall i :: 0 <= i < |ToLower(s)| ==> !IsPunctuation(ToLower(s)[i]) && !IsUpper(ToLower(s)[i])
    ensures forall i :: 0 <= i < |s| ==> (IsSpace(ToLower(s)[i]) <==> IsSpace(s[i]))
  {
  }

  /** Whatever the stages produce satisfies `Clean`. */
  lemma CleanStagesAreClean(s: string)
    ensures Clean(CleanStages(s))
  {
    var lowered := ToLower(RemovePunctuation(StripUrls(s)));
    ToLowerKeeps(RemovePunctuation(StripUrls(s)));
    CollapseKeepsLowered(lowered);
    StripOfCollapsed(Collapse(lowered));
  }

  /** Collapsing whitespace brings in no punctuation and no capitals. */
  lemma CollapseKeepsLowered(t: string)
    requires forall i :: 0 <= i < |t| ==> !IsPunctuation(t[i]) && !IsUpper(t[i])
    ensures forall i :: 0 <= i < |Collapse(t)| ==> !IsPunctuation(Collapse(t)[i]) && !IsUpper(Collapse(t)[i])
  {
    var collapsed := Collapse(t);
    forall i | 0 <= i < |collapsed|
      ensures !IsPunctuation(collapsed[i]) && !IsUpper(collapsed[i])
    {
      var c := collapsed[i];
      if IsSpace(c) {
        assert c == ' ';
      } else {
        assert c in t;
        var j :| 0 <= j < |t| && t[j] == c;
      }
    }
  }

  /** Stripping a single-spaced string without punctuation or capitals makes it `Clean`. */
  lemma StripOfCollapsed(collapsed: string)
    requires forall i :: 0 <= i < |collapsed| ==> !IsPunctuation(collapsed[i]) && !IsUpper(collapsed[i])
    requires forall i :: 0 <= i < |collapsed| && IsSpace(collapsed[i]) ==> collapsed[i] == ' '
    requires forall i :: 0 <= i < |collapsed| - 1 ==> !(collapsed[i] == ' ' && collapsed[i + 1] == ' ')
    ensures Clean(Strip(collapsed))
  {
    var r := Strip(collapsed);
    var start := |collapsed| - |Strings.TrimStart(Strings.Python, collapsed)|;
    Strings.TrimFacts(Strings.Python, collapsed);
    Strings.TrimEnds(Strings.Python, collapsed);
    assert r == collapsed[start..start + |r|];
    forall i | 0 <= i < |r|
      ensures r[i] == collapsed[start + i]
    {
    }
  }

  /**
   * A match at the start of `r` is a match at the start of `s` when the
   * first word of `r` is an initial part of the first word of `s`.
   */
  lemma UrlStartFromWordPrefix(r: string, s: string)
    requires WordLength(r) <= WordLength(s)
    requires forall j :: 0 <= j < WordLength(r) ==> r[j] == s[j]
    ensures UrlStart(r) ==> UrlStart(s)
  {
    if Strings.StartsWith(r, "http://") && WordLength(r) > 7 {
      assert s[..7] == r[..7];
    }
    if Strings.StartsWith(r, "https://") && WordLength(r) > 8 {
      assert s[..8] == r[..8];
    }
    if Strings.StartsWith(r, "www.") && WordLength(r) > 4 {
      assert s[..4] == r[..4];
    }
  }

  /** The first word of the output is an initial part of the first word of the input. */
  lemma {:induction false} StripUrlsFirstWord(s: string)
    ensures WordLength(StripUrls(s)) <= WordLength(s)
    ensures forall j :: 0 <= j < WordLength(StripUrls(s)) ==> StripUrls(s)[j] == s[j]
    decreases |s|
  {
    if s != [] && !UrlStart(s) && !IsSpace(s[0]) {
      StripUrlsFirstWord(s[1..]);
      var r := StripUrls(s);
      assert r[1..] == StripUrls(s[1..]);
      assert WordLength(r) == 1 + WordLength(r[1..]);
    }
  }

  /** Putting one character in front of a string without matches adds none after it. */
  lemma NoMatchAfterFront(c: char, t: string)
    requires forall i :: 0 <= i < |t| ==> !UrlStart(t[i..])
    ensures forall i :: 0 < i <= |t| ==> !UrlStart(([c] + t)[i..])
  {
    forall i | 0 < i <= |t|
      ensures !UrlStart(([c] + t)[i..])
    {
      assert ([c] + t)[i..] == t[i - 1..];
      if i == |t| {
        assert t[i - 1..] == [t[i - 1]];
        assert t[i - 1..] == t[|t| - 1..];
      }
    }
  }

  /** No match of the pattern is left anywhere in the output. */
  lemma {:induction false} StripUrlsLeavesNoMatch(s: string)
    ensures forall i :: 0 <= i < |StripUrls(s)| ==> !UrlStart(StripUrls(s)[i..])
    decreases |s|
  {
    if s != [] {
      var r := StripUrls(s);
      if UrlStart(s) {
        var rest := StripUrls(s[WordLength(s)..]);
        StripUrlsLeavesNoMatch(s[WordLength(s)..]);
        NoMatchAfterFront(' ', rest);
        assert r == [' '] + rest;
        assert WordLength(r) == 0;
      } else {
        var rest := StripUrls(s[1..]);
        StripUrlsLeavesNoMatch(s[1..]);
        NoMatchAfterFront(s[0], rest);
        assert r == [s[0]] + rest;
        StripUrlsFirstWord(s[1..]);
        if !IsSpace(s[0]) {
          assert r[1..] == rest;
          assert WordLength(r) == 1 + WordLength(rest);
        }
        UrlStartFromWordPrefix(r, s);
      }
      assert r[0..] == r;
    }
  }

  /** A string with no match anywhere is left as it is. */
  lemma {:induction false} StripUrlsWithoutMatch(s: string)
    requires forall i :: 0 <= i < |s| ==> !UrlStart(s[i..])
    ensures StripUrls(s) == s
    decreases |s|
  {
    if s != [] {
      assert s[0..] == s;
      forall i | 0 <= i < |s| - 1
        ensures !UrlStart(s[1..][i..])
      {
        assert s[1..][i..] == s[i + 1..];
      }
      StripUrlsWithoutMatch(s[1..]);
      assert s == [s[0]] + s[1..];
    }
  }

  /** Removing addresses twice removes no more than once. */
  lemma StripUrlsIdempotent(s: string)
    ensures StripUrls(StripUrls(s)) == StripUrls(s)
  {
    StripUrlsLeavesNoMatch(s);
    StripUrlsWithoutMatch(StripUrls(s));
  }

  /**
   * Address removal works word by word: when `a` is empty or ends in
   * whitespace, no match straddles the border, and the two parts are
   * processed on their own.
   */
  lemma {:induction false} StripUrlsAppend(a: string, b: string)
    requires a == [] || IsSpace(a[|a| - 1])
    ensures StripUrls(a + b) == StripUrls(a) + StripUrls(b)
    decreases |a|
  {
    if a == [] {
      assert a + b == b;
    } else {
      var k := if UrlStart(a) then WordLength(a) else 1;
      FirstWordWithin(a, b);
      assert a[k..] == [] || a[k..][|a[k..]| - 1] == a[|a| - 1];
      StripUrlsAppend(a[k..], b);
      StripUrlsAppendStep(a, b, k);
    }
  }

  /**
   * One step of `StripUrlsAppend`: the first word or character of `a` is
   * handled alike in `a` and in `a + b`, given the result for the rest.
   */
  lemma StripUrlsAppendStep(a: string, b: string, k: nat)
    requires a != [] && IsSpace(a[|a| - 1])
    requires k == if UrlStart(a) then WordLength(a) else 1
    requires StripUrls(a[k..] + b) == StripUrls(a[k..]) + StripUrls(b)
    ensures StripUrls(a + b) == StripUrls(a) + StripUrls(b)
  {
    FirstWordWithin(a, b);
    SlicesOfAppend(a, b, k);
    var head := if UrlStart(a) then " " else [a[0]];
    AppendAssociates(head, StripUrls(a[k..]), StripUrls(b));
  }

  /** Concatenation regroups freely. */
  lemma AppendAssociates<T>(x: seq<T>, y: seq<T>, z: seq<T>)
    ensures x + (y + z) == (x + y) + z
  {
  }

  /**
   * When `a` ends in whitespace, the first word of `a + b` is the first word
   * of `a`, so both begin with a match or neither does.
   */
  lemma FirstWordWithin(a: string, b: string)
    requires a != [] && IsSpace(a[|a| - 1])
    ensures WordLength(a + b) == WordLength(a) < |a|
    ensures UrlStart(a + b) == UrlStart(a)
  {
    WordLengthWithin(a, b);
    UrlStartFromWordPrefix(a, a + b);
    UrlStartFromWordPrefix(a + b, a);
  }

  /**
   * A word `w` followed by whitespace or by nothing: from position `i` on,
   * `w + t` and `w` have the same first word, so a match begins at `i` in
   * one exactly when it does in the other.
   */
  lemma WordThen(w: string, t: string, i: nat)
    requires forall j :: 0 <= j < |w| ==> !IsSpace(w[j])
    requires t == [] || IsSpace(t[0])
    requires i <= |w|
    ensures (w + t)[i..] == w[i..] + t
    ensures WordLength(w[i..] + t) == |w| - i
    ensures UrlStart(w[i..] + t) == UrlStart(w[i..])
  {
    SlicesOfAppend(w, t, i);
    var v := w[i..];
    WordLengthPrefix(v, t);
    WordLengthPrefix(v, []);
    assert v + [] == v;
    UrlStartFromWordPrefix(v, v + t);
    UrlStartFromWordPrefix(v + t, v);
  }

  /**
   * A prefix `p` in which no match begins is kept as it is, and the scan
   * goes on with what follows it.
   */
  lemma {:induction false} StripUrlsKeepsPrefix(p: string, t: string)
    requires forall j :: 0 <= j < |p| ==> !UrlStart((p + t)[j..])
    ensures StripUrls(p + t) == p + StripUrls(t)
    decreases |p|
  {
    if p == [] {
      assert p + t == t;
    } else {
      var rest := p[1..];
      assert (p + t)[0..] == p + t;
      assert (p + t)[1..] == rest + t;
      forall j | 0 <= j < |rest|
        ensures !UrlStart((rest + t)[j..])
      {
        assert (rest + t)[j..] == (p + t)[j + 1..];
      }
      StripUrlsKeepsPrefix(rest, t);
      assert p == [p[0]] + rest;
      AppendAssociates([p[0]], rest, StripUrls(t));
    }
  }

  /**
   * A word followed by whitespace or by nothing: the first position `i`
   * where the pattern matches starts the match, which runs to the end of
   * the word. The word is kept up to `i`, the rest of it becomes a single
   * space, and what follows the word is processed on its own.
   */
  lemma StripUrlsWord(w: string, t: string, i: nat)
    requires forall j :: 0 <= j < |w| ==> !IsSpace(w[j])
    requires t == [] || IsSpace(t[0])
    requires i < |w| && UrlStart(w[i..])
    requires forall j :: 0 <= j < i ==> !UrlStart(w[j..])
    ensures StripUrls(w + t) == w[..i] + " " + StripUrls(t)
  {
    MatchRunsToWordEnd(w, t, i);
    NoMatchBeforeFirst(w, t, i);
    assert w == w[..i] + w[i..];
    AppendAssociates(w[..i], w[i..], t);
    StripUrlsKeepsPrefix(w[..i], w[i..] + t);
    AppendAssociates(w[..i], " ", StripUrls(t));
  }

  /** A match at `i` in a word followed by whitespace takes the rest of the word. */
  lemma MatchRunsToWordEnd(w: string, t: string, i: nat)
    requires forall j :: 0 <= j < |w| ==> !IsSpace(w[j])
    requires t == [] || IsSpace(t[0])
    requires i < |w| && UrlStart(w[i..])
    ensures StripUrls(w[i..] + t) == " " + StripUrls(t)
  {
    WordThen(w, t, i);
    assert (w[i..] + t)[|w| - i..] == t;
  }

  /** Before the first match in a word followed by whitespace, no match begins. */
  lemma NoMatchBeforeFirst(w: string, t: string, i: nat)
    requires forall j :: 0 <= j < |w| ==> !IsSpace(w[j])
    requires t == [] || IsSpace(t[0])
    requires i <= |w|
    requires forall j :: 0 <= j < i ==> !UrlStart(w[j..])
    ensures forall j :: 0 <= j < i ==> !UrlStart((w[..i] + (w[i..] + t))[j..])
  {
    forall j | 0 <= j < i
      ensures !UrlStart((w[..i] + (w[i..] + t))[j..])
    {
      WordThen(w, t, j);
      assert (w[..i] + (w[i..] + t))[j..] == w[j..] + t;
    }
  }

  /**
   * A word followed by whitespace or by nothing, with no position where
   * the pattern matches: the word is kept, and what follows it is processed
   * on its own.
   */
  lemma StripUrlsPlainWord(w: string, t: string)
    requires forall j :: 0 <= j < |w| ==> !IsSpace(w[j])
    requires t == [] || IsSpace(t[0])
    requires forall j :: 0 <= j < |w| ==> !UrlStart(w[j..])
    ensures StripUrls(w + t) == w + StripUrls(t)
  {
    forall j | 0 <= j < |w|
      ensures !UrlStart((w + t)[j..])
    {
      WordThen(w, t, j);
    }
    StripUrlsKeepsPrefix(w, t);
  }

  /**
   * A string with no `:` and no `.` does not begin with a match: each
   * literal part of the pattern contains one of them.
   */
  lemma NoMarkNoMatch(s: string)
    requires forall i :: 0 <= i < |s| ==> s[i] != ':' && s[i] != '.'
    ensures !UrlStart(s)
  {
    if |s| >= 4 {
      assert s[..4][3] == s[3];
    }
    if |s| >= 7 {
      assert s[..7][4] == s[4];
    }
    if |s| >= 8 {
      assert s[..8][5] == s[5];
    }
  }

  /** Address removal leaves a string with no `:` and no `.` as it is. */
  lemma StripUrlsWithoutMarks(s: string)
    requires forall i :: 0 <= i < |s| ==> s[i] != ':' && s[i] != '.'
    ensures StripUrls(s) == s
  {
    forall i | 0 <= i < |s|
      ensures !UrlStart(s[i..])
    {
      NoMarkNoMatch(s[i..]);
    }
    StripUrlsWithoutMatch(s);
  }

  /** Removing punctuation from a string without any changes nothing. */
  lemma {:induction false} RemovePunctuationWithout(s: string)
    requires forall i :: 0 <= i < |s| ==> !IsPunctuation(s[i])
    ensures RemovePunctuation(s) == s
    decreases |s|
  {
    if s != [] {
      RemovePunctuationWithout(s[1..]);
      assert s == [s[0]] + s[1..];
    }
  }

  /** Collapsing a string whose only whitespace is single spaces changes nothing. */
  lemma {:induction false} CollapseSingleSpaced(s: string)
    requires forall i :: 0 <= i < |s| && IsSpace(s[i]) ==> s[i] == ' '
    requires forall i :: 0 <= i < |s| - 1 ==> !(s[i] == ' ' && s[i + 1] == ' ')
    ensures Collapse(s) == s
    decreases |s|
  {
    if s != [] {
      CollapseSingleSpaced(s[1..]);
      assert s == [s[0]] + s[1..];
    }
  }

  /** A clean string is left as it is by `clean_text`. */
  lemma CleanFixpoint(s: string)
    requires Clean(s)
    ensures CleanText(Some(s)) == s
  {
    if s != [] {
      StripUrlsWithoutMarks(s);
      RemovePunctuationWithout(s);
      assert ToLower(s) == s;
      CollapseSingleSpaced(s);
      Strings.TrimUnchanged(Strings.Python, s);
    }
  }

  /** `clean_text` is idempotent. */
  lemma CleanTextIdempotent(text: Option<string>)
    ensures CleanText(Some(CleanText(text))) == CleanText(text)
  {
    CleanFixpoint(CleanText(text));
  }

  /** `s.split()`: the maximal runs of non-whitespace, in order. */
  function Split(s: string): (words: seq<string>)
    ensures forall k :: 0 <= k < |words| ==> words[k] != []
    ensures forall k, i :: 0 <= k < |words| && 0 <= i < |words[k]| ==> !IsSpace(words[k][i])
    decreases |s|
  {
    if s == [] then
      []
    else if IsSpace(s[0]) then
      Split(s[1..])
    else
      var n := WordLength(s);
      [s[..n]] + Split(s[n..])
  }

  /**
   * Splitting works piece by piece wherever the border between two pieces
   * is not inside a word.
   */
  lemma {:induction false} SplitAppend(a: string, b: string)
    requires a == [] || b == [] || IsSpace(a[|a| - 1]) || IsSpace(b[0])
    ensures Split(a + b) == Split(a) + Split(b)
    decreases |a|, 1
  {
    if a == [] {
      assert a + b == b;
    } else if IsSpace(a[0]) {
      assert (a + b)[1..] == a[1..] + b;
      assert Split(a + b) == Split(a[1..] + b);
      SplitAppend(a[1..], b);
    } else {
      SplitAppendWord(a, b);
    }
  }

  /** `SplitAppend` for an `a` that starts with a word. */
  lemma {:induction false} SplitAppendWord(a: string, b: string)
    requires a != [] && !IsSpace(a[0])
    requires b == [] || IsSpace(a[|a| - 1]) || IsSpace(b[0])
    ensures Split(a + b) == Split(a) + Split(b)
    decreases |a|, 0
  {
    var n := WordLength(a);
    if n == |a| {
      SplitOneWord(a, b);
    } else {
      assert a[n..][0] == a[n];
      SplitAppend(a[n..], b);
      SplitWordThenRest(a, b);
    }
  }

  /** `SplitAppend` when `a` is a single word. */
  lemma SplitOneWord(a: string, b: string)
    requires a != [] && WordLength(a) == |a|
    requires b == [] || IsSpace(b[0])
    ensures Split(a + b) == Split(a) + Split(b)
  {
    WordOfSpaceFree(a, b);
    WordOfSpaceFree(a, []);
    assert a + [] == a;
  }

  /** `SplitAppend` for a word then more of `a`, given `SplitAppend` for the rest of `a`. */
  lemma SplitWordThenRest(a: string, b: string)
    requires a != [] && !IsSpace(a[0]) && WordLength(a) < |a|
    requires b == [] || IsSpace(a[|a| - 1]) || IsSpace(b[0])
    requires Split(a[WordLength(a)..] + b) == Split(a[WordLength(a)..]) + Split(b)
    ensures Split(a + b) == Split(a) + Split(b)
  {
    var n := WordLength(a);
    SplitFirstWord(a, b);
    AppendAssociates([a[..n]], Split(a[n..]), Split(b));
  }

  /** Splitting `a` and `a + b` both begin with the first word of `a`. */
  lemma SplitFirstWord(a: string, b: string)
    requires a != [] && !IsSpace(a[0])
    requires b == [] || IsSpace(a[|a| - 1]) || IsSpace(b[0])
    ensures Split(a + b) == [a[..WordLength(a)]] + Split(a[WordLength(a)..] + b)
    ensures Split(a) == [a[..WordLength(a)]] + Split(a[WordLength(a)..])
  {
    WordOfAppend(a, b);
  }

  /** The first word of `a + b` is the first word of `a` when `b` does not continue it. */
  lemma WordOfAppend(a: string, b: string)
    requires a != [] && !IsSpace(a[0])
    requires b == [] || IsSpace(a[|a| - 1]) || IsSpace(b[0])
    ensures WordLength(a + b) == WordLength(a)
    ensures (a + b)[..WordLength(a)] == a[..WordLength(a)]
    ensures (a + b)[WordLength(a)..] == a[WordLength(a)..] + b
  {
    SlicesOfAppend(a, b, WordLength(a));
    if WordLength(a) == |a| {
      WordLengthPrefix(a, b);
    } else {
      WordLengthWithin(a, b);
    }
  }

  /** Slicing `a + b` at a position inside `a`. */
  lemma SlicesOfAppend<T>(a: seq<T>, b: seq<T>, n: nat)
    requires n <= |a|
    ensures (a + b)[..n] == a[..n]
    ensures (a + b)[n..] == a[n..] + b
  {
  }

  /** A word that ends inside `a` is not lengthened by what follows `a`. */
  lemma {:induction false} WordLengthWithin(a: string, b: string)
    requires WordLength(a) < |a|
    ensures WordLength(a + b) == WordLength(a)
    decreases |a|
  {
    if !IsSpace(a[0]) {
      assert (a + b)[1..] == a[1..] + b;
      WordLengthWithin(a[1..], b);
    }
  }

  /** A string of whitespace only has no words. */
  lemma {:induction false} SplitAllSpace(s: string)
    requires forall i :: 0 <= i < |s| ==> IsSpace(s[i])
    ensures Split(s) == []
    decreases |s|
  {
    if s != [] {
      SplitAllSpace(s[1..]);
    }
  }

  /** The words joined with single spaces. */
  function Join(words: seq<string>): string {
    if words == [] then []
    else if |words| == 1 then words[0]
    else words[0] + " " + Join(words[1..])
  }

  /** Splitting words joined by single spaces gives the words back. */
  lemma {:induction false} SplitJoin(words: seq<string>)
    requires forall k :: 0 <= k < |words| ==> words[k] != []
    requires forall k, i :: 0 <= k < |words| && 0 <= i < |words[k]| ==> !IsSpace(words[k][i])
    ensures Split(Join(words)) == words
  {
    if |words| == 1 {
      WordOfSpaceFree(words[0], []);
      assert words[0] + [] == words[0];
    } else if |words| > 1 {
      SplitWordThenSpace(words[0], Join(words[1..]));
      SplitJoin(words[1..]);
      assert words == [words[0]] + words[1..];
    }
  }

  /** A space-free word, a space, then the rest: the word comes first. */
  lemma SplitWordThenSpace(w: string, rest: string)
    requires w != [] && forall i :: 0 <= i < |w| ==> !IsSpace(w[i])
    ensures Split(w + " " + rest) == [w] + Split(rest)
  {
    AppendAssociates(w, " ", rest);
    WordOfSpaceFree(w, " " + rest);
    assert (" " + rest)[1..] == rest;
  }

  /** A space-free word followed by nothing or by whitespace is the first word. */
  lemma WordOfSpaceFree(w: string, tail: string)
    requires w != [] && forall i :: 0 <= i < |w| ==> !IsSpace(w[i])
    requires tail == [] || IsSpace(tail[0])
    ensures WordLength(w + tail) == |w|
    ensures Split(w + tail) == [w] + Split(tail)
  {
    WordLengthPrefix(w, tail);
    assert (w + tail)[..|w|] == w;
    assert (w + tail)[|w|..] == tail;
  }

  /** The leading run of `w + tail` is all of `w` when `w` has no whitespace and `tail` starts with some. */
  lemma {:induction false} WordLengthPrefix(w: string, tail: string)
    requires forall i :: 0 <= i < |w| ==> !IsSpace(w[i])
    requires tail == [] || IsSpace(tail[0])
    ensures WordLength(w + tail) == |w|
    decreases |w|
  {
    if w != [] {
      WordLengthPrefix(w[1..], tail);
      assert (w + tail)[1..] == w[1..] + tail;
    } else {
      assert w + tail == tail;
    }
  }

  /** `xs` occurs in `ys` in order, possibly with gaps. */
  predicate IsSubsequence<T(==)>(xs: seq<T>, ys: seq<T>)
    decreases |ys|
  {
    xs == [] || (ys != [] && (if xs[0] == ys[0] then IsSubsequence(xs[1..], ys[1..]) else IsSubsequence(xs, ys[1..])))
  }

  /** The token test: not a stopword, alphabetic, longer than two characters. */
  predicate Keep(token: string, stops: set<string>) {
    token !in stops && (forall i :: 0 <= i < |token| ==> IsLetter(token[i])) && |token| > 2
  }

  /**
   * The comprehension's filter: the kept tokens, in order. Every token that
   * passes is kept as often as it occurs, which leaves only one possible
   * output.
   */
  function KeepTokens(tokens: seq<string>, stops: set<string>): (kept: seq<string>)
    ensures IsSubsequence(kept, tokens)
    ensures forall k :: 0 <= k < |kept| ==> Keep(kept[k], stops)
    ensures forall k :: 0 <= k < |tokens| && Keep(tokens[k], stops) ==> tokens[k] in kept
    ensures forall t :: Keep(t, stops) ==> multiset(kept)[t] == multiset(tokens)[t]
    decreases |tokens|
  {
    if tokens == [] then
      []
    else
      assert tokens == [tokens[0]] + tokens[1..];
      if Keep(tokens[0], stops) then
        var kept := [tokens[0]] + KeepTokens(tokens[1..], stops);
        assert kept[1..] == KeepTokens(tokens[1..], stops);
        kept
      else
        KeepTokens(tokens[1..], stops)
  }

  /** Filtering a concatenation filters each part. */
  lemma {:induction false} KeepTokensAppend(a: seq<string>, b: seq<string>, stops: set<string>)
    ensures KeepTokens(a + b, stops) == KeepTokens(a, stops) + KeepTokens(b, stops)
    decreases |a|
  {
    if a == [] {
      assert a + b == b;
    } else {
      assert (a + b)[1..] == a[1..] + b;
      KeepTokensAppend(a[1..], b, stops);
    }
  }

  /**
   * `tokenize`: nothing for a missing or empty text; otherwise the words of
   * the text that pass the token test, in their order, with none that
   * passes left out.
   */
  function Tokenize(text: Option<string>, stops: set<string>): (tokens: seq<string>)
    ensures text == None || text == Some("") ==> tokens == []
    ensures text.Some? ==> IsSubsequence(tokens, Split(text.value))
    ensures forall k :: 0 <= k < |tokens| ==> Keep(tokens[k], stops)
    ensures text.Some? ==> forall k :: 0 <= k < |Split(text.value)| && Keep(Split(text.value)[k], stops) ==>
              Split(text.value)[k] in tokens
    ensures text.Some? ==> forall t :: Keep(t, stops) ==> multiset(tokens)[t] == multiset(Split(text.value))[t]
  {
    if text == None || text.value == "" then [] else KeepTokens(Split(text.value), stops)
  }
}
