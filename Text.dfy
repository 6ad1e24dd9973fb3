/** The JavaScript string primitives the chat engine relies on: `toLowerCase`
    (restricted to ASCII), `trim`, `split(' ')`, the `length` of a string
    (UTF-16 code units) and the regular-expression test `\b(w1|...|wn)\b`
    without the `u` flag. */
module Text {

  /** The characters `\w` stands for when a regular expression has no `u`
      flag; `\b` is a change between one of these and anything else. */
  predicate IsWordChar(c: char) {
    ('a' <= c <= 'z') || ('A' <= c <= 'Z') || ('0' <= c <= '9') || c == '_'
  }

  predicate IsAsciiUpper(c: char) {
    'A' <= c <= 'Z'
  }

  function LowerChar(c: char): char {
    if IsAsciiUpper(c) then (c as int + 32) as char else c
  }

  /** `toLowerCase`, restricted to the ASCII letters. */
  function AsciiLower(s: string): (r: string)
    ensures |r| == |s|
    ensures forall i :: 0 <= i < |s| ==> r[i] == LowerChar(s[i])
  {
    if s == [] then [] else [LowerChar(s[0])] + AsciiLower(s[1..])
  }

  /** Lower-casing keeps every word character a word character and every
      other character a non-word character, so it moves no `\b`. */
  lemma AsciiLowerKeepsWordChars(s: string)
    ensures forall i :: 0 <= i < |s| ==> (IsWordChar(AsciiLower(s)[i]) <==> IsWordChar(s[i]))
  {
  }

  /** The characters `String.prototype.trim` removes: WhiteSpace and
      LineTerminator of the ECMAScript Language Specification (sections
      "White Space" and "Line Terminators"). */
  predicate IsSpace(c: char) {
    c == '\t' || c == '\n' || c == '\U{000B}' || c == '\U{000C}' || c == '\r' || c == ' '
    || c == '\U{00A0}' || c == '\U{1680}' || ('\U{2000}' <= c <= '\U{200A}')
    || c == '\U{2028}' || c == '\U{2029}' || c == '\U{202F}' || c == '\U{205F}'
    || c == '\U{3000}' || c == '\U{FEFF}'
  }

  /** The number of white-space characters at the front of `s`. */
  function LeadingSpaces(s: string): (k: nat)
    ensures k <= |s|
    ensures forall i :: 0 <= i < k ==> IsSpace(s[i])
    ensures k == |s| || !IsSpace(s[k])
  {
    if s == [] || !IsSpace(s[0]) then 0 else 1 + LeadingSpaces(s[1..])
  }

  /** The number of white-space characters at the end of `s`. */
  function TrailingSpaces(s: string): (k: nat)
    ensures k <= |s|
    ensures forall i :: |s| - k <= i < |s| ==> IsSpace(s[i])
    ensures k == |s| || !IsSpace(s[|s| - 1 - k])
  {
    if s == [] || !IsSpace(s[|s| - 1]) then 0 else 1 + TrailingSpaces(s[..|s| - 1])
  }

  /** `trim`: the longest middle part of `s` that neither starts nor ends
      with white space; empty exactly when `s` is all white space. */
  function Trim(s: string): (r: string)
    ensures LeadingSpaces(s) + |r| <= |s|
    ensures forall i :: LeadingSpaces(s) + |r| <= i < |s| ==> IsSpace(s[i])
    ensures r != [] ==> !IsSpace(r[0]) && !IsSpace(r[|r| - 1])
    ensures r == [] <==> forall i :: 0 <= i < |s| ==> IsSpace(s[i])
  {
    var t := s[LeadingSpaces(s)..];
    t[..|t| - TrailingSpaces(t)]
  }

  /** The trimmed text is the part of `s` after its leading white space. */
  lemma TrimIsMiddle(s: string)
    ensures Trim(s) == s[LeadingSpaces(s)..LeadingSpaces(s) + |Trim(s)|]
  {
  }

  /** A string with no white space at either end is its own trim. */
  lemma TrimOfTrimmed(s: string)
    requires s == [] || (!IsSpace(s[0]) && !IsSpace(s[|s| - 1]))
    ensures Trim(s) == s
  {
    if s != [] {
      assert LeadingSpaces(s) == 0;
      assert TrailingSpaces(s) == 0;
    }
  }

  lemma TrimIdempotent(s: string)
    ensures Trim(Trim(s)) == Trim(s)
  {
    TrimOfTrimmed(Trim(s));
  }

  /** The positions below `k` of `s` holding a character outside the
      Basic Multilingual Plane, each of which takes two UTF-16 code units. */
  function Astral(s: string, k: nat): set<nat>
    requires k <= |s|
  {
    set i: nat | i < k && s[i] as int >= 0x1_0000
  }

  lemma {:induction false} AstralBound(s: string, k: nat)
    requires k <= |s|
    ensures |Astral(s, k)| <= k
  {
    if k == 0 {
      assert Astral(s, k) == {};
    } else {
      AstralBound(s, k - 1);
      if s[k - 1] as int >= 0x1_0000 {
        assert Astral(s, k) == Astral(s, k - 1) + {k - 1} && k - 1 !in Astral(s, k - 1);
      } else {
        assert Astral(s, k) == Astral(s, k - 1);
      }
    }
  }

  /** `length`: the number of UTF-16 code units, two for a character
      outside the Basic Multilingual Plane. */
  function Utf16Length(s: string): (n: nat)
    ensures |s| <= n <= 2 * |s|
    ensures (forall i :: 0 <= i < |s| ==> s[i] as int < 0x1_0000) ==> n == |s|
  {
    AstralBound(s, |s|);
    |s| + |Astral(s, |s|)|
  }

  /** Lower-casing leaves the `length` of a string unchanged. */
  lemma AsciiLowerKeepsLength(s: string)
    ensures Utf16Length(AsciiLower(s)) == Utf16Length(s)
  {
    assert Astral(AsciiLower(s), |s|) == Astral(s, |s|);
  }

  /** The number of occurrences of `c` in `s`. */
  function Count(s: string, c: char): (n: nat)
    ensures n <= |s|
    ensures n == 0 <==> c !in s
  {
    if s == [] then 0 else (if s[0] == c then 1 else 0) + Count(s[1..], c)
  }

  /** `split(sep)` with a one-character separator: two adjacent separators
      give an empty piece, and the empty string gives one empty piece. */
  function Split(s: string, sep: char): (parts: seq<string>)
    ensures |parts| == Count(s, sep) + 1
    ensures forall k :: 0 <= k < |parts| ==> sep !in parts[k]
  {
    if s == [] then [[]]
    else
      var rest := Split(s[1..], sep);
      if s[0] == sep then [[]] + rest
      else [[s[0]] + rest[0]] + rest[1..]
  }

  /** `join(sep)`, the inverse of Split. */
  function Join(parts: seq<string>, sep: char): string
    requires |parts| >= 1
  {
    if |parts| == 1 then parts[0] else parts[0] + [sep] + Join(parts[1..], sep)
  }

  lemma {:induction false} JoinSplit(s: string, sep: char)
    ensures Join(Split(s, sep), sep) == s
  {
    if s != [] {
      var rest := Split(s[1..], sep);
      JoinSplit(s[1..], sep);
      if s[0] == sep {
        assert ([[]] + rest)[1..] == rest;
      } else {
        var parts := [[s[0]] + rest[0]] + rest[1..];
        assert parts[1..] == rest[1..];
        if |rest| > 1 {
          assert Join(rest, sep) == rest[0] + [sep] + Join(rest[1..], sep);
        }
      }
    }
  }

  /** `\b` at position `i` of `s`. */
  predicate Boundary(s: string, i: int)
    requires 0 <= i <= |s|
  {
    (i > 0 && IsWordChar(s[i - 1])) != (i < |s| && IsWordChar(s[i]))
  }

  /** `\bw\b` matches at position `i` of `s`. */
  predicate WordAt(s: string, i: int, w: string) {
    0 <= i && i + |w| <= |s| && s[i..i + |w|] == w && Boundary(s, i) && Boundary(s, i + |w|)
  }

  /** `\b(w1|...|wn)\b` matches at position `i` of `s`. */
  predicate AnyWordAt(s: string, i: int, words: seq<string>) {
    exists k :: 0 <= k < |words| && WordAt(s, i, words[k])
  }

  /** The regular-expression engine's scan of the start positions from `i` on. */
  predicate SearchFrom(s: string, words: seq<string>, i: nat)
    requires i <= |s|
    decreases |s| - i
  {
    AnyWordAt(s, i, words) || (i < |s| && SearchFrom(s, words, i + 1))
  }

  /** The scan finds a match exactly when one starts at some position from
      `i` on. */
  lemma {:induction false} SearchFromFinds(s: string, words: seq<string>, i: nat)
    requires i <= |s|
    ensures SearchFrom(s, words, i) <==> exists j :: i <= j <= |s| && AnyWordAt(s, j, words)
    decreases |s| - i
  {
    if i < |s| {
      SearchFromFinds(s, words, i + 1);
    }
  }

  /** `/\b(w1|...|wn)\b/.test(s)`. */
  predicate ContainsWord(s: string, words: seq<string>) {
    SearchFrom(s, words, 0)
  }

  /** `\b(w1|...|wn)\b` matches somewhere in `s` exactly when some
      alternative occurs in `s` with a word boundary on either side. */
  lemma ContainsWordMeaning(s: string, words: seq<string>)
    ensures ContainsWord(s, words) <==> exists j, k :: 0 <= j <= |s| && 0 <= k < |words| && WordAt(s, j, words[k])
  {
    SearchFromFinds(s, words, 0);
    if ContainsWord(s, words) {
      var j :| 0 <= j <= |s| && AnyWordAt(s, j, words);
      var k :| 0 <= k < |words| && WordAt(s, j, words[k]);
    } else {
      forall j, k | 0 <= j <= |s| && 0 <= k < |words|
        ensures !WordAt(s, j, words[k])
      {
        assert !AnyWordAt(s, j, words);
      }
    }
  }

  /** `/[...]$/.test(s)`: the last character of `s` is one of `cs`. */
  predicate EndsWithOneOf(s: string, cs: set<char>) {
    s != [] && s[|s| - 1] in cs
  }
}
