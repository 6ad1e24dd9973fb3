/** `escapeHtml`: the character mapping applied to a message's text before it
    is placed in the transcript's markup. */
module Html {

  /** The five characters the mapping replaces. */
  predicate IsSpecial(c: char) {
    c == '&' || c == '<' || c == '>' || c == '"' || c == '\''
  }

  /** The entity each special character becomes; every other character
      stands for itself. */
  function EscapeChar(c: char): (e: string)
    ensures |e| >= 1
    ensures IsSpecial(c) <==> e[0] == '&' && |e| > 1
    ensures !IsSpecial(c) ==> e == [c]
  {
    match c
    case '&' => "&amp;"
    case '<' => "&lt;"
    case '>' => "&gt;"
    case '"' => "&quot;"
    case '\'' => "&#039;"
    case _ => [c]
  }

  /** `escapeHtml`: every special character replaced by its entity, every
      other character copied in order. */
  function Escape(s: string): (r: string)
    ensures |r| >= |s|
    ensures forall i :: 0 <= i < |r| ==> r[i] != '<' && r[i] != '>' && r[i] != '"' && r[i] != '\''
    ensures (forall i :: 0 <= i < |s| ==> !IsSpecial(s[i])) ==> r == s
  {
    if s == [] then [] else EscapeChar(s[0]) + Escape(s[1..])
  }

  predicate StartsWith(s: string, prefix: string) {
    |prefix| <= |s| && s[..|prefix|] == prefix
  }

  /** The character an HTML reader takes from the front of `s`, and how
      many characters of `s` stand for it. */
  function DecodeFirst(s: string): (r: (char, nat))
    requires s != []
    ensures 1 <= r.1 <= |s|
  {
    if s[0] != '&' then (s[0], 1)
    else if StartsWith(s, "&amp;") then ('&', 5)
    else if StartsWith(s, "&lt;") then ('<', 4)
    else if StartsWith(s, "&gt;") then ('>', 4)
    else if StartsWith(s, "&quot;") then ('"', 6)
    else if StartsWith(s, "&#039;") then ('\'', 6)
    else ('&', 1)
  }

  /** What an HTML reader makes of the five entities again: the inverse of
      Escape, a reference against which the escaping is checked. */
  function Unescape(s: string): string
    decreases |s|
  {
    if s == [] then []
    else
      var (c, n) := DecodeFirst(s);
      [c] + Unescape(s[n..])
  }

  /** An escaped character is read back as itself. */
  lemma DecodeEscaped(c: char, rest: string)
    ensures DecodeFirst(EscapeChar(c) + rest) == (c, |EscapeChar(c)|)
  {
    var e := EscapeChar(c);
    var t := e + rest;
    assert t[..|e|] == e;
    assert t[0] == e[0];
    if c == '<' || c == '>' {
      assert t[1] == e[1];
    } else if c == '"' || c == '\'' {
      assert t[1] == e[1];
    }
  }

  /** Escaping loses nothing: the displayed text is the message's text. */
  lemma {:induction false} UnescapeEscape(s: string)
    ensures Unescape(Escape(s)) == s
  {
    if s != [] {
      var e, rest := EscapeChar(s[0]), Escape(s[1..]);
      DecodeEscaped(s[0], rest);
      assert (e + rest)[|e|..] == rest;
      UnescapeEscape(s[1..]);
    }
  }
}
