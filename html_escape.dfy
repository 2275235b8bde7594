/** `escapeHtml` of the browser client (frontend/assistant.js:595-604): each of the five
    HTML special characters is replaced by its entity, every other character is kept. */
module HtmlEscape {
  import Text

  predicate IsSpecial(c: char) {
    c == '&' || c == '<' || c == '>' || c == '"' || c == '\''
  }

  /** The replacement `map[m]` gives for one matched character. */
  function Entity(c: char): (r: string)
    requires IsSpecial(c)
    ensures |r| >= 4 && r[0] == '&' && r[|r| - 1] == ';'
    ensures forall i :: 0 <= i < |r| ==> !IsSpecial(r[i]) || (i == 0 && r[i] == '&')
  {
    match c
    case '&' => "&amp;"
    case '<' => "&lt;"
    case '>' => "&gt;"
    case '"' => "&quot;"
    case '\'' => "&#039;"
  }

  function EscapeChar(c: char): string {
    if IsSpecial(c) then Entity(c) else [c]
  }

  function EscapeHtml(text: string): (r: string)
    ensures |r| >= |text|
    ensures forall i :: 0 <= i < |r| ==> r[i] != '<' && r[i] != '>' && r[i] != '"' && r[i] != '\''
    decreases |text|
  {
    if text == [] then [] else EscapeChar(text[0]) + EscapeHtml(text[1..])
  }

  /** The inverse of `EscapeHtml`: the five entities are read back as their characters. */
  function Unescape(s: string): string
    decreases |s|
  {
    if s == [] then []
    else if Text.StartsWith(s, "&amp;") then "&" + Unescape(s[5..])
    else if Text.StartsWith(s, "&lt;") then "<" + Unescape(s[4..])
    else if Text.StartsWith(s, "&gt;") then ">" + Unescape(s[4..])
    else if Text.StartsWith(s, "&quot;") then "\"" + Unescape(s[6..])
    else if Text.StartsWith(s, "&#039;") then "'" + Unescape(s[6..])
    else [s[0]] + Unescape(s[1..])
  }

  lemma UnescapeFirst(c: char, rest: string)
    ensures Unescape(EscapeChar(c) + rest) == [c] + Unescape(rest)
  {
    var e := EscapeChar(c);
    var s := e + rest;
    assert s[|e|..] == rest;
    if !IsSpecial(c) {
      assert s[0] == c && s[0] != '&';
      assert !Text.StartsWith(s, "&amp;") && !Text.StartsWith(s, "&lt;") && !Text.StartsWith(s, "&gt;")
        && !Text.StartsWith(s, "&quot;") && !Text.StartsWith(s, "&#039;") by {
        assert forall p: string :: |p| >= 1 && p[0] == '&' && Text.StartsWith(s, p) ==> s[0] == '&';
      }
    } else {
      assert s[..|e|] == e;
      EntityFirst(c, s);
    }
  }

  /** The entity at the start of a text is the first alternative `Unescape` recognises. */
  lemma EntityFirst(c: char, s: string)
    requires IsSpecial(c) && Text.StartsWith(s, Entity(c))
    ensures match c
      case '&' => Text.StartsWith(s, "&amp;")
      case '<' => !Text.StartsWith(s, "&amp;") && Text.StartsWith(s, "&lt;")
      case '>' => !Text.StartsWith(s, "&amp;") && !Text.StartsWith(s, "&lt;") && Text.StartsWith(s, "&gt;")
      case '"' =>
        && !Text.StartsWith(s, "&amp;") && !Text.StartsWith(s, "&lt;") && !Text.StartsWith(s, "&gt;")
        && Text.StartsWith(s, "&quot;")
      case _ =>
        && !Text.StartsWith(s, "&amp;") && !Text.StartsWith(s, "&lt;") && !Text.StartsWith(s, "&gt;")
        && !Text.StartsWith(s, "&quot;") && Text.StartsWith(s, "&#039;")
  {
    var e := Entity(c);
    assert s[..|e|] == e;
    assert s[1] == e[1];
  }

  /** Escaping loses nothing: unescaping gives the text back. */
  lemma {:induction false} EscapeRoundTrip(text: string)
    ensures Unescape(EscapeHtml(text)) == text
    decreases |text|
  {
    if text != [] {
      UnescapeFirst(text[0], EscapeHtml(text[1..]));
      EscapeRoundTrip(text[1..]);
      assert [text[0]] + text[1..] == text;
    }
  }

  /** Escaping works character by character: the escape of a concatenation is the
      concatenation of the escapes. */
  lemma {:induction false} EscapeAppend(a: string, b: string)
    ensures EscapeHtml(a + b) == EscapeHtml(a) + EscapeHtml(b)
    decreases |a|
  {
    if a == [] {
      assert a + b == b;
    } else {
      assert (a + b)[0] == a[0] && (a + b)[1..] == a[1..] + b;
      EscapeAppend(a[1..], b);
    }
  }

  /** One character: each special character becomes its entity, any other is kept. With
      EscapeAppend this fixes the escape of every text. */
  lemma EscapeOne(c: char)
    ensures c == '&' ==> EscapeHtml([c]) == "&amp;"
    ensures c == '<' ==> EscapeHtml([c]) == "&lt;"
    ensures c == '>' ==> EscapeHtml([c]) == "&gt;"
    ensures c == '"' ==> EscapeHtml([c]) == "&quot;"
    ensures c == '\'' ==> EscapeHtml([c]) == "&#039;"
    ensures !IsSpecial(c) ==> EscapeHtml([c]) == [c]
  {
    assert [c][1..] == [];
    assert EscapeHtml([c]) == EscapeChar(c) + [];
  }

  /** A text without special characters is left as it is. */
  lemma {:induction false} EscapePlain(text: string)
    requires forall i :: 0 <= i < |text| ==> !IsSpecial(text[i])
    ensures EscapeHtml(text) == text
    decreases |text|
  {
    if text != [] {
      EscapePlain(text[1..]);
      assert [text[0]] + text[1..] == text;
    }
  }
}
