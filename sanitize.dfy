/**
 * The two text defences of the contact endpoint: `sanitizeInput`, applied to every submitted
 * field before validation, and `escapeHtml`, applied again when the fields are embedded in the
 * HTML body of the outgoing email.
 */
module Sanitize {
  import opened JsText

  /** The length `sanitizeInput` truncates to. */
  const MaxInputLength: nat := 5000

  predicate IsAngleBracket(c: char) {
    c == '<' || c == '>'
  }

  predicate FreeOfAngleBrackets(s: string) {
    forall k | 0 <= k < |s| :: !IsAngleBracket(s[k])
  }

  /** `s.replace(/[<>]/g, '')`. */
  function StripAngleBrackets(s: string): (r: string)
    ensures |r| <= |s|
    ensures FreeOfAngleBrackets(r)
    ensures FreeOfAngleBrackets(s) ==> r == s
  {
    if s == [] then []
    else if IsAngleBracket(s[0]) then StripAngleBrackets(s[1..])
    else [s[0]] + StripAngleBrackets(s[1..])
  }

  /** Stripping removes the angle brackets and keeps every other character. */
  lemma {:induction false} StripKeepsOtherChars(s: string)
    ensures forall c :: c in StripAngleBrackets(s) <==> c in s && !IsAngleBracket(c)
  {
    if s != [] {
      StripKeepsOtherChars(s[1..]);
      assert s == [s[0]] + s[1..];
    }
  }

  /** The replacement works character by character: stripping a concatenation strips each part,
      so the kept characters stay in their order and with their multiplicity. */
  lemma {:induction false} StripConcat(a: string, b: string)
    ensures StripAngleBrackets(a + b) == StripAngleBrackets(a) + StripAngleBrackets(b)
  {
    if a == [] {
      assert a + b == b;
    } else {
      assert (a + b)[0] == a[0] && (a + b)[1..] == a[1..] + b;
      StripConcat(a[1..], b);
    }
  }

  /** One character is dropped when it is `<` or `>` and kept otherwise. */
  lemma StripOfChar(c: char)
    ensures StripAngleBrackets([c]) == if IsAngleBracket(c) then [] else [c]
  {
    assert [c][1..] == [];
  }

  /** `s.substring(0, n)`. */
  function Truncate(s: string, n: nat): (r: string)
    ensures |r| <= n && |r| <= |s|
    ensures r == s[..|r|]
    ensures |s| <= n ==> r == s
    ensures |s| > n ==> |r| == n
  {
    if |s| <= n then s else s[..n]
  }

  /** Lower-casing after sanitizing cannot bring a `<` or `>` back. */
  lemma LowerAsciiKeepsBracketFree(s: string)
    requires FreeOfAngleBrackets(s)
    ensures FreeOfAngleBrackets(LowerAscii(s))
  {
    var r := LowerAscii(s);
    forall k | 0 <= k < |r| ensures !IsAngleBracket(r[k]) {
      assert !IsAngleBracket(s[k]);
    }
  }

  /** A string that `sanitizeInput` has nothing to do to: trimmed, bracket-free, short enough. */
  predicate IsSanitized(s: string) {
    IsTrimmed(s) && FreeOfAngleBrackets(s) && |s| <= MaxInputLength
  }

  /** `sanitizeInput`: trim, then strip `<` and `>`, then truncate to 5000 characters. */
  function SanitizeInput(input: string): (r: string)
    ensures |r| <= MaxInputLength
    ensures FreeOfAngleBrackets(r)
    ensures IsSanitized(input) ==> r == input
  {
    Truncate(StripAngleBrackets(Trim(input)), MaxInputLength)
  }

  /** Sanitizing only removes characters: everything in the result was in the input. */
  lemma SanitizeKeepsInputChars(input: string)
    ensures forall c | c in SanitizeInput(input) :: c in input
  {
    var stripped := StripAngleBrackets(Trim(input));
    var r := SanitizeInput(input);
    TrimKeepsChars(input);
    StripKeepsOtherChars(Trim(input));
    forall c | c in r ensures c in input {
      var k :| 0 <= k < |r| && r[k] == c;
      assert stripped[k] == c;
    }
  }

  /** Sanitizing never produces text from nothing: a non-empty result comes from a non-empty input. */
  lemma SanitizedFromNonEmpty(input: string)
    requires SanitizeInput(input) != []
    ensures input != []
  {
  }

  /** Trimming runs before stripping, so stripping can expose new outer white space:
      sanitizing is not idempotent in general. */
  lemma SanitizeIsNotIdempotent()
    ensures SanitizeInput("< a") == " a"
    ensures SanitizeInput(SanitizeInput("< a")) == "a"
  {
    var s := "< a";
    assert IsTrimmed(s);
    assert StripAngleBrackets(s) == " a" by {
      assert s[1..] == " a";
      assert FreeOfAngleBrackets(" a");
    }
    SanitizeOfSpaceA();
  }

  lemma SanitizeOfSpaceA()
    ensures SanitizeInput(" a") == "a"
  {
    TrimOfSpaceA();
    assert FreeOfAngleBrackets("a") by {
      assert "a"[0] == 'a';
    }
  }

  lemma TrimOfSpaceA()
    ensures Trim(" a") == "a"
  {
    var t := " a";
    assert t != [] && IsWhiteSpace(t[0]);
    assert t[1..] == "a";
    assert TrimStart(t) == TrimStart("a");
    assert "a"[0] == 'a' && !IsWhiteSpace('a');
    assert TrimStart("a") == "a";
    assert IsTrimmed("a");
  }

  /** The five characters `escapeHtml` replaces. */
  predicate IsHtmlSpecial(c: char) {
    c == '&' || c == '<' || c == '>' || c == '"' || c == '\''
  }

  /** The character reference `escapeHtml` writes for `c`; any other character stands for itself. */
  function Entity(c: char): (r: string)
    ensures '<' !in r && '>' !in r && '"' !in r && '\'' !in r
    ensures 1 <= |r| && (!IsHtmlSpecial(c) ==> r == [c])
  {
    match c
    case '&' => "&amp;"
    case '<' => "&lt;"
    case '>' => "&gt;"
    case '"' => "&quot;"
    case '\'' => "&#039;"
    case _ => [c]
  }

  /** `escapeHtml`: each special character replaced by its character reference, in place. */
  function EscapeHtml(text: string): (r: string)
    ensures '<' !in r && '>' !in r && '"' !in r && '\'' !in r
    ensures (forall k | 0 <= k < |text| :: !IsHtmlSpecial(text[k])) ==> r == text
    ensures |r| >= |text|
  {
    if text == [] then []
    else
      var rest := EscapeHtml(text[1..]);
      assert (forall k | 0 <= k < |text| :: !IsHtmlSpecial(text[k])) ==> text == [text[0]] + text[1..] && rest == text[1..];
      Entity(text[0]) + rest
  }

  /** The reading of character references that `EscapeHtml` is undone by. */
  function UnescapeHtml(s: string): string
    decreases |s|
  {
    if |s| >= 5 && s[..5] == "&amp;" then "&" + UnescapeHtml(s[5..])
    else if |s| >= 4 && s[..4] == "&lt;" then "<" + UnescapeHtml(s[4..])
    else if |s| >= 4 && s[..4] == "&gt;" then ">" + UnescapeHtml(s[4..])
    else if |s| >= 6 && s[..6] == "&quot;" then "\"" + UnescapeHtml(s[6..])
    else if |s| >= 6 && s[..6] == "&#039;" then "'" + UnescapeHtml(s[6..])
    else if s == [] then []
    else [s[0]] + UnescapeHtml(s[1..])
  }

  lemma UnescapeEntity(c: char, rest: string)
    ensures UnescapeHtml(Entity(c) + rest) == [c] + UnescapeHtml(rest)
  {
    var s := Entity(c) + rest;
    var n := |Entity(c)|;
    assert s[..n] == Entity(c) && s[n..] == rest;
    match c
    case '&' =>
    case '<' =>
      assert |s| >= 5 ==> s[..5] != "&amp;" by { assert s[1] == 'l'; }
    case '>' =>
      assert (|s| >= 5 ==> s[..5] != "&amp;") && s[..4] != "&lt;" by { assert s[1] == 'g'; }
    case '"' =>
      assert s[..5] != "&amp;" && s[..4] != "&lt;" && s[..4] != "&gt;" by { assert s[1] == 'q'; }
    case '\'' =>
      assert s[..5] != "&amp;" && s[..4] != "&lt;" && s[..4] != "&gt;" && s[..6] != "&quot;" by {
        assert s[1] == '#';
      }
    case _ =>
      assert s[0] == c && c != '&';
      assert |s| >= 4 ==> s[..4][0] != '&';
      assert |s| >= 5 ==> s[..5][0] != '&';
      assert |s| >= 6 ==> s[..6][0] != '&';
  }

  /** Escaping loses nothing: reading the references back gives the original text, so every
      special character became exactly its own reference and every other one was kept in order. */
  lemma {:induction false} EscapeRoundTrip(text: string)
    ensures UnescapeHtml(EscapeHtml(text)) == text
  {
    if text != [] {
      UnescapeEntity(text[0], EscapeHtml(text[1..]));
      EscapeRoundTrip(text[1..]);
    }
  }

  /** `s.replace(/\n/g, '<br>')`. */
  function BreakLines(s: string): (r: string)
    ensures '\n' !in r
    ensures (forall k | 0 <= k < |s| :: s[k] != '\n') ==> r == s
  {
    if s == [] then []
    else (if s[0] == '\n' then "<br>" else [s[0]]) + BreakLines(s[1..])
  }

  /** The replacement works character by character: rewriting a concatenation rewrites each part. */
  lemma {:induction false} BreakLinesConcat(a: string, b: string)
    ensures BreakLines(a + b) == BreakLines(a) + BreakLines(b)
  {
    if a == [] {
      assert a + b == b;
    } else {
      assert (a + b)[0] == a[0] && (a + b)[1..] == a[1..] + b;
      BreakLinesConcat(a[1..], b);
    }
  }

  /** A line break becomes `<br>` and every other character is kept. */
  lemma BreakLinesOfChar(c: char)
    ensures BreakLines([c]) == if c == '\n' then "<br>" else [c]
  {
    assert [c][1..] == [];
  }

  /** Every `<` in `s` opens a `<br>` tag. */
  predicate OnlyBreakTags(s: string) {
    forall k | 0 <= k < |s| && s[k] == '<' :: k + 4 <= |s| && s[k..k + 4] == "<br>"
  }

  lemma OnlyBreakTagsConcat(x: string, y: string)
    requires OnlyBreakTags(x) && OnlyBreakTags(y)
    ensures OnlyBreakTags(x + y)
  {
    var s := x + y;
    forall k | 0 <= k < |s| && s[k] == '<' ensures k + 4 <= |s| && s[k..k + 4] == "<br>" {
      if k < |x| {
        assert x[k] == '<';
        assert s[k..k + 4] == x[k..k + 4];
      } else {
        assert y[k - |x|] == '<';
        assert s[k..k + 4] == y[k - |x|..k - |x| + 4];
      }
    }
  }

  lemma {:induction false} BreakLinesOnlyAddsBreakTags(s: string)
    requires '<' !in s
    ensures OnlyBreakTags(BreakLines(s))
  {
    if s != [] {
      BreakLinesOnlyAddsBreakTags(s[1..]);
      var head := if s[0] == '\n' then "<br>" else [s[0]];
      assert OnlyBreakTags(head);
      OnlyBreakTagsConcat(head, BreakLines(s[1..]));
    }
  }

  /** The message block of the HTML body: the escaped message with line breaks as `<br>`. */
  function MessageBlock(message: string): string {
    BreakLines(EscapeHtml(message))
  }

  /** In the message block every `<` comes from an inserted `<br>`, and no line break is left. */
  lemma MessageBlockMarkup(message: string)
    ensures OnlyBreakTags(MessageBlock(message))
    ensures '\n' !in MessageBlock(message)
  {
    BreakLinesOnlyAddsBreakTags(EscapeHtml(message));
  }
}
