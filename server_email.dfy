/**
 * The server's email check, `isValidEmail` in the send-email route: the pattern
 * `^[a-zA-Z0-9._%+-]+@[a-zA-Z0-9.-]+\.[a-zA-Z]{2,}$`. The spam patterns the route builds next to
 * it are never applied, so they do not appear here.
 */
module ServerEmail {
  import opened JsText

  predicate IsAsciiLetter(c: char) {
    'a' <= c <= 'z' || 'A' <= c <= 'Z'
  }

  predicate IsAsciiDigit(c: char) {
    '0' <= c <= '9'
  }

  /** `[a-zA-Z0-9._%+-]` */
  predicate IsLocalChar(c: char) {
    IsAsciiLetter(c) || IsAsciiDigit(c) || c == '.' || c == '_' || c == '%' || c == '+' || c == '-'
  }

  /** `[a-zA-Z0-9.-]` */
  predicate IsDomainChar(c: char) {
    IsAsciiLetter(c) || IsAsciiDigit(c) || c == '.' || c == '-'
  }

  /**
   * One way of reading `s` against the pattern: `s[..at]` is the local part, `s[at]` the `@`,
   * `s[at + 1..dot]` the domain run, `s[dot]` the escaped dot and `s[dot + 1..]` the letters.
   */
  predicate ServerSplit(s: string, at: int, dot: int) {
    && 0 < at && at + 1 < dot && dot + 3 <= |s|
    && s[at] == '@' && s[dot] == '.'
    && (forall k | 0 <= k < at :: IsLocalChar(s[k]))
    && (forall k | at < k < dot :: IsDomainChar(s[k]))
    && (forall k | dot < k < |s| :: IsAsciiLetter(s[k]))
  }

  /** The pattern matches `s` when some reading of it fits. */
  predicate MatchesServerPattern(s: string) {
    exists at, dot | 0 <= at < |s| && 0 <= dot < |s| :: ServerSplit(s, at, dot)
  }

  /** `isValidEmail` decided without search: only the first `@` and the last `.` can fit. */
  function IsValidEmail(email: string): bool {
    ServerSplit(email, FirstIndexOf(email, '@'), LastIndexOf(email, '.'))
  }

  /** A fitting reading is the only one: its `@` is the first and its dot is the last. */
  lemma ServerSplitIsUnique(s: string, at: int, dot: int)
    requires ServerSplit(s, at, dot)
    ensures FirstIndexOf(s, '@') == at && LastIndexOf(s, '.') == dot
  {
    assert forall k | 0 <= k < at :: s[k] != '@' by {
      forall k | 0 <= k < at ensures s[k] != '@' { assert IsLocalChar(s[k]); }
    }
    assert forall k | dot < k < |s| :: s[k] != '.' by {
      forall k | dot < k < |s| ensures s[k] != '.' { assert IsAsciiLetter(s[k]); }
    }
  }

  /** `IsValidEmail` accepts exactly the strings the pattern matches. */
  lemma IsValidEmailMatchesPattern(email: string)
    ensures IsValidEmail(email) <==> MatchesServerPattern(email)
  {
    if MatchesServerPattern(email) {
      var at, dot :| 0 <= at < |email| && 0 <= dot < |email| && ServerSplit(email, at, dot);
      ServerSplitIsUnique(email, at, dot);
    }
    if IsValidEmail(email) {
      var at, dot := FirstIndexOf(email, '@'), LastIndexOf(email, '.');
      assert 0 <= at < |email| && 0 <= dot < |email| && ServerSplit(email, at, dot);
    }
  }

  /** The dormant spam filter: an address with a "suspicious" ending and prefix still passes. */
  lemma SpamPatternsAreNotApplied()
    ensures IsValidEmail("test@example.ru")
  {
    var s := "test@example.ru";
    assert ServerSplit(s, 4, 12);
    ServerSplitIsUnique(s, 4, 12);
  }
}
