/**
 * The contact form's own email check, `isValidEmail` in the wizard component: the pattern
 * `^[^\s@]+@[^\s@]+\.[^\s@]+$`, and how it relates to the server's stricter check.
 */
module ClientEmail {
  import opened JsText
  import ServerEmail

  /** `[^\s@]` */
  predicate IsPlain(c: char) {
    c != '@' && !IsWhiteSpace(c)
  }

  /** One reading of `s` against the pattern: three plain runs around an `@` and a dot. */
  predicate ClientSplit(s: string, at: int, dot: int) {
    && 0 < at && at + 1 < dot && dot + 1 < |s|
    && s[at] == '@' && s[dot] == '.'
    && (forall k | 0 <= k < at :: IsPlain(s[k]))
    && (forall k | at < k < dot :: IsPlain(s[k]))
    && (forall k | dot < k < |s| :: IsPlain(s[k]))
  }

  predicate MatchesClientPattern(s: string) {
    exists at, dot | 0 <= at < |s| && 0 <= dot < |s| :: ClientSplit(s, at, dot)
  }

  /** The check decided without search: the one `@`, no white space, and a dot strictly inside
      the part after the `@`. */
  function IsValidEmail(email: string): bool {
    var at := FirstIndexOf(email, '@');
    && 0 < at < |email|
    && (forall k | 0 <= k < |email| && k != at :: IsPlain(email[k]))
    && exists dot | at + 1 < dot < |email| - 1 :: email[dot] == '.'
  }

  /** `IsValidEmail` accepts exactly the strings the pattern matches. */
  lemma IsValidEmailMatchesPattern(email: string)
    ensures IsValidEmail(email) <==> MatchesClientPattern(email)
  {
    if MatchesClientPattern(email) {
      var at, dot :| 0 <= at < |email| && 0 <= dot < |email| && ClientSplit(email, at, dot);
      assert forall k | 0 <= k < at :: email[k] != '@';
      assert FirstIndexOf(email, '@') == at;
      assert email[dot] == '.';
    }
    if IsValidEmail(email) {
      var at := FirstIndexOf(email, '@');
      var dot :| at + 1 < dot < |email| - 1 && email[dot] == '.';
      assert ClientSplit(email, at, dot);
    }
  }

  /** A valid address has no white space at all, so the wizard's separate blank test on the
      email never decides anything once the pattern passes. */
  lemma ValidEmailIsNotBlank(email: string)
    requires IsValidEmail(email)
    ensures !IsBlank(email)
  {
    var at := FirstIndexOf(email, '@');
    assert IsPlain(email[0]);
  }

  lemma ServerCharsArePlain(c: char)
    ensures ServerEmail.IsDomainChar(c) ==> IsPlain(c)
    ensures ServerEmail.IsLocalChar(c) ==> IsPlain(c)
  {
  }

  /** Every address the server accepts, the form accepts too. */
  lemma {:induction false} ServerAcceptedIsClientAccepted(s: string)
    requires ServerEmail.MatchesServerPattern(s)
    ensures MatchesClientPattern(s)
  {
    var at, dot :| 0 <= at < |s| && 0 <= dot < |s| && ServerEmail.ServerSplit(s, at, dot);
    forall k | 0 <= k < |s| ensures k != at ==> IsPlain(s[k]) {
      ServerCharsArePlain(s[k]);
    }
    assert ClientSplit(s, at, dot);
  }

  /** The converse fails: `a@b.c` passes the form and is refused by the server. */
  lemma ClientAcceptsMoreThanServer()
    ensures MatchesClientPattern("a@b.c")
    ensures !ServerEmail.MatchesServerPattern("a@b.c")
  {
    var s := "a@b.c";
    assert ClientSplit(s, 1, 3);
    assert forall at, dot :: !ServerEmail.ServerSplit(s, at, dot);
  }

  /** A string without an `@`, or without any dot, is refused by both checks. */
  lemma MalformedRejectedByBoth(s: string)
    ensures MatchesClientPattern(s) ==> '@' in s && '.' in s
    ensures ServerEmail.MatchesServerPattern(s) ==> '@' in s && '.' in s
  {
    if MatchesClientPattern(s) {
      var at, dot :| 0 <= at < |s| && 0 <= dot < |s| && ClientSplit(s, at, dot);
      assert s[at] in s && s[dot] in s;
    }
    if ServerEmail.MatchesServerPattern(s) {
      var at, dot :| 0 <= at < |s| && 0 <= dot < |s| && ServerEmail.ServerSplit(s, at, dot);
      assert s[at] in s && s[dot] in s;
    }
  }
}
