# Portfolio contact pipeline and preferences, in Dafny

This project models the parts of the portfolio site that make decisions:

- **The send-email route** (`app/api/send-email/route.ts`). It covers:
  - the per-address rate limiter, a fixed one-hour window of five requests kept in an in-memory table;
  - the request key taken from the proxy headers;
  - `sanitizeInput`, `escapeHtml` and the server email pattern;
  - the early-return validation pipeline of `POST`. The call to the email provider is left abstract: it either returns or throws.
- **The three-step contact wizard** (`components/Contact.tsx`). It covers the component state, per-step validation, arrow, dot and keyboard navigation, the two halves of a submission (before and after the network call), reset and the Escape key.
- **The certificate strip** (`components/Certificates.tsx`). It covers the lookup of the TechWave experience entry and the stable newest-first sort on a (year, month) key read out of free-text dates.
- **The language preference** (`contexts/LanguageContext.tsx`). The app starts in English. On mount it restores a whitelisted stored code, and every change is written through to storage.

Files, one module each:

- `wrappers.dfy`: `Option` and `Result`.
- `js_text.dfy`: the JavaScript string operations the code uses, and two search helpers:
  - `trim` over the ECMAScript white-space and line-terminator set;
  - `includes` (`Contains`);
  - ASCII `toLowerCase`;
  - `FirstIndexOf` (the first occurrence, or the length when there is none), which gives the text before the first comma for `split(',')[0]` and the `@` of the wizard's email test;
  - `LastIndexOf` (the last occurrence, or -1), which is how the model decides the dot of the server's email pattern. Neither is JavaScript's `indexOf`, which the code does not call.
- `rate_limit.dfy`: `checkRateLimit`. It is written twice:
  - as a pure step function on the table, which carries the lemmas;
  - as a `RateLimiter` class whose method updates the table in place and is proved equal to that step.
- `sanitize.dfy`: `sanitizeInput`, `escapeHtml` and the `<br>` rewriting of the message.
- `server_email.dfy`, `client_email.dfy`: the route's pattern and the wizard's pattern. Each is written as a split at witness positions, which is the regular language. Each is also written as a deterministic check that is proved equivalent to its split.
- `send_email.dfy`: `getRateLimitKey` and the `POST` pipeline:
  - a pure `Respond` function for the order of the stages, given the body checks' outcome, and `Pipeline` for the whole route after the key lookup;
  - a `Post` method that updates the limiter object in place and whose answer is proved equal to `Pipeline`'s.
- `contact_wizard.dfy`: the wizard as a `ContactForm` class with one method per handler.
- `certificates.dfy`: pure functions for the lookup and the sort.
- `language_context.dfy`: `Storage` and `LanguageProvider` classes.

External inputs become parameters:

- the clock (`Date.now()`) is the integer `now`;
- whether the API key is set at start-up and at request time;
- the two proxy headers;
- the parsed request body, which is `None` when `request.json()` throws;
- how the provider call ended;
- how the wizard's `fetch` ended;
- the translation tables. These are an opaque function from language to table, and the context's `t` is `translations(language)` by definition (`LanguageProvider.T`).

Where the code and its description differ, the model follows the code:

- The rate limit is a fixed window that starts at the first request, not a rolling hour. A request at exactly `resetTime` is still inside the window, because the reset test is `now > resetTime`.
- A request that is rejected after the rate-limit check has already used up one of the five slots.
- `sanitizeInput` is not idempotent in general (`"< a"` becomes `" a"`, then `"a"`). It leaves only already-sanitized text unchanged.
- The provider SDK can report a failure by returning an error object instead of throwing. The route answers 200 in that case; the model's `Returned` outcome covers it.
- `validateStep` builds its error messages (`"Name is required"` and so on) in a local object and returns before storing them. A failed step therefore never changes `errors`. Only the email format failure has a visible effect, the email popup.
- The exact-name test `company === 'TechWave d.o.o.'` adds nothing to `includes('TechWave')`.
- The spam patterns in `isValidEmail` are built but never consulted. For example, `test@example.ru` is accepted.
- An `x-forwarded-for` header that starts with a comma gives the empty key, which is shared by every such client.

## Model

| member | source | states |
|---|---|---|
| `RateLimit.RateStep` | app/api/send-email/route.ts:19-35 | one `checkRateLimit` call on the table: the new table and the decision; its properties are the lemmas in the next rows |
| `RateLimit.NewWindow` | app/api/send-email/route.ts:23-27 | an unknown key, or a time strictly after `resetTime`, stores count 1 with `resetTime = now + 3600000` and allows |
| `RateLimit.InsideWindow` | app/api/send-email/route.ts:29-34 | inside the window (`now == resetTime` included) a count of 5 or more refuses and leaves the table as it was; a lower count rises by exactly 1, with the window unchanged, and allows |
| `RateLimit.OtherKeysUnchanged` | app/api/send-email/route.ts:19-35 | a call adds, removes or alters no entry but its own key's |
| `RateLimit.StepKeepsCountsInRange` | app/api/send-email/route.ts:9-10 | every stored count stays within 1..5 across a call |
| `RateLimit.RunInsideWindow` | app/api/send-email/route.ts:29-34 | with `c` already counted, call `i` of a series inside the window is allowed exactly when `c + i < 5` |
| `RateLimit.FreshKeyBurst` | app/api/send-email/route.ts:9-10 | from an unknown key, calls within one hour of the first are allowed exactly when they are among the first five, so call 6 is refused |
| `RateLimit.Run` | app/api/send-email/route.ts:19-35 | a series of calls gives one decision per call |
| `RateLimit.RateLimiter.constructor` | app/api/send-email/route.ts:8 | the table starts empty |
| `RateLimit.RateLimiter.CheckRateLimit` | app/api/send-email/route.ts:19-35 | the in-place update of the table and the answer are exactly the pure step's, and the 1..5 count invariant is kept |
| `SendEmailRoute.FirstField` | app/api/send-email/route.ts:15 | `split(',')[0]` is the longest comma-free prefix, untrimmed |
| `SendEmailRoute.RateLimitKey` | app/api/send-email/route.ts:12-17 | a non-empty `x-forwarded-for` gives its text before the first comma; otherwise a non-empty `x-real-ip`; otherwise `"unknown"` |
| `JsText.IsWhiteSpace` | app/api/send-email/route.ts:40 | the ECMAScript white-space and line-terminator characters, which `trim` removes and `\s` matches |
| `JsText.TrimStart` | app/api/send-email/route.ts:40 | the result is a suffix, the dropped prefix is all white space, and the result does not start with white space |
| `JsText.TrimEnd` | app/api/send-email/route.ts:40 | the mirror image of `TrimStart` |
| `JsText.Trim` | app/api/send-email/route.ts:40 | no white space at either end; never longer; empty exactly when the input is all white space; a trimmed input is unchanged |
| `JsText.TrimKeepsChars` | app/api/send-email/route.ts:40 | every character of the trimmed text occurs in the input |
| `JsText.Contains` | components/Certificates.tsx:11 | `includes`: some position of the text starts an occurrence of the pattern |
| `JsText.FirstIndexOf` | app/api/send-email/route.ts:15 | the first occurrence, or the length when there is none |
| `JsText.LastIndexOf` | app/api/send-email/route.ts:59 | the last occurrence, or -1 when there is none |
| `JsText.LowerAscii` | app/api/send-email/route.ts:115 | keeps the length |
| `JsText.LowerAsciiFacts` | app/api/send-email/route.ts:115 | no ASCII capital is left; A-Z map to a-z; every other character is kept |
| `Sanitize.StripAngleBrackets` | app/api/send-email/route.ts:41 | the result is never longer and holds no `<` or `>`; bracket-free input is unchanged |
| `Sanitize.StripKeepsOtherChars` | app/api/send-email/route.ts:41 | a character occurs in the result exactly when it occurs in the input and is neither `<` nor `>` |
| `Sanitize.StripConcat` | app/api/send-email/route.ts:41 | stripping a concatenation strips each part, so the kept characters stay in order and with their counts |
| `Sanitize.StripOfChar` | app/api/send-email/route.ts:41 | a single `<` or `>` is dropped and any other character is kept |
| `Sanitize.Truncate` | app/api/send-email/route.ts:42 | the result is a prefix of the input; a short input is unchanged, and a longer one keeps exactly `n` characters |
| `Sanitize.SanitizeInput` | app/api/send-email/route.ts:37-43 | at most 5000 characters and no `<` or `>`; already-sanitized input (trimmed, bracket-free, short enough) is unchanged |
| `Sanitize.SanitizeKeepsInputChars` | app/api/send-email/route.ts:37-43 | every character of the result occurs in the input |
| `Sanitize.SanitizedFromNonEmpty` | app/api/send-email/route.ts:37-43 | a non-empty result comes from a non-empty input |
| `Sanitize.SanitizeIsNotIdempotent` | app/api/send-email/route.ts:39-42 | `"< a"` sanitizes to `" a"`, and sanitizing that gives `"a"` |
| `Sanitize.SanitizeOfSpaceA` | app/api/send-email/route.ts:39-42 | `" a"` sanitizes to `"a"` |
| `Sanitize.TrimOfSpaceA` | app/api/send-email/route.ts:40 | trimming `" a"` gives `"a"` |
| `Sanitize.LowerAsciiKeepsBracketFree` | app/api/send-email/route.ts:115 | lower-casing a bracket-free string keeps it bracket-free |
| `Sanitize.Entity` | app/api/send-email/route.ts:47-53 | one character's replacement is never empty and holds no `<`, `>`, `"` or `'`; a character that is not special is kept as it is |
| `Sanitize.EscapeHtml` | app/api/send-email/route.ts:45-55 | the result has no `<`, `>`, `"` or `'`; text without the five special characters is unchanged; the result is never shorter |
| `Sanitize.UnescapeEntity` | app/api/send-email/route.ts:47-53 | each character's replacement reads back as that one character |
| `Sanitize.EscapeRoundTrip` | app/api/send-email/route.ts:45-55 | reading the references back gives the original text, so each special character became exactly its reference and all others were kept in order |
| `Sanitize.MessageBlock` | app/api/send-email/route.ts:160 | the message as embedded in the HTML body: escaped, then each line break turned into `<br>`; `MessageBlockMarkup` states its markup |
| `Sanitize.BreakLines` | app/api/send-email/route.ts:160 | no line break is left; text without one is unchanged |
| `Sanitize.BreakLinesConcat` | app/api/send-email/route.ts:160 | rewriting a concatenation rewrites each part |
| `Sanitize.BreakLinesOfChar` | app/api/send-email/route.ts:160 | a line break becomes `<br>` and any other character is kept |
| `Sanitize.OnlyBreakTagsConcat` | app/api/send-email/route.ts:160 | "every `<` opens `<br>`" survives concatenation |
| `Sanitize.BreakLinesOnlyAddsBreakTags` | app/api/send-email/route.ts:160 | on text with no `<`, every `<` after the rewrite opens a `<br>` |
| `Sanitize.MessageBlockMarkup` | app/api/send-email/route.ts:160 | in the escaped, line-broken message every `<` belongs to an inserted `<br>` |
| `ServerEmail.IsValidEmail` | app/api/send-email/route.ts:57-72 | `isValidEmail` decided at the first `@` and the last dot, with the spam lists not consulted; `IsValidEmailMatchesPattern` proves it is the regex's language |
| `ServerEmail.MatchesServerPattern` | app/api/send-email/route.ts:59 | the regex's language: some split into local part, `@`, domain run, dot and two or more ASCII letters fits |
| `ServerEmail.ServerSplitIsUnique` | app/api/send-email/route.ts:59 | a match of the pattern has its `@` at the first `@` and its final dot at the last dot |
| `ServerEmail.IsValidEmailMatchesPattern` | app/api/send-email/route.ts:57-72 | the deterministic check holds exactly when the string is local part, `@`, domain run, dot, two or more ASCII letters |
| `ServerEmail.SpamPatternsAreNotApplied` | app/api/send-email/route.ts:63-71 | an address on a "suspicious" TLD with a "spam" prefix is still accepted |
| `SendEmailRoute.Configured` | app/api/send-email/route.ts:77 | the service counts as configured when the client was built from a truthy key and the key is still truthy |
| `SendEmailRoute.HoneypotFilled` | app/api/send-email/route.ts:98 | the honeypot is truthy and its trimmed text is not empty |
| `SendEmailRoute.ValidateBody` | app/api/send-email/route.ts:97-139 | the body checks in order: honeypot, presence of the three fields, then `CheckFields` on the sanitized values with the email lower-cased; described by `ValidateBodyRejections`, `ValidateBodyAcceptance` and `AcceptedBody` |
| `SendEmailRoute.CheckFields` | app/api/send-email/route.ts:118-139 | on the sanitized values, a bad email answers "Invalid email format" whatever the lengths; with a valid email a bad name length answers the name error whatever the message; with both valid a bad message length answers the message error; the checks pass exactly when all three hold, and then the submission is those values; every failure is a 400 |
| `SendEmailRoute.ValidateBodyRejections` | app/api/send-email/route.ts:97-139 | every body rejection is a 400; a non-blank honeypot is refused whatever the other fields hold; with an empty honeypot, a missing or empty field is refused as "All fields are required" |
| `SendEmailRoute.ValidateBodyAcceptance` | app/api/send-email/route.ts:98-139 | an accepted body had no filled honeypot and three truthy fields; the submission is the sanitized fields with the email lower-cased; the email matches the pattern; the lengths, measured after sanitizing, are 2..100 and 10..2000; nothing holds `<` or `>` |
| `SendEmailRoute.AcceptedBody` | app/api/send-email/route.ts:106-139 | conversely, fields that pass the checks after sanitizing are accepted as exactly those sanitized values |
| `SendEmailRoute.Compose` | app/api/send-email/route.ts:144-178 | the email handed to the provider: fixed sender and recipient, reply-to the submitter, the subject, and the fields as embedded in the HTML and text bodies |
| `SendEmailRoute.ComposedMarkup` | app/api/send-email/route.ts:156-160 | the name and email embedded in the HTML carry no tag, and the message block's only tags are `<br>` |
| `SendEmailRoute.Delivered` | app/api/send-email/route.ts:180-183 | the 200 answer, carrying "Email sent successfully" and the provider's data |
| `SendEmailRoute.Respond` | app/api/send-email/route.ts:74-191 | the answer once configuration, the rate limit and the body checks' outcome are known; its order and outcomes are the lemmas below |
| `SendEmailRoute.Checked` | app/api/send-email/route.ts:94-139 | the body stage: nothing when `request.json()` throws, otherwise the body checks' outcome |
| `SendEmailRoute.Pipeline` | app/api/send-email/route.ts:74-191 | `POST` after the key lookup: `Respond` over the body checks of a parsed body |
| `SendEmailRoute.Post` | app/api/send-email/route.ts:74-191 | an unconfigured service answers 500 and leaves the rate table alone; otherwise the table takes exactly one rate-limit step and the reply and email are the pipeline's |
| `SendEmailRoute.CheckOrder` | app/api/send-email/route.ts:77-139 | configuration (500) is checked before the rate limit (429), then the body parse (500), then the body checks, whose first failure is the answer |
| `SendEmailRoute.HoneypotAnswered` | app/api/send-email/route.ts:97-103 | a configured, allowed request with a filled honeypot is answered 400 "Invalid request" and nothing is sent |
| `SendEmailRoute.CheckedRejectionsAre400` | app/api/send-email/route.ts:97-139 | the body checks reject only with a 400 |
| `SendEmailRoute.DispatchOnlyWhenAllChecksPass` | app/api/send-email/route.ts:77-178 | an email is handed to the provider exactly when every check passed, and it is the one composed from the accepted fields |
| `SendEmailRoute.SuccessAndFailureReplies` | app/api/send-email/route.ts:180-190 | when the body checks reject only with 400s, 200 comes exactly with a dispatched email and "Email sent successfully"; a throw gives the same fixed 500 whatever it carried |
| `SendEmailRoute.PipelineOfAccepted` | app/api/send-email/route.ts:144-183 | an accepted body whose dispatch returns is answered 200 with the composed email |
| `SendEmailRoute.ValidSubmissionIsSent` | app/api/send-email/route.ts:98-183 | a configured, allowed request whose fields pass after sanitizing is dispatched and answered 200 |
| `ClientEmail.MatchesClientPattern` | components/Contact.tsx:81 | the regex's language: some split into a run without `@` or white space, `@`, another such run, a dot and a third such run fits |
| `ClientEmail.IsValidEmail` | components/Contact.tsx:80-83 | the wizard's email test decided at the first `@`; `IsValidEmailMatchesPattern` proves it is the regex's language |
| `ClientEmail.IsValidEmailMatchesPattern` | components/Contact.tsx:80-83 | the deterministic check holds exactly when the string is `[^\s@]+@[^\s@]+\.[^\s@]+` |
| `ClientEmail.ValidEmailIsNotBlank` | components/Contact.tsx:80-83 | an accepted email is not blank |
| `ClientEmail.ServerCharsArePlain` | components/Contact.tsx:82 | every character of the server's classes is neither `@` nor white space |
| `ClientEmail.ServerAcceptedIsClientAccepted` | components/Contact.tsx:82 | every address the route accepts, the wizard accepts |
| `ClientEmail.ClientAcceptsMoreThanServer` | components/Contact.tsx:82 | `a@b.c` passes the wizard and fails the route |
| `ClientEmail.MalformedRejectedByBoth` | components/Contact.tsx:82 | both patterns need an `@` and a dot |
| `ContactWizard.StepValid` | components/Contact.tsx:85-117 | `validateStep`'s answer: a non-blank name on step 1, a non-blank email of the wizard's pattern on step 2, a non-blank message on step 3, and true on any other step |
| `ContactWizard.CanProceed` | components/Contact.tsx:197-208 | `canProceed`: the same three tests, and false on any other step |
| `ContactWizard.CanNavigateToStep` | components/Contact.tsx:211-216 | `canNavigateToStep`: step 1 always, step 2 after a non-blank name, step 3 after a non-blank name and a valid email |
| `ContactWizard.CanProceedIsValidateStep` | components/Contact.tsx:197-208 | on steps 1..3 `canProceed` answers as `validateStep`; elsewhere it refuses |
| `ContactWizard.CanNavigateIffEarlierStepsValid` | components/Contact.tsx:211-216 | step `t` is navigable exactly when every step before it validates |
| `ContactWizard.SubmitButtonEnabled` | components/Contact.tsx:460 | the submit button is enabled only on a wizard step that validates with no submission in flight |
| `ContactWizard.Succeeded` | components/Contact.tsx:154 | a submission succeeded when the response was ok and its body's `success` is truthy |
| `ContactWizard.SubmitErrorText` | components/Contact.tsx:163-180 | the text under `submit` is never empty: the server's error, else the generic text; for a thrown error, the "cannot connect" text when its message mentions `fetch`, else `Error: ` and the message, else the network text |
| `ContactWizard.ContactForm.constructor` | components/Contact.tsx:24-36 | step 1, empty form, no errors, nothing shown |
| `ContactWizard.ContactForm.Start` | components/Contact.tsx:65-68 | starts the wizard at step 1 |
| `ContactWizard.ContactForm.ValidateStep` | components/Contact.tsx:85-117 | answers the step's check; success empties `errors`, failure leaves them; only a non-blank bad email raises the popup; the step stays in 1..3 and the honeypot empty |
| `ContactWizard.ContactForm.Next` | components/Contact.tsx:119-124 | advances by one exactly when the step validates and is below 3, clearing `errors` |
| `ContactWizard.ContactForm.Previous` | components/Contact.tsx:126-130 | goes back by one whenever the step is above 1, with no validation |
| `ContactWizard.ContactForm.DotClick` | components/Contact.tsx:495-503 | moves to an earlier dot, or to the next one when navigable, only if the current step validates; never jumps forward by more than one |
| `ContactWizard.ContactForm.EditName` | components/Contact.tsx:357-360 | the name takes the typed text, the honeypot is kept, and a shown name error is blanked |
| `ContactWizard.ContactForm.EditEmail` | components/Contact.tsx:388-394 | as for the name; blanking a shown email error also hides the popup |
| `ContactWizard.ContactForm.EditMessage` | components/Contact.tsx:428-431 | as for the name, on the message |
| `ContactWizard.ContactForm.BlurEmail` | components/Contact.tsx:396-402 | leaving a non-blank bad email sets its error text and shows the popup; anything else changes nothing |
| `ContactWizard.ContactForm.DismissEmailError` | components/Contact.tsx:245 | the popup's close button hides it |
| `ContactWizard.ContactForm.Submitted` | components/Contact.tsx:132-187 | the effect of the synchronous half of `handleSubmit`, from the state before to the state after, shared by `Submit` and `KeyPress` |
| `ContactWizard.ContactForm.Submit` | components/Contact.tsx:132-187 | before step 3 this is exactly `Next`; at step 3 a valid message sets `isSubmitting` and yields the form with an empty honeypot as the payload, and an invalid one changes nothing |
| `ContactWizard.ContactForm.FinishSubmit` | components/Contact.tsx:152-183 | success empties the form, goes to step 1, clears `errors` and shows the success panel; any other outcome keeps the form and step and sets `errors` to the one `submit` text; `isSubmitting` ends false |
| `ContactWizard.ContactForm.KeyPress` | components/Contact.tsx:190-195 | Enter without Shift has exactly `Submit`'s effect on the state and the payload (`Submitted`); any other key changes nothing |
| `ContactWizard.ContactForm.Reset` | components/Contact.tsx:70-77 | not started, step 1, empty form, no errors, not submitting, success panel hidden |
| `ContactWizard.ContactForm.KeyDown` | components/Contact.tsx:51-63 | Escape while started resets like `Reset` but leaves the success panel; otherwise nothing changes |
| `Certificates.IsTechWave` | components/Certificates.tsx:10-12 | the `find` callback: the company is present and includes `TechWave` or is exactly `TechWave d.o.o.` |
| `Certificates.ExactNameIsRedundant` | components/Certificates.tsx:10-12 | the entry test amounts to "the company includes `TechWave`" |
| `Certificates.FindTechWave` | components/Certificates.tsx:10-12 | the first matching entry, or none |
| `Certificates.EntryCertificates` | components/Certificates.tsx:10-14 | the certificates of the first TechWave entry, or the empty list when there is no such entry or it lists none |
| `Certificates.GetYear` | components/Certificates.tsx:18-23 | `getYear`; `GetYearIsLatestMentioned` states what it computes |
| `Certificates.GetYearIsLatestMentioned` | components/Certificates.tsx:18-23 | the year key is the latest of 2025, 2024, 2023 the date mentions, and 0 exactly when it mentions none |
| `Certificates.GetMonth` | components/Certificates.tsx:24-29 | `getMonth`; `GetMonthIsLatestMentioned` states what it computes |
| `Certificates.GetMonthIsLatestMentioned` | components/Certificates.tsx:24-29 | the month key is the latest of December, November, October named in English, Bosnian or Turkish, and 0 exactly when none is named |
| `Certificates.MonthInRange` | components/Certificates.tsx:24-29 | the month key is within 0..12 |
| `Certificates.Compare` | components/Certificates.tsx:30-35 | the comparator as written; `CompareIsByRank` and `SortedOrder` relate it to the sort |
| `Certificates.CompareIsByRank` | components/Certificates.tsx:30-35 | the comparator orders by year then month, descending: negative exactly for a higher rank, zero exactly for equal ones |
| `Certificates.Insert` | components/Certificates.tsx:17 | inserting adds exactly the one new element |
| `Certificates.InsertKeepsSorted` | components/Certificates.tsx:17 | inserting into a sorted list keeps it sorted, and the new head is the inserted element or the old head |
| `Certificates.SortBy` | components/Certificates.tsx:17 | the result is a permutation of the input, sorted by the key, descending |
| `Certificates.SortByDate` | components/Certificates.tsx:17-36 | the sorted copy is a permutation, newest first |
| `Certificates.OfKeyInsert` | components/Certificates.tsx:17 | insertion puts the new element ahead of its equals |
| `Certificates.SortByIsStable` | components/Certificates.tsx:17 | the elements of each key keep their input order |
| `Certificates.SortIsStable` | components/Certificates.tsx:17-36 | certificates the comparator calls equal keep their original order |
| `Certificates.SortedOrder` | components/Certificates.tsx:30-35 | in the sorted copy years never increase, months never increase within a year, and the comparator never puts a later one first |
| `Certificates.Shown` | components/Certificates.tsx:14-40 | nothing is rendered exactly when the entry has no certificates; otherwise they are a permutation of that entry's list, newest first |
| `Certificates.NothingShownWithoutTechWave` | components/Certificates.tsx:10-14 | with no TechWave entry nothing is shown; anything shown comes from a TechWave entry with a non-empty list |
| `LanguageContext.Parse` | contexts/LanguageContext.tsx:20 | exactly `en`, `bs` and `tr` are accepted, each as the language with that code |
| `LanguageContext.ParseCode` | contexts/LanguageContext.tsx:20-27 | every language's stored code reads back as that language |
| `LanguageContext.Restored` | contexts/LanguageContext.tsx:19-22 | a whitelisted stored code is adopted; anything else, or nothing, keeps the current language |
| `LanguageContext.RestoredAfterWrite` | contexts/LanguageContext.tsx:19-28 | after writing a language's code under the key, restoring gives that language |
| `LanguageContext.Storage.constructor` | contexts/LanguageContext.tsx:19 | storage starts with the given items |
| `LanguageContext.Storage.GetItem` | contexts/LanguageContext.tsx:19 | the stored string, or nothing for an absent key |
| `LanguageContext.Storage.SetItem` | contexts/LanguageContext.tsx:27 | the key now holds the value and no other key changed |
| `LanguageContext.LanguageProvider.constructor` | contexts/LanguageContext.tsx:15 | the language starts as English |
| `LanguageContext.LanguageProvider.Mount` | contexts/LanguageContext.tsx:17-23 | the language becomes the stored one when it is whitelisted and stays otherwise; storage is only read |
| `LanguageContext.LanguageProvider.SetLanguage` | contexts/LanguageContext.tsx:25-28 | the state becomes `l`, and storage holds its code under `portfolio-language` with nothing else changed |
| `LanguageContext.LanguageProvider.T` | contexts/LanguageContext.tsx:31 | the context's `t`: the translation table of the current language |
| `LanguageContext.SetThenRemount` | contexts/LanguageContext.tsx:15-31 | after `setLanguage(l)`, a fresh provider mounted over the same storage comes up with `l` and its table |

## Left out

- The email provider client, its construction and the network call. The send is an abstract outcome, `Returned(data)` or `Threw(detail)`. Its fixed sender, recipient, reply-to, subject and embedded fields are recorded in `Compose`. The HTML template's fixed markup around them is not.
- `NextRequest`/`NextResponse`, JSON parsing and `console.error` logging. `request.json()` throwing is represented by a missing body, which takes the 500 path.
- Body fields that are not strings. Fields are optional strings, and a value that would make `trim()` throw is out of scope.
- JavaScript strings are sequences of UTF-16 code units, and `length` counts those. The model's strings are sequences of Unicode scalar values, so lengths differ for characters outside the Basic Multilingual Plane.
- Multiple `x-forwarded-for` headers joined by the host. The header is treated as one optional string.
- Non-ASCII case mapping in `toLowerCase`. Only A-Z are lowered.
- Concurrency on the rate table, and several server instances. `checkRateLimit` runs without an `await`, so there is no interleaving inside it.
- Timers and animation: the 5-second auto-hide of the email popup, the rotating greetings, and framer-motion. `DismissEmailError` models the popup's close button, and the timer has the same effect.
- `ContactWizard.ContactForm.KeyPress`: Enter is handled on the step-3 form as on the others. In the component only the name and email inputs (steps 1 and 2) carry the key handler; Enter in the step-3 text area inserts a line break, so there a submission starts only from the button.
- Rendering. The wizard shows the form only when started and not showing success. Handler calls are not restricted to what is on screen, except that dots exist only for steps 1..3.
- The `fetch` request itself and `response.json()`. The wizard's network result is an abstract `ServerReply`, and the model keeps only the fields that decide the outcome.
- Events between the two halves of a submission are allowed in the model, as they are in the browser. The model does not claim that `formData` at completion equals the posted payload.
- Certificate links, images and layout. A certificate is a title and a date, and the date is always present.
- `useLanguage` throwing outside a provider. The contents of the translation tables.
- Sidebar, Timeline, Hero, Skills, BentoGrid, PreviousPortfolio, LanguageSwitcher, SplineBackground, the page and layout files, and the Tailwind configuration. They are presentational.
