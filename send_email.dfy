/**
 * The contact endpoint `POST /api/send-email`: an early-return pipeline of checks (service
 * configured, rate limit, honeypot, presence, email format, name and message lengths) in front
 * of one call to the email provider. The provider call is abstracted to the value it returns or
 * the exception it throws.
 */
module SendEmailRoute {
  import opened Wrappers
  import opened JsText
  import opened Sanitize
  import ServerEmail
  import opened RateLimit

  /** A JavaScript string value used as a condition: present and non-empty. */
  predicate Truthy(v: Option<string>) {
    v.Some? && v.value != ""
  }

  /** `s.split(',')[0]`: the text before the first comma, untrimmed. */
  function FirstField(s: string): (r: string)
    ensures |r| <= |s| && r == s[..|r|]
    ensures ',' !in r
    ensures |r| == |s| || s[|r|] == ','
  {
    s[..FirstIndexOf(s, ',')]
  }

  /** `getRateLimitKey`: the first entry of a non-empty `x-forwarded-for`, else a non-empty
      `x-real-ip`, else the shared bucket `"unknown"`. */
  function RateLimitKey(forwardedFor: Option<string>, realIp: Option<string>): (key: string)
    ensures Truthy(forwardedFor) ==>
      && |key| <= |forwardedFor.value| && key == forwardedFor.value[..|key|] && ',' !in key
      && (|key| == |forwardedFor.value| || forwardedFor.value[|key|] == ',')
    ensures !Truthy(forwardedFor) && Truthy(realIp) ==> key == realIp.value
    ensures !Truthy(forwardedFor) && !Truthy(realIp) ==> key == "unknown"
  {
    if Truthy(forwardedFor) then FirstField(forwardedFor.value)
    else if Truthy(realIp) then realIp.value
    else "unknown"
  }

  /** The service counts as configured when the provider client was built at start-up from an
      API key and the key is still set when the request arrives. */
  predicate Configured(apiKeyAtStartup: Option<string>, apiKey: Option<string>) {
    Truthy(apiKeyAtStartup) && Truthy(apiKey)
  }

  /** The parsed JSON body; an absent field is `None`. */
  datatype Body = Body(name: Option<string>, email: Option<string>, message: Option<string>,
                       honeypot: Option<string>)

  /** The response: a status code and a JSON payload. */
  datatype Reply = Reply(status: int, payload: Payload)
  datatype Payload = Sent(message: string, data: string) | Error(error: string)

  const NotConfigured := Reply(500, Error("Email service is not configured. Please check server configuration."))
  const TooManyRequests := Reply(429, Error("Too many requests. Please try again later."))
  const InvalidRequest := Reply(400, Error("Invalid request"))
  const FieldsRequired := Reply(400, Error("All fields are required"))
  const InvalidEmailFormat := Reply(400, Error("Invalid email format"))
  const BadNameLength := Reply(400, Error("Name must be between 2 and 100 characters"))
  const BadMessageLength := Reply(400, Error("Message must be between 10 and 2000 characters"))
  const SendFailed := Reply(500, Error("Failed to send email. Please try again later."))

  function Delivered(data: string): Reply {
    Reply(200, Sent("Email sent successfully", data))
  }

  /** `honeypot && honeypot.trim() !== ''` */
  predicate HoneypotFilled(honeypot: Option<string>) {
    Truthy(honeypot) && !IsBlank(honeypot.value)
  }

  /** The fields after sanitizing, with the email lower-cased. */
  datatype Submission = Submission(name: string, email: string, message: string)

  /** The checks after sanitizing, on the sanitized values: email format, then name length,
      then message length. */
  function CheckFields(name: string, email: string, message: string): (r: Result<Submission, Reply>)
    ensures r.Err? ==> r.error.status == 400
    ensures !ServerEmail.IsValidEmail(email) ==> r == Err(InvalidEmailFormat)
    ensures ServerEmail.IsValidEmail(email) && !(2 <= |name| <= 100) ==> r == Err(BadNameLength)
    ensures ServerEmail.IsValidEmail(email) && 2 <= |name| <= 100 && !(10 <= |message| <= 2000) ==>
      r == Err(BadMessageLength)
    ensures r.Ok? <==> ServerEmail.IsValidEmail(email) && 2 <= |name| <= 100 && 10 <= |message| <= 2000
    ensures r.Ok? ==> r.value == Submission(name, email, message)
  {
    if !ServerEmail.IsValidEmail(email) then Err(InvalidEmailFormat)
    else if |name| < 2 || |name| > 100 then Err(BadNameLength)
    else if |message| < 10 || |message| > 2000 then Err(BadMessageLength)
    else Ok(Submission(name, email, message))
  }

  /** The checks from the honeypot to the message length, in the route's order; the email is
      lower-cased after sanitizing. */
  function ValidateBody(body: Body): Result<Submission, Reply>
  {
    if HoneypotFilled(body.honeypot) then Err(InvalidRequest)
    else if !Truthy(body.name) || !Truthy(body.email) || !Truthy(body.message) then Err(FieldsRequired)
    else CheckFields(SanitizeInput(body.name.value), LowerAscii(SanitizeInput(body.email.value)),
                     SanitizeInput(body.message.value))
  }

  /** Every rejection by the body checks is a 400, and a filled honeypot is refused whatever
      the other fields hold. */
  lemma ValidateBodyRejections(body: Body)
    ensures ValidateBody(body).Err? ==> ValidateBody(body).error.status == 400
    ensures HoneypotFilled(body.honeypot) ==> ValidateBody(body) == Err(InvalidRequest)
    ensures !HoneypotFilled(body.honeypot) && !(Truthy(body.name) && Truthy(body.email) && Truthy(body.message)) ==>
      ValidateBody(body) == Err(FieldsRequired)
  {
  }

  /** An accepted submission is the sanitized fields with the email lower-cased, all present in
      the body, the email matching the server pattern, the lengths within the route's bounds and
      no `<` or `>` anywhere. */
  lemma ValidateBodyAcceptance(body: Body)
    requires ValidateBody(body).Ok?
    ensures var s := ValidateBody(body).value;
      && !HoneypotFilled(body.honeypot)
      && Truthy(body.name) && Truthy(body.email) && Truthy(body.message)
      && s.name == SanitizeInput(body.name.value)
      && s.email == LowerAscii(SanitizeInput(body.email.value))
      && s.message == SanitizeInput(body.message.value)
      && ServerEmail.MatchesServerPattern(s.email)
      && 2 <= |s.name| <= 100 && 10 <= |s.message| <= 2000
      && FreeOfAngleBrackets(s.name) && FreeOfAngleBrackets(s.email) && FreeOfAngleBrackets(s.message)
  {
    var s := ValidateBody(body).value;
    ServerEmail.IsValidEmailMatchesPattern(s.email);
    LowerAsciiKeepsBracketFree(SanitizeInput(body.email.value));
  }

  const Sender := "Portfolio Contact <onboarding@resend.dev>"
  const Recipient := "theoceansugar9@gmail.com"

  /** What the route hands to the provider: fixed sender and recipient, reply-to the submitter,
      and the fields as embedded in the subject, the HTML body and the text body. */
  datatype Email = Email(from: string, to: seq<string>, replyTo: seq<string>, subject: string,
                         htmlName: string, htmlEmail: string, htmlMessage: string,
                         textName: string, textEmail: string, textMessage: string)

  function Compose(s: Submission): Email {
    Email(Sender, [Recipient], [s.email],
          "New Contact Form Message from " + s.name + " (" + s.email + ")",
          EscapeHtml(s.name), EscapeHtml(s.email), MessageBlock(s.message),
          s.name, s.email, s.message)
  }

  /** In the HTML body the embedded name and email carry no markup, and the message block's only
      tags are the `<br>`s that replaced its line breaks. */
  lemma ComposedMarkup(s: Submission)
    ensures '<' !in Compose(s).htmlName && '<' !in Compose(s).htmlEmail
    ensures OnlyBreakTags(Compose(s).htmlMessage)
  {
    MessageBlockMarkup(s.message);
  }

  /** How the provider call ended: it returned some data, or it threw. */
  datatype Dispatch = Returned(data: string) | Threw(detail: string)

  /**
   * The response of `POST` and the email handed to the provider, if any, once the earlier
   * stages are decided: whether the service is configured, the rate limiter's decision, the
   * outcome of the body checks (`None` when `request.json()` throws), and the provider's behaviour.
   */
  function Respond(configured: bool, allowed: bool, checked: Option<Result<Submission, Reply>>,
                   dispatch: Dispatch): (Reply, Option<Email>) {
    if !configured then (NotConfigured, None)
    else if !allowed then (TooManyRequests, None)
    else if checked.None? then (SendFailed, None)
    else match checked.value
      case Err(reply) => (reply, None)
      case Ok(s) =>
        (if dispatch.Returned? then Delivered(dispatch.data) else SendFailed, Some(Compose(s)))
  }

  /** The body checks' outcome for a parsed body, or `None` when parsing threw. */
  function Checked(body: Option<Body>): Option<Result<Submission, Reply>> {
    if body.None? then None else Some(ValidateBody(body.value))
  }

  /** The whole of `POST` after the rate-limit key has been looked up. */
  function Pipeline(configured: bool, allowed: bool, body: Option<Body>, dispatch: Dispatch): (Reply, Option<Email>) {
    Respond(configured, allowed, Checked(body), dispatch)
  }

  /** `POST`, with the module-level rate-limit table as `limiter` and the clock as `now`. */
  method Post(limiter: RateLimiter, apiKeyAtStartup: Option<string>, apiKey: Option<string>,
              forwardedFor: Option<string>, realIp: Option<string>, now: int,
              body: Option<Body>, dispatch: Dispatch)
    returns (reply: Reply, sent: Option<Email>)
    requires limiter.Valid()
    modifies limiter
    ensures limiter.Valid()
    ensures !Configured(apiKeyAtStartup, apiKey) ==>
      limiter.records == old(limiter.records) && (reply, sent) == (NotConfigured, None)
    ensures Configured(apiKeyAtStartup, apiKey) ==>
      var step := RateStep(old(limiter.records), RateLimitKey(forwardedFor, realIp), now);
      limiter.records == step.0 && (reply, sent) == Pipeline(true, step.1, body, dispatch)
  {
    if !Configured(apiKeyAtStartup, apiKey) {
      return NotConfigured, None;
    }
    var key := RateLimitKey(forwardedFor, realIp);
    var allowed := limiter.CheckRateLimit(key, now);
    var answer := Pipeline(true, allowed, body, dispatch);
    reply, sent := answer.0, answer.1;
  }

  /** Checks run in order and the first failure answers: configuration, then the rate limit,
      then the body parse. */
  lemma CheckOrder(configured: bool, allowed: bool, checked: Option<Result<Submission, Reply>>, dispatch: Dispatch)
    ensures !configured ==> Respond(configured, allowed, checked, dispatch).0 == NotConfigured
    ensures configured && !allowed ==> Respond(configured, allowed, checked, dispatch).0 == TooManyRequests
    ensures configured && allowed && checked.None? ==> Respond(configured, allowed, checked, dispatch).0 == SendFailed
    ensures configured && allowed && checked.Some? && checked.value.Err? ==>
      Respond(configured, allowed, checked, dispatch).0 == checked.value.error
  {
  }

  /** A filled honeypot is answered 400 "Invalid request" by a configured, allowed request,
      whatever the other fields hold and before any of them is looked at. */
  lemma HoneypotAnswered(body: Body, dispatch: Dispatch)
    requires HoneypotFilled(body.honeypot)
    ensures Pipeline(true, true, Some(body), dispatch) == (InvalidRequest, None)
  {
    ValidateBodyRejections(body);
  }

  /** The provider is called exactly when every check passed, with the email composed from the
      accepted fields; no rejection dispatches. */
  lemma DispatchOnlyWhenAllChecksPass(configured: bool, allowed: bool, checked: Option<Result<Submission, Reply>>,
                                      dispatch: Dispatch)
    ensures Respond(configured, allowed, checked, dispatch).1.Some? <==>
      configured && allowed && checked.Some? && checked.value.Ok?
    ensures Respond(configured, allowed, checked, dispatch).1.Some? ==>
      Respond(configured, allowed, checked, dispatch).1 == Some(Compose(checked.value.value))
  {
  }

  /** A 200 answer means an email was handed over and the call returned; a thrown call gives the
      same fixed 500 answer whatever the exception said. */
  lemma SuccessAndFailureReplies(configured: bool, allowed: bool, checked: Option<Result<Submission, Reply>>,
                                 d1: string, d2: string)
    requires checked.Some? && checked.value.Err? ==> checked.value.error.status == 400
    ensures Respond(configured, allowed, checked, Returned(d1)).0.status == 200 <==>
      Respond(configured, allowed, checked, Returned(d1)).1.Some?
    ensures Respond(configured, allowed, checked, Returned(d1)).0.status == 200 ==>
      Respond(configured, allowed, checked, Returned(d1)).0 == Delivered(d1)
    ensures Respond(configured, allowed, checked, Threw(d1)) == Respond(configured, allowed, checked, Threw(d2))
    ensures Respond(configured, allowed, checked, Threw(d1)).0.status != 200
  {
  }

  /** The body checks never answer anything but 400, so they meet the premise above. */
  lemma CheckedRejectionsAre400(body: Option<Body>)
    ensures Checked(body).Some? && Checked(body).value.Err? ==> Checked(body).value.error.status == 400
  {
    if body.Some? {
      ValidateBodyRejections(body.value);
    }
  }

  /** The body checks pass exactly on fields that are valid after sanitizing. */
  lemma {:induction false} AcceptedBody(body: Body)
    requires !HoneypotFilled(body.honeypot)
    requires body.name.Some? && body.email.Some? && body.message.Some?
    requires 2 <= |SanitizeInput(body.name.value)| <= 100
    requires ServerEmail.IsValidEmail(LowerAscii(SanitizeInput(body.email.value)))
    requires 10 <= |SanitizeInput(body.message.value)| <= 2000
    ensures ValidateBody(body) == Ok(Submission(SanitizeInput(body.name.value),
                                                LowerAscii(SanitizeInput(body.email.value)),
                                                SanitizeInput(body.message.value)))
  {
    var name := SanitizeInput(body.name.value);
    var email := LowerAscii(SanitizeInput(body.email.value));
    var message := SanitizeInput(body.message.value);
    SanitizedFromNonEmpty(body.name.value);
    SanitizedFromNonEmpty(body.email.value);
    SanitizedFromNonEmpty(body.message.value);
    assert Truthy(body.name) && Truthy(body.email) && Truthy(body.message);
    assert CheckFields(name, email, message) == Ok(Submission(name, email, message));
  }

  lemma PipelineOfAccepted(body: Body, sub: Submission, data: string)
    requires ValidateBody(body) == Ok(sub)
    ensures Pipeline(true, true, Some(body), Returned(data)) == (Delivered(data), Some(Compose(sub)))
  {
  }

  /** A submission whose fields pass every check after sanitizing is handed to the provider, and
      is acknowledged when the provider call returns. */
  lemma {:induction false} ValidSubmissionIsSent(body: Body, data: string)
    requires !HoneypotFilled(body.honeypot)
    requires body.name.Some? && body.email.Some? && body.message.Some?
    requires 2 <= |SanitizeInput(body.name.value)| <= 100
    requires ServerEmail.IsValidEmail(LowerAscii(SanitizeInput(body.email.value)))
    requires 10 <= |SanitizeInput(body.message.value)| <= 2000
    ensures Pipeline(true, true, Some(body), Returned(data)) ==
      (Delivered(data), Some(Compose(Submission(SanitizeInput(body.name.value),
                                                LowerAscii(SanitizeInput(body.email.value)),
                                                SanitizeInput(body.message.value)))))
  {
    AcceptedBody(body);
    PipelineOfAccepted(body, ValidateBody(body).value, data);
  }
}
