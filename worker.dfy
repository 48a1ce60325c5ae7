/**
 * The contact-form request handler (`fetch`): one response per request,
 * chosen by the checks in a fixed order — preflight, method gate, body
 * parse, field presence, e-mail format, delivery.
 */
module Worker {
  import opened Wrappers
  import opened EmailFormat
  import opened Mail
  import LineBreaks

  /** The four destructured body fields; `None` is `undefined`. */
  datatype Fields = Fields(name: Option<string>, email: Option<string>, subject: Option<string>, message: Option<string>)

  /** What happens between entering the `try` block and destructuring the
      body: either the body's fields, or a fault (the provider client failing
      to initialise, the body not being valid JSON, or the body being `null`).
      Any other JSON value is `ParseOk`, with the fields it lacks `None`. */
  datatype ParseOutcome = ParseOk(fields: Fields) | ParseFault(detail: string)

  /** What the provider's `send` does with an envelope: return normally, with
      `res.data?.id` possibly absent, or raise. */
  datatype DeliveryOutcome = Returned(id: Option<string>) | Raised(detail: string)

  datatype Body =
    | NoBody
    | PlainText(text: string)
    | JsonError(error: string)
    | JsonSuccess(success: bool, message: string, id: Option<string>)

  datatype Response = Response(status: nat, body: Body, headers: seq<(string, string)>)

  /** The response, and the envelope handed to the provider (`None` when the
      provider was not called). */
  datatype Outcome = Outcome(response: Response, sent: Option<Envelope>)

  const CorsHeaders: seq<(string, string)> := [
    ("Access-Control-Allow-Origin", "*"),
    ("Access-Control-Allow-Methods", "POST, OPTIONS"),
    ("Access-Control-Allow-Headers", "Content-Type")]

  const MethodNotAllowed: string := "Method not allowed"
  const MissingFieldsError: string := "Missing required fields: name, email, subject, and message"
  const InvalidEmailError: string := "Invalid email format"
  const DeliveryFailedError: string := "Failed to send email. Please try again later."
  const SentMessage: string := "Email sent successfully"

  /** JavaScript truthiness of a string field: present and non-empty. */
  predicate Truthy(f: Option<string>) {
    f.Some? && f.value != ""
  }

  predicate AllPresent(f: Fields) {
    Truthy(f.name) && Truthy(f.email) && Truthy(f.subject) && Truthy(f.message)
  }

  /** A body that passes both validations. */
  predicate Valid(f: Fields) {
    AllPresent(f) && PlainAddress(f.email.value)
  }

  function ToSubmission(f: Fields): Submission
    requires AllPresent(f)
  {
    Submission(f.name.value, f.email.value, f.subject.value, f.message.value)
  }

  function WithCors(status: nat, body: Body): Response {
    Response(status, body, CorsHeaders)
  }

  /** The handler. `send` stands for the provider: it is given the envelope
      and decides the delivery outcome. */
  function Fetch(requestMethod: string, parse: ParseOutcome, send: Envelope -> DeliveryOutcome): (o: Outcome)
    ensures o.response.headers == CorsHeaders
    ensures o.response.status in {200, 400, 405, 500}
    ensures o.sent.Some? <==> requestMethod == "POST" && parse.ParseOk? && Valid(parse.fields)
    ensures o.sent.Some? ==> o.sent.value == BuildEnvelope(ToSubmission(parse.fields))
    ensures o.response.status == 500 <==>
      requestMethod == "POST" && (parse.ParseFault? || (o.sent.Some? && send(o.sent.value).Raised?))
    ensures o.response.status == 500 ==> o.response.body == JsonError(DeliveryFailedError)
  {
    if requestMethod == "OPTIONS" then
      Outcome(WithCors(200, NoBody), None)
    else if requestMethod != "POST" then
      Outcome(WithCors(405, PlainText(MethodNotAllowed)), None)
    else
      match parse
      case ParseFault(_) =>
        Outcome(WithCors(500, JsonError(DeliveryFailedError)), None)
      case ParseOk(f) =>
        if !AllPresent(f) then
          Outcome(WithCors(400, JsonError(MissingFieldsError)), None)
        else if !RegexMatch(f.email.value) then
          RegexMatchIff(f.email.value);
          Outcome(WithCors(400, JsonError(InvalidEmailError)), None)
        else
          RegexMatchIff(f.email.value);
          var envelope := BuildEnvelope(ToSubmission(f));
          match send(envelope)
          case Raised(_) =>
            Outcome(WithCors(500, JsonError(DeliveryFailedError)), Some(envelope))
          case Returned(id) =>
            Outcome(WithCors(200, JsonSuccess(true, SentMessage, id)), Some(envelope))
  }

  /** A preflight gets the default status, no body and the CORS headers; the
      body and the provider play no part. */
  lemma Preflight(parse: ParseOutcome, send: Envelope -> DeliveryOutcome)
    ensures Fetch("OPTIONS", parse, send) == Outcome(Response(200, NoBody, CorsHeaders), None)
  {
  }

  /** Any method other than OPTIONS and POST is refused with 405. */
  lemma OtherMethodRefused(requestMethod: string, parse: ParseOutcome, send: Envelope -> DeliveryOutcome)
    requires requestMethod != "OPTIONS" && requestMethod != "POST"
    ensures Fetch(requestMethod, parse, send) == Outcome(Response(405, PlainText(MethodNotAllowed), CorsHeaders), None)
  {
  }

  /** A missing or empty field gives the missing-fields error, whatever the
      e-mail looks like: the presence check comes first. */
  lemma MissingFieldsFirst(f: Fields, send: Envelope -> DeliveryOutcome)
    requires !AllPresent(f)
    ensures Fetch("POST", ParseOk(f), send) == Outcome(Response(400, JsonError(MissingFieldsError), CorsHeaders), None)
  {
  }

  /** With all fields present, the format error is given exactly when the
      e-mail is not a plain address, and then the provider is not called. */
  lemma InvalidEmailRejected(f: Fields, send: Envelope -> DeliveryOutcome)
    requires AllPresent(f)
    ensures Fetch("POST", ParseOk(f), send).response.body == JsonError(InvalidEmailError) <==> !PlainAddress(f.email.value)
    ensures !PlainAddress(f.email.value) ==>
      Fetch("POST", ParseOk(f), send) == Outcome(Response(400, JsonError(InvalidEmailError), CorsHeaders), None)
  {
    RegexMatchIff(f.email.value);
  }

  /** A provider that returns normally gives 200 with the id it returned,
      absent or not. */
  lemma DeliverySucceeds(f: Fields, send: Envelope -> DeliveryOutcome)
    requires Valid(f) && send(BuildEnvelope(ToSubmission(f))).Returned?
    ensures Fetch("POST", ParseOk(f), send).response ==
      Response(200, JsonSuccess(true, SentMessage, send(BuildEnvelope(ToSubmission(f))).id), CorsHeaders)
  {
    RegexMatchIff(f.email.value);
  }

  /** Faults are reported with one fixed body: two runs that differ only in
      the details of their faults give the same response. */
  lemma FaultDetailHidden(requestMethod: string, p1: ParseOutcome, p2: ParseOutcome,
                          send1: Envelope -> DeliveryOutcome, send2: Envelope -> DeliveryOutcome)
    requires p1.ParseFault? == p2.ParseFault?
    requires p1.ParseOk? ==> p1 == p2
    requires forall e :: send1(e).Raised? == send2(e).Raised?
    requires forall e :: send1(e).Returned? ==> send1(e) == send2(e)
    ensures Fetch(requestMethod, p1, send1).response == Fetch(requestMethod, p2, send2).response
  {
  }

  /** The worked example's address passes the format check. */
  lemma ExampleAddress()
    ensures RegexMatch("a@b.com")
  {
    var email := "a@b.com";
    assert email[1] == '@' && email[3] == '.';
    var local, host, tld := email[..1], email[1 + 1..3], email[3 + 1..];
    assert local == "a" && host == "b" && tld == "com";
    assert InClass('a') && InClass('b') && InClass('c') && InClass('o') && InClass('m');
    assert AllInClass(local) && AllInClass(host) && AllInClass(tld);
  }

  /** The worked example: a valid submission whose delivery returns id
      `abc123` gets 200 with that id, and the provider receives the envelope
      built from it. */
  lemma WorkedExample(f: Fields, send: Envelope -> DeliveryOutcome)
    requires f == Fields(Some("A"), Some("a@b.com"), Some("S"), Some("line1\nline2"))
    requires forall e :: send(e) == Returned(Some("abc123"))
    ensures Fetch("POST", ParseOk(f), send).response ==
      Response(200, JsonSuccess(true, SentMessage, Some("abc123")), CorsHeaders)
    ensures Fetch("POST", ParseOk(f), send).sent == Some(BuildEnvelope(Submission("A", "a@b.com", "S", "line1\nline2")))
  {
    ExampleAddress();
    RegexMatchIff("a@b.com");
    assert Valid(f);
    DeliverySucceeds(f, send);
  }
}
