/**
 * The record the handler passes to the e-mail provider: fixed sender and
 * recipient, the submitted subject, an HTML and a text rendition of the
 * submission, and a reply-to address set to the submitter's e-mail.
 */
module Mail {
  import LineBreaks

  /** A submission that passed both validations. */
  datatype Submission = Submission(name: string, email: string, subject: string, message: string)

  datatype Envelope = Envelope(
    from: string,
    to: string,
    subject: string,
    html: string,
    text: string,
    replyTo: string)

  const Sender: string := "website@abdelrahman.co"
  const Recipient: string := "info@abdelrahman.co"

  /** Fixed text around the four HTML slots (layout whitespace not kept). */
  const HtmlPieces: seq<string> := [
    "<h2>New Contact Form Submission</h2><p><strong>Name:</strong> ",
    "</p><p><strong>Email:</strong> ",
    "</p><p><strong>Subject:</strong> ",
    "</p><p><strong>Message:</strong></p><p>",
    "</p>"]

  /** Fixed text around the four plain-text slots (layout whitespace not kept). */
  const TextPieces: seq<string> := [
    "New Contact Form Submission\n\nName: ",
    "\nEmail: ",
    "\nSubject: ",
    "\nMessage: ",
    ""]

  /** A template literal: fixed pieces with the values interpolated between them. */
  function Fill(pieces: seq<string>, values: seq<string>): string
    requires |pieces| == |values| + 1
  {
    if values == [] then pieces[0]
    else pieces[0] + values[0] + Fill(pieces[1..], values[1..])
  }

  /** `s` contains the `parts` one after another, each starting after the
      previous one ends, with anything in between. */
  ghost predicate InOrder(parts: seq<string>, s: string) {
    if parts == [] then true
    else exists i, j | 0 <= i <= j <= |s| :: s[i..j] == parts[0] && InOrder(parts[1..], s[j..])
  }

  /** A filled template holds its values in order, unaltered. */
  lemma {:induction false} FillInOrder(pieces: seq<string>, values: seq<string>)
    requires |pieces| == |values| + 1
    ensures InOrder(values, Fill(pieces, values))
  {
    if values != [] {
      var rest := Fill(pieces[1..], values[1..]);
      var s := pieces[0] + values[0] + rest;
      var i, j := |pieces[0]|, |pieces[0]| + |values[0]|;
      FillInOrder(pieces[1..], values[1..]);
      assert s[i..j] == values[0] && s[j..] == rest;
    }
  }

  /** The HTML rendition: name, e-mail, subject, and the message with each
      line feed turned into `<br>`. Nothing is HTML-escaped. */
  function HtmlBody(s: Submission): string {
    Fill(HtmlPieces, [s.name, s.email, s.subject, LineBreaks.NewlinesToBreaks(s.message)])
  }

  /** The plain-text rendition: the same fields, the message verbatim. */
  function TextBody(s: Submission): string {
    Fill(TextPieces, [s.name, s.email, s.subject, s.message])
  }

  /** The envelope built from a submission: the fixed addresses, the subject as
      given, and replies routed to the submitter. */
  function BuildEnvelope(s: Submission): (e: Envelope)
    ensures e.from == Sender && e.to == Recipient
    ensures e.subject == s.subject && e.replyTo == s.email
  {
    Envelope(Sender, Recipient, s.subject, HtmlBody(s), TextBody(s), s.email)
  }

  /** Both renditions carry the submission's fields in the order name, e-mail,
      subject, message; the HTML one carries the rewritten message. */
  lemma BodiesCarryFields(s: Submission)
    ensures InOrder([s.name, s.email, s.subject, LineBreaks.NewlinesToBreaks(s.message)], BuildEnvelope(s).html)
    ensures InOrder([s.name, s.email, s.subject, s.message], BuildEnvelope(s).text)
  {
    FillInOrder(HtmlPieces, [s.name, s.email, s.subject, LineBreaks.NewlinesToBreaks(s.message)]);
    FillInOrder(TextPieces, [s.name, s.email, s.subject, s.message]);
  }
}
