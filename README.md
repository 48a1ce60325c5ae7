# Contact-form e-mail relay: a Dafny model

The system is a single stateless HTTP handler, `fetch`. It accepts a contact-form
submission (`name`, `email`, `subject`, `message`) and relays it as an e-mail
through a delivery provider. It answers a CORS preflight, refuses every method
except `POST`, checks that all four fields are present, checks the e-mail
against `^[^\s@]+@[^\s@]+\.[^\s@]+$`, builds the envelope for the provider, and
maps the provider's outcome to a JSON response. Every response carries the same
three CORS headers.

The model is written as functions over datatypes, because the handler is a chain
of guarded early returns over immutable values:

- `Wrappers`: `Option`, which stands for JavaScript's `undefined`.
- `EmailFormat`: the regular expression as the predicate `RegexMatch`. It is an
  existential split of the string into local part, `@`, host, `.` and top-level
  part, each a non-empty run of `[^\s@]`. `PlainAddress` is the plain
  description, and `RegexMatchIff` proves the two equal. `IsSpace` is
  ECMAScript's `\s`: its WhiteSpace and LineTerminator code points.
- `LineBreaks`: `message.replace(/\n/g, '<br>')` as the recursive function
  `NewlinesToBreaks`, with lemmas on its length, on where each character lands,
  on distribution over concatenation, and on a round trip through an inverse.
- `Mail`: the envelope (`from`, `to`, `subject`, `html`, `text`, `reply_to`),
  the two template literals as `Fill` over fixed pieces, and `BuildEnvelope`.
- `Worker`: the handler `Fetch`. It takes the request method, an abstract parse
  outcome and the provider as a function `Envelope -> DeliveryOutcome`. It
  returns the response together with the envelope handed to the provider, or
  `None` if the provider was not called.

Two points of the code shape the model:

- A provider rejection that `send` reports by returning (the SDK's
  `{data, error}`) still gets 200, with `id: res.data?.id` absent; only a throw
  gets 500. `DeliveryOutcome.Returned` carries that optional id.
- The client is built at `src/worker.js:27`, inside the `try` and before the
  body is parsed; a fault there is folded into `ParseFault`, which ends in 500
  before any validation.

## Model

| member | source | states |
|---|---|---|
| `EmailFormat.RegexMatchIff` | src/worker.js:42-43 | the regular expression accepts a string exactly when it has one `@`, no whitespace, a non-empty local part, and a domain part with a `.` that is neither its first nor its last character (both directions) |
| `EmailFormat.SplitIsPlain` | src/worker.js:42 | any split that matches the pattern's three runs gives a plain address (one `@`, no space, non-empty local part, interior dot) |
| `EmailFormat.PlainHasSplit` | src/worker.js:42 | every plain address splits into the pattern's local run, `@`, host run, `.` and final run |
| `EmailFormat.ShortestAccepted` | src/worker.js:42 | `a@b.c` matches the pattern |
| `EmailFormat.NoDotRejected` | src/worker.js:42 | `a@b` does not match: there is no dot after the `@` |
| `EmailFormat.SpaceRejected` | src/worker.js:42 | `a b@c.com` does not match: whitespace is excluded |
| `EmailFormat.EmptyLocalRejected` | src/worker.js:42 | `@b.com` does not match: the local part is empty |
| `LineBreaks.NewlinesToBreaks` | src/worker.js:61 | the rewritten message contains no line feed |
| `LineBreaks.RewriteLength` | src/worker.js:61 | the output is the input's length plus three for every line feed |
| `LineBreaks.RewriteAt` | src/worker.js:61 | character k of the message occupies the output from `Offset(m, k)` to `Offset(m, k + 1)`: a line feed as `<br>`, any other character as itself; the slots follow the message's order |
| `LineBreaks.RewriteAppend` | src/worker.js:61 | the global replace distributes over concatenation |
| `LineBreaks.TwoLines` | src/worker.js:61 | two line-feed-free lines joined by one line feed come out joined by `<br>`, as in `line1\nline2` |
| `LineBreaks.NoNewlineUnchanged` | src/worker.js:61 | a message without line feeds comes back unchanged |
| `LineBreaks.RewriteRoundTrip` | src/worker.js:61 | for a message with no literal `<br>`, turning each `<br>` back into a line feed recovers the message |
| `LineBreaks.LiteralBreakIndistinguishable` | src/worker.js:55-62 | nothing is escaped, so a line feed and a literal `<br>` give the same HTML |
| `Mail.BuildEnvelope` | src/worker.js:51-54 | `from` and `to` are the two fixed addresses whatever is submitted; the subject is passed through; `reply_to` is the submitted e-mail |
| `Mail.FillInOrder` | src/worker.js:55-70 | a filled template contains its interpolated values, unaltered and in order |
| `Mail.BodiesCarryFields` | src/worker.js:55-70 | the HTML body holds name, e-mail, subject and the rewritten message in that order; the text body holds the same fields with the message verbatim |
| `Worker.Fetch` | src/worker.js:12-85 | every response carries the CORS headers; the status is 200, 400, 405 or 500; the provider is called exactly for a POST whose body parsed and passes both validations, and then gets `BuildEnvelope` of the submission; the status is 500 exactly for a POST whose parse faulted or whose delivery raised, and then the body is the fixed generic error |
| `Worker.Preflight` | src/worker.js:13-15 | `OPTIONS` gets status 200, no body and the CORS headers, with no parse and no delivery, whatever the body and provider would do |
| `Worker.OtherMethodRefused` | src/worker.js:18-23 | any method other than `OPTIONS` and `POST` gets 405 `Method not allowed` with the CORS headers, and the provider is not called |
| `Worker.MissingFieldsFirst` | src/worker.js:34-39 | an absent or empty field gives 400 with the missing-fields message, whatever the e-mail looks like, and the provider is not called |
| `Worker.InvalidEmailRejected` | src/worker.js:42-48 | with all fields present, the response is the format error exactly when the e-mail is not a plain address, and then it is 400 and the provider is not called |
| `Worker.DeliverySucceeds` | src/worker.js:74-77 | a delivery that returns normally gives 200 with `success: true`, the fixed message and the returned id, absent or not |
| `Worker.FaultDetailHidden` | src/worker.js:79-85 | two runs whose faults differ only in their details give the same response, so no fault detail reaches the caller |
| `Worker.ExampleAddress` | src/worker.js:42 | `a@b.com` matches the pattern |
| `Worker.WorkedExample` | src/worker.js:51-77 | the submission `A`, `a@b.com`, `S`, `line1\nline2` with a provider returning `abc123` gets 200 with id `abc123`, and the provider receives that submission's envelope |

## Left out

- The provider SDK and the network call (src/worker.js:1, 27, 51) are foreign code. The provider is a function parameter from envelope to outcome.
- `request.json()` (src/worker.js:30) is not modelled as a parser. It is the input `ParseOutcome`: the destructured fields, or a fault. A body that is JSON `null`, so that destructuring throws, counts as a fault.
- The API-key configuration and client construction (src/worker.js:27) are ambient configuration. A failure there is folded into `ParseFault`.
- Console logging (src/worker.js:80) is I/O that never affects the response.
- `async`/`await` and the runtime's `Response` class are not modelled. Responses are a plain datatype. The `Content-Type` header that the runtime adds for a text or JSON body is not in `headers`, which holds only the headers the handler passes.
- JavaScript coercion of non-string field values is not modelled: truthiness of numbers or objects, `test` on a non-string, and `replace` throwing on a non-string message. Fields are optional strings, and "falsy" means absent or empty.
- IsSpace: follows the ECMAScript WhiteSpace and LineTerminator sets, with the space separators listed by code point; a later Unicode version that adds space separators is not tracked.
- HtmlBody and TextBody keep the fixed words of the templates (src/worker.js:55-70) and the order of the fields, but not the templates' indentation and surrounding whitespace. No HTML escaping is added, because the handler does none.
