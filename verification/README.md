# Error model of the imaginary image service

This project models the error layer of the `imaginary` HTTP image service (`error.go`) in Dafny. The layer has four parts:

- **The error value.** `Error` pairs a message with an intended HTTP status code. `NewError` builds one. It removes every newline from the message and stores the code unchecked.
- **The status classifier.** `HTTPCode` keeps a code between 400 and 511 and answers 503 (Service Unavailable) for any other code. The codes are those of section 15 of RFC 9110, plus 511 from section 6 of RFC 6585.
- **The catalog.** Fifteen package-level errors (`ErrNotFound`, `ErrInvalidAPIKey`, …), each built through `NewError` with a declared status.
- **Two serialisations.**
  - `JSON()` gives an object with an optional `message` member, left out when the message is empty, and a mandatory `status` member.
  - `sendErrorResponse` does three things in order. It sets `Content-Type: application/json`, writes the given status, then writes the body `{"error":"<description>", "status": <code>}`. The body is built by plain interpolation, with no escaping. A nil error panics after the status line and before the body.

Modules, one per concern:

| file | module | what it holds |
|---|---|---|
| `wrappers.dfy` | `Wrappers` | `Option`, for the decoders |
| `text.dfy` | `Text` | `StripNewlines`, a reference definition of Go's replace-all, and the laws of the filter |
| `decimal.dfy` | `Decimal` | what `%d` prints for an integer, and its inverse |
| `status.dfy` | `Status` | the `net/http` status constants used |
| `errors.dfy` | `Errors` | `Error`, `NewError`, `Error()` (here `Description`), `HTTPCode` |
| `json.dfy` | `Json` | `JSON()` as an abstract ordered object, and a decoder that inverts it |
| `catalog.dfy` | `Catalog` | the fifteen declarations and their properties |
| `response.dfy` | `Response` | `sendErrorResponse` as a trace of writer calls, the body template and a body parser that inverts it |

Each operation has a partner definition, and a lemma proves the two agree for every input:

- `StripNewlines` is checked against `ReplaceAll`, a definition of `strings.Replace(s, "\n", "", -1)`. It is also pinned down uniquely by its contract (`StripNewlinesUnique`).
- `IntToDecimal` is inverted by `ParseInt`.
- `ToJson` is inverted by `FromJson`, a decoder for the objects `ToJson` emits.
- `Body` is inverted by `ParseBody`. `ParseBody` reads from the right, so it recovers any description, even one with quotes or backslashes. Such a body is still not valid JSON, because section 7 of RFC 8259 requires those characters to be escaped. The model keeps the body exactly as the source builds it.

## Model

| member | source | states |
|---|---|---|
| Text.StripNewlines | error.go:50 | the stored message has no newline, keeps every other character in order and as often as the input has it, is shorter by exactly the number of newlines, and equals the input when the input has none |
| Text.StripNewlinesUnique | error.go:50 | any single-line, order-preserving selection of the input that keeps every non-newline character is exactly the stripped message, so the contract above determines the result |
| Text.ReplaceNewlineIsStrip | error.go:50 | replacing every "\n" with "" (Go's replace-all, scanning left to right) gives exactly the newline filter |
| Text.StripNewlinesConcat | error.go:50 | stripping a concatenation strips each part separately |
| Text.StripNewlinesIdempotent | error.go:50 | stripping an already stripped message changes nothing |
| Errors.NewError | error.go:49-52 | construction always succeeds; the code is stored unchanged, with no range check; the message is single-line and keeps all other characters of the input in order |
| Errors.NewErrorReplacesNewlines | error.go:50 | the stored message is what `strings.Replace(err, "\n", "", -1)` returns |
| Errors.NewErrorIdempotent | error.go:49-51 | rebuilding an error from its own message and code gives the same value |
| Errors.RebuildIffSingleLine | error.go:38-40 | rebuilding an error from `Error()` and its code gives the same value exactly when its message is single-line |
| Errors.DescriptionOfNewError | error.go:38-40 | `Error()` of a constructed error is the input with newlines removed, and is single-line |
| Errors.NewErrorJoinsAroundNewline | error.go:50 | a newline between two single-line pieces disappears and the pieces are joined |
| Errors.Error.Description | error.go:38-40 | `Error()` returns the stored message unchanged, so the error is recovered from its description and its code |
| Errors.Error.HTTPCode | error.go:42-47 | the result is always in [400, 511]; it equals the code exactly when the code is in [400, 511]; otherwise it is 503 |
| Errors.HTTPCodeIdempotent | error.go:42-47 | classifying an already classified status gives the same status |
| Errors.InRangeExample | error.go:42-47 | `NewError("Not found", 404)` classifies to 404 |
| Errors.OutOfRangeExample | error.go:42-52 | `NewError("bad\ncode", 999)` stores "bad" + "code" and 999, and classifies to 503 |
| Decimal.NatToDecimal | error.go:57 | the `%d` digits of a natural number are non-empty decimal digits with no leading zero, and read back as that number |
| Decimal.IntToDecimal | error.go:57 | what `%d` prints for any integer: non-empty, a minus sign first exactly when the integer is negative, and decimal digits after it |
| Decimal.IntToDecimalRoundTrip | error.go:57 | reading back what `%d` printed gives the original integer, negative ones included |
| Json.ToJson | error.go:28-36 | `message` comes first and is present exactly when the message is non-empty, holding it verbatim; `status` is always present and holds the code verbatim |
| Json.JsonRoundTrip | error.go:28-36 | decoding the object `JSON()` produced gives back the same error |
| Json.JsonStatusIsCode | error.go:30 | the serialised status is the stored code, not the classified one: for an out-of-range code the two differ |
| Catalog.CatalogCodes | error.go:11-25 | the fifteen entries store the declared codes 404, 401, 405, 405, 406, 400, 400, 400, 400, 400, 400, 501, 400, 403, 422, all in [400, 511], and each classifies to its own code |
| Catalog.CatalogMessages | error.go:11-25 | every catalog entry has a non-empty, single-line message |
| Catalog.SignatureMismatchEntry | error.go:24 | `ErrURLSignatureMismatch` is "URL signature mismatch" with status 403 |
| Response.Body | error.go:57 | the body of the `fmt.Sprintf` template: it opens with `{"error":"`, the description follows verbatim, it closes with `}`, and its length is that of the template pieces, the description and the printed status together |
| Response.BodyRoundTrip | error.go:57 | the description and the status can be read back from the body for every description, quotes and backslashes included |
| Response.BodyInjective | error.go:57 | two different description/status pairs never give the same body |
| Response.BodySingleLine | error.go:57 | the body is single-line exactly when the description is |
| Response.SendErrorResponse | error.go:54-58 | for a non-nil error, exactly three writer calls: header changes, then one status line, then one body write; Content-Type is set to application/json, the given status is written unchecked, and the body is the filled template. For a nil error, the header and the status are written, no body is, and the call panics |
| Response.NilErrorStopsBeforeBody | error.go:54-57 | a nil error makes exactly the first two calls a non-nil one makes, and then panics instead of returning |
| Response.SendErrorResponseReadsBack | error.go:54-57 | the body written reads back as exactly the description and the status passed in |
| Response.SendConstructedError | error.go:42-57 | answering with a constructed error at its classified status writes a status in [400, 511] and a single-line body carrying the newline-free message |
| Response.SignatureMismatchResponse | error.go:54-57 | status 403 with "URL signature mismatch" gives the header, the status 403 and the body `{"error":"URL signature mismatch", "status": 403}` |

## Left out

- The `http.ResponseWriter` itself and its I/O are not modelled. `sendErrorResponse` is modelled as the list of calls it makes on the writer.
- The `error` returned by `Write` is not modelled. The source discards it.
- Response.SendErrorResponse: panics raised inside the writer are not modelled. The modelled writer accepts every status. The `net/http` server's `WriteHeader` panics for a status outside [100, 999]. With that writer, `sendErrorResponse` panics after setting the header and before writing any body, even for a non-nil error.
- `sendErrorResponse` takes any Go `error`. The model passes the string its `Error()` method returns, because that string is all the function reads. A nil error (a nil interface, or a nil `*Error`) is passed as `None` and panics. Other `error` types whose `Error()` method panics or never returns are not modelled.
- Byte-level behaviour of `encoding/json` is not modelled: the bytes `Marshal` lays out, string escaping and HTML escaping. `JSON()` is modelled as an ordered list of members.
- `JSON()` discards the error from `Marshal` and returns an empty slice in that case. This is not modelled: `Marshal` cannot fail on a struct holding only a string and an int.
- `Json.FromJson` is the model's own decoder for the objects `ToJson` emits. The repository has no decoder, and `FromJson` is not `json.Unmarshal`. They differ on objects `ToJson` never produces:
  - for a repeated key, `FromJson` reads the first occurrence, while `Unmarshal` keeps the last;
  - `FromJson` matches keys exactly, while `Unmarshal` also accepts a key that matches `message` or `status` up to case;
  - `FromJson` rejects an object without `status` or with a value of the wrong type, while `Unmarshal` leaves the field at its zero value or reports a type error.
- Go's `int` is 32 or 64 bits wide, depending on the platform. The model uses unbounded integers. `HTTPCode` only compares the code and `%d` prints every value exactly, so no wrap-around can occur.
- `Text.ReplaceAll` covers only a non-empty pattern. `strings.Replace` treats an empty pattern specially, and `NewError` always passes "\n".
- Catalog.CatalogMessages: states that each catalog message is non-empty and single-line, not that it equals its literal character for character. The longer literals cannot be unrolled cheaply. Catalog.SignatureMismatchEntry states the exact text for one entry.
- Go strings are byte sequences. The model uses `string`, a sequence of Unicode characters, so a message holding invalid UTF-8 cannot be represented. Nothing else is lost. The newline byte 0x0A never occurs inside a multi-byte UTF-8 sequence, so removing it byte by byte and character by character gives the same text. The count of removed newlines is also the same in both.
- Catalog entries are read by any number of request handlers at once without synchronisation. That sharing is not modelled: the values are immutable.
- The body `sendErrorResponse` writes is not valid JSON when the description contains `"` or `\`. The model reproduces that body as written and does not repair it.
