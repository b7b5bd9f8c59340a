/**
 `sendErrorResponse`: answering an HTTP request with an error, as the
 sequence of calls made on the response writer. The body is built by plain
 interpolation into a fixed template, without JSON escaping, so a
 description holding `"` or `\` yields text that is not valid JSON; the
 model keeps that behaviour.
 */
module Response {
  import opened Wrappers
  import opened Text
  import opened Decimal
  import opened Errors
  import Status

  /** One call on the response writer. */
  datatype Event =
    | SetHeader(name: string, value: string)
    | WriteHeader(status: int)
    | Write(body: string)

  const ContentType: string := "Content-Type"
  const ApplicationJson: string := "application/json"

  /** The fixed pieces of the body template `{"error":"%s", "status": %d}`. */
  const BodyOpen: string := "{\"error\":\""
  const BodySep: string := "\", \"status\": "
  const BodyClose: string := "}"

  /** The response body for a description and a status code, exactly as interpolated. */
  function Body(description: string, status: int): (r: string)
    ensures |r| == |BodyOpen| + |description| + |BodySep| + |IntToDecimal(status)| + |BodyClose|
    ensures r[..|BodyOpen|] == BodyOpen
    ensures r[|BodyOpen|..|BodyOpen| + |description|] == description
    ensures r[|r| - |BodyClose|..] == BodyClose
  {
    var r := BodyOpen + description + BodySep + IntToDecimal(status) + BodyClose;
    Regroup(BodyOpen, description, BodySep, IntToDecimal(status), BodyClose);
    FramedSlices(BodyOpen, description + BodySep + IntToDecimal(status), BodyClose);
    assert r[|BodyOpen|..|BodyOpen| + |description|] == (description + BodySep + IntToDecimal(status))[..|description|];
    r
  }

  /**
   Header changes come first, then exactly one status line, then exactly one
   body write, as a Go `http.ResponseWriter` requires: headers set after the
   status line is written are ignored.
   */
  predicate WellOrdered(trace: seq<Event>) {
    && |trace| >= 2
    && (forall i :: 0 <= i < |trace| - 2 ==> trace[i].SetHeader?)
    && trace[|trace| - 2].WriteHeader?
    && trace[|trace| - 1].Write?
  }

  /**
   What one call of `sendErrorResponse` does: the calls it made on the
   writer, and whether its own evaluation panicked (the nil error whose
   `Error()` is called while the body is built). A panic raised inside the
   writer is not part of the model.
   */
  datatype Outcome = Outcome(calls: seq<Event>, panicked: bool)

  /**
   `sendErrorResponse(w, httpStatusCode, err)`. `err` is given as the text its
   `Error()` method returns, or `None` for a nil error (a nil interface, or a
   nil `*Error`, whose value-receiver `Error()` dereferences it). It sets the
   content type and writes the given status without checking it; only then
   are the arguments of the body evaluated, so a nil error panics after the
   status line and before any body. Otherwise the body is written and the
   result of the write is dropped.
   */
  function SendErrorResponse(httpStatusCode: int, err: Option<string>): (r: Outcome)
    ensures r.panicked <==> err.None?
    ensures |r.calls| == if err.None? then 2 else 3
    ensures r.calls[0] == SetHeader(ContentType, ApplicationJson)
    ensures r.calls[1] == WriteHeader(httpStatusCode)
    ensures err.None? ==> forall i :: 0 <= i < |r.calls| ==> !r.calls[i].Write?
    ensures err.Some? ==> WellOrdered(r.calls) && r.calls[2] == Write(Body(err.value, httpStatusCode))
  {
    var prefix := [SetHeader(ContentType, ApplicationJson), WriteHeader(httpStatusCode)];
    match err
    case None => Outcome(prefix, true)
    case Some(description) => Outcome(prefix + [Write(Body(description, httpStatusCode))], false)
  }

  /** The body written reads back as the description and the status passed in. */
  lemma SendErrorResponseReadsBack(httpStatusCode: int, description: string)
    ensures ParseBody(SendErrorResponse(httpStatusCode, Some(description)).calls[2].body) == Some((description, httpStatusCode))
  {
    BodyRoundTrip(description, httpStatusCode);
  }

  /**
   A nil error makes exactly the calls a non-nil one makes before its body,
   whatever that error's text would have been, and then panics.
   */
  lemma NilErrorStopsBeforeBody(httpStatusCode: int, description: string)
    ensures var answered := SendErrorResponse(httpStatusCode, Some(description));
      var panicked := SendErrorResponse(httpStatusCode, None);
      && panicked.calls == answered.calls[..2]
      && panicked.panicked && !answered.panicked
  {
  }

  /** The number of decimal digits at the end of `s`. */
  function TrailingDigits(s: string): (k: nat)
    ensures k <= |s|
    ensures k < |s| ==> !IsDigit(s[|s| - k - 1])
    decreases |s|
  {
    if |s| == 0 || !IsDigit(s[|s| - 1]) then 0
    else 1 + TrailingDigits(s[..|s| - 1])
  }

  /**
   Splits `s` into what precedes its trailing status and the status text:
   the run of digits at the end, with the minus sign before it if there is
   one.
   */
  function SplitStatus(s: string): (p: (string, string))
    ensures p.0 + p.1 == s
  {
    var k := TrailingDigits(s);
    var cut := if k < |s| && s[|s| - k - 1] == '-' then |s| - k - 1 else |s| - k;
    SplitAt(s, cut);
    (s[..cut], s[cut..])
  }

  /** Cutting a text at any position and joining the halves gives it back. */
  lemma SplitAt(s: string, cut: nat)
    requires cut <= |s|
    ensures s[..cut] + s[cut..] == s
  {
  }

  /**
   Reads a body back into its description and status. It works from the
   right: the status is the signed run of digits before the closing brace,
   and the description is everything between the opening template piece and
   the separator that precedes the status, so it may hold any character,
   quotes included.
   */
  function ParseBody(b: string): Option<(string, int)> {
    if |b| < |BodyOpen| + |BodyClose| then None
    else if b[..|BodyOpen|] != BodyOpen || b[|b| - |BodyClose|..] != BodyClose then None
    else ParseFields(b[|BodyOpen|..|b| - |BodyClose|])
  }

  /** Reads the text between the braces' template pieces: description, separator, status. */
  function ParseFields(inner: string): Option<(string, int)> {
    var (head, digits) := SplitStatus(inner);
    var n :- ParseInt(digits);
    if |head| >= |BodySep| && head[|head| - |BodySep|..] == BodySep
    then Some((head[..|head| - |BodySep|], n))
    else None
  }

  /** The pieces of a concatenation are recovered by slicing at its seams. */
  lemma ConcatSlices(a: string, b: string)
    ensures (a + b)[..|a|] == a
    ensures (a + b)[|a|..] == b
  {
  }

  /** The three pieces of a framed text are recovered by slicing. */
  lemma FramedSlices(open: string, mid: string, close: string)
    ensures var s := open + mid + close;
      && s[..|open|] == open
      && s[|open|..|s| - |close|] == mid
      && s[|s| - |close|..] == close
  {
  }

  /** Digits appended after a non-digit are exactly the trailing digits. */
  lemma {:induction false} TrailingDigitsAppend(x: string, digits: string)
    requires |x| > 0 && !IsDigit(x[|x| - 1])
    requires AllDigits(digits)
    ensures TrailingDigits(x + digits) == |digits|
    decreases |digits|
  {
    if |digits| == 0 {
      assert x + digits == x;
    } else {
      var s := x + digits;
      assert s[..|s| - 1] == x + digits[..|digits| - 1];
      TrailingDigitsAppend(x, digits[..|digits| - 1]);
    }
  }

  /** After text ending in a space, a run of digits is split off exactly. */
  lemma SplitUnsigned(head: string, digits: string)
    requires |head| > 0 && head[|head| - 1] == ' '
    requires AllDigits(digits)
    ensures SplitStatus(head + digits) == (head, digits)
  {
    var s := head + digits;
    TrailingDigitsAppend(head, digits);
    assert |digits| < |s| && s[|s| - |digits| - 1] == ' ';
    ConcatSlices(head, digits);
  }

  /** After text ending in a space, a minus sign and a run of digits are split off exactly. */
  lemma SplitSigned(head: string, digits: string)
    requires |head| > 0 && head[|head| - 1] == ' '
    requires AllDigits(digits)
    ensures SplitStatus(head + ("-" + digits)) == (head, "-" + digits)
  {
    var s := head + ("-" + digits);
    assert s == (head + "-") + digits;
    TrailingDigitsAppend(head + "-", digits);
    assert s[|s| - |digits| - 1] == '-';
    ConcatSlices(head, "-" + digits);
  }

  /** After text ending in a space, the printed status is split off exactly. */
  lemma SplitStatusAppend(head: string, status: int)
    requires |head| > 0 && head[|head| - 1] == ' '
    ensures SplitStatus(head + IntToDecimal(status)) == (head, IntToDecimal(status))
  {
    if status < 0 {
      SplitSigned(head, NatToDecimal(-status));
    } else {
      SplitUnsigned(head, NatToDecimal(status));
    }
  }

  /** A framed body is read by reading what lies inside the frame. */
  lemma ParseFramed(inner: string)
    ensures ParseBody(BodyOpen + inner + BodyClose) == ParseFields(inner)
  {
    FramedSlices(BodyOpen, inner, BodyClose);
  }

  /** The fields of a body read back as the description and the status. */
  lemma ParseFieldsRoundTrip(description: string, status: int)
    ensures ParseFields(description + BodySep + IntToDecimal(status)) == Some((description, status))
  {
    var head := description + BodySep;
    assert head[|head| - 1] == ' ';
    SplitStatusAppend(head, status);
    IntToDecimalRoundTrip(status);
    ConcatSlices(description, BodySep);
  }

  /** The middle pieces of a five-piece concatenation can be grouped together. */
  lemma Regroup(a: string, b: string, c: string, d: string, e: string)
    ensures a + b + c + d + e == a + (b + c + d) + e
  {
  }

  /** The body determines the description and the status it was built from. */
  lemma BodyRoundTrip(description: string, status: int)
    ensures ParseBody(Body(description, status)) == Some((description, status))
  {
    var inner := description + BodySep + IntToDecimal(status);
    Regroup(BodyOpen, description, BodySep, IntToDecimal(status), BodyClose);
    ParseFramed(inner);
    ParseFieldsRoundTrip(description, status);
  }

  /** Different descriptions or statuses never produce the same body. */
  lemma BodyInjective(d1: string, s1: int, d2: string, s2: int)
    requires Body(d1, s1) == Body(d2, s2)
    ensures d1 == d2 && s1 == s2
  {
    BodyRoundTrip(d1, s1);
    BodyRoundTrip(d2, s2);
  }

  /** Concatenating single-line pieces gives a single line. */
  lemma SingleLineConcat(a: string, b: string)
    requires SingleLine(a) && SingleLine(b)
    ensures SingleLine(a + b)
  {
  }

  /** Printed integers hold no newline. */
  lemma DecimalSingleLine(status: int)
    ensures SingleLine(IntToDecimal(status))
  {
  }

  /** The template pieces hold no newline. */
  lemma TemplateSingleLine()
    ensures SingleLine(BodyOpen) && SingleLine(BodySep) && SingleLine(BodyClose)
  {
  }

  /** Between single-line pieces, a text is single-line exactly when the middle is. */
  lemma SingleLineFramed(open: string, mid: string, close: string)
    requires SingleLine(open) && SingleLine(close)
    ensures SingleLine(open + mid + close) <==> SingleLine(mid)
  {
    var s := open + mid + close;
    if SingleLine(mid) {
      SingleLineConcat(open, mid);
      SingleLineConcat(open + mid, close);
    } else {
      var i :| 0 <= i < |mid| && mid[i] == Newline;
      assert s[|open| + i] == mid[i];
    }
  }

  /** A body is single-line exactly when its description is. */
  lemma BodySingleLine(description: string, status: int)
    ensures SingleLine(Body(description, status)) <==> SingleLine(description)
  {
    var d := IntToDecimal(status);
    var rest := BodySep + d + BodyClose;
    TemplateSingleLine();
    DecimalSingleLine(status);
    SingleLineConcat(BodySep, d);
    SingleLineConcat(BodySep + d, BodyClose);
    assert Body(description, status) == BodyOpen + description + rest;
    SingleLineFramed(BodyOpen, description, rest);
  }

  /**
   Answering with an error built by `NewError`, at the status `HTTPCode`
   classifies it to: the status line is always an error status between 400
   and 511, the body is one line, and it carries the newline-free message.
   */
  lemma SendConstructedError(err: string, code: int)
    ensures var e := NewError(err, code);
      var trace := SendErrorResponse(e.HTTPCode(), Some(e.Description())).calls;
      && trace[1].WriteHeader?
      && Status.IsErrorStatus(trace[1].status)
      && trace[2].Write?
      && SingleLine(trace[2].body)
      && ParseBody(trace[2].body) == Some((StripNewlines(err), e.HTTPCode()))
  {
    var e := NewError(err, code);
    BodySingleLine(e.Description(), e.HTTPCode());
    SendErrorResponseReadsBack(e.HTTPCode(), e.Description());
  }

  /** The signature-mismatch answer, written out character for character. */
  lemma SignatureMismatchResponse()
    ensures SendErrorResponse(403, Some("URL signature mismatch")) == Outcome([
      SetHeader("Content-Type", "application/json"),
      WriteHeader(403),
      Write("{\"error\":\"" + "URL signature mismatch" + "\", \"status\": " + "403" + "}")
    ], false)
  {
    assert NatToDecimal(4) == "4";
    assert NatToDecimal(40) == "40";
    assert IntToDecimal(403) == "403";
  }
}
