/**
 The error value of the service: a single-line message paired with an
 intended HTTP status code, its constructor and the two reads the rest of the
 service makes of it (the description and the status to answer with).
 */
module Errors {
  import opened Text
  import Status

  /** The `Error` struct: `Message` and `Code`. */
  datatype Error = Error(message: string, code: int) {

    /** `Error()`: the description other Go code sees through the `error` interface. */
    function Description(): (r: string)
      ensures r == message
      ensures Error(r, code) == this
    {
      message
    }

    /**
     `HTTPCode()`: the status to answer with. A code between 400 and 511 is
     kept; anything else falls back to 503, so the result is always an error
     status.
     */
    function HTTPCode(): (r: int)
      ensures Status.IsErrorStatus(r)
      ensures r == code <==> Status.IsErrorStatus(code)
      ensures r != code ==> r == Status.ServiceUnavailable
    {
      if code >= 400 && code <= 511 then code else Status.ServiceUnavailable
    }
  }

  /**
   `NewError`: drops every newline of `err` and stores `code` without any
   check. It never fails.
   */
  function NewError(err: string, code: int): (e: Error)
    ensures SingleLine(e.message)
    ensures IsSubsequence(e.message, err)
    ensures forall c :: c != Newline ==> multiset(e.message)[c] == multiset(err)[c]
    ensures e.code == code
    ensures SingleLine(err) ==> e.message == err
  {
    Error(StripNewlines(err), code)
  }

  /** The stored message is what Go's `strings.Replace(err, "\n", "", -1)` returns. */
  lemma NewErrorReplacesNewlines(err: string, code: int)
    ensures NewError(err, code).message == ReplaceAll(err, [Newline], "")
  {
    ReplaceNewlineIsStrip(err);
  }

  /**
   Rebuilding an error from its own description and code gives the same value
   exactly when its message is single-line, which every error built by
   `NewError` is.
   */
  lemma RebuildIffSingleLine(e: Error)
    ensures NewError(e.Description(), e.code) == e <==> SingleLine(e.message)
  {
  }

  /** `NewError` is idempotent. */
  lemma NewErrorIdempotent(err: string, code: int)
    ensures var e := NewError(err, code); NewError(e.message, e.code) == e
  {
  }

  /** The description of a constructed error is the input with newlines removed. */
  lemma DescriptionOfNewError(err: string, code: int)
    ensures NewError(err, code).Description() == StripNewlines(err)
    ensures SingleLine(NewError(err, code).Description())
  {
  }

  /** Classifying twice changes nothing: a classified status classifies to itself. */
  lemma HTTPCodeIdempotent(e: Error)
    ensures Error(e.message, e.HTTPCode()).HTTPCode() == e.HTTPCode()
  {
  }

  /** A worked case: a code in range is kept. */
  lemma InRangeExample()
    ensures NewError("Not found", 404).HTTPCode() == 404
  {
  }

  /** A newline between two single-line pieces is dropped and the pieces joined. */
  lemma {:induction false} NewErrorJoinsAroundNewline(a: string, b: string, code: int)
    requires SingleLine(a) && SingleLine(b)
    ensures NewError(a + [Newline] + b, code) == Error(a + b, code)
  {
    var tail := [Newline] + b;
    assert tail[1..] == b;
    assert StripNewlines(tail) == b;
    assert a + [Newline] + b == a + tail;
    StripNewlinesConcat(a, tail);
  }

  /** A worked case: a code out of range is replaced and the newline dropped. */
  lemma OutOfRangeExample()
    ensures NewError("bad" + [Newline] + "code", 999) == Error("bad" + "code", 999)
    ensures NewError("bad" + [Newline] + "code", 999).HTTPCode() == 503
  {
    NewErrorJoinsAroundNewline("bad", "code", 999);
  }
}
