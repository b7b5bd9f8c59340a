/**
 The fixed catalog of named errors the service answers with, each built once
 through `NewError` with its declared status.
 */
module Catalog {
  import opened Text
  import opened Errors
  import Status

  /** A named catalog error, as the package-level variable declares it. */
  datatype Entry = Entry(name: string, err: Error)

  /** The message text of each declaration. */
  const MsgNotFound: string := "Not found"
  const MsgInvalidAPIKey: string := "Invalid or missing API key"
  const MsgMethodNotAllowed: string := "HTTP method not allowed. Try with a POST or GET method (-enable-url-source flag must be defined)"
  const MsgGetMethodNotAllowed: string := "GET method not allowed. Make sure remote URL source is enabled by using the flag: -enable-url-source"
  const MsgUnsupportedMedia: string := "Unsupported media type"
  const MsgOutputFormat: string := "Unsupported output image format"
  const MsgEmptyBody: string := "Empty or unreadable image"
  const MsgMissingParamFile: string := "Missing required param: file"
  const MsgInvalidFilePath: string := "Invalid file path"
  const MsgInvalidImageURL: string := "Invalid image URL"
  const MsgMissingImageSource: string := "Cannot process the image due to missing or invalid params"
  const MsgNotImplemented: string := "Not implemented endpoint"
  const MsgInvalidURLSignature: string := "Invalid URL signature"
  const MsgURLSignatureMismatch: string := "URL signature mismatch"
  const MsgResolutionTooBig: string := "Image resolution is too big"

  /** The declarations in source order: variable name, message, status. */
  const Declarations: seq<(string, string, int)> := [
    ("ErrNotFound", MsgNotFound, Status.NotFound),
    ("ErrInvalidAPIKey", MsgInvalidAPIKey, Status.Unauthorized),
    ("ErrMethodNotAllowed", MsgMethodNotAllowed, Status.MethodNotAllowed),
    ("ErrGetMethodNotAllowed", MsgGetMethodNotAllowed, Status.MethodNotAllowed),
    ("ErrUnsupportedMedia", MsgUnsupportedMedia, Status.NotAcceptable),
    ("ErrOutputFormat", MsgOutputFormat, Status.BadRequest),
    ("ErrEmptyBody", MsgEmptyBody, Status.BadRequest),
    ("ErrMissingParamFile", MsgMissingParamFile, Status.BadRequest),
    ("ErrInvalidFilePath", MsgInvalidFilePath, Status.BadRequest),
    ("ErrInvalidImageURL", MsgInvalidImageURL, Status.BadRequest),
    ("ErrMissingImageSource", MsgMissingImageSource, Status.BadRequest),
    ("ErrNotImplemented", MsgNotImplemented, Status.NotImplemented),
    ("ErrInvalidURLSignature", MsgInvalidURLSignature, Status.BadRequest),
    ("ErrURLSignatureMismatch", MsgURLSignatureMismatch, Status.Forbidden),
    ("ErrResolutionTooBig", MsgResolutionTooBig, Status.UnprocessableEntity)
  ]

  /** The catalog: every declaration passed through `NewError`. */
  const Entries: seq<Entry> :=
    seq(|Declarations|, i requires 0 <= i < |Declarations| =>
      Entry(Declarations[i].0, NewError(Declarations[i].1, Declarations[i].2)))

  const ErrNotFound: Error := Entries[0].err
  const ErrInvalidAPIKey: Error := Entries[1].err
  const ErrMethodNotAllowed: Error := Entries[2].err
  const ErrGetMethodNotAllowed: Error := Entries[3].err
  const ErrUnsupportedMedia: Error := Entries[4].err
  const ErrOutputFormat: Error := Entries[5].err
  const ErrEmptyBody: Error := Entries[6].err
  const ErrMissingParamFile: Error := Entries[7].err
  const ErrInvalidFilePath: Error := Entries[8].err
  const ErrInvalidImageURL: Error := Entries[9].err
  const ErrMissingImageSource: Error := Entries[10].err
  const ErrNotImplemented: Error := Entries[11].err
  const ErrInvalidURLSignature: Error := Entries[12].err
  const ErrURLSignatureMismatch: Error := Entries[13].err
  const ErrResolutionTooBig: Error := Entries[14].err

  /** The status each entry declares, in declaration order, written as numbers. */
  const DeclaredCodes: seq<int> := [404, 401, 405, 405, 406, 400, 400, 400, 400, 400, 400, 501, 400, 403, 422]

  /** A message that ends in something other than a newline survives `NewError` non-empty. */
  lemma NewErrorKeepsLastCharacter(err: string, code: int)
    requires |err| > 0 && err[|err| - 1] != Newline
    ensures NewError(err, code).message != ""
  {
    assert err[|err| - 1] in multiset(err);
  }

  /** The declarations name the statuses listed in `DeclaredCodes`, all error statuses. */
  lemma DeclaredStatuses()
    ensures |Declarations| == |DeclaredCodes| == 15
    ensures forall i :: 0 <= i < |Declarations| ==> Declarations[i].2 == DeclaredCodes[i]
    ensures forall i :: 0 <= i < |DeclaredCodes| ==> Status.IsErrorStatus(DeclaredCodes[i])
  {
  }

  /** Every catalog entry stores its declared status and classifies to exactly it. */
  lemma CatalogCodes()
    ensures |Entries| == |DeclaredCodes| == 15
    ensures forall i :: 0 <= i < |Entries| ==> Entries[i].err.code == DeclaredCodes[i]
    ensures forall i :: 0 <= i < |Entries| ==> Status.IsErrorStatus(Entries[i].err.code)
    ensures forall i :: 0 <= i < |Entries| ==> Entries[i].err.HTTPCode() == Entries[i].err.code
  {
    DeclaredStatuses();
  }

  /** Every declared message ends in a character other than a newline. */
  lemma DeclaredMessagesEnd()
    ensures forall i :: 0 <= i < |Declarations| ==>
      |Declarations[i].1| > 0 && Declarations[i].1[|Declarations[i].1| - 1] != Newline
  {
  }

  /** Every catalog entry carries a non-empty, single-line message. */
  lemma CatalogMessages()
    ensures forall i :: 0 <= i < |Entries| ==> Entries[i].err.message != ""
    ensures forall i :: 0 <= i < |Entries| ==> SingleLine(Entries[i].err.message)
  {
    DeclaredMessagesEnd();
    forall i | 0 <= i < |Entries|
      ensures Entries[i].err.message != ""
    {
      NewErrorKeepsLastCharacter(Declarations[i].1, Declarations[i].2);
    }
  }

  /** The signature-mismatch entry, as the service emits it for a bad URL signature. */
  lemma SignatureMismatchEntry()
    ensures ErrURLSignatureMismatch.message == "URL signature mismatch"
    ensures ErrURLSignatureMismatch.code == 403
    ensures ErrURLSignatureMismatch.HTTPCode() == 403
  {
    assert SingleLine(MsgURLSignatureMismatch);
  }
}
