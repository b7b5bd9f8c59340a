/**
 The `JSON()` serialisation of an error, as an abstract JSON object: the
 ordered members `encoding/json` emits for the struct tags
 `json:"message,omitempty"` and `json:"status"`. Bytes and escaping are not
 modelled.
 */
module Json {
  import opened Wrappers
  import opened Errors
  import Status

  datatype Value = JString(str: string) | JInt(num: int)

  /** A JSON object as its members in emitted order. */
  type Object = seq<(string, Value)>

  const MessageKey: string := "message"
  const StatusKey: string := "status"

  /** The keys of an object, in order. */
  function Keys(obj: Object): (ks: seq<string>)
    ensures |ks| == |obj|
    ensures forall i :: 0 <= i < |obj| ==> ks[i] == obj[i].0
  {
    if |obj| == 0 then [] else [obj[0].0] + Keys(obj[1..])
  }

  /** The value of the first member named `key`, if any. */
  function Lookup(obj: Object, key: string): (v: Option<Value>)
    ensures v.None? <==> key !in Keys(obj)
    ensures v.Some? ==> exists i :: 0 <= i < |obj| && obj[i] == (key, v.value) && NotBefore(obj, key, i)
  {
    if |obj| == 0 then None
    else if obj[0].0 == key then Some(obj[0].1)
    else
      var v := Lookup(obj[1..], key);
      if v.None? then v
      else
        var i :| 0 <= i < |obj| - 1 && obj[1..][i] == (key, v.value) && NotBefore(obj[1..], key, i);
        assert obj[i + 1] == (key, v.value) && NotBefore(obj, key, i + 1);
        v
  }

  /** No member before position `i` is named `key`. */
  predicate NotBefore(obj: Object, key: string, i: int)
    requires 0 <= i <= |obj|
  {
    forall j :: 0 <= j < i ==> obj[j].0 != key
  }

  /**
   `JSON()`: `message` comes first and only when the message is not empty;
   `status` always follows and carries the stored code verbatim, even one
   `HTTPCode` would replace.
   */
  function ToJson(e: Error): (obj: Object)
    ensures Keys(obj) == if e.message == "" then [StatusKey] else [MessageKey, StatusKey]
    ensures Lookup(obj, StatusKey) == Some(JInt(e.code))
    ensures Lookup(obj, MessageKey) == if e.message == "" then None else Some(JString(e.message))
  {
    var status := (StatusKey, JInt(e.code));
    if e.message == "" then [status] else [(MessageKey, JString(e.message)), status]
  }

  /**
   A decoder for the objects `ToJson` emits: a missing `message` stands for
   the empty string, `status` must be present and an integer, other keys are
   ignored, and a repeated key is read at its first occurrence.
   */
  function FromJson(obj: Object): Option<Error> {
    var message :=
      match Lookup(obj, MessageKey)
      case None => Some("")
      case Some(JString(s)) => Some(s)
      case Some(_) => None;
    match (message, Lookup(obj, StatusKey))
    case (Some(m), Some(JInt(n))) => Some(Error(m, n))
    case _ => None
  }

  /** Decoding what `JSON()` produced gives back the very same error. */
  lemma JsonRoundTrip(e: Error)
    ensures FromJson(ToJson(e)) == Some(e)
  {
  }

  /** The decoded `status` is the stored code even when it is not an HTTP error status. */
  lemma JsonStatusIsCode(e: Error)
    ensures FromJson(ToJson(e)).Some?
    ensures FromJson(ToJson(e)).value.code == e.code
    ensures Status.IsErrorStatus(e.code) || FromJson(ToJson(e)).value.code != e.HTTPCode()
  {
    JsonRoundTrip(e);
  }
}
