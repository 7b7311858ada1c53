/** What a `fetch` round trip can come back with, reduced to a value the
    handlers take as input, and the message each handler derives from a
    failure. */
module Responses {
  import opened Text

  /** The outcome of `res.json()`: the parsed value, or the rejection's
      message when the body is not the JSON expected. */
  datatype Parsed<T> = Json(value: T) | Malformed(message: string)

  /** A parsed error body. `ErrorObject` is any JSON value other than null,
      reduced to its `error` property (None when the property is missing or
      null, as it is for numbers, strings and arrays). `NullBody` is the JSON
      value null: reading `err.error` on it throws a TypeError, whose message
      is `message`. */
  datatype ErrorBody = ErrorObject(error: Option<string>) | NullBody(message: string)

  /** One request's outcome. `Ok` is a response whose `res.ok` holds (a 2xx
      status), `NotOk` one whose `res.ok` does not; `NetworkError` is a
      `fetch` that rejected with the given message. `Ok` carries what reading
      the success body gave, `NotOk` what reading the error body gave; a
      handler that does not read a body ignores it. */
  datatype Response<T> =
    | NetworkError(message: string)
    | Ok(status: nat, body: Parsed<T>)
    | NotOk(status: nat, errorBody: Parsed<ErrorBody>)

  /** The request succeeded and its body parsed: the only case in which a
      handler changes the list. */
  predicate Succeeded<T>(r: Response<T>) {
    r.Ok? && r.body.Json?
  }

  /** `err.error` of an error object, when it is truthy (present, non-null,
      non-empty): the server's own text, unchanged. */
  function ServerMessage(e: ErrorBody): (m: Option<string>)
    ensures m.Some? ==> e.ErrorObject? && m == e.error && m.value != []
    ensures e.ErrorObject? && e.error.Some? && e.error.value != [] ==> m.Some?
  {
    if e.ErrorObject? && e.error.Some? && e.error.value != [] then e.error else None
  }

  /** The status-coded message the handlers throw: "Failed to <action> (<status>)". */
  function StatusMessage(action: string, status: nat): (m: string)
    ensures |m| > |Decimal(status)| + 1
    ensures m[|m| - 1] == ')'
    ensures m[|m| - 1 - |Decimal(status)|..|m| - 1] == Decimal(status)
  {
    "Failed to " + action + " (" + Decimal(status) + ")"
  }

  /** The status can be read back from a status-coded message: the digits
      before the closing parenthesis are the status. */
  lemma StatusReadBack(action: string, status: nat)
    ensures var m := StatusMessage(action, status);
            var digits := m[|m| - 1 - |Decimal(status)|..|m| - 1];
            (forall i :: 0 <= i < |digits| ==> '0' <= digits[i] <= '9') && DecimalValue(digits) == status
  {
    DecimalRoundTrip(status);
  }

  /** The message of the error thrown while loading the list, if any. */
  function LoadError<T>(r: Response<T>): (m: Option<string>)
    ensures m.None? <==> Succeeded(r)
    ensures r.NetworkError? ==> m == Some(r.message)
    ensures r.Ok? && r.body.Malformed? ==> m == Some(r.body.message)
    ensures r.NotOk? ==> m == Some(StatusMessage("load comments", r.status))
  {
    match r
    case NetworkError(msg) => Some(msg)
    case Ok(_, body) => if body.Malformed? then Some(body.message) else None
    case NotOk(status, _) => Some(StatusMessage("load comments", status))
  }

  /** The message of the error thrown while adding a comment, if any. A
      rejected status uses the server's `error` text; an error body that
      does not parse stands for `{error: "unknown"}`; a parsed body without
      a usable `error` gives the status-coded text; a null body gives the
      TypeError of reading its `error`. */
  function AddError<T>(r: Response<T>): (m: Option<string>)
    ensures m.None? <==> Succeeded(r)
    ensures r.NetworkError? ==> m == Some(r.message)
    ensures r.Ok? && r.body.Malformed? ==> m == Some(r.body.message)
    ensures r.NotOk? && r.errorBody.Malformed? ==> m == Some("unknown")
    ensures r.NotOk? && r.errorBody.Json? && r.errorBody.value.NullBody? ==>
              m == Some(r.errorBody.value.message)
    ensures r.NotOk? && r.errorBody.Json? && r.errorBody.value.ErrorObject? ==>
              m == if ServerMessage(r.errorBody.value).Some? then ServerMessage(r.errorBody.value)
                   else Some(StatusMessage("add comment", r.status))
  {
    match r
    case NetworkError(msg) => Some(msg)
    case Ok(_, body) => if body.Malformed? then Some(body.message) else None
    case NotOk(status, errorBody) =>
      var e := if errorBody.Json? then errorBody.value else ErrorObject(Some("unknown"));
      if e.NullBody? then Some(e.message)
      else if ServerMessage(e).Some? then ServerMessage(e)
      else Some(StatusMessage("add comment", status))
  }

  /** The message of the error thrown while editing a comment, if any. Here
      an error body that does not parse stands for `{}`, so the status-coded
      text is used whenever the server gave no usable `error` text; a null
      body gives the TypeError of reading its `error`. */
  function EditError<T>(r: Response<T>): (m: Option<string>)
    ensures m.None? <==> Succeeded(r)
    ensures r.NetworkError? ==> m == Some(r.message)
    ensures r.Ok? && r.body.Malformed? ==> m == Some(r.body.message)
    ensures r.NotOk? && r.errorBody.Json? && r.errorBody.value.NullBody? ==>
              m == Some(r.errorBody.value.message)
    ensures r.NotOk? && !(r.errorBody.Json? && r.errorBody.value.NullBody?) ==>
              m == if r.errorBody.Json? && ServerMessage(r.errorBody.value).Some?
                   then ServerMessage(r.errorBody.value)
                   else Some(StatusMessage("edit comment", r.status))
  {
    match r
    case NetworkError(msg) => Some(msg)
    case Ok(_, body) => if body.Malformed? then Some(body.message) else None
    case NotOk(status, errorBody) =>
      var e := if errorBody.Json? then errorBody.value else ErrorObject(None);
      if e.NullBody? then Some(e.message)
      else if ServerMessage(e).Some? then ServerMessage(e)
      else Some(StatusMessage("edit comment", status))
  }

  /** The message of the error thrown while deleting a comment, if any. The
      delete handler reads neither body. */
  function DeleteError<T>(r: Response<T>): (m: Option<string>)
    ensures m.None? <==> r.Ok?
    ensures r.NetworkError? ==> m == Some(r.message)
    ensures r.NotOk? ==> m == Some(StatusMessage("delete comment", r.status))
  {
    match r
    case NetworkError(msg) => Some(msg)
    case Ok(_, _) => None
    case NotOk(status, _) => Some(StatusMessage("delete comment", status))
  }

  /** Add and edit differ only in what an unreadable error body means: for
      add it is the text "unknown", for edit the status-coded text. */
  lemma UnreadableErrorBody<T>(r: Response<T>)
    requires r.NotOk? && r.errorBody.Malformed?
    ensures AddError(r) == Some("unknown")
    ensures EditError(r) == Some(StatusMessage("edit comment", r.status))
    ensures AddError(r) != EditError(r)
  {
    var m := StatusMessage("edit comment", r.status);
    assert m[0] == 'F';
  }
}
