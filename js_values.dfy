/**
 * The values that cross the boundary between the server actions and the
 * services they call: JSON payloads from the database endpoint, thrown
 * exceptions, and the outcomes of a completion-model call and of a database
 * call. The services themselves are not modelled; their outcomes are inputs.
 */
module JsValues {
  import opened JsText

  datatype Option<+T> = None | Some(value: T)

  /** A thrown `Error` whose message is `message`; `Ok` is a normal return. */
  datatype Result<+T> = Ok(value: T) | Err(message: string)

  /** A JSON value; a missing payload (`undefined`) is modelled as `Null`.
      Numbers are reals: JSON has no NaN. */
  datatype Json =
    | Null
    | Bool(b: bool)
    | Num(n: real)
    | Str(s: string)
    | Arr(items: seq<Json>)
    | Obj(fields: map<string, Json>)

  /** JavaScript truthiness of a JSON value. */
  predicate Truthy(v: Json) {
    match v
    case Null => false
    case Bool(b) => b
    case Num(n) => n != 0.0
    case Str(s) => s != []
    case Arr(_) => true
    case Obj(_) => true
  }

  /** A thrown value: an instance of `Error` (its `message` is always a string)
      or any other value, which may or may not carry a `message` property. */
  datatype Exception =
    | ErrorInstance(message: string)
    | OtherThrown(messageProperty: Option<string>)

  /** `${e.message}` in a template literal: a missing property reads "undefined". */
  function MessageText(e: Exception): (t: string)
    ensures e.ErrorInstance? ==> t == e.message
    ensures e.OtherThrown? && e.messageProperty.Some? ==> t == e.messageProperty.value
    ensures e.OtherThrown? && e.messageProperty.None? ==> t == "undefined"
  {
    match e
    case ErrorInstance(m) => m
    case OtherThrown(Some(m)) => m
    case OtherThrown(None) => "undefined"
  }

  const UnknownError := "Unknown error occurred"

  /** The catch block shared by the three completion-model actions:
      `e instanceof Error ? `${context}: ${e.message}` : `${context}: Unknown error occurred``. */
  function WrapFailure(context: string, e: Exception): (msg: string)
    ensures StartsWith(msg, context + ": ")
    ensures e.ErrorInstance? ==> msg[|context| + 2..] == e.message
    ensures e.OtherThrown? ==> msg[|context| + 2..] == UnknownError
  {
    context + ": " + (if e.ErrorInstance? then e.message else UnknownError)
  }

  /** The outcome of one `generateObject` call: the schema-conforming object,
      or the exception the call raised. */
  datatype Completion<+T> = Generated(output: T) | CompletionFailed(exception: Exception)

  /** A Supabase error object; only its `message` is read. */
  datatype DbError = DbError(message: string)

  /** The outcome of one Supabase call: the `{ data, error }` pair it resolves
      to, or the exception it raised. */
  datatype Response =
    | Response(data: Json, error: Option<DbError>)
    | Threw(exception: Exception)
}
