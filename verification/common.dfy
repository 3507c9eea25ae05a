/** Shared vocabulary of the route handlers: optional request fields, the
    HTTP error statuses the handlers answer with, the caller's session and
    what the runtime supplies to a write (clock, fresh ObjectId, password
    digest). */
module Common {

  /** A request or document field that may be absent (`undefined`). */
  datatype Option<+T> = None | Some(value: T)

  /** A MongoDB ObjectId, kept opaque. */
  type Id = string

  /** Milliseconds since the epoch, as `Date.now()` returns them. */
  type Time = int

  /** The error responses the routes return. */
  datatype Status = Unauthorized | Forbidden | BadRequest | NotFound | Internal
  {
    function Code(): nat
    {
      match this
      case Unauthorized => 401
      case Forbidden => 403
      case BadRequest => 400
      case NotFound => 404
      case Internal => 500
    }
  }

  /** The body a handler answers with: a payload, or an error status. */
  datatype Outcome<+T> = Ok(value: T) | Fail(status: Status)

  /** The authenticated caller, as the session service reports it. The role
      is the raw string the session carries; handlers compare it by text. */
  datatype Session = Session(userId: Id, role: string)

  /** What the runtime supplies to a write: the current time, the ObjectId
      MongoDB assigns to a new document, and the bcrypt digest of the
      submitted password (bcrypt itself is foreign code). */
  datatype Env = Env(now: Time, newId: Id, digest: string)

  /** JavaScript truthiness of an optional string field: absent and `""`
      are falsy. */
  predicate TruthyText(o: Option<string>)
  {
    o.Some? && o.value != ""
  }

  /** JavaScript truthiness of an optional number field: absent and `0` are
      falsy (NaN is not modelled). */
  predicate TruthyReal(o: Option<real>)
  {
    o.Some? && o.value != 0.0
  }

  predicate TruthyInt(o: Option<int>)
  {
    o.Some? && o.value != 0
  }

  /** `x || undefined` on an optional string: a falsy value becomes absent. */
  function OrUndefined(o: Option<string>): (r: Option<string>)
    ensures r.Some? <==> TruthyText(o)
    ensures r.Some? ==> r == o
  {
    if TruthyText(o) then o else None
  }

  const AdminRole: string := "admin"
  const ManagerRole: string := "manager"
  const ExecutiveRole: string := "executive"
}
