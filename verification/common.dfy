/** Failure-carrying datatypes shared by every layer of the order API model. */
module Common {

  /** A value that may be absent: a missing header, query parameter or JSON field. */
  datatype Option<+T> = None | Some(value: T)

  /** What a service call produces: a value, or a thrown `Error` with its message. */
  datatype Result<+T> = Ok(value: T) | Err(message: string)

  /** What a controller's `catch` block can tell apart: a returned value, a thrown
      `Error` (whose message it forwards) or anything else thrown (which it hides). */
  datatype Outcome<+T> = Returned(value: T) | ThrewError(message: string) | ThrewOther

  /** A service call seen from its controller: errors are always `Error` instances. */
  function ToOutcome<T>(r: Result<T>): (o: Outcome<T>)
    ensures o.Returned? <==> r.Ok?
    ensures r.Ok? ==> o.value == r.value
    ensures r.Err? ==> o == ThrewError(r.message)
  {
    match r
    case Ok(v) => Returned(v)
    case Err(m) => ThrewError(m)
  }
}
