/** Shared datatypes: an optional value, and the two ways a service call ends. */
module Common {

  /** A value that may be absent: `undefined` or `null` on the JavaScript side, `None` in Python. */
  datatype Option<+T> = None | Some(value: T) {
    function GetOr(default: T): T {
      if Some? then value else default
    }
  }

  /** A service call either returns an object carrying an HTTP status or throws an `Error` with a message. */
  datatype Reply = Status(code: int) | Thrown(message: string)

  /** A helper that returns nothing on success (`Promise<void>`) or throws. */
  datatype Outcome = Completed | Failed(message: string)

  /** JavaScript truthiness of an optional string: `undefined`, `null` and `""` are falsy. */
  predicate Truthy(s: Option<string>) {
    s.Some? && s.value != ""
  }
}
