/**
 * Values shared by every handler of the backend: optional request fields,
 * handler results, and JavaScript truthiness of the strings a request carries.
 */
module Common {

  /** A value a request may omit (`undefined` in the handlers). */
  datatype Option<T> = None | Some(value: T) {
    /** The value, or the default the handler's destructuring supplies. */
    function GetOr(default: T): T {
      if Some? then value else default
    }
  }

  /** What a handler computes: a value, or the message of the error it reports. */
  datatype Result<T> = Ok(value: T) | Err(message: string)

  /** JavaScript truthiness of an optional string: present and not empty. */
  predicate Truthy(p: Option<string>) {
    p.Some? && p.value != ""
  }
}
