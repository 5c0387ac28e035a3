/**
 * The few JavaScript values the session code looks at: optional strings read
 * from storage or from the URL, and response bodies.
 */
module Values {

  datatype Option<+T> = None | Some(value: T)

  /** A decoded response body (`res.data`), with JavaScript's `undefined`. */
  datatype Data =
    | Undefined
    | Null
    | Text(text: string)
    | Record(fields: map<string, Data>)

  /** JavaScript truthiness of a body value (`!user` in the route guard). */
  predicate Truthy(d: Data)
  {
    match d
    case Undefined => false
    case Null => false
    case Text(s) => s != ""
    case Record(_) => true
  }

  /**
   * Truthiness of a value that is a string or `null`, as returned by
   * `localStorage.getItem` and `URLSearchParams.get`: `if (token)`.
   */
  predicate Present(s: Option<string>)
  {
    s.Some? && s.value != ""
  }

  /**
   * The property read `d.key`: `None` stands for the TypeError thrown when `d`
   * is `null` or `undefined`; a missing key (or a string body) reads as `undefined`.
   */
  function Member(d: Data, key: string): Option<Data>
  {
    match d
    case Undefined => None
    case Null => None
    case Text(_) => Some(Undefined)
    case Record(fields) => if key in fields then Some(fields[key]) else Some(Undefined)
  }

  /**
   * `String(d)`, which is also what `localStorage.setItem` stores and what a
   * template literal `${d}` inserts.
   */
  function Stringify(d: Data): string
  {
    match d
    case Undefined => "undefined"
    case Null => "null"
    case Text(s) => s
    case Record(_) => "[object Object]"
  }
}
