/** The few Ruby runtime notions the modelled code depends on: the values that
    appear in its configuration data, truthiness, out-of-range array reads, and
    the exceptions it can raise. */
module RubyValues {

  /** A Ruby object as it appears in the bicycle configuration data. */
  datatype Value = Nil | Bool(b: bool) | Str(s: string) | Int(i: int)

  /** Ruby truthiness: every object except `nil` and `false` is true. */
  predicate Truthy(v: Value) {
    v != Nil && v != Bool(false)
  }

  /** The exceptions the modelled code can raise. */
  datatype RubyError =
    | NoMethodError(selector: string)           // a message sent to nil
    | ArgumentError(given: nat, expected: nat)  // wrong number of arguments

  /** A value, or the exception that interrupted its computation. */
  datatype Result<T> = Ok(value: T) | Err(error: RubyError)

  /** A field that may hold Ruby's nil. */
  datatype Option<T> = None | Some(value: T)

  /** `a[i]` on a Ruby array with a non-negative index: `None` (Ruby's nil)
      past the end. */
  function Index<T>(a: seq<T>, i: nat): Option<T> {
    if i < |a| then Some(a[i]) else None
  }

  /** `a[i]` on an array of Ruby values, where nil is itself a value. */
  function At(a: seq<Value>, i: nat): Value {
    match Index(a, i)
    case Some(v) => v
    case None => Nil
  }

  /** `a.fetch(i, default)` with a non-negative index. */
  function Fetch(a: seq<Value>, i: nat, default: Value): Value {
    if i < |a| then a[i] else default
  }
}
