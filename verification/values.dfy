/**
 * The JavaScript values that flow through the emitter: event payloads,
 * property values handed to `Set`, and the argument of `Message.Remove`.
 * Numbers are integers here; NaN, infinities and fractions are not modelled.
 */
module Values {

  datatype Value =
    | Undefined
    | Null
    | Boolean(b: bool)
    | Number(n: int)
    | Text(s: string)
    | Object(id: nat)

  /** The exception the modelled code can throw: reading a variable that is not declared. */
  datatype ScriptError = ReferenceError

  /** JavaScript truthiness, as used by `if (name)` and `if (!listener)`. */
  predicate Truthy(v: Value) {
    match v
    case Undefined => false
    case Null => false
    case Boolean(b) => b
    case Number(n) => n != 0
    case Text(s) => s != ""
    case Object(_) => true
  }

  /** The decimal spelling of a natural number. */
  function Decimal(n: nat): (r: string)
    ensures |r| >= 1
    ensures forall i :: 0 <= i < |r| ==> '0' <= r[i] <= '9'
    decreases n
  {
    var d := ['0' + (n % 10) as char];
    if n < 10 then d else Decimal(n / 10) + d
  }

  /** `String(v)`: the property key a value turns into when concatenated to "event.". */
  function ToText(v: Value): string {
    match v
    case Undefined => "undefined"
    case Null => "null"
    case Boolean(b) => if b then "true" else "false"
    case Number(n) => if n < 0 then "-" + Decimal(-n) else Decimal(n)
    case Text(s) => s
    case Object(_) => "[object Object]"
  }
}
