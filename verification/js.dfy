/** The dynamic values that arrive in request bodies and form data, and the
    JavaScript coercions the handlers apply to them. */
module Js {

  /** A JavaScript number as the handlers see it: a finite value (rounding
      is not modelled) or one of the three non-finite values. */
  datatype Numeric = NaN | PosInf | NegInf | Fin(r: real)

  /** A request field: absent (`undefined`), `null`, or a JSON value. Objects
      appear only as opaque non-empty values. */
  datatype Value =
    | Undefined
    | Null
    | Bool(b: bool)
    | Num(n: Numeric)
    | Str(s: string)
    | Arr(elems: seq<Value>)
    | Obj

  /** JavaScript truthiness: what `!v` negates and what `v || d` tests. */
  predicate Truthy(v: Value) {
    match v
    case Undefined => false
    case Null => false
    case Bool(b) => b
    case Num(n) => n.PosInf? || n.NegInf? || (n.Fin? && n.r != 0.0)
    case Str(s) => s != ""
    case Arr(_) => true
    case Obj => true
  }

  /** `Number(v)`. Parsing a string numeral (ECMAScript StringToNumber) is
      the parameter `parse`; an array goes through its comma-joined text, so
      `[]` and `[null]` give 0, a one-element array gives its element's number
      and anything longer holds a comma and gives NaN. */
  function ToNumber(v: Value, parse: string -> Numeric): Numeric {
    match v
    case Undefined => NaN
    case Null => Fin(0.0)
    case Bool(b) => if b then Fin(1.0) else Fin(0.0)
    case Num(n) => n
    case Str(s) => parse(s)
    case Obj => NaN
    case Arr(xs) =>
      if |xs| == 0 then Fin(0.0)
      else if |xs| > 1 then NaN
      else match xs[0]
        case Undefined => Fin(0.0)
        case Null => Fin(0.0)
        case Bool(_) => NaN
        case _ => ToNumber(xs[0], parse)
  }

  /** `Number.isFinite(x)`. */
  predicate IsFinite(x: Numeric) {
    x.Fin?
  }
}
