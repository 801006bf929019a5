/**
  The values a parsed JSON request body can hand to a route handler, and
  JavaScript's notion of truthiness over them (the ToBoolean abstract
  operation, section 7.1.2 of ECMA-262).

  A field the client did not send reads as `undefined` in JavaScript; it is
  `Undefined` here. A number is the parsed double, read as a real; `-0` and
  `0` are the same real and both are falsy. `Infinity`, which JSON.parse
  yields for an out-of-range literal, is not represented (it is truthy, like
  any non-zero `Num`).
*/
module JsValues {

  datatype Value =
    | Undefined
    | Null
    | Bool(boolean: bool)
    | Num(number: real)
    | Str(text: string)

  /** The falsy values a JSON body can produce: everything else is truthy. */
  const FalsyValues: set<Value> := {Undefined, Null, Bool(false), Num(0.0), Str("")}

  /** `!!v` in JavaScript. */
  function Truthy(v: Value): (t: bool)
    ensures t <==> v !in FalsyValues
  {
    match v
    case Undefined => false
    case Null => false
    case Bool(b) => b
    case Num(x) => x != 0.0
    case Str(s) => |s| > 0
  }

  /** `v === undefined || v === null`: the presence test that treats `0`, `false` and `""` as present. */
  function Nullish(v: Value): (n: bool)
    ensures n ==> !Truthy(v)
    ensures n <==> v in {Undefined, Null}
  {
    v.Undefined? || v.Null?
  }
}
