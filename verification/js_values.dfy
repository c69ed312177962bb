/**
  The slice of JavaScript's value semantics the renderer leans on: the
  values a GeoJSON feed can put where a number is expected, the ToNumber
  coercion behind `isNaN` and behind `<` against a numeric literal.
 */
module JsValues {

  datatype Option<+T> = None | Some(value: T)

  /** A JavaScript value read out of a feature. Strings, arrays and objects
      are not represented. `NaN` is the not-a-number value itself and
      `Undefined` is what a missing property or array slot reads as. */
  datatype JsValue =
    | Number(x: real)
    | NaN
    | Undefined
    | Null
    | Bool(b: bool)

  /** ToNumber: `None` stands for a result of NaN. */
  function ToNumber(v: JsValue): Option<real>
  {
    match v
    case Number(x) => Some(x)
    case NaN => None
    case Undefined => None
    case Null => Some(0.0)
    case Bool(b) => Some(if b then 1.0 else 0.0)
  }

  /** The global `isNaN`, which coerces its argument before testing it. */
  predicate IsNaN(v: JsValue)
  {
    ToNumber(v).None?
  }

  /** `v < bound` for a numeric literal `bound`: both sides are coerced
      to numbers and any comparison with NaN is false. */
  predicate LessThan(v: JsValue, bound: real)
  {
    match ToNumber(v)
    case None => false
    case Some(x) => x < bound
  }

  /** Reading `xs[i]` off a JavaScript array: out of range reads as undefined. */
  function At(xs: seq<JsValue>, i: nat): JsValue
  {
    if i < |xs| then xs[i] else Undefined
  }

  /** Only `undefined` and NaN itself fail `isNaN` among the represented
      values; `null` and booleans coerce to 0 or 1 and pass. */
  lemma IsNaNExactly(v: JsValue)
    ensures IsNaN(v) <==> v == NaN || v == Undefined
  {
  }
}
