/**
 * The values a Select holds and the JavaScript truthiness rules the component
 * relies on when it writes `value || currentValue`, `defaultValue || null`,
 * `label || children` and `helperText || errorMessage`.
 */
module Values {

  /** An optional prop or state cell: `None` stands for `undefined` or `null`. */
  datatype Option<+T> = None | Some(value: T)

  /** `type Value = string | number`; numbers are modelled by integers. */
  datatype Value = Str(s: string) | Num(n: int)

  /** JavaScript truthiness of a Value: the empty string and zero are falsy. */
  predicate Truthy(v: Value) {
    match v
    case Str(s) => s != ""
    case Num(n) => n != 0
  }

  /** Truthiness of an optional Value: `undefined` and `null` are falsy too. */
  predicate Present(x: Option<Value>) {
    x.Some? && Truthy(x.value)
  }

  /** Truthiness of an optional string prop. */
  predicate PresentText(x: Option<string>) {
    x.Some? && x.value != ""
  }

  /** JavaScript's `x || y` on two optional Values: `x` when it is truthy, `y` otherwise. */
  function Or(x: Option<Value>, y: Option<Value>): (r: Option<Value>)
    ensures Present(x) ==> r == x
    ensures !Present(x) ==> r == y
    ensures Present(r) <==> Present(x) || Present(y)
  {
    if Present(x) then x else y
  }

  /** `x || null`: every falsy value collapses to `null`. */
  function OrNull(x: Option<Value>): (r: Option<Value>)
  {
    Or(x, None)
  }

  /** `x || null` keeps exactly the truthy values and is idempotent. */
  lemma OrNullSpec(x: Option<Value>)
    ensures OrNull(x).Some? <==> Present(x)
    ensures OrNull(x).Some? ==> OrNull(x) == x && Truthy(OrNull(x).value)
    ensures OrNull(OrNull(x)) == OrNull(x)
  {
  }
}
