/** The few JavaScript value semantics the source relies on: truthiness, `||` and `+`. */
module Js {
  import opened Wrappers
  import opened Strings

  /** A JSON-shaped JavaScript value (integers only: no fractions, no NaN). */
  datatype JsValue = Undefined | Null | Bool(b: bool) | Num(n: int) | Str(s: string)

  /** JavaScript truthiness: `undefined`, `null`, `false`, `0` and `''` are falsy. */
  predicate Truthy(v: JsValue) {
    match v
    case Undefined => false
    case Null => false
    case Bool(b) => b
    case Num(n) => n != 0
    case Str(s) => s != ""
  }

  /** JavaScript truthiness of an optional number (`undefined`/`null` when absent). */
  predicate TruthyInt(x: Option<int>) {
    x.Some? && x.value != 0
  }

  /** JavaScript truthiness of an optional string. */
  predicate TruthyText(x: Option<string>) {
    x.Some? && x.value != ""
  }

  /** `x || 0` for an optional integer (`undefined`, `null` and NaN are `None`). */
  function OrZero(x: Option<int>): (r: int)
    ensures TruthyInt(x) ==> r == x.value
    ensures !TruthyInt(x) ==> r == 0
  {
    if x.Some? then x.value else 0
  }

  /** `x || null` for an optional integer: a falsy value, 0 included, becomes `null`. */
  function OrNull(x: Option<int>): (r: Option<int>)
    ensures r.Some? <==> TruthyInt(x)
    ensures r.Some? ==> r == x
  {
    if TruthyInt(x) then x else None
  }

  /** `a || b`. */
  function Or(a: JsValue, b: JsValue): (r: JsValue)
    ensures Truthy(a) ==> r == a
    ensures !Truthy(a) ==> r == b
  {
    if Truthy(a) then a else b
  }

  /** String conversion of a number or a string (`String(v)`). */
  function ToText(v: JsValue): string
    requires v.Num? || v.Str?
  {
    if v.Num? then IntToString(v.n) else v.s
  }

  /**
   * `a + b` on numbers and strings: numeric addition when both are numbers,
   * string concatenation as soon as one of them is a string.
   */
  function Plus(a: JsValue, b: JsValue): (r: JsValue)
    requires (a.Num? || a.Str?) && (b.Num? || b.Str?)
    ensures a.Num? && b.Num? ==> r == Num(a.n + b.n)
    ensures (a.Str? || b.Str?) ==> r == Str(ToText(a) + ToText(b))
  {
    if a.Num? && b.Num? then Num(a.n + b.n) else Str(ToText(a) + ToText(b))
  }

  /** `Number(v)` for a number or a plain decimal string; `None` stands for NaN. */
  function ToNumber(v: JsValue): Option<int> {
    match v
    case Num(n) => Some(n)
    case Str(s) => if s == "" then Some(0) else ParseDecimal(s)
    case Null => Some(0)
    case Bool(b) => Some(if b then 1 else 0)
    case Undefined => None
  }
}
