// JavaScript values as this client handles them: parsed JSON plus `undefined`,
// and the few language operations the client code relies on (`??`, `||`,
// optional chaining, `String(v)`).

module Js {

  datatype Option<+T> = None | Some(value: T)

  /** A JavaScript value reachable from parsed JSON, plus `undefined`.
      Numbers are integers: no value this client reads is fractional, NaN
      or infinite. An object is its own enumerable properties. */
  datatype Value =
    | Undefined
    | Null
    | Bool(b: bool)
    | Num(n: int)
    | Str(s: string)
    | Arr(items: seq<Value>)
    | Obj(fields: map<string, Value>)

  /** `v === null || v === undefined`: the values on which `??` and `?.` fall through. */
  predicate Nullish(v: Value) {
    v.Undefined? || v.Null?
  }

  /** ToBoolean: the values on which `||`, `&&`, `!` and `if` fall through are the falsy ones. */
  predicate Truthy(v: Value) {
    match v
    case Undefined => false
    case Null => false
    case Bool(b) => b
    case Num(n) => n != 0
    case Str(s) => s != ""
    case Arr(_) => true
    case Obj(_) => true
  }

  /** `a ?? b` */
  function Coalesce(a: Value, b: Value): Value {
    if Nullish(a) then b else a
  }

  /** `a || b` */
  function Or(a: Value, b: Value): Value {
    if Truthy(a) then a else b
  }

  /** `v?.key`. The property names this client reads (`data`, `errors`,
      `message`, `key`, `name`, `_count`, `posts`, `followers`, `following`,
      `url`, `avatar`) exist on no string, number, boolean or array, so on
      anything but an object the lookup gives `undefined`. */
  function OptGet(v: Value, key: string): Value {
    if v.Obj? && key in v.fields then v.fields[key] else Undefined
  }

  /** `===` between the values this client compares. Objects and arrays
      coming from two separate JSON parses are never the same object. */
  predicate StrictEquals(a: Value, b: Value) {
    !a.Arr? && !a.Obj? && a == b
  }

  function DigitChar(d: nat): (c: char)
    requires d < 10
    ensures '0' <= c <= '9' && c as int - '0' as int == d
  {
    ('0' as int + d) as char
  }

  /** Decimal digits of a natural number, most significant first. */
  function NatToString(n: nat): (r: string)
    ensures |r| >= 1
    ensures forall i :: 0 <= i < |r| ==> '0' <= r[i] <= '9'
  {
    if n < 10 then [DigitChar(n)] else NatToString(n / 10) + [DigitChar(n % 10)]
  }

  /** Number-to-String for an integer (below 10^21, where JavaScript switches to exponent form). */
  function IntToString(n: int): string {
    if n < 0 then "-" + NatToString(-n) else NatToString(n)
  }

  /** `String(v)` (ToString). An array joins its elements with ","; a null
      or undefined element contributes nothing. */
  function ToJsString(v: Value): string
    decreases v
  {
    match v
    case Undefined => "undefined"
    case Null => "null"
    case Bool(b) => if b then "true" else "false"
    case Num(n) => IntToString(n)
    case Str(s) => s
    case Arr(items) =>
      JoinWithComma(seq(|items|, i requires 0 <= i < |items| =>
        if Nullish(items[i]) then "" else ToJsString(items[i])))
    case Obj(_) => "[object Object]"
  }

  function JoinWithComma(parts: seq<string>): string {
    if |parts| == 0 then ""
    else if |parts| == 1 then parts[0]
    else parts[0] + "," + JoinWithComma(parts[1..])
  }

  /** The message that `new Error(v)` carries: ToString of `v`, or "" for undefined. */
  function ErrorMessageOf(v: Value): string {
    if v.Undefined? then "" else ToJsString(v)
  }
}
