/** The slice of JavaScript value semantics the documents rely on: JSON-like
    values, property reads (`o.k`, which yields `undefined` for a missing key
    and throws on `null`/`undefined`), truthiness, strict equality and string
    coercion. Numbers are integers here; the documents never do arithmetic. */
module Js {
  import opened Outcome

  datatype Value =
    | Undefined
    | Null
    | Bool(b: bool)
    | Num(n: int)
    | Str(s: string)
    | Arr(items: seq<Value>)
    | Obj(fields: map<string, Value>)

  /** A log record or event payload: a plain JSON object. */
  type Record = map<string, Value>

  /** `r.k` on a plain object: a missing key reads as `undefined`. */
  function Get(r: Record, k: string): Value {
    if k in r then r[k] else Undefined
  }

  /** `v.k` on any value that does not throw: only objects carry the keys
      the documents read, every other value yields `undefined`. */
  function Prop(v: Value, k: string): Value {
    if v.Obj? then Get(v.fields, k) else Undefined
  }

  predicate Nullish(v: Value) {
    v.Undefined? || v.Null?
  }

  /** V8's message for reading property `k` of `null` or `undefined`. */
  function ReadError(v: Value, k: string): string {
    "TypeError: Cannot read properties of " + ToJsString(v) + " (reading '" + k + "')"
  }

  /** V8's message when destructuring property `k` out of `null` or
      `undefined`. V8 names the operand by its source text: a parameter
      pattern shows the value itself, an awaited call shows
      `(intermediate value)`. */
  function DestructureError(k: string, operand: string, v: Value): string {
    "TypeError: Cannot destructure property '" + k + "' of '" + operand + "' as it is " + ToJsString(v) + "."
  }

  /** `v.k` as evaluated by V8: a read through `null` or `undefined` throws
      a TypeError, every other read is `Prop`. */
  function Access(v: Value, k: string): (r: Result<Value>)
    ensures r.Err? <==> Nullish(v)
    ensures r.Ok? ==> r.value == Prop(v, k)
  {
    if Nullish(v) then
      Err(ReadError(v, k))
    else
      Ok(Prop(v, k))
  }

  /** JavaScript truthiness (`if (v)`, `!v`). */
  predicate Truthy(v: Value) {
    match v
    case Undefined => false
    case Null => false
    case Bool(b) => b
    case Num(n) => n != 0
    case Str(s) => s != ""
    case Arr(_) => true
    case Obj(_) => true
  }

  /** `a === b`. Every object and array the documents compare comes from a
      separately parsed record, so two of them are never the same reference. */
  predicate StrictEquals(a: Value, b: Value) {
    if a.Obj? || a.Arr? || b.Obj? || b.Arr? then false else a == b
  }

  const Digits := "0123456789"

  function NatToDecimal(n: nat): (r: string)
    ensures |r| >= 1
    ensures forall i :: 0 <= i < |r| ==> r[i] in Digits
    decreases n
  {
    if n < 10 then [Digits[n]] else NatToDecimal(n / 10) + [Digits[n % 10]]
  }

  /** `String(v)`, which is also how a value becomes a property key or is
      spliced into a template literal. */
  function ToJsString(v: Value): string
    decreases v, 1
  {
    match v
    case Undefined => "undefined"
    case Null => "null"
    case Bool(b) => if b then "true" else "false"
    case Num(n) => if n < 0 then "-" + NatToDecimal(-n) else NatToDecimal(n)
    case Str(s) => s
    case Arr(items) => JoinItems(v, 0)
    case Obj(_) => "[object Object]"
  }

  /** `Array.prototype.join(',')` over the items from index `i` on: `null`
      and `undefined` items print as empty. */
  function JoinItems(parent: Value, i: nat): string
    requires parent.Arr? && i <= |parent.items|
    decreases parent, 0, |parent.items| - i
  {
    if i == |parent.items| then ""
    else
      var item := parent.items[i];
      var head := if Nullish(item) then "" else ToJsString(item);
      if i + 1 == |parent.items| then head else head + "," + JoinItems(parent, i + 1)
  }
}
