/** Values as the relay sees them after `JSON.parse`, plus `undefined` for a
    missing key, and the handful of JavaScript operations the relay applies to
    them: truthiness, `||`, property access, optional chaining and `String(v)`. */
module Json {

  datatype Option<T> = None | Some(value: T)

  datatype Value =
    | Undefined
    | Null
    | Bool(b: bool)
    | Num(n: real)
    | Str(s: string)
    | Obj(fields: map<string, Value>)

  /** JavaScript truthiness: `undefined`, `null`, `false`, `0` and `""` are falsy. */
  predicate Truthy(v: Value)
  {
    match v
    case Undefined => false
    case Null => false
    case Bool(b) => b
    case Num(n) => n != 0.0
    case Str(s) => |s| > 0
    case Obj(_) => true
  }

  /** The falsy values are exactly `undefined`, `null`, `false`, `0` and the
      empty string; every object is truthy. */
  lemma FalsyValues(v: Value)
    ensures !Truthy(v) <==> v == Undefined || v == Null || v == Bool(false) || v == Num(0.0) || v == Str("")
    ensures v.Obj? ==> Truthy(v)
  {
  }

  /** `a || b`: the left operand when it is truthy, otherwise the right one. */
  function Or(a: Value, b: Value): (r: Value)
    ensures Truthy(a) ==> r == a
    ensures !Truthy(a) ==> r == b
    ensures Truthy(r) <==> Truthy(a) || Truthy(b)
  {
    if Truthy(a) then a else b
  }

  predicate Nullish(v: Value)
  {
    v.Undefined? || v.Null?
  }

  /** `v.key` on a value that is not null or undefined (on those it throws).
      Only own keys of parsed objects are seen: the keys the relay reads are
      not names of members of `Object.prototype` or `String.prototype`. */
  function Get(v: Value, key: string): (r: Value)
    requires !Nullish(v)
    ensures r != Undefined ==> v.Obj? && key in v.fields && r == v.fields[key]
    ensures v.Obj? && key in v.fields ==> r == v.fields[key]
  {
    if v.Obj? && key in v.fields then v.fields[key] else Undefined
  }

  /** `v?.key`: undefined instead of a TypeError when `v` is null or undefined. */
  function OptGet(v: Value, key: string): (r: Value)
    ensures Nullish(v) ==> r == Undefined
    ensures !Nullish(v) ==> r == Get(v, key)
  {
    if Nullish(v) then Undefined else Get(v, key)
  }

  /** `String(v)` for every value that is not a number (JavaScript's
      number-to-string conversion is supplied by callers that need it). */
  function NonNumberText(v: Value): string
    requires !v.Num?
  {
    match v
    case Undefined => "undefined"
    case Null => "null"
    case Bool(b) => if b then "true" else "false"
    case Str(s) => s
    case Obj(_) => "[object Object]"
  }

  /** Template-literal interpolation `${v}`, with `show` standing for the
      conversion of a number to its text. */
  function ToText(v: Value, show: real -> string): (r: string)
    ensures v.Str? ==> r == v.s
    ensures v.Num? ==> r == show(v.n)
    ensures v == Null ==> r == "null"
    ensures v == Undefined ==> r == "undefined"
    ensures v.Obj? ==> r == "[object Object]"
  {
    if v.Num? then show(v.n) else NonNumberText(v)
  }
}
