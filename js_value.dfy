/**
 * JavaScript values as the record code of the client sees them: the
 * primitives, arrays and plain objects, and the few operations on them
 * the modelled code uses (property access, truthiness, `||`, object
 * spread and the JSON round trip of a deep copy). Objects are values
 * here: where the sharing of an object matters, the modules model it
 * with classes instead.
 */
module JsValue {
  import opened Base

  /** A JavaScript value; numbers are finite (`NaN` and the infinities are not modelled). */
  datatype Js =
    | Undefined
    | Null
    | Bool(b: bool)
    | Num(n: real)
    | Str(s: string)
    | Arr(items: seq<Js>)
    | Obj(fields: map<string, Js>)

  /** The exceptions the modelled code can raise on a value of the wrong kind. */
  datatype JsError = TypeError

  /** `undefined` or `null`: reading a property of either raises. */
  predicate IsNullish(v: Js) {
    v == Undefined || v == Null
  }

  /** JavaScript truthiness. */
  predicate Truthy(v: Js) {
    match v
    case Undefined => false
    case Null => false
    case Bool(b) => b
    case Num(n) => n != 0.0
    case Str(s) => s != ""
    case _ => true
  }

  /** `a || b`. */
  function Or(a: Js, b: Js): (r: Js)
    ensures Truthy(a) ==> r == a
    ensures !Truthy(a) ==> r == b
  {
    if Truthy(a) then a else b
  }

  /**
   * `v.name` for a property name that is neither an array index nor
   * `length`: an object's own field or `undefined`; any other value has
   * no such property; `undefined` and `null` raise.
   */
  function Prop(v: Js, name: string): (r: Result<Js, JsError>)
    ensures r.Err? <==> IsNullish(v)
    ensures v.Obj? ==> r == Ok(if name in v.fields then v.fields[name] else Undefined)
    ensures !v.Obj? && !IsNullish(v) ==> r == Ok(Undefined)
  {
    match v
    case Undefined => Err(TypeError)
    case Null => Err(TypeError)
    case Obj(fields) => Ok(if name in fields then fields[name] else Undefined)
    case _ => Ok(Undefined)
  }

  /** `{ ...v }`: the own fields of an object; no fields for any other value (arrays and strings are not modelled). */
  function Spread(v: Js): (fields: map<string, Js>)
    ensures v.Obj? ==> fields == v.fields
    ensures !v.Obj? ==> fields == map[]
  {
    if v.Obj? then v.fields else map[]
  }

  /** No `undefined` anywhere inside: a value JSON can carry. */
  predicate IsJsonData(v: Js) {
    match v
    case Undefined => false
    case Arr(items) => forall k :: 0 <= k < |items| ==> IsJsonData(items[k])
    case Obj(fields) => forall name :: name in fields ==> IsJsonData(fields[name])
    case _ => true
  }

  /**
   * A value as it comes back from `JSON.parse(JSON.stringify(...))` when
   * it sits inside an array: `undefined` becomes `null`, object fields
   * holding `undefined` are dropped.
   */
  function JsonElement(v: Js): (r: Js)
    ensures IsJsonData(r)
  {
    match v
    case Undefined => Null
    case Arr(items) => Arr(seq(|items|, k requires 0 <= k < |items| => JsonElement(items[k])))
    case Obj(fields) => Obj(map name | name in fields && fields[name] != Undefined :: JsonElement(fields[name]))
    case _ => v
  }

  /**
   * `copyCustomData`: `JSON.parse(JSON.stringify(v))`. For `undefined`,
   * `JSON.stringify` gives `undefined` and the parse raises a SyntaxError;
   * the `Err` stands for that raised error. Callers that pass `x || {}`
   * never reach this branch.
   */
  function JsonCopy(v: Js): (r: Result<Js, JsError>)
    ensures r.Err? <==> v == Undefined
  {
    if v == Undefined then Err(TypeError) else Ok(JsonElement(v))
  }

  /** JSON data survives the round trip unchanged: the copy is equal to, and as a value independent of, the original. */
  lemma {:induction false} JsonElementOfData(v: Js)
    requires IsJsonData(v)
    ensures JsonElement(v) == v
  {
    match v
    case Arr(items) =>
      forall k | 0 <= k < |items|
        ensures JsonElement(items[k]) == items[k]
      {
        JsonElementOfData(items[k]);
      }
    case Obj(fields) =>
      forall name | name in fields
        ensures JsonElement(fields[name]) == fields[name]
      {
        JsonElementOfData(fields[name]);
      }
    case _ =>
  }

  /** Copying a copy changes nothing more. */
  lemma JsonCopyIdempotent(v: Js)
    requires v != Undefined
    ensures JsonCopy(JsonCopy(v).value) == JsonCopy(v)
  {
    JsonElementOfData(JsonElement(v));
  }
}
