/**
 * Untyped JavaScript values, for the `any`-typed payloads that the socket
 * handlers and the chat component read, forward and store.  Only the
 * operations the core performs on them are given: truthiness (`||`),
 * property reads (`.key`, `?.key`), strict equality (`===`), object spread
 * with one overriding key, and string conversion in a template literal.
 */
module JsValues {
  import JsNumbers

  /** A JavaScript value as it arrives over the wire; numbers are integers here. */
  datatype Json =
    | Undefined
    | Null
    | Bool(b: bool)
    | Num(n: int)
    | Str(s: string)
    | Arr(items: seq<Json>)
    | Obj(fields: map<string, Json>)

  /** `null` or `undefined`: reading a property of these throws a `TypeError`. */
  predicate Nullish(v: Json)
  {
    v.Undefined? || v.Null?
  }

  /** The truthiness `||` tests: `undefined`, `null`, `false`, `0` and `''` are falsy. */
  predicate Truthy(v: Json)
  {
    match v
    case Undefined => false
    case Null => false
    case Bool(b) => b
    case Num(n) => n != 0
    case Str(s) => s != ""
    case Arr(_) => true
    case Obj(_) => true
  }

  /**
   * `v.key` on a value that is not nullish.  Own keys of objects are found;
   * primitives and arrays have none of the named keys this core reads.
   */
  function Get(v: Json, key: string): (r: Json)
    ensures !v.Obj? ==> r == Undefined
    ensures v.Obj? ==> r == (if key in v.fields then v.fields[key] else Undefined)
  {
    if v.Obj? && key in v.fields then v.fields[key] else Undefined
  }

  /** `v?.key`: `undefined` when `v` is nullish, `v.key` otherwise. */
  function OptionalGet(v: Json, key: string): (r: Json)
    ensures Nullish(v) ==> r == Undefined
    ensures !Nullish(v) ==> r == Get(v, key)
    ensures r != Undefined ==> v.Obj? && key in v.fields && r == v.fields[key]
  {
    if Nullish(v) then Undefined else Get(v, key)
  }

  /**
   * `a === b`.  Primitives compare by value.  Objects and arrays compare by
   * identity, and two values that reached the program through separate
   * deserialisations are never the same object, so they never compare equal.
   */
  predicate StrictEquals(a: Json, b: Json)
  {
    !a.Arr? && !a.Obj? && a == b
  }

  /**
   * `===` compares strings by their text and numbers by value, is never true
   * of an object or array (not even with itself), and holds of a value and
   * `undefined` only when the value is `undefined`.
   */
  lemma StrictEqualsFacts(v: Json, a: string, b: string, m: int, n: int)
    ensures StrictEquals(Str(a), Str(b)) <==> a == b
    ensures StrictEquals(Num(m), Num(n)) <==> m == n
    ensures v.Obj? || v.Arr? ==> !StrictEquals(v, v)
    ensures StrictEquals(v, Undefined) <==> v.Undefined?
    ensures !StrictEquals(Null, Undefined)
  {
  }

  /** The own keys of `v` that object spread `{...v}` copies (objects only; see README). */
  function OwnFields(v: Json): map<string, Json>
  {
    if v.Obj? then v.fields else map[]
  }

  /** `{...v, key: x}`: a new object with the keys of `v`, `key` set to `x`. */
  function SpreadWith(v: Json, key: string, x: Json): (r: Json)
    ensures r.Obj? && Get(r, key) == x
    ensures forall k :: k != key ==> Get(r, k) == Get(v, k)
  {
    Obj(OwnFields(v)[key := x])
  }

  /** Array elements joined by `,`, as `Array.prototype.toString` does. */
  function JoinComma(parts: seq<string>): string
  {
    if parts == [] then ""
    else if |parts| == 1 then parts[0]
    else JoinComma(parts[..|parts| - 1]) + "," + parts[|parts| - 1]
  }

  /** The string a template literal `${v}` produces. */
  function ToJsString(v: Json): (r: string)
    ensures v.Str? ==> r == v.s
    decreases v
  {
    match v
    case Undefined => "undefined"
    case Null => "null"
    case Bool(b) => if b then "true" else "false"
    case Num(n) => JsNumbers.IntToString(n)
    case Str(s) => s
    case Arr(items) =>
      JoinComma(seq(|items|, i requires 0 <= i < |items| =>
        if Nullish(items[i]) then "" else ToJsString(items[i])))
    case Obj(_) => "[object Object]"
  }
}
