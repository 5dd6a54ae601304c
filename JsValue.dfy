/**
 * JavaScript values as `JSON.parse` produces them, plus `undefined` (what a
 * property lookup yields for a missing key), and the coercions the data
 * service applies to them: truthiness, `||`, `??`, `String(...)`,
 * `Number(...)`, `.length`, and object spread.
 */
module JsValue {
  import opened Text

  datatype Value =
    | Undefined
    | Null
    | Bool(b: bool)
    | Num(n: int)
    | Str(s: string)
    | Arr(items: seq<Value>)
    | Obj(fields: map<string, Value>)

  /** JavaScript truthiness: `undefined`, `null`, `false`, `0` and `""` are falsy. */
  predicate Truthy(v: Value) {
    match v
    case Undefined => false
    case Null => false
    case Bool(b) => b
    case Num(n) => n != 0
    case Str(s) => s != ""
    case Arr(_) => true
    case Obj(_) => true
  }

  /** `v && typeof v === 'object'`: arrays and plain objects. */
  predicate IsObjectLike(v: Value) {
    v.Arr? || v.Obj?
  }

  /** `v[key]` for a key other than `length`: only a plain object has such own properties. */
  function Get(v: Value, key: string): (r: Value)
    ensures r != Undefined ==> v.Obj? && key in v.fields && r == v.fields[key]
    ensures v.Obj? && key in v.fields ==> r == v.fields[key]
  {
    if v.Obj? && key in v.fields then v.fields[key] else Undefined
  }

  /** `a || b`. */
  function Or(a: Value, b: Value): (r: Value)
    ensures Truthy(a) ==> r == a
    ensures !Truthy(a) ==> r == b
  {
    if Truthy(a) then a else b
  }

  /** `a ?? b`: only `null` and `undefined` give way to the default. */
  function Nullish(a: Value, b: Value): (r: Value)
    ensures (a.Undefined? || a.Null?) ==> r == b
    ensures !(a.Undefined? || a.Null?) ==> r == a
  {
    if a.Undefined? || a.Null? then b else a
  }

  /** `String(v)`; an array is joined with commas, its `null`/`undefined` elements as empty text. */
  function ToStr(v: Value): string {
    match v
    case Undefined => "undefined"
    case Null => "null"
    case Bool(b) => if b then "true" else "false"
    case Num(n) => IntToString(n)
    case Str(s) => s
    case Arr(items) => JoinElements(items)
    case Obj(_) => "[object Object]"
  }

  function JoinElements(items: seq<Value>): string
    decreases items
  {
    if items == [] then ""
    else
      var first := if items[0].Undefined? || items[0].Null? then "" else ToStr(items[0]);
      if |items| == 1 then first else first + "," + JoinElements(items[1..])
  }

  /**
   * `Number(v)` for the values the mural stores: numbers, booleans, `null`,
   * and strings of decimal digits. Other strings, arrays and objects are
   * read as 0 here (JavaScript parses them or yields NaN).
   */
  function NumberOf(v: Value): (r: int)
    ensures v.Num? ==> r == v.n
    ensures v.Bool? ==> r == (if v.b then 1 else 0)
    ensures v.Null? ==> r == 0
  {
    match v
    case Num(n) => n
    case Bool(b) => if b then 1 else 0
    case Str(s) => if s != [] && forall i :: 0 <= i < |s| ==> IsDigit(s[i]) then DigitsValue(s) else 0
    case _ => 0
  }

  /** `v.length === 4`: a string or array of four elements, or an object whose `length` field is 4. */
  predicate HasLengthFour(v: Value) {
    match v
    case Str(s) => |s| == 4
    case Arr(items) => |items| == 4
    case Obj(fields) => "length" in fields && fields["length"] == Num(4)
    case _ => false
  }

  /** The own enumerable properties that `{...v}` copies. */
  function SpreadEntries(v: Value): (m: map<string, Value>)
    ensures v.Obj? ==> m == v.fields
    ensures !v.Obj? && !v.Arr? && !v.Str? ==> m == map[]
    ensures v.Arr? ==> forall i :: 0 <= i < |v.items| ==> NatToString(i) in m && m[NatToString(i)] == v.items[i]
  {
    match v
    case Obj(fields) => fields
    case Arr(items) => IndexedEntries(items)
    case Str(s) => IndexedEntries(seq(|s|, i requires 0 <= i < |s| => Str([s[i]])))
    case _ => map[]
  }

  /** The index-keyed properties `"0"`, `"1"`, ... of an array-like value. */
  function IndexedEntries(items: seq<Value>): (m: map<string, Value>)
    ensures forall i :: 0 <= i < |items| ==> NatToString(i) in m && m[NatToString(i)] == items[i]
    ensures forall k :: k in m ==> exists i :: 0 <= i < |items| && k == NatToString(i)
  {
    if items == [] then map[]
    else
      var n := |items| - 1;
      var m := IndexedEntries(items[..n]);
      forall i | 0 <= i < n ensures NatToString(i) != NatToString(n) {
        NatToStringInjective(i, n);
      }
      m[NatToString(n) := items[n]]
  }

  /** A value `JSON.parse` can return: no `undefined` anywhere inside it. */
  predicate IsJson(v: Value) {
    match v
    case Undefined => false
    case Arr(items) => forall i :: 0 <= i < |items| ==> IsJson(items[i])
    case Obj(fields) => forall k :: k in fields ==> IsJson(fields[k])
    case _ => true
  }
}
