/** The JavaScript runtime values that the query engine, the schema manager
    and the custom-field loader inspect, with the parts of JavaScript's
    semantics they rely on: `typeof`, truthiness, property access,
    `Object.entries` and `String(...)`. */
module Values {
  import opened Records

  /** A JavaScript value. Numbers are modelled as integers; `Obj` is a plain
      object (its own enumerable properties, in insertion order); `Fn` is any
      function. */
  datatype Value =
    | Undefined
    | Null
    | Bool(b: bool)
    | Num(n: int)
    | Str(s: string)
    | Arr(items: seq<Value>)
    | Obj(props: Record<Value>)
    | Fn

  /** `typeof v` */
  function TypeOf(v: Value): string {
    match v
    case Undefined => "undefined"
    case Null => "object"
    case Bool(_) => "boolean"
    case Num(_) => "number"
    case Str(_) => "string"
    case Arr(_) => "object"
    case Obj(_) => "object"
    case Fn => "function"
  }

  /** `typeof v === 'object' && v !== null`: true of arrays too. */
  predicate IsNonNullObject(v: Value)
    ensures IsNonNullObject(v) <==> v.Arr? || v.Obj?
  {
    TypeOf(v) == "object" && v != Null
  }

  /** Truthiness, as tested by `if (v)` and `v || fallback`. */
  predicate Truthy(v: Value) {
    match v
    case Undefined => false
    case Null => false
    case Bool(b) => b
    case Num(n) => n != 0
    case Str(s) => s != ""
    case _ => true
  }

  /** `d[k]` on a dictionary of values: `undefined` for a key it lacks. */
  function Lookup(d: Record<Value>, k: string): (r: Value)
    ensures k !in d.vals ==> r == Undefined
    ensures k in d.vals ==> r == d.vals[k]
  {
    if k in d.vals then d.vals[k] else Undefined
  }

  /** `v[k]` on a parsed JSON value: the own property `k` of an object, and
      `undefined` for everything else. */
  function Property(v: Value, k: string): Value {
    if v.Obj? then Lookup(v.props, k) else Undefined
  }

  /** `k in v` for a non-null object: an object's own keys, an array's
      indices and its `length`. */
  predicate HasProperty(v: Value, k: string)
    requires IsNonNullObject(v)
  {
    match v
    case Obj(props) => k in props.vals
    case Arr(items) => k == "length" || exists i | 0 <= i < |items| :: k == NatToString(i)
  }

  /** `Object.entries(v)` for a non-null object; an array yields its indices
      as keys. */
  function ObjectEntries(v: Value): (es: seq<(string, Value)>)
    requires IsNonNullObject(v)
    ensures v.Obj? ==> es == Entries(v.props)
  {
    match v
    case Obj(props) => Entries(props)
    case Arr(items) => seq(|items|, i requires 0 <= i < |items| => (NatToString(i), items[i]))
  }

  function DigitChar(d: nat): char
    requires d < 10
  {
    "0123456789"[d]
  }

  /** Decimal notation of a non-negative integer, as `String(n)` writes it. */
  function NatToString(n: nat): (s: string)
    ensures |s| > 0
    decreases n
  {
    if n < 10 then [DigitChar(n)] else NatToString(n / 10) + [DigitChar(n % 10)]
  }

  function IntToString(i: int): string {
    if i < 0 then "-" + NatToString(-i) else NatToString(i)
  }

  /** `parts.join(sep)` */
  function Join(parts: seq<string>, sep: string): string {
    if parts == [] then ""
    else if |parts| == 1 then parts[0]
    else parts[0] + sep + Join(parts[1..], sep)
  }

  /** `String(v)`, also what a template literal `${v}` inserts. An array
      joins its elements with `','`, writing `null` and `undefined` elements
      as empty text. */
  function Show(v: Value): string
    decreases v, 1
  {
    match v
    case Undefined => "undefined"
    case Null => "null"
    case Bool(b) => if b then "true" else "false"
    case Num(n) => IntToString(n)
    case Str(s) => s
    case Arr(items) => JoinItems(items, ",")
    case Obj(_) => "[object Object]"
    case Fn => "function"
  }

  /** `items.join(sep)`: each element written by `String`, except that
      `null` and `undefined` elements are written as empty text. */
  function JoinItems(items: seq<Value>, sep: string): string
    decreases items, 0
  {
    Join(seq(|items|, i requires 0 <= i < |items| =>
               if items[i].Undefined? || items[i].Null? then "" else Show(items[i])), sep)
  }
}
