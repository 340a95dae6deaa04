/** JavaScript values, as far as the library inspects them, and the few
    language rules (truthiness, numeric conversion, out-of-range reads) and
    type tests (validate.io-object, validate.io-string-primitive,
    validate.io-array-like, validate.io-number-primitive) it relies on. */
module JsValues {

  datatype Option<+T> = None | Some(value: T)

  datatype Result<+T, +E> = Ok(value: T) | Err(error: E)

  /** The JavaScript error constructors the library throws */
  datatype ErrorKind = Error | TypeError | RangeError

  /** A JavaScript value. Numbers are finite reals or NaN; the infinities
      are not modelled. An object is its own enumerable properties. */
  datatype JsValue =
    | JNum(n: real)
    | JNaN
    | JStr(s: string)
    | JBool(b: bool)
    | JNull
    | JUndefined
    | JArray(items: seq<JsValue>)
    | JObject(props: map<string, JsValue>)
    | JFunction

  /** What a call of a statistic function gives: a number, an array of
      numbers, `undefined` (what indexing a number or reading past the end of
      an array yields), or an exception of the given kind */
  datatype Stat = Num(value: real) | Vec(items: seq<real>) | Undefined | Thrown(kind: ErrorKind)

  /** The number a statistic's value stands for in `tHat - value`; None
      stands for NaN. An array converts through its comma-joined text: the
      empty array is 0, a one-element array is its element, and a longer one
      is NaN. A thrown call has no value. */
  function StatToNumber(st: Stat): Option<real> {
    match st
    case Num(v) => Some(v)
    case Vec(items) =>
      if |items| == 0 then Some(0.0) else if |items| == 1 then Some(items[0]) else None
    case Undefined => None
    case Thrown(_) => None
  }

  /** A user-supplied statistic, applied to an array of observations */
  type StatFun = seq<JsValue> -> Stat

  /** The JavaScript truthiness of a value, which decides `a || b` */
  predicate Truthy(v: JsValue) {
    match v
    case JNum(n) => n != 0.0
    case JNaN => false
    case JStr(s) => s != ""
    case JBool(b) => b
    case JNull => false
    case JUndefined => false
    case JArray(_) => true
    case JObject(_) => true
    case JFunction => true
  }

  /** validate.io-object: a non-null object that is not an array */
  predicate IsObject(v: JsValue) {
    v.JObject?
  }

  /** validate.io-string-primitive */
  predicate IsString(v: JsValue) {
    v.JStr?
  }

  /** validate.io-array-like: anything with a valid integer `length`,
      which among the modelled values are arrays and strings */
  predicate IsArrayLike(v: JsValue) {
    v.JArray? || v.JStr?
  }

  /** validate.io-number-primitive: a number that is not NaN */
  predicate IsNumberPrimitive(v: JsValue) {
    v.JNum?
  }

  /** The numeric value JavaScript gives `v` in arithmetic and in a
      comparison with a number; None stands for NaN. Strings are converted
      by `stringToNumber`, the language's own parser, which is a parameter.
      An array converts through its comma-joined text: the empty array is 0,
      a one-element array converts as its element does (null and undefined
      join as the empty text, i.e. 0; a boolean's text is not numeric), and
      a longer one contains a comma and is NaN. */
  function ToNumber(v: JsValue, stringToNumber: string -> Option<real>): Option<real>
  {
    match v
    case JNum(n) => Some(n)
    case JNaN => None
    case JStr(s) => stringToNumber(s)
    case JBool(b) => Some(if b then 1.0 else 0.0)
    case JNull => Some(0.0)
    case JUndefined => None
    case JArray(items) =>
      if |items| == 0 then Some(0.0)
      else if |items| == 1 then
        match items[0]
        case JNull => Some(0.0)
        case JUndefined => Some(0.0)
        case JBool(_) => None
        case _ => ToNumber(items[0], stringToNumber)
      else None
    case JObject(_) => None
    case JFunction => None
  }

  /** `x[j]` on an array: `undefined` past the end */
  function Get(x: seq<JsValue>, j: nat): JsValue
  {
    if j < |x| then x[j] else JUndefined
  }

  /** `m.key` on an object: `undefined` when the key is absent */
  function Lookup(m: map<string, JsValue>, key: string): JsValue
  {
    if key in m then m[key] else JUndefined
  }
}
