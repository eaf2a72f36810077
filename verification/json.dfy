/** JavaScript values as the front end handles decoded push-channel frames and
    REST bodies. TypeScript's `as` casts are not checked at run time, so a
    field copied out of a payload is kept as whatever value arrived. */
module Json {
  import opened Wrappers

  datatype JsValue =
    | Undefined
    | Null
    | Bool(b: bool)
    | Num(n: real)
    | Str(s: string)
    | Arr(items: seq<JsValue>)
    | Obj(fields: map<string, JsValue>)

  /** Property read `v.key`: it throws on `null` and `undefined`, yields the
      field of an object (or `undefined` when absent), and yields `undefined`
      on the other values for the property names this model reads. */
  function Prop(v: JsValue, key: string): (r: Result<JsValue>)
    ensures r.Err? <==> v.Undefined? || v.Null?
    ensures v.Obj? ==> r == Ok(if key in v.fields then v.fields[key] else Undefined)
    ensures !v.Obj? && r.Ok? ==> r.value == Undefined
  {
    match v
    case Undefined => Err("TypeError: Cannot read properties of undefined")
    case Null => Err("TypeError: Cannot read properties of null")
    case _ => Ok(Member(v, key))
  }

  /** `v.key` for a value that is neither `null` nor `undefined`. */
  function Member(v: JsValue, key: string): JsValue {
    match v
    case Obj(fields) => if key in fields then fields[key] else Undefined
    case _ => Undefined
  }

  /** JavaScript truthiness (`NaN` is not modelled: numbers are reals). */
  predicate Truthy(v: JsValue) {
    match v
    case Undefined => false
    case Null => false
    case Bool(b) => b
    case Num(n) => n != 0.0
    case Str(s) => s != ""
    case _ => true
  }

  /** A JavaScript number from an integer. */
  function Int(i: int): JsValue {
    Num(i as real)
  }

  /** A nullable string field: `null` when absent. */
  function OptStr(o: Option<string>): JsValue {
    match o
    case Some(s) => Str(s)
    case None => Null
  }

  /** A nullable integer field: `null` when absent. */
  function OptInt(o: Option<int>): JsValue {
    match o
    case Some(i) => Int(i)
    case None => Null
  }
}
