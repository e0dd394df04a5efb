/**
 * The JavaScript values the server handles: what `JSON.parse` yields for the
 * files under the database directory, and what arrives in a socket or HTTP
 * payload. A property that is missing (JavaScript's `undefined`) is `None`.
 */
module Json {

  datatype Option<+T> = None | Some(value: T)

  /** A JSON value. Numbers are reals: JSON has no NaN or infinities. */
  datatype Value =
    | Null
    | Bool(b: bool)
    | Num(n: real)
    | Str(s: string)
    | Arr(items: seq<Value>)
    | Obj(fields: map<string, Value>)
  {
    /** `typeof v === 'object'` holds for null, arrays and objects. */
    predicate IsObjectLike() {
      Null? || Arr? || Obj?
    }
  }

  /** `v.key`: only an object has own properties that JSON can carry. */
  function Field(v: Value, key: string): (r: Option<Value>)
    ensures r.Some? <==> v.Obj? && key in v.fields
    ensures r.Some? ==> r.value == v.fields[key]
  {
    if v.Obj? && key in v.fields then Some(v.fields[key]) else None
  }

  /** JavaScript truthiness of a possibly undefined value. */
  predicate Truthy(v: Option<Value>) {
    match v
    case None => false
    case Some(Null) => false
    case Some(Bool(b)) => b
    case Some(Num(n)) => n != 0.0
    case Some(Str(s)) => s != ""
    case Some(Arr(_)) => true
    case Some(Obj(_)) => true
  }

  /** `a || b` */
  function Or(a: Option<Value>, b: Option<Value>): (r: Option<Value>)
    ensures Truthy(a) ==> r == a
    ensures !Truthy(a) ==> r == b
  {
    if Truthy(a) then a else b
  }

  /**
   * `a === b` where `a` and `b` come from different sources (a parsed file and
   * a request payload): two arrays or objects are then distinct references and
   * never strictly equal, while primitives compare by value.
   */
  predicate StrictEquals(a: Option<Value>, b: Option<Value>) {
    match a
    case None => b.None?
    case Some(x) => b.Some? && !x.Arr? && !x.Obj? && x == b.value
  }

  /**
   * `{ ...m, [key]: v }` as it survives serialisation: a property assigned
   * `undefined` is dropped by `JSON.stringify` and by the socket transport.
   */
  function Assign(m: map<string, Value>, key: string, v: Option<Value>): map<string, Value> {
    if v.Some? then m[key := v.value] else m - {key}
  }

  /** `{ ...v }`: spreading an object copies its properties; null and undefined spread nothing. */
  function Spread(v: Option<Value>): map<string, Value> {
    if v.Some? && v.value.Obj? then v.value.fields else map[]
  }
}
