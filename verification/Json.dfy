/** JSON values and the two wrapper types the other modules share. */
module Json {

  datatype Option<+T> = None | Some(value: T) {
    function GetOr(default: T): T { if None? then default else value }
  }

  /** A parsed JSON document; object members have no order. */
  datatype Value =
    | Null
    | Bool(b: bool)
    | Number(n: real)
    | String(s: string)
    | Array(elems: seq<Value>)
    | Object(fields: map<string, Value>)

  /** The elements of member `k` when it is an array, and none otherwise. */
  function List(m: map<string, Value>, k: string): seq<Value> {
    if k in m && m[k].Array? then m[k].elems else []
  }

  /** The members of member `k` when it is an object, and none otherwise. */
  function Dict(m: map<string, Value>, k: string): map<string, Value> {
    if k in m && m[k].Object? then m[k].fields else map[]
  }

  /** The members of an instance, none unless it is an object. */
  function Fields(i: Value): map<string, Value> {
    if i.Object? then i.fields else map[]
  }

  /** The elements of an instance, none unless it is an array. */
  function Elements(i: Value): seq<Value> {
    if i.Array? then i.elems else []
  }

  /** An absent member and a null member are both read as none. */
  function Member(m: map<string, Value>, k: string): Option<Value> {
    if k in m && m[k] != Null then Some(m[k]) else None
  }

  /** Absent optional members are not written. */
  function Present(k: string, v: Option<Value>): map<string, Value> {
    if v.Some? then map[k := v.value] else map[]
  }
}
