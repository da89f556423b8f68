/** A JSON value as `serde_json::Value` holds it, with the accessors the parser uses. */
module Json {
  import opened Wrappers
  import opened Decimal

  /** A JSON number. serde_json keeps a non-negative integer literal that fits u64, or a
      negative one that fits i64, as an integer, and every other number as an f64; the
      f64 is carried as its IEEE-754 bit pattern and never computed with. */
  datatype Number = Int(i: int) | Float(bits: bv64)

  /** Object members are a map: serde_json's default `Map` keeps one value per key. */
  datatype Json =
    | Null
    | Bool(b: bool)
    | Num(n: Number)
    | Str(s: string)
    | Arr(items: seq<Json>)
    | Obj(fields: map<string, Json>)

  /** `value.get(key)`: the member of an object, None for a missing key or a non-object. */
  function Get(v: Json, key: string): (r: Option<Json>)
    ensures r.Some? <==> v.Obj? && key in v.fields
    ensures r.Some? ==> r.value == v.fields[key]
  {
    match v
    case Obj(fields) => if key in fields then Some(fields[key]) else None
    case _ => None
  }

  /** `value.as_str()` */
  function AsStr(v: Json): Option<string> {
    if v.Str? then Some(v.s) else None
  }

  /** `value.as_f64()`: every number, integer or not, reads as an f64; the model hands
      back the number itself rather than its rounding to f64. */
  function AsF64(v: Json): Option<Number> {
    if v.Num? then Some(v.n) else None
  }

  /** `value.as_u64()` */
  function AsU64(v: Json): (r: Option<nat>)
    ensures r.Some? <==> v.Num? && v.n.Int? && 0 <= v.n.i < U64_LIMIT
    ensures r.Some? ==> r.value == v.n.i
  {
    if v.Num? && v.n.Int? && 0 <= v.n.i < U64_LIMIT then Some(v.n.i) else None
  }

  /** `value.as_i64()` */
  function AsI64(v: Json): (r: Option<int>)
    ensures r.Some? <==> v.Num? && v.n.Int? && I64_MIN <= v.n.i < I64_LIMIT
    ensures r.Some? ==> r.value == v.n.i
  {
    if v.Num? && v.n.Int? && I64_MIN <= v.n.i < I64_LIMIT then Some(v.n.i) else None
  }

  /** `value.get(key).and_then(|v| v.as_str())` */
  function StrAt(v: Json, key: string): (r: Option<string>)
    ensures r.Some? <==> Get(v, key).Some? && Get(v, key).value.Str?
    ensures r.Some? ==> Get(v, key).value == Str(r.value)
  {
    match Get(v, key)
    case Some(m) => AsStr(m)
    case None => None
  }

  /** `value.get(key).and_then(|v| v.as_f64())` */
  function NumAt(v: Json, key: string): (r: Option<Number>)
    ensures r.Some? <==> Get(v, key).Some? && Get(v, key).value.Num?
    ensures r.Some? ==> Get(v, key).value == Num(r.value)
  {
    match Get(v, key)
    case Some(m) => AsF64(m)
    case None => None
  }

  /** A chain `v.get(keys[0]).or_else(|| v.get(keys[1])).or_else(...)`: the value of the
      first key in `keys` that the object has, whatever that value's type. */
  function FirstPresent(v: Json, keys: seq<string>): (r: Option<Json>)
    ensures r.None? <==> forall i :: 0 <= i < |keys| ==> Get(v, keys[i]).None?
    ensures r.Some? ==> exists i :: 0 <= i < |keys| && Get(v, keys[i]) == r &&
                                    forall j :: 0 <= j < i ==> Get(v, keys[j]).None?
  {
    if keys == [] then None
    else match Get(v, keys[0])
      case Some(m) => Some(m)
      case None =>
        var r := FirstPresent(v, keys[1..]);
        if r.Some? then
          var i :| 0 <= i < |keys[1..]| && Get(v, keys[1..][i]) == r &&
                   forall j :: 0 <= j < i ==> Get(v, keys[1..][j]).None?;
          assert Get(v, keys[i + 1]) == r;
          r
        else r
  }
}
