/** JSON request bodies, as the validators receive them from the body parser:
    numbers are exact reals, an object maps each key to its value. */
module JsonValues {
  import opened Wrappers

  datatype Json =
    | JNull
    | JBool(b: bool)
    | JNum(n: real)
    | JStr(s: string)
    | JArr(items: seq<Json>)
    | JObj(fields: map<string, Json>)

  /** `j[key]` when `j` is an object that has `key`. */
  function Field(j: Json, key: string): (r: Option<Json>)
    ensures r.Some? <==> j.JObj? && key in j.fields
    ensures r.Some? ==> r.value == j.fields[key]
  {
    if j.JObj? && key in j.fields then Some(j.fields[key]) else None
  }

  /** `Number.isInteger(n)`. */
  predicate IsInteger(n: real)
  {
    n.Floor as real == n
  }

  /** A member accepted by `z.number().int()`, as an integer. */
  function AsInt(j: Option<Json>): (r: Option<int>)
    ensures r.Some? <==> j.Some? && j.value.JNum? && IsInteger(j.value.n)
    ensures r.Some? ==> j.value.n == r.value as real
  {
    if j.Some? && j.value.JNum? && IsInteger(j.value.n) then Some(j.value.n.Floor) else None
  }

  /** A member accepted by `z.string()`. */
  function AsString(j: Option<Json>): (r: Option<string>)
    ensures r.Some? <==> j.Some? && j.value.JStr?
    ensures r.Some? ==> j.value == JStr(r.value)
  {
    if j.Some? && j.value.JStr? then Some(j.value.s) else None
  }

  /** A member accepted by `z.boolean()`. */
  function AsBool(j: Option<Json>): (r: Option<bool>)
    ensures r.Some? <==> j.Some? && j.value.JBool?
    ensures r.Some? ==> j.value == JBool(r.value)
  {
    if j.Some? && j.value.JBool? then Some(j.value.b) else None
  }

  /** `z.array(schema)`: every element must parse; the results keep their order. */
  function ParseEach<T>(items: seq<Json>, parse: Json -> Option<T>): (r: Option<seq<T>>)
    ensures r.Some? <==> forall k :: 0 <= k < |items| ==> parse(items[k]).Some?
    ensures r.Some? ==> |r.value| == |items|
    ensures r.Some? ==> forall k :: 0 <= k < |items| ==> parse(items[k]) == Some(r.value[k])
  {
    if items == [] then Some([])
    else
      var head := parse(items[0]);
      var tail := ParseEach(items[1..], parse);
      if head.Some? && tail.Some? then Some([head.value] + tail.value) else None
  }
}
