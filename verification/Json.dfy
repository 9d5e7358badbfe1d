/** JSON values as a program finds them: objects by key, numbers possibly not finite. */
module Json {
  datatype Number = Finite(value: real) | NotFinite

  datatype Json =
    | Null
    | Bool(truth: bool)
    | Num(number: Number)
    | Str(text: string)
    | Arr(items: seq<Json>)
    | Obj(fields: map<string, Json>)

  /** The property of a value under a key; null stands for absent. */
  function Get(j: Json, key: string): (r: Json)
    ensures r != Null ==> r < j
  {
    if j.Obj? && key in j.fields then j.fields[key] else Null
  }
}
