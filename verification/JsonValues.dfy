/** JSON values as Python's json module reads them: a later duplicate field wins, so an object is a map. */
module JsonValues {
  import opened Wrappers

  datatype Json = Null | Bool(b: bool) | Number(n: real) | Str(s: string) | Arr(items: seq<Json>) | Obj(fields: map<string, Json>)

  /** `dict.get` */
  function Field(fields: map<string, Json>, name: string): Option<Json> {
    if name in fields then Some(fields[name]) else None
  }

  predicate Truthy(v: Json) {
    match v
    case Null => false
    case Bool(b) => b
    case Number(n) => n != 0.0
    case Str(s) => s != ""
    case Arr(items) => items != []
    case Obj(fields) => fields != map[]
  }

  const CREATOR_TAG := "mlflow.user"

  /** A tag object whose key is `key`. */
  predicate HasKey(tag: Json, key: string) { tag.Obj? && Field(tag.fields, "key") == Some(Str(key)) }
}
