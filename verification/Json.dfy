/**
 JSON and YAML documents as the Python scripts see them after loading. An object's keys
 carry no order; where order matters the component has its own type.
 */
module JsonDocs {
  import opened Wrappers

  datatype Json =
    | Null
    | Bool(b: bool)
    | Num(n: int)
    | Str(s: string)
    | Arr(items: seq<Json>)
    | Obj(fields: map<string, Json>)

  /** Python's truth value of a document. */
  predicate Truthy(j: Json) {
    match j
    case Null => false
    case Bool(b) => b
    case Num(n) => n != 0
    case Str(s) => s != ""
    case Arr(items) => items != []
    case Obj(fields) => fields != map[]
  }

  /** True and False as the integers Python compares them as, everywhere in the document. */
  function Canonical(j: Json): Json {
    match j
    case Bool(b) => Num(if b then 1 else 0)
    case Arr(items) => Arr(seq(|items|, i requires 0 <= i < |items| => Canonical(items[i])))
    case Obj(fields) => Obj(map k | k in fields :: Canonical(fields[k]))
    case _ => j
  }

  /** Python's == on documents. */
  predicate PyEq(a: Json, b: Json) {
    Canonical(a) == Canonical(b)
  }

  /** doc.get(key), None for a missing key; `doc` is an object. */
  function Get(doc: Json, key: string): Option<Json> {
    if doc.Obj? && key in doc.fields then Some(doc.fields[key]) else None
  }

  lemma CanonicalUpdate(m: map<string, Json>, key: string, value: Json)
    ensures Canonical(Obj(m[key := value])) == Obj(Canonical(Obj(m)).fields[key := Canonical(value)])
  {
    var updated := m[key := value];
    assert Canonical(Obj(updated)).fields == (map k | k in updated :: Canonical(updated[k]));
  }
}
