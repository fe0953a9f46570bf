/** The front matter of an MDX file as the pages see it once the
    front-matter library has parsed it: a map from keys to values, and the
    text after the front matter. Parsing and stringifying themselves are
    library calls and are not modelled; a document is taken as given. */
module FrontMatter {
  /** The values the pages read or write. `Undefined` is a key that is
      absent, or present with no value. */
  datatype Value =
    | Str(s: string)
    | Num(n: int)
    | Bool(b: bool)
    | StrList(items: seq<string>)
    | Undefined

  datatype Document = Document(data: map<string, Value>, content: string)

  /** JavaScript truthiness: the empty string, zero, `false` and
      `undefined` are falsy; every array is truthy. */
  predicate Truthy(v: Value) {
    match v
    case Str(s) => s != ""
    case Num(n) => n != 0
    case Bool(b) => b
    case StrList(_) => true
    case Undefined => false
  }

  /** `data.key`: `undefined` when the key is absent. */
  function Get(data: map<string, Value>, key: string): (v: Value)
    ensures key !in data ==> v == Undefined
    ensures key in data ==> v == data[key]
  {
    if key in data then data[key] else Undefined
  }

  /** `v || d`. */
  function Or(v: Value, d: Value): (r: Value)
    ensures Truthy(v) ==> r == v
    ensures !Truthy(v) ==> r == d
  {
    if Truthy(v) then v else d
  }
}
