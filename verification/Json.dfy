/** Decoded JSON values: numbers keep their text, objects are maps. */
module Json {
  import opened Options
  import opened Text

  datatype Json =
    | Null
    | Bool(b: bool)
    | Num(text: string)
    | Str(s: string)
    | Arr(items: seq<Json>)
    | Obj(members: map<string, Json>)

  type Members = map<string, Json>

  /** The array index a reference token names: canonical decimal digits below n. */
  function IndexOf(token: string, n: nat): (i: Option<nat>)
    ensures i.Some? ==> i.value < n && Itoa(i.value) == token
    ensures i.None? ==> forall j: nat | j < n :: Itoa(j) != token
  {
    if n == 0 then None
    else if Itoa(n - 1) == token then Some(n - 1)
    else IndexOf(token, n - 1)
  }

  /** The path names a value inside v. */
  predicate Holds(v: Json, path: seq<string>)
    decreases |path|
  {
    if path == [] then true
    else match v
      case Obj(m) => path[0] in m && Holds(m[path[0]], path[1..])
      case Arr(items) =>
        var i := IndexOf(path[0], |items|);
        i.Some? && Holds(items[i.value], path[1..])
      case _ => false
  }

  /** A path that names a value has only prefixes that do. */
  lemma {:induction false} HoldsPrefix(v: Json, path: seq<string>, n: nat)
    requires n <= |path| && Holds(v, path)
    ensures Holds(v, path[..n])
    decreases |path|
  {
    if n > 0 {
      assert path[..n][1..] == path[1..][..n - 1];
      match v
      case Obj(m) => HoldsPrefix(m[path[0]], path[1..], n - 1);
      case Arr(items) => HoldsPrefix(items[IndexOf(path[0], |items|).value], path[1..], n - 1);
    }
  }

  /** The string member of an object, "" when it is absent or not a string. */
  function StringAt(m: Members, key: string): string {
    if key in m && m[key].Str? then m[key].s else ""
  }

  /** The object member of an object, empty when it is absent or not an object. */
  function ObjectAt(m: Members, key: string): Members {
    if key in m && m[key].Obj? then m[key].members else map[]
  }
}
