/** Declarations shared by the other modules. */
module Common {

  datatype Option<T> = None | Some(value: T)

  /** Block metadata: string keys with values of any kind, which the models never look into. */
  type Meta = map<string, string>

  ghost predicate Distinct<T>(s: seq<T>) {
    forall i, j :: 0 <= i < j < |s| ==> s[i] != s[j]
  }

  function Min(a: int, b: int): (r: int) {
    if a < b then a else b
  }
}
