/** University records as returned by the directory service, and the
    JavaScript notions (truthiness, strict equality) the component applies
    to their "state-province" field. */
module Records {

  /** A possibly absent value: `None` stands for JavaScript's `null` and
      `undefined`, which behave identically everywhere in this component
      (both are falsy and neither is `===` to any string). */
  datatype Option<T> = None | Some(value: T)

  /** One element of the JSON array the service returns: its `name`, its
      `"state-province"` (a string or null) and its `web_pages`. */
  datatype University = University(name: string, province: Option<string>, webPages: seq<string>)

  /** JavaScript truthiness of a `"state-province"` value: null, undefined
      and the empty string are falsy, every other string is truthy. */
  predicate Truthy(p: Option<string>)
  {
    p.Some? && p.value != ""
  }

  /** Some record of `data` has `x` as its province (compared with `===`). */
  ghost predicate HasProvince(data: seq<University>, x: string)
  {
    exists i :: 0 <= i < |data| && data[i].province == Some(x)
  }

  /** No value occurs twice in `s`. */
  ghost predicate NoDuplicates<T>(s: seq<T>)
  {
    forall i, j :: 0 <= i < j < |s| ==> s[i] != s[j]
  }
}
