/** Small helpers shared by the whole model: an optional value, string predicates,
    and JavaScript truthiness of the optional strings that front matter supplies. */
module Common {

  datatype Option<+T> = None | Some(value: T)

  predicate StartsWith(s: string, prefix: string)
  {
    |prefix| <= |s| && s[..|prefix|] == prefix
  }

  predicate EndsWith(s: string, suffix: string)
  {
    |suffix| <= |s| && s[|s| - |suffix|..] == suffix
  }

  /** `o` is truthy in JavaScript: present and not the empty string. */
  predicate Truthy(o: Option<string>)
  {
    o.Some? && o.value != ""
  }

  /** JavaScript `o || fallback` for an optional string. */
  function OrElse(o: Option<string>, fallback: string): (r: string)
    ensures r == fallback || (o.Some? && r == o.value)
    ensures Truthy(o) ==> r == o.value
    ensures r != "" <==> Truthy(o) || fallback != ""
  {
    if Truthy(o) then o.value else fallback
  }

  predicate NoDuplicates<T(==)>(s: seq<T>)
  {
    forall i, j | 0 <= i < j < |s| :: s[i] != s[j]
  }
}
