/** Optional values, and the shapes a field of a parsed JSON request body can take. */
module Wrappers {

  /** A value that may be absent: a nullable column, an optional property, `undefined`. */
  datatype Option<+T> = None | Some(value: T) {

    /** The value, or `default` when absent. */
    function GetOr(default: T): T {
      match this
      case Some(v) => v
      case None => default
    }
  }

  /** One property of a body produced by `request.json()`: the key may be missing,
      may hold JSON `null`, or may hold a value. */
  datatype Field<+T> = Missing | Null | Value(v: T)

  /** JavaScript truthiness of a string property: `!x` holds for a missing key, `null` and `""`. */
  predicate TruthyText(f: Field<string>) {
    f.Value? && f.v != ""
  }

  /** JavaScript truthiness of a numeric property: `!x` holds for a missing key, `null` and `0`. */
  predicate TruthyNumber(f: Field<int>) {
    f.Value? && f.v != 0
  }

  /** `x || null` on a string property: the text when it is truthy, otherwise `null`. */
  function TextOrNull(f: Field<string>): (r: Option<string>)
    ensures r.Some? <==> TruthyText(f)
    ensures r.Some? ==> f == Value(r.value)
  {
    if TruthyText(f) then Some(f.v) else None
  }

  /** `x || undefined` on an optional form string: the text when it is non-empty, otherwise absent. */
  function NonEmptyOrAbsent(s: Option<string>): (r: Option<string>)
    ensures r.Some? <==> s.Some? && s.value != ""
    ensures r.Some? ==> r == s
  {
    if s.Some? && s.value != "" then s else None
  }

  /** JavaScript truthiness of a nullable text: present and non-empty. */
  predicate PresentText(o: Option<string>) {
    o.Some? && o.value != ""
  }
}
