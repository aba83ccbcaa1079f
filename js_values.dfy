/**
 * The three shapes an optional string field of a request body takes in the
 * backend: absent (`undefined`), JSON `null`, or a string.
 */
module JsValues {
  import opened Wrappers

  datatype JsString = Undefined | Null | Str(value: string)

  /** JavaScript truthiness of such a field: a non-empty string. */
  predicate Truthy(v: JsString) {
    v.Str? && v.value != ""
  }

  /** `v || null`: the falsy values (absent, null, empty) all become null. */
  function OrNull(v: JsString): (r: Option<string>)
    ensures r.Some? <==> Truthy(v)
    ensures r.Some? ==> r.value == v.value
  {
    if Truthy(v) then Some(v.value) else None
  }

  /** The value stored by a plain assignment `record.f = v` of a defined field. */
  function Stored(v: JsString): (r: Option<string>)
    requires !v.Undefined?
    ensures r.Some? <==> v.Str?
    ensures v.Str? ==> r == Some(v.value)
  {
    if v.Str? then Some(v.value) else None
  }
}
