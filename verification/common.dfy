/** Values shared by every handler: optional values, JavaScript truthiness of
    optional request fields, and the shape of an HTTP reply. */
module Common {

  /** Database ids are opaque strings (cuids in the running system). */
  type Id = string

  datatype Option<+T> = None | Some(value: T)

  /** JavaScript truthiness of a field that may be absent: present and not "". */
  predicate Truthy(s: Option<string>) {
    s.Some? && s.value != ""
  }

  /** `field || fallback` for an optional string field. */
  function OrElse(s: Option<string>, fallback: string): string {
    if Truthy(s) then s.value else fallback
  }

  /** `field || null` for an optional string field. */
  function OrNull(s: Option<string>): Option<string> {
    if Truthy(s) then s else None
  }

  const StatusOk: int := 200
  const StatusCreated: int := 201
  const StatusBadRequest: int := 400
  const StatusUnauthorized: int := 401
  const StatusForbidden: int := 403
  const StatusNotFound: int := 404
  const StatusInternal: int := 500

  /** A JSON reply: either a payload or an `{ error }` object, each with its status. */
  datatype Response<+T> = Json(status: int, value: T) | Error(status: int, message: string)
}
