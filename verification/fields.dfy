/**
 Optional values and partial-update fields.

 `Option` models a nullable column or an optional argument (`None` is SQL
 NULL / Python `None` / JavaScript `null`). `Patch` models one field of a
 partial-update request: `Unset` is a field the client left out (dropped by
 `model_dump(exclude_unset=True)`), `Set(v)` a field the client sent, which
 may itself be `null`.
 */
module Fields {

  datatype Option<+T> = None | Some(value: T)

  datatype Patch<+T> = Unset | Set(value: T)

  /** The value a field holds after the patch is applied over `current`. */
  function Apply<T>(p: Patch<T>, current: T): (r: T)
  {
    match p
    case Unset => current
    case Set(v) => v
  }

  /** The value a NOT NULL column holds after a patch; a patch writing null
      is refused before it gets here, so it is read as leaving the value. */
  function ApplyNonNull<T>(p: Patch<Option<T>>, current: T): (r: T)
  {
    match p
    case Set(Some(v)) => v
    case _ => current
  }

  /** True if the patch writes an explicit null. */
  predicate SetsNull<T>(p: Patch<Option<T>>)
  {
    p == Set(None)
  }
}
