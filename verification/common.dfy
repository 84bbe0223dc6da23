/** Small value types shared by the whole model: optional values, Python
    truthiness of an optional string, chat identities and photo references. */
module Common {

  /** Python's `None` or a value. */
  datatype Option<T> = None | Some(value: T)

  /** A chat user identity, an opaque integer assigned by the transport. */
  type UserId = int

  /** A transport-assigned reference to a stored photo; never empty. */
  type FileId = s: string | |s| > 0 witness "f"

  /** Python's `if x:` on a value that is `None` or a string: false for `None`
      and for the empty string. */
  predicate Truthy(o: Option<string>)
  {
    o.Some? && |o.value| > 0
  }

  function Min(a: int, b: int): int
  {
    if a <= b then a else b
  }
}
