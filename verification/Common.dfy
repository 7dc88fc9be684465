/** Identifiers and the option type shared by every component. */
module Common {
  // Identifiers are opaque values compared only for equality; the all-zero UUID is 0.
  type Uuid = nat

  const NIL_UUID: Uuid := 0

  datatype Option<+T> = None | Some(value: T)
}
