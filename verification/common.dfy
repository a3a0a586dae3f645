/** Shared vocabulary: optional values, record identifiers and the
    truthiness test the handlers apply to request-body fields. */
module Common {

  /** A value that may be absent; `None` plays the role of `null`/`undefined`. */
  datatype Option<+T> = None | Some(value: T)

  /** Database identifiers (document `_id`s), abstracted to naturals. */
  type Id = nat

  /** A request-body or environment field: absent, or a string. */
  type Field = Option<string>

  /** The handlers' `if (x)` test on a field: present and not the empty string. */
  predicate Truthy(f: Field)
  {
    f.Some? && f.value != ""
  }
}
