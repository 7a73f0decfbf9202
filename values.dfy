/** Small value wrappers shared by the stores and the server. */
module Values {

  /** A value that may be missing. */
  datatype Option<+T> = None | Some(value: T)

  /** A JavaScript object property: never assigned (`undefined`), set to `null`,
      or holding a value. The stores distinguish the three because the source
      reads a property's truthiness and sometimes writes `null` explicitly. */
  datatype Slot<+T> = Undefined | Null | Defined(value: T)

  /** JavaScript truthiness of a property that holds a string when it is set:
      `undefined`, `null` and the empty string are falsy. */
  predicate Truthy(s: Slot<string>) {
    s.Defined? && s.value != ""
  }
}
