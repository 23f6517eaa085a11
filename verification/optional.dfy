/** The optional values of the components: JavaScript's `undefined`/`null`
    for a field that may be absent. */
module Optional {

  datatype Option<+T> = None | Some(value: T)

  /** An optional string JavaScript treats as true: present and not empty. `a || b`
      on such values picks `a` exactly when it is truthy. */
  predicate Truthy(o: Option<string>) {
    o.Some? && o.value != ""
  }
}
