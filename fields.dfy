/** Fields of a JSON request body, as the handlers see them after destructuring. */
module Fields {
  import opened Wrappers

  /** A body field: `None` when the key is missing, `Some(s)` when it holds the string `s`. */
  type Field = Option<string>

  /** JavaScript truthiness of a string field: present and not the empty string. */
  predicate Truthy(f: Field) {
    f.Some? && f.value != ""
  }
}
