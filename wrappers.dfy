/** The Some/None datatype used for absent storage entries and for the
    optional fields of a form draft. */
module Wrappers {

  datatype Option<+T> = None | Some(value: T) {

    /** The wrapped value, or `default` when there is none. */
    function GetOr(default: T): T {
      match this
      case Some(v) => v
      case None => default
    }
  }

  /** JavaScript truthiness of an optional string field: present and not empty.
      `!draft.code` in a form handler is `!Truthy(draft.code)`. */
  predicate Truthy(field: Option<string>) {
    field.Some? && field.value != ""
  }
}
