/** The optional value used throughout the model for JavaScript's `null` /
    `undefined` and for values a lookup may not produce. */
module Optional {

  datatype Option<+T> = None | Some(value: T) {

    /** Returns the value held in Some, or the given default. */
    function GetOr(default: T): T
    {
      match this
      case Some(v) => v
      case None => default
    }
  }

  /** JavaScript truthiness of an optional string: `null`, `undefined` and
      the empty string are all falsy. */
  predicate Truthy(s: Option<string>)
  {
    s.Some? && s.value != ""
  }
}
