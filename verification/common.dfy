/** Values shared by both halves of the plugin. */
module Common {

  /** Python's `None`-or-value. */
  datatype Option<T> = None | Some(value: T)

  /** Python truthiness of an `int` that may be `None`: `None` and `0` are both false
      (`if self.ip:`, `if object:`). */
  predicate Truthy(x: Option<int>) {
    x.Some? && x.value != 0
  }
}
