/** Optional values and the Python truthiness tests the forwarder relies on. */
module Wrappers {

  /** A value that may be absent (Python's `None`). */
  datatype Option<+T> = None | Some(value: T) {

    /** Returns the value held in Some, or the given default for None. */
    function GetOr(default: T): T {
      match this
      case Some(v) => v
      case None => default
    }
  }

  /** Python's `if x:` on an optional integer: None and 0 are both falsy. */
  predicate Truthy(x: Option<int>) {
    x.Some? && x.value != 0
  }

  /** Python's `if s:` on an optional string: None and "" are both falsy. */
  predicate TruthyText(s: Option<string>) {
    s.Some? && s.value != ""
  }

  /** Python's `s or ""` on an optional string. */
  function OrEmpty(s: Option<string>): (r: string)
    ensures TruthyText(s) ==> r == s.value
    ensures !TruthyText(s) ==> r == ""
  {
    if s.Some? then s.value else ""
  }
}
