/** Values shared by every module of the model: Python's `None`-or-value and
    a fact about sequences the proofs use. */
module Common {

  /** A value that may be absent, standing for Python's `Optional[...]`. */
  datatype Option<+T> = None | Some(value: T) {

    /** Returns the value in Some, or `default` for None. */
    function GetOr(default: T): T {
      match this
      case Some(v) => v
      case None => default
    }
  }

  /** Concatenation regroups freely. */
  lemma AppendAssoc<T>(a: seq<T>, b: seq<T>, c: seq<T>)
    ensures (a + b) + c == a + (b + c)
  {
  }
}
