/** Small definitions shared by the components. */
module Common {

  /** A lookup, pointer or slot that may hold nothing. */
  datatype Option<+T> = None | Some(value: T)

  /** The storage of a slot: no object, an object, or one whose value has been moved out. */
  datatype Cell<+V> = Dead | Live(v: V) | MovedFrom

  function Last<T>(s: seq<T>): T
    requires s != []
  {
    s[|s| - 1]
  }
}
