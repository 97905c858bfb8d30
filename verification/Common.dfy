/** Small shared vocabulary: optional values and lists, octets, the smaller and the larger of two numbers. */
module Common {

  datatype Option<+T> = None | Some(value: T)

  type Byte = b: nat | b < 256

  function Min(a: nat, b: nat): nat { if a < b then a else b }
  function Max(a: nat, b: nat): nat { if a > b then a else b }

  /** Put some elements before a list, if there is one. */
  function Prepend<T>(pre: seq<T>, rest: Option<seq<T>>): Option<seq<T>> {
    match rest
    case None => None
    case Some(list) => Some(pre + list)
  }
}
