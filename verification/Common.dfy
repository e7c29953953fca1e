/** Small datatypes shared by the models of the controller and of the hardware layer. */
module Common {

  datatype Option<+T> = None | Some(value: T)

  /** An IEEE value seen only through what the safety logic asks of it: either a
      finite number, or one of the values `std::isfinite` rejects. */
  datatype Float = Finite(value: real) | NonFinite

  const ZERO: Float := Finite(0.0)

  /** `s` is a strictly increasing sequence of positions. */
  ghost predicate StrictlyIncreasing(s: seq<int>) {
    forall i, j :: 0 <= i < j < |s| ==> s[i] < s[j]
  }

  function Last<T>(s: seq<T>): T
    requires s != []
  {
    s[|s| - 1]
  }

  function Front<T>(s: seq<T>): seq<T>
    requires s != []
  {
    s[..|s| - 1]
  }

  function Min(a: int, b: int): int {
    if a <= b then a else b
  }
}
