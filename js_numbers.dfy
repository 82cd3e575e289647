/**
 * The part of JavaScript's number semantics that the Lights Out engine
 * relies on. A coordinate decoded from a cell key is either an integer or
 * NaN; an `undefined` coordinate (a key with no second part) behaves like
 * NaN here, because the engine only adds to coordinates and compares them.
 */
module JsNumbers {

  /** A JavaScript number as the engine sees it: an integer, or NaN. */
  datatype JsNum = Num(n: int) | NaN

  /** `a + k` for an integer literal `k`: NaN stays NaN. */
  function Add(a: JsNum, k: int): JsNum {
    match a
    case Num(v) => Num(v + k)
    case NaN => NaN
  }

  /** `a >= k`: every comparison with NaN is false. */
  predicate AtLeast(a: JsNum, k: int) {
    a.Num? && a.n >= k
  }

  /** `a < k`: every comparison with NaN is false. */
  predicate Below(a: JsNum, k: int) {
    a.Num? && a.n < k
  }
}
