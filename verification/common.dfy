/** Small shared vocabulary: an Option type and the few JavaScript
    semantics (truncating remainder, ceiling division, array writes that
    ignore non-index keys) that several modules need written out. */
module Common {

  /** JavaScript's `null`/`undefined` versus a present value. */
  datatype Option<+T> = None | Some(value: T) {
    function GetOr(default: T): T {
      match this
      case Some(v) => v
      case None => default
    }
  }

  function Abs(x: real): (r: real)
    ensures r >= 0.0
    ensures r == x || r == -x
  {
    if x < 0.0 then -x else x
  }

  function Max(a: int, b: int): (r: int)
    ensures r >= a && r >= b
    ensures r == a || r == b
  {
    if a >= b then a else b
  }

  function Min(a: int, b: int): (r: int)
    ensures r <= a && r <= b
    ensures r == a || r == b
  {
    if a <= b then a else b
  }

  /** JavaScript's `a % b` on integers: the result takes the sign of the
      dividend (Dafny's `%` is Euclidean and never negative). */
  function TruncRem(a: int, b: int): (r: int)
    requires b != 0
    ensures a >= 0 ==> 0 <= r < (if b < 0 then -b else b)
    ensures a < 0 ==> -(if b < 0 then -b else b) < r <= 0
  {
    var m := if b < 0 then -b else b;
    if a >= 0 then a % m else -((-a) % m)
  }

  /** `Math.ceil(a / b)` for a positive integer divisor. */
  function CeilDiv(a: int, b: int): (r: int)
    requires b > 0
    ensures (r - 1) * b < a <= r * b
  {
    -((-a) / b)
  }

  /** `arr[i] = v` on a JavaScript array of fixed contents: an index outside
      the array (a negative number, say) only adds a named property and
      leaves the elements as they were. */
  function Write<T>(s: seq<T>, i: int, v: T): (r: seq<T>)
    ensures |r| == |s|
    ensures forall j :: 0 <= j < |s| ==> r[j] == (if j == i then v else s[j])
  {
    if 0 <= i < |s| then s[i := v] else s
  }

  /** `list.push(e)` followed by one `list.shift()` when the list has grown
      past `cap`: a history that keeps the most recent entries. */
  function PushBounded<T>(list: seq<T>, e: T, cap: nat): (r: seq<T>)
    requires cap > 0
    ensures |list| <= cap ==> |r| <= cap
    ensures r != [] && r[|r| - 1] == e
    ensures |list| < cap ==> r == list + [e]
    ensures |list| >= cap ==> r == list[1..] + [e]
  {
    var grown := list + [e];
    if |grown| > cap then grown[1..] else grown
  }

  /** `needle` occurs in `haystack` starting at index `i`. */
  predicate OccursAt(haystack: string, needle: string, i: int) {
    0 <= i && i + |needle| <= |haystack| && haystack[i..i + |needle|] == needle
  }

  /** `haystack.includes(needle)` on strings. */
  predicate Contains(haystack: string, needle: string) {
    exists i | 0 <= i <= |haystack| :: OccursAt(haystack, needle, i)
  }
}
