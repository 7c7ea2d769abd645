// Shared value types: optional values and the outcome of an operation that can
// throw in the original program.

module Common {

  datatype Option<T> = None | Some(value: T)

  /** The exception classes the browser code can raise and that the model keeps. */
  datatype Exc =
    | IllegalArgument      // `require(...)` failed
    | IllegalState         // `check(...)` failed
    | NumberFormat         // `toInt()` / `toLong()` / `digitToInt()` on a malformed number
    | IndexOutOfBounds     // list or string index outside the valid range
    | NoSuchElement        // `first()` / `last()` of an empty collection
    | DateTimeParse        // an `expires` date that RFC 1123 parsing rejects
    | DateTime             // an instant outside `Instant.MIN .. Instant.MAX`
    | Arithmetic           // `Math.addExact` overflowing a Long
    | StackOverflow        // unbounded recursion, here only along a cycle of DOM nodes

  /** What a call returns: its value, or the exception it throws. */
  datatype Outcome<T> = Ok(value: T) | Fail(exc: Exc)
  {
    predicate IsFailure() { Fail? }
    function PropagateFailure<U>(): Outcome<U>
      requires Fail?
    {
      Fail(exc)
    }
    function Extract(): T
      requires Ok?
    {
      value
    }
  }

  function Max(a: int, b: int): int { if a >= b then a else b }
  function Min(a: int, b: int): int { if a <= b then a else b }

  /** `indexOf` on a list: the first position of `x`, or -1. */
  function PositionOf<T(==)>(s: seq<T>, x: T): (r: int)
    ensures -1 <= r < |s|
    ensures r >= 0 ==> s[r] == x && forall j :: 0 <= j < r ==> s[j] != x
    ensures r == -1 <==> x !in s
  {
    if s == [] then -1
    else if s[0] == x then 0
    else var p := PositionOf(s[1..], x); if p == -1 then -1 else p + 1
  }

  /** `removeAt(index)` on a list. */
  function RemovedAt<T>(s: seq<T>, index: int): (r: seq<T>)
    requires 0 <= index < |s|
    ensures |r| == |s| - 1
    ensures forall j :: 0 <= j < index ==> r[j] == s[j]
    ensures forall j :: index <= j < |r| ==> r[j] == s[j + 1]
  {
    s[..index] + s[index + 1..]
  }
}
