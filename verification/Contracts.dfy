/** Shared value types of the domain contracts: source times, half-open ranges, brackets. */
module Contracts {

  datatype Option<+T> = None | Some(value: T)

  datatype Result<+T, +E> = Ok(value: T) | Err(error: E)

  /** A half-open range of source milliseconds; a well-formed one has a positive length. */
  datatype TimeRange = TimeRange(startMs: nat, endMs: nat) {
    predicate Ordered() { startMs < endMs }

    predicate Contains(t: int) { startMs <= t < endMs }
  }

  /** The last instant before and the first instant after a change. */
  datatype CrossingBracket = CrossingBracket(lastPreMs: nat, firstPostMs: nat) {
    predicate Ordered() { lastPreMs < firstPostMs }
  }

  datatype Point = Point(x: real, y: real)

  datatype Box = Box(x1: real, y1: real, x2: real, y2: real)

  function Max(a: int, b: int): int { if a >= b then a else b }

  function Min(a: int, b: int): int { if a <= b then a else b }
}
