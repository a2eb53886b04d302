/** The integer `Math.min` and `Math.max` the players use for clamping and
    for the batch bound. */
module MinMax {
  function Min(a: int, b: int): int { if a <= b then a else b }
  function Max(a: int, b: int): int { if a >= b then a else b }
}
