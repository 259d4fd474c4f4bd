/** Rounding to the nearest integer as the game's JavaScript does it. */
module Rounding {

  /** Math.round, and Math.floor(v + 0.5): the nearest integer, halves rounding up. */
  function Round(x: real): (n: int)
    ensures n as real - 0.5 <= x < n as real + 0.5
  {
    (x + 0.5).Floor
  }
}
