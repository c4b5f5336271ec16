/** The random draws the game takes from the engine. Each draw is a value `u` of
    `Math.random()`, a real in [0, 1), passed in by the caller. */
module Random {

  predicate IsUnitDraw(u: real) {
    0.0 <= u < 1.0
  }

  /** `Phaser.Math.Between(min, max)`: an integer in [min, max], computed as
      floor(u * (max - min + 1) + min) from the draw u. */
  function Between(min: int, max: int, u: real): (r: int)
    requires min <= max && IsUnitDraw(u)
    ensures min <= r <= max
  {
    var width := (max - min + 1) as real;
    assert u * width < width;
    (u * width + min as real).Floor
  }

  /** Every integer of [min, max] is the result of some draw. */
  lemma BetweenReaches(min: int, max: int, k: int) returns (u: real)
    requires min <= k <= max
    ensures IsUnitDraw(u) && Between(min, max, u) == k
  {
    var width := (max - min + 1) as real;
    u := (k - min) as real / width;
    assert u * width == (k - min) as real;
  }
}
