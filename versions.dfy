/**
 * How the two versions of the game differ where they compute the same
 * thing.
 */
module Versions {

  import Game2Targets
  import GameTargets

  /**
   * game/game.js scores a target `Math.floor(100 / size)`, game2.js
   * `Math.floor(100 / (size * 2))`: the same radius is worth twice as much,
   * plus one when the halved quotient's fraction is at least one half.
   */
  lemma ScoreTwiceGame2(size: real)
    requires size > 0.0
    ensures var half := Game2Targets.CalculateScore(size);
            GameTargets.TargetScore(size) == 2 * half || GameTargets.TargetScore(size) == 2 * half + 1
  {
    var q := 100.0 / (size * 2.0);
    assert 100.0 / size == 2.0 * q;
    var f := q.Floor;
    assert f as real <= q < f as real + 1.0;
    assert 2 * f <= (2.0 * q).Floor <= 2 * f + 1;
  }
}
