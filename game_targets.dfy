/**
 * Target generation and scoring in game/game.js, which `spawnTarget`
 * computes inline: a radius and a centred position from four draws, a
 * fixed colour, and a score of `Math.floor(100 / size)`.
 */
module GameTargets {

  import opened Space
  import opened RealFacts

  /** Radii are `Math.random() * 0.6 + 0.2`, so they lie in [MinSize, MaxSize). */
  const MinSize: real := 0.2
  const MaxSize: real := 0.8

  /** Where positions land: 28 wide on x and z and 20 on y, centred on the origin. */
  const TargetBounds: Box := Box(-14.0, 14.0, -10.0, 10.0, -14.0, 14.0)

  /** The one colour every target gets. */
  const TargetColor: int := 0xff5555

  /** Scores of the largest and the smallest possible target. */
  const LeastScore: int := 125
  const GreatestScore: int := 500

  /** The radius drawn from `r`. */
  function RandomSize(r: real): (size: real)
    ensures IsUnit(r) ==> MinSize <= size < MaxSize
  {
    r * 0.6 + 0.2
  }

  /** `(Math.random() - 0.5) * 28`, `* 20` and `* 28`: each axis centred on the origin. */
  function RandomPosition(rx: real, ry: real, rz: real): (p: Vec3)
    ensures IsUnit(rx) && IsUnit(ry) && IsUnit(rz) ==> InBox(p, TargetBounds)
  {
    Vec3((rx - 0.5) * 28.0, (ry - 0.5) * 20.0, (rz - 0.5) * 28.0)
  }

  /** `userData.score`: `Math.floor(100 / size)`, between 125 and 500 for every radius drawn. */
  function TargetScore(size: real): (score: int)
    requires size > 0.0
    ensures MinSize <= size < MaxSize ==> LeastScore <= score <= GreatestScore
  {
    var q := 100.0 / size;
    if MinSize <= size < MaxSize then
      QuotientBounds(100.0, size, MinSize, MaxSize);
      q.Floor
    else
      q.Floor
  }

  /** Smaller targets are never worth less. */
  lemma ScoreNonIncreasing(small: real, large: real)
    requires 0.0 < small <= large
    ensures TargetScore(large) <= TargetScore(small)
  {
    QuotientAntitone(100.0, small, large);
  }

  /**
   * `t` carries what `spawnTarget` computes from the draws `d`: the drawn
   * radius and position, the one colour, and `Math.floor(100 / size)`.
   */
  predicate BuiltFrom(t: Target, d: Draws)
  {
    && t.size == RandomSize(d.size)
    && t.position == RandomPosition(d.x, d.y, d.z)
    && t.color == TargetColor
    && t.size > 0.0 && t.score == TargetScore(t.size)
  }

  /** The sphere mesh `spawnTarget` builds, with its score in `userData`. */
  class Target {
    const size: real
    const position: Vec3
    const color: int
    const score: int

    /** What `spawnTarget` guarantees of every target it builds. */
    predicate WellFormed()
    {
      && MinSize <= size < MaxSize
      && InBox(position, TargetBounds)
      && color == TargetColor
      && LeastScore <= score <= GreatestScore
    }

    constructor (size: real, position: Vec3, color: int, score: int)
      ensures this.size == size && this.position == position
      ensures this.color == color && this.score == score
    {
      this.size := size;
      this.position := position;
      this.color := color;
      this.score := score;
    }
  }
}
