/**
 * Target generation and scoring in game2.js: size and position drawn
 * inside the configured bounds, the score a target is worth, the unused
 * size multiplier, and the mesh object that carries them.
 */
module Game2Targets {

  import opened Space
  import opened RealFacts

  /** `targetSizes`: radii are drawn from [MinSize, MaxSize). */
  const MinSize: real := 0.2
  const MaxSize: real := 0.8

  /** `roomConfig.targetBounds`. */
  const TargetBounds: Box := Box(-14.0, 14.0, -12.0, 12.0, -14.0, 14.0)

  /** The four bright colours `createTarget` picks from. */
  const Palette: seq<int> := [0xff4444, 0xff8844, 0xffff44, 0xff44ff]

  /** Scores of the largest and the smallest possible target. */
  const LeastScore: int := 62
  const GreatestScore: int := 250

  /** `getRandomTargetSize`: a draw scaled into [MinSize, MaxSize). */
  function RandomTargetSize(r: real): (size: real)
    ensures IsUnit(r) ==> MinSize <= size < MaxSize
  {
    r * (MaxSize - MinSize) + MinSize
  }

  /**
   * One axis of `getRandomPosition`: a draw times the axis width plus its
   * lower bound, which lies in [lo, lo + width).
   */
  function Scale(r: real, lo: real, width: real): (v: real)
    requires width > 0.0
    ensures IsUnit(r) ==> lo <= v < lo + width
  {
    if IsUnit(r) then
      UnitTimes(r, width);
      r * width + lo
    else
      r * width + lo
  }

  /** `getRandomPosition`: three draws, one per axis, inside `targetBounds`. */
  function RandomPosition(rx: real, ry: real, rz: real): (p: Vec3)
    ensures IsUnit(rx) && IsUnit(ry) && IsUnit(rz) ==> InBox(p, TargetBounds)
  {
    var b := TargetBounds;
    Vec3(Scale(rx, b.minX, b.maxX - b.minX),
         Scale(ry, b.minY, b.maxY - b.minY),
         Scale(rz, b.minZ, b.maxZ - b.minZ))
  }

  /** The palette slot `Math.floor(Math.random() * colors.length)` picks. */
  function ColorIndex(r: real): (i: int)
    ensures IsUnit(r) ==> 0 <= i < |Palette|
  {
    (r * |Palette| as real).Floor
  }

  /** `calculateScore`: `Math.floor(100 / (size * 2))`, between 62 and 250 for every size the generator draws. */
  function CalculateScore(size: real): (score: int)
    requires size > 0.0
    ensures MinSize <= size < MaxSize ==> LeastScore <= score <= GreatestScore
  {
    var q := 100.0 / (size * 2.0);
    if MinSize <= size < MaxSize then
      QuotientBounds(100.0, size * 2.0, 2.0 * MinSize, 2.0 * MaxSize);
      q.Floor
    else
      q.Floor
  }

  /** Smaller targets are never worth less: the score does not increase with size. */
  lemma ScoreNonIncreasing(small: real, large: real)
    requires 0.0 < small <= large
    ensures CalculateScore(large) <= CalculateScore(small)
  {
    QuotientAntitone(100.0, small * 2.0, large * 2.0);
  }

  /**
   * The score is not strictly decreasing in size: rounding down gives
   * targets of radius 0.79 and 0.791 the same score.
   */
  lemma ScoreNotStrictlyDecreasing()
    ensures CalculateScore(0.79) == CalculateScore(0.791) == 63
  {
    assert 63.0 <= 100.0 / (0.791 * 2.0) < 64.0;
    assert 63.0 <= 100.0 / (0.79 * 2.0) < 64.0;
  }

  /** `getScoreMultiplier`: 2.0 below radius 0.5, 1.5 below 0.8, else 1.0 (defined in game2.js but never applied). */
  function ScoreMultiplier(size: real): (m: real)
    ensures 1.0 <= m <= 2.0
  {
    if size < 0.5 then 2.0
    else if size < 0.8 then 1.5
    else 1.0
  }

  /** Like the score, the multiplier never grows with the target's size. */
  lemma MultiplierNonIncreasing(small: real, large: real)
    requires small <= large
    ensures ScoreMultiplier(large) <= ScoreMultiplier(small)
  {
  }

  /** A target mesh with its `userData`; only the fields the game reads are kept. */
  class Target {
    const size: real
    const position: Vec3
    const color: int
    const baseScore: int

    /** What `createTarget` guarantees: in-bounds radius and position, a palette colour, and a score between 62 and 250. */
    predicate WellFormed()
    {
      && MinSize <= size < MaxSize
      && InBox(position, TargetBounds)
      && color in Palette
      && LeastScore <= baseScore <= GreatestScore
    }

    constructor (size: real, position: Vec3, color: int, baseScore: int)
      ensures this.size == size && this.position == position
      ensures this.color == color && this.baseScore == baseScore
    {
      this.size := size;
      this.position := position;
      this.color := color;
      this.baseScore := baseScore;
    }
  }

  /**
   * `t` carries what `createTarget` computes from the draws `d` and
   * `colorDraw`: the drawn radius and position, the drawn palette colour,
   * and the score of its radius.
   */
  predicate BuiltFrom(t: Target, d: Draws, colorDraw: real)
  {
    && t.size == RandomTargetSize(d.size)
    && t.position == RandomPosition(d.x, d.y, d.z)
    && 0 <= ColorIndex(colorDraw) < |Palette| && t.color == Palette[ColorIndex(colorDraw)]
    && t.size > 0.0 && t.baseScore == CalculateScore(t.size)
  }

  /** `createTarget`: a new mesh built from five draws (size, x, y, z, colour). */
  method CreateTarget(d: Draws, colorDraw: real) returns (t: Target)
    requires d.Valid() && IsUnit(colorDraw)
    ensures fresh(t) && t.WellFormed() && BuiltFrom(t, d, colorDraw)
  {
    var size := RandomTargetSize(d.size);
    var position := RandomPosition(d.x, d.y, d.z);
    var color := Palette[ColorIndex(colorDraw)];
    t := new Target(size, position, color, CalculateScore(size));
  }
}
