/** The score display: a text object that holds the current score and always shows
    "Score: " followed by it. */
module Ui {
  import opened Decimal

  const ScorePrefix := "Score: "

  /** `formatScore`: the prefix, then the decimal text of the score. */
  function FormatScore(score: int): (r: string)
    ensures |r| > |ScorePrefix| && r[..|ScorePrefix|] == ScorePrefix
  {
    ScorePrefix + IntToString(score)
  }

  /** The score text starts with the prefix, and what follows is the integer text of the
      score: it reads back as the score, with no leading zero unless the score is 0. */
  lemma FormatScoreReadsBack(score: int)
    ensures |FormatScore(score)| > |ScorePrefix| && FormatScore(score)[..|ScorePrefix|] == ScorePrefix
    ensures FormatScore(score)[|ScorePrefix|..] == IntToString(score)
    ensures FormatScore(score)[|ScorePrefix|] == '0' ==> score == 0
    ensures IsIntText(FormatScore(score)[|ScorePrefix|..])
    ensures IntValue(FormatScore(score)[|ScorePrefix|..]) == score
  {
    IntToStringReadsBack(score);
    assert FormatScore(score)[|ScorePrefix|..] == IntToString(score);
  }

  /** Two different scores never show the same text. */
  lemma FormatScoreInjective(a: int, b: int)
    requires FormatScore(a) == FormatScore(b)
    ensures a == b
  {
    FormatScoreReadsBack(a);
    FormatScoreReadsBack(b);
  }

  class ScoreLabel {
    const x: int
    const y: int
    var score: int
    var text: string

    /** The text on screen is the formatted score. */
    ghost predicate Valid()
      reads this
    {
      text == FormatScore(score)
    }

    constructor (x: int, y: int, score: int)
      ensures Valid()
      ensures this.x == x && this.y == y && this.score == score
    {
      this.x, this.y := x, y;
      text := FormatScore(score);
      this.score := score;
    }

    method SetScore(score: int)
      modifies this
      ensures Valid()
      ensures this.score == score
    {
      this.score := score;
      UpdateScoreText();
    }

    method Add(points: int)
      modifies this
      ensures Valid()
      ensures score == old(score) + points
    {
      SetScore(score + points);
    }

    method UpdateScoreText()
      modifies this`text
      ensures Valid()
    {
      text := FormatScore(score);
    }
  }

  /** The total of a list of points. */
  function Sum(points: seq<int>): int {
    if points == [] then 0 else points[0] + Sum(points[1..])
  }

  lemma {:induction false} SumSnoc(points: seq<int>, p: int)
    ensures Sum(points + [p]) == Sum(points) + p
  {
    if points != [] {
      assert (points + [p])[1..] == points[1..] + [p];
      SumSnoc(points[1..], p);
    }
  }

  /** Calls `add(p)` on the label for each p of `points` in order: the score rises by exactly
      the sum of the points, and the text keeps showing it. */
  method AddEach(scoreLabel: ScoreLabel, points: seq<int>)
    requires scoreLabel.Valid()
    modifies scoreLabel
    ensures scoreLabel.Valid()
    ensures scoreLabel.score == old(scoreLabel.score) + Sum(points)
  {
    ghost var start := scoreLabel.score;
    for k := 0 to |points|
      invariant scoreLabel.Valid()
      invariant scoreLabel.score == start + Sum(points[..k])
    {
      assert points[..k + 1] == points[..k] + [points[k]];
      SumSnoc(points[..k], points[k]);
      scoreLabel.Add(points[k]);
    }
    assert points[..|points|] == points;
  }
}
