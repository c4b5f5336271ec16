/** The game's scene: a row of stars to collect, the score, the bombs, and the game-over flag.
    Collecting a star scores points, refills the row once it is empty and drops a bomb;
    touching a bomb ends the game. */
module Scene {
  import opened Random
  import opened Ui
  import opened Bombs

  /** One star plus `repeat: 11` copies. */
  const StarCount := 12
  const FirstStarX := 14
  const StarStepX := 70
  const PointsPerStar := 10
  const BombKey := "bomb"

  datatype Star = Star(x: int, y: int, active: bool)

  /** Where star i of the row sits: 14 pixels from the left, then every 70 pixels. */
  function StarX(i: nat): int {
    FirstStarX + StarStepX * i
  }

  /** How many stars of s are active (the group's `countActive(true)`). */
  function ActiveCount(s: seq<Star>): (n: nat)
    ensures n <= |s|
  {
    if s == [] then 0 else (if s[0].active then 1 else 0) + ActiveCount(s[1..])
  }

  /** No star is active exactly when the count is zero. */
  lemma {:induction false} ActiveCountZero(s: seq<Star>)
    ensures ActiveCount(s) == 0 <==> forall i :: 0 <= i < |s| ==> !s[i].active
  {
    if s != [] {
      ActiveCountZero(s[1..]);
      assert forall i :: 1 <= i < |s| ==> s[i] == s[1..][i - 1];
    }
  }

  /** Every star is active exactly when the count is the size of the row. */
  lemma {:induction false} ActiveCountFull(s: seq<Star>)
    ensures ActiveCount(s) == |s| <==> forall i :: 0 <= i < |s| ==> s[i].active
  {
    if s != [] {
      ActiveCountFull(s[1..]);
      assert forall i :: 1 <= i < |s| ==> s[i] == s[1..][i - 1];
    }
  }

  /** Switching off one active star lowers the count by one. */
  lemma {:induction false} ActiveCountDeactivate(s: seq<Star>, i: nat)
    requires i < |s| && s[i].active
    ensures ActiveCount(s[i := s[i].(active := false)]) == ActiveCount(s) - 1
  {
    var t := s[i := s[i].(active := false)];
    if i == 0 {
      assert t[1..] == s[1..];
    } else {
      ActiveCountDeactivate(s[1..], i - 1);
      assert t[1..] == s[1..][i - 1 := s[i].(active := false)];
    }
  }

  /** The row as laid out: every star active at y = 0 at its own x. */
  ghost predicate IsFullRow(s: seq<Star>) {
    |s| == StarCount && forall i :: 0 <= i < |s| ==> s[i] == Star(StarX(i), 0, true)
  }

  lemma FullRowCount(s: seq<Star>)
    requires IsFullRow(s)
    ensures ActiveCount(s) == StarCount
  {
    ActiveCountFull(s);
  }

  class GameScene {
    var gameOver: bool
    var stars: array<Star>
    var scoreLabel: ScoreLabel
    var bombSpawner: BombSpawner

    /** Twelve stars, each at its own x. */
    ghost predicate RowValid()
      reads this, stars
    {
      stars.Length == StarCount &&
      forall i :: 0 <= i < StarCount ==> stars[i].x == StarX(i)
    }

    /** The row is laid out, the score label shows the score and bombs use the bomb texture. */
    ghost predicate Valid()
      reads this, stars, scoreLabel
    {
      RowValid() && scoreLabel.Valid() && bombSpawner.key == BombKey
    }

    /** The constructor together with the state `create` builds: a full row of stars,
        a score of 0 shown at (16, 16), a spawner with no bombs, and the game running. */
    constructor ()
      ensures Valid() && !gameOver
      ensures IsFullRow(stars[..]) && ActiveCount(stars[..]) == StarCount
      ensures scoreLabel.score == 0 && bombSpawner.group.children == []
      ensures bombSpawner.key == BombKey
      ensures fresh(stars) && fresh(scoreLabel) && fresh(bombSpawner) && fresh(bombSpawner.group)
    {
      var row := CreateStars();
      gameOver := false;
      stars := row;
      scoreLabel := new ScoreLabel(16, 16, 0);
      bombSpawner := new BombSpawner(BombKey);
      new;
      FullRowCount(stars[..]);
    }

    /** `restartGame`: the engine restarts the scene, which runs `create` again and so builds
        a new row, a new label at 0 and a new spawner with no bombs. The constructor does not
        run again, so `gameOver` keeps its value. */
    method Restart()
      modifies this
      ensures Valid() && gameOver == old(gameOver)
      ensures IsFullRow(stars[..]) && ActiveCount(stars[..]) == StarCount
      ensures scoreLabel.score == 0 && bombSpawner.group.children == []
      ensures fresh(stars) && fresh(scoreLabel) && fresh(bombSpawner) && fresh(bombSpawner.group)
    {
      stars := CreateStars();
      scoreLabel := new ScoreLabel(16, 16, 0);
      bombSpawner := new BombSpawner(BombKey);
      FullRowCount(stars[..]);
    }

    /** The player at playerX touched active star i; ux and uvx are the draws for the new bomb. */
    method CollectStar(i: nat, playerX: real, ux: real, uvx: real)
      requires Valid() && i < StarCount && stars[i].active
      requires IsUnitDraw(ux) && IsUnitDraw(uvx)
      modifies stars, scoreLabel, bombSpawner.group
      ensures Valid()
      ensures gameOver == old(gameOver)
      ensures scoreLabel.score == old(scoreLabel.score) + PointsPerStar
      ensures old(ActiveCount(stars[..])) == 1 ==> IsFullRow(stars[..])
      ensures old(ActiveCount(stars[..])) > 1 ==>
        stars[..] == old(stars[..])[i := old(stars[i]).(active := false)]
      ensures ActiveCount(stars[..]) ==
        if old(ActiveCount(stars[..])) == 1 then StarCount else old(ActiveCount(stars[..])) - 1
      ensures |bombSpawner.group.children| == |old(bombSpawner.group.children)| + 1
      ensures bombSpawner.group.children[..|old(bombSpawner.group.children)|] == old(bombSpawner.group.children)
      ensures fresh(Last(bombSpawner.group.children))
      ensures FreshlySpawned(Last(bombSpawner.group.children), playerX, ux, uvx, BombKey)
    {
      DisableStar(i);
      scoreLabel.Add(PointsPerStar);
      if ActiveCount(stars[..]) == 0 {
        RefillStars();
        FullRowCount(stars[..]);
      }
      var bomb := bombSpawner.Spawn(ux, uvx, playerX);
    }

    /** `star.disableBody(true, true)`: star i stops being active (and visible). */
    method DisableStar(i: nat)
      requires RowValid() && i < StarCount && stars[i].active
      modifies stars
      ensures RowValid()
      ensures stars[..] == old(stars[..])[i := old(stars[i]).(active := false)]
      ensures ActiveCount(stars[..]) == old(ActiveCount(stars[..])) - 1
    {
      ActiveCountDeactivate(stars[..], i);
      stars[i] := stars[i].(active := false);
    }

    /** Brings every star back, active, at its own x and at y = 0 so that it falls again. */
    method RefillStars()
      requires RowValid()
      modifies stars
      ensures RowValid() && IsFullRow(stars[..])
    {
      for j := 0 to stars.Length
        invariant forall k :: 0 <= k < stars.Length ==>
          stars[k].x == StarX(k) && (k < j ==> stars[k].y == 0 && stars[k].active)
      {
        stars[j] := Star(stars[j].x, 0, true);
      }
    }

    /** The player touched a bomb: the game is over. */
    method HitBomb()
      modifies this`gameOver
      ensures gameOver
    {
      gameOver := true;
    }
  }

  /** `createStars`: the row of stars, all active at y = 0. */
  method CreateStars() returns (stars: array<Star>)
    ensures fresh(stars) && IsFullRow(stars[..])
  {
    stars := new Star[StarCount](i => Star(StarX(i), 0, true));
  }

  function Last<T>(s: seq<T>): T
    requires s != []
  {
    s[|s| - 1]
  }
}
