/** Bombs and the spawner that drops a new one, away from the player, each time a star
    is collected. */
module Bombs {
  import opened Random

  /** Half of the 800-pixel arena width. */
  const ArenaHalf := 400
  const ArenaWidth := 800
  /** The height at which every bomb appears. */
  const SpawnY := 16
  /** Bound on the horizontal drift speed, in either direction. */
  const MaxDrift := 200
  /** The downward speed every bomb starts with. */
  const FallSpeed := 20

  /** A bomb sprite: its texture, position, velocity, bounce and whether it stays in the arena. */
  class Bomb {
    const key: string
    var x: int
    var y: int
    var vx: int
    var vy: int
    var bounce: int
    var collideWorldBounds: bool

    /** A new sprite at rest at (x, y). */
    constructor (x: int, y: int, key: string)
      ensures this.x == x && this.y == y && this.key == key
      ensures vx == 0 && vy == 0 && bounce == 0 && !collideWorldBounds
    {
      this.key := key;
      this.x, this.y := x, y;
      vx, vy, bounce, collideWorldBounds := 0, 0, 0, false;
    }
  }

  /** A physics group: the bombs created in it, oldest first. */
  class Group {
    var children: seq<Bomb>

    /** `physics.add.group()`: an empty group. */
    constructor ()
      ensures children == []
    {
      children := [];
    }

    /** `group.create(x, y, key)`: a new sprite at rest, appended to the group. */
    method Create(x: int, y: int, key: string) returns (b: Bomb)
      modifies this
      ensures fresh(b) && children == old(children) + [b]
      ensures b.x == x && b.y == y && b.key == key
      ensures b.vx == 0 && b.vy == 0 && b.bounce == 0 && !b.collideWorldBounds
    {
      b := new Bomb(x, y, key);
      children := children + [b];
    }
  }

  /** x lies in the arena, in the half away from the player (both halves share x = 400). */
  predicate OppositeSide(playerX: real, x: int) {
    0 <= x <= ArenaWidth &&
    (playerX < ArenaHalf as real ==> ArenaHalf <= x) &&
    (playerX >= ArenaHalf as real ==> x <= ArenaHalf)
  }

  /** The x at which a bomb appears, from the player's x and one draw. */
  function SpawnX(playerX: real, u: real): (x: int)
    requires IsUnitDraw(u)
    ensures OppositeSide(playerX, x)
  {
    if playerX < ArenaHalf as real then Between(ArenaHalf, ArenaWidth, u) else Between(0, ArenaHalf, u)
  }

  /** Every x on the side away from the player can be drawn. */
  lemma SpawnXReaches(playerX: real, x: int) returns (u: real)
    requires OppositeSide(playerX, x)
    ensures IsUnitDraw(u) && SpawnX(playerX, u) == x
  {
    if playerX < ArenaHalf as real {
      u := BetweenReaches(ArenaHalf, ArenaWidth, x);
    } else {
      u := BetweenReaches(0, ArenaHalf, x);
    }
  }

  /** The state of a bomb right after it is spawned for a player at playerX, with ux and uvx
      the draws for its x and its drift: x on the far side of the player, y = 16, drift in
      [-200, 200], falling at 20, bounce 1, kept inside the arena. */
  ghost predicate FreshlySpawned(b: Bomb, playerX: real, ux: real, uvx: real, key: string)
    requires IsUnitDraw(ux) && IsUnitDraw(uvx)
    reads b
  {
    b.x == SpawnX(playerX, ux) && OppositeSide(playerX, b.x) && b.y == SpawnY && b.key == key &&
    b.vx == Between(-MaxDrift, MaxDrift, uvx) && -MaxDrift <= b.vx <= MaxDrift &&
    b.vy == FallSpeed && b.bounce == 1 && b.collideWorldBounds
  }

  class BombSpawner {
    const key: string
    /** The group made at construction; the `group` getter always returns it. */
    const group: Group

    constructor (key: string := "bomb")
      ensures this.key == key
      ensures fresh(group) && group.children == []
    {
      this.key := key;
      group := new Group();
    }

    /** Drops one new bomb, with `ux` and `uvx` the draws for its x and its drift.
        With no player position the player counts as standing at x = 0. */
    method Spawn(ux: real, uvx: real, playerX: real := 0.0) returns (bomb: Bomb)
      requires IsUnitDraw(ux) && IsUnitDraw(uvx)
      modifies group
      ensures fresh(bomb)
      ensures group.children == old(group.children) + [bomb]
      ensures FreshlySpawned(bomb, playerX, ux, uvx, key)
    {
      var x := SpawnX(playerX, ux);
      bomb := group.Create(x, SpawnY, key);
      bomb.bounce := 1;
      bomb.collideWorldBounds := true;
      bomb.vx, bomb.vy := Between(-MaxDrift, MaxDrift, uvx), FallSpeed;
    }
  }
}
