# Star-collecting platformer: game rules in Dafny

A Phaser platformer in which a player runs and jumps across platforms, collects falling stars
for points and avoids bombs. The engine handles physics, rendering, animation and input. This
project models the game's own rules around those engine calls:

- **Score label** (`Ui`, file `score_label.dfy`): the class `ScoreLabel` holds `score` and the
  `text` it shows. `Valid()` says that the text is always `FormatScore(score)`, that is
  `"Score: "` followed by the decimal text of the score.
- **Bomb spawner** (`Bombs`, file `bomb_spawner.dfy`): `Spawn` creates a bomb in the half of
  the 800-pixel arena away from the player, at y = 16. The bomb gets a horizontal drift in
  [-200, 200], a downward speed of 20, bounce 1 and collision with the arena bounds. It is
  appended to a group that only grows.
- **Game scene** (`Scene`, file `game_scene.dfy`): the class `GameScene` holds a row of 12 stars
  in an array, the score label, the bomb spawner and the `gameOver` flag. `CollectStar` switches
  off the star the player touched, adds 10 points, refills the whole row when no star is left
  and drops one bomb. `HitBomb` ends the game. `Restart` models the engine's scene restart, which
  builds the row, the label and the spawner again but does not reset `gameOver`.
- **Play-time clock** (`Timer`, file `timer.dfy`): each step reads the `hh:mm:ss` display,
  advances it by one second with carries and writes it back. The three fields are kept as
  strings because a field the step does not touch keeps its old text. After a carry, the
  seconds show `"0"` rather than `"00"`.
- **Shared pieces**: `Decimal` (`decimal.dfy`) renders whole numbers the way JavaScript does and
  reads digit strings back as numbers, which is what the clock's loose `==` and `++` rely on.
  `Random` (`random.dfy`) models `Phaser.Math.Between` from a `Math.random()` draw in [0, 1),
  which the caller passes in.

Randomness is passed in as parameters: every draw is a real `u` with `0 <= u < 1`. The player's
position is a parameter `playerX: real`. The clock's display is a string parameter, because
reading and writing the page is left out.

## Model

| member | source | states |
|---|---|---|
| `Decimal.NatToString` | src/scenes/GameScene.js:295-310 | A number's text is never empty. What it reads back as is stated by `NatToStringReadsBack`. |
| `Decimal.NatToStringReadsBack` | src/scenes/GameScene.js:295-310 | A number's text is a numeral that reads back as the same number. It has no leading zero, one digit below 10, and at most two digits below 100. |
| `Decimal.IntToString` | src/scenes/ui/ScoreLabel.js:9 | `${n}`: never empty, and it starts with a minus sign exactly when n is negative. What it reads back as is stated by `IntToStringReadsBack`. |
| `Decimal.IntToStringReadsBack` | src/scenes/ui/ScoreLabel.js:9 | `${n}` for a whole number: an optional minus sign and digits that read back as n, with no leading zero unless n is 0, so the shortest digits are shown. |
| `Decimal.ValueLeadingZero` | src/scenes/GameScene.js:293-306 | Prefixing `"0"` (the padding) leaves the number a later loose `==` or `++` reads unchanged. |
| `Random.Between` | src/scenes/BombSpawner.js:20-28 | `Phaser.Math.Between(min, max)` lies in [min, max] for every draw. |
| `Random.BetweenReaches` | src/scenes/BombSpawner.js:20-28 | Every integer of [min, max] is produced by some draw. |
| `Ui.FormatScore` | src/scenes/ui/ScoreLabel.js:9 | The text starts with `"Score: "` and has something after it. What that part reads back as is stated by `FormatScoreReadsBack`. |
| `Ui.FormatScoreReadsBack` | src/scenes/ui/ScoreLabel.js:9 | The text starts with `"Score: "` and the rest is exactly `IntToString(score)`: it reads back as the score, with no leading zero unless the score is 0. |
| `Ui.FormatScoreInjective` | src/scenes/ui/ScoreLabel.js:9 | Two different scores never show the same text. |
| `Ui.ScoreLabel.constructor` | src/scenes/ui/ScoreLabel.js:12-16 | The score is the initial score and the text is its formatted form. |
| `Ui.ScoreLabel.SetScore` | src/scenes/ui/ScoreLabel.js:18-21 | The score becomes the given one and the text shows it. |
| `Ui.ScoreLabel.Add` | src/scenes/ui/ScoreLabel.js:23-25 | The new score is the old score plus the points, and the text shows it. |
| `Ui.ScoreLabel.UpdateScoreText` | src/scenes/ui/ScoreLabel.js:27-29 | The text becomes the formatted score; the score is not touched. |
| `Ui.AddEach` | src/scenes/ui/ScoreLabel.js:23-25 | Calling `add(p)` on a label for each of p1 … pn in order leaves its score at the old score + p1 + … + pn, with the text still showing it. |
| `Bombs.SpawnX` | src/scenes/BombSpawner.js:20-23 | The x lies in [400, 800] when the player is left of 400, and in [0, 400] otherwise. |
| `Bombs.SpawnXReaches` | src/scenes/BombSpawner.js:20-23 | Every x on the far side of the player can be drawn. |
| `Bombs.Group.constructor` | src/scenes/BombSpawner.js:11 | `physics.add.group()` makes a group with no children. |
| `Bombs.Group.Create` | src/scenes/BombSpawner.js:25 | A new sprite at rest at (x, y) with the given texture, appended to the group. |
| `Bombs.BombSpawner.constructor` | src/scenes/BombSpawner.js:7-16 | The key defaults to `"bomb"`. The group is created empty once and is a constant, so the `group` getter always returns it. |
| `Bombs.BombSpawner.Spawn` | src/scenes/BombSpawner.js:19-31 | Appends exactly one new bomb, keeps the earlier ones, and returns the bomb it appended. The bomb's x is `SpawnX(playerX, ux)`, on the far side of `playerX` (0 when omitted), and its y is 16. Its drift is `Between(-200, 200, uvx)`, and its vertical speed is 20. It has bounce 1 and collides with the world bounds. |
| `Timer.Padded` | src/scenes/GameScene.js:297-305 | `"0" + n` below 10: a numeral that reads back as n, starting with `'0'` exactly when n < 10, and two characters long exactly when n < 100. |
| `Timer.Tick` | src/scenes/GameScene.js:292-306 | While paused, the fields come back unchanged. Otherwise the time shown advances by exactly one second, and minutes and seconds stay below 60. |
| `Timer.TickWithoutCarry` | src/scenes/GameScene.js:303-306 | Below 59 seconds only the seconds change; they advance by one and show two digits. |
| `Timer.TickMinuteCarry` | src/scenes/GameScene.js:293-302 | At 59 seconds with minutes not 59: the minutes become exactly `Padded(minutes + 1)` (`"0"` + n below 10, the plain number otherwise). The hours are untouched and the seconds are `"0"`. |
| `Timer.TickHourCarry` | src/scenes/GameScene.js:293-302 | At 59:59 the hours become exactly `Padded(hours + 1)`, padded only below 10. The minutes are `"00"` and the seconds `"0"`. |
| `Timer.Ticks` | src/scenes/GameScene.js:311 | n steps advance the time shown by n seconds and keep minutes and seconds below 60. |
| `Timer.InRangeFields` | src/scenes/GameScene.js:292-306 | With minutes and seconds below 60, the fields are the hours, minutes and seconds of the elapsed time. |
| `Timer.TicksFromReset` | src/scenes/GameScene.js:284-318 | n seconds after a reset the clock shows n / 3600 hours, n / 60 mod 60 minutes and n mod 60 seconds. |
| `Timer.Render` | src/scenes/GameScene.js:309-310 | The written text is the three fields joined by colons. |
| `Timer.Split` | src/scenes/GameScene.js:287 | `split(":")` always yields at least one piece, and no piece contains a colon. |
| `Timer.JoinSplit` | src/scenes/GameScene.js:287 | Joining the pieces of a split with colons gives back the text. |
| `Timer.SplitRender` | src/scenes/GameScene.js:286-310 | Splitting the written `hour:min:sec` text on `":"` gives back the three fields. |
| `Timer.ReadClock` | src/scenes/GameScene.js:286-290 | The first three `":"`-separated fields of the display are read as numerals. |
| `Timer.ReadRender` | src/scenes/GameScene.js:286-310 | A well-formed clock written as `hour:min:sec` is a readable display, and reading it back gives the same three fields. |
| `Timer.StartTimerStep` | src/scenes/GameScene.js:285-312 | Writes exactly three fields, and they read back as `Tick` of the fields read, so the padding and carry rules of `Tick` reach the display. While paused, they are the ones read. Otherwise they show one second more than before. |
| `Timer.ResetTimer` | src/scenes/GameScene.js:315-318 | The display reads `00`, `00`, `00`, which is zero elapsed seconds. |
| `Scene.ActiveCount` | src/scenes/GameScene.js:227 | The number of active stars never exceeds the size of the row. |
| `Scene.ActiveCountZero` | src/scenes/GameScene.js:227 | The count is 0 exactly when no star is active. |
| `Scene.ActiveCountFull` | src/scenes/GameScene.js:227-231 | The count equals the row size exactly when every star is active. |
| `Scene.ActiveCountDeactivate` | src/scenes/GameScene.js:223-227 | Switching off one active star lowers the count by exactly one. |
| `Scene.FullRowCount` | src/scenes/GameScene.js:204-211 | A freshly laid-out row has all 12 stars active. |
| `Scene.CreateStars` | src/scenes/GameScene.js:203-219 | 12 stars, star i at x = 14 + 70·i, y = 0, all active. |
| `Scene.GameScene.constructor` | src/scenes/GameScene.js:27-104 | The game is not over. The row is full, the score is 0, and there are no bombs. The spawner uses the `"bomb"` texture. |
| `Scene.GameScene.CollectStar` | src/scenes/GameScene.js:221-234 | The score rises by exactly 10 and `gameOver` is unchanged. If the star was the last active one, every star is back at its own x, at y = 0, active, and the count is 12. Otherwise only that star changes, to inactive, and the count drops by one. Exactly one bomb is appended, drawn for the player's x from the given draws. Earlier bombs are kept. |
| `Scene.GameScene.DisableStar` | src/scenes/GameScene.js:223 | Only star i changes: it becomes inactive, and the active count drops by one. |
| `Scene.GameScene.RefillStars` | src/scenes/GameScene.js:227-231 | Every star becomes active at its own x with y = 0. |
| `Scene.GameScene.Restart` | src/scenes/GameScene.js:260-264 | The scene restart runs `create` again: a new full row, a new label at 0, and a new spawner with no bombs. `gameOver` keeps its value, because the constructor does not run again. |
| `Scene.GameScene.HitBomb` | src/scenes/GameScene.js:246-257 | `gameOver` becomes true. No method of the scene sets it back to false. |

Behaviour of the code that the model keeps as written:
- `collectStar` does not check `gameOver`, so the model does not require the game to be running.
  No overlap can arrive while the engine is paused anyway.
- The score can be set to any integer through `setScore`, not only raised by `add`.
- Both halves include x = 400, because `Between` is inclusive at both ends.
- The clock is started once, unpaused, from the scene's constructor (src/scenes/GameScene.js:37), and
  every later step reuses that flag. It therefore keeps running after the game is over. The paused
  branch of `Tick` is modelled all the same.

## Left out

- Engine configuration (`src/main.js`) and the engine wiring of the scene: `preload`, `createPlatforms`, `createPlayer`, the animation definitions, collider and overlap registration, `add.existing` in `createScoreLabel`. These are calls into Phaser.
- `update`: keyboard polling and velocity setters. Its final `if (this.gameOver) return;` has no effect.
- In `hitBomb`: `physics.pause`, `setTint` and `anims.play`, which are engine effects. Only the `gameOver` flag is modelled.
- `modalShow`: DOM handling, and its click listener, which is added again each time the dialog opens. In `restartGame`, `registry.destroy` and `events.off` are engine calls; `Restart` models the rest of the restart.
- `Scene.GameScene.Restart`: `gameOver` stays true after a restart, and the model keeps it that way. This is harmless in the game because only the final `return` in `update` (src/scenes/GameScene.js:137-139) reads it, and that `return` has no effect.
- The timer's DOM read and write, the `setTimeout` rescheduling, and the constructor's `timer(false)` call. The step is modelled on the display text instead (`StartTimerStep`).
- The random bounce of each star (`FloatBetween(0.4, 0.8)`) and all physics: gravity, falling, bouncing, collisions. Star and bomb positions change only where the game code sets them.
- A star's visibility is folded into its `active` flag, because `disableBody(true, true)` and `enableBody(…, true, true)` always change both together.
- `Scene.GameScene.CollectStar`: the touched star is given by its index, and the player by its x. The engine sprites themselves are not modelled.
- `Ui.ScoreLabel.constructor`: the scene reference and the text style are not modelled.
- Random.Between: draws and the arithmetic floor(u * (max - min + 1) + min) are exact reals here, and double rounding is not modelled. In doubles the largest draw below 1, 1 - 2^-53, can round up to give max + 1 (801 for `Between(400, 800)`). So the [min, max] bound, and the ranges `SpawnX`, `Spawn` and `CollectStar` inherit from it, hold for exact reals only.
- JavaScript numbers are doubles. Scores are unbounded integers here, and the exponent notation JavaScript uses from 10^21 upward is not modelled.
- The clock requires its fields to be digit strings. Fields that are not digit strings are not modelled. `Number()` reads them as `NaN`, or as other numbers when they hold whitespace, a sign, a decimal point, hex or exponent notation.
