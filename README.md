# Three Swing arcade games, modelled in Dafny

This project models the game logic of three small Java Swing games: Snake, Mars Attacks and
Dino. Each game is a `GamePanel` whose timer callback advances the game by one tick and
whose key listener steers it. Each game has its own module. The Swing state becomes a Dafny
class, and each tick and key event becomes a method that updates that state in place:

- `Snake` (`snake.dfy`)
  - The body is two coordinate arrays of 576 slots, shifted in place every tick.
  - The counters, the apple, the heading and the running flag are fields.
  - `Valid()` holds between events. It says:
    - every coordinate lies on the 25-pixel grid;
    - the apple is on the board;
    - the heading is one of U, D, L, R;
    - `bodyParts - applesEaten == 6`.
- `MarsAttacks` (`mars_attacks.dfy`)
  - The ship is a `Player` object.
  - Bullets and aliens are values held in sequence fields. Each list is owned by one panel
    and never aliased.
  - Each stage of `updateGame` is a loop over plain values, proved against a specification
    function:
    - the bullet pass;
    - the alien pass;
    - the pairwise collision pass, with its `removeAll`;
    - the contact pass.
  - The whole tick is tied to `Tick` on a `World` snapshot. The key handlers are tied to
    `Pressed` and `Released`.
  - Lemmas prove what those functions promise:
    - the invariant `Inv` is kept;
    - the score pays 10 for every pair;
    - the spawn rule holds;
    - game-over is sticky;
    - the key rules hold.
- `Dino` (`dino.dfy`)
  - A `Dinosaur` object holds the landing clamp and the jump guard.
  - The cacti are values in a sequence field. The iterator loop moves them, drops the ones
    that are off screen, and checks each against the dinosaur.
  - The spawn timer's draws are parameters.

Three support modules are shared by the games:

- `Geometry` models AWT `Rectangle.intersects` as strict overlap of boxes with positive
  sizes.
- `Seqs` provides order-preserving filtering. `Unflagged` models `removeAll` of collected
  objects by position, so equal-valued but distinct objects are not confused.
- `KeyCodes` holds the AWT key codes.

Draws from `java.util.Random` are method parameters, restricted to the range of their
`nextInt` call. The Swing timer is represented by the `running` and `gameOver` flags.

## Model

| member | source | states |
|---|---|---|
| Geometry.Intersects | games/MarsAttacksGame.java:191 | `Rectangle.intersects`: when it reports an overlap, the pixel at the larger left edge and the larger top edge lies inside both boxes. |
| Geometry.IntersectsIffSharedPixel | games/MarsAttacksGame.java:191 | Two boxes intersect exactly when some pixel lies in both. Intersection is symmetric. |
| Seqs.Filter | games/MarsAttacksGame.java:160-167 | After a removal pass every survivor was in the list and meets the keep condition. The list never grows. |
| Seqs.FilterKeepsAll | games/DinoGame.java:99-106 | A removal pass never drops an element that meets the keep condition. |
| Seqs.FilterCount | games/MarsAttacksGame.java:160-167 | A removal pass keeps every copy of a value that meets the keep condition, so equal-valued bullets all survive, and no copy of one that fails it. |
| Seqs.FilterIsSubsequence | games/MarsAttacksGame.java:160-167 | The survivors of a removal pass keep their relative order. |
| Seqs.UnflaggedIsFilter | games/MarsAttacksGame.java:198-199 | Removing the objects marked during a scan equals filtering by the marking condition, when each mark records that condition. |
| Snake.HeadStep | games/SnakeGame.java:131-145 | Each heading moves the head by exactly one 25-pixel unit along one axis: U up (y decreases), D down, L left (x decreases), R right. Any other character leaves the head still. |
| Snake.Turn | games/SnakeGame.java:222-245 | An arrow key turns the snake to its own heading unless that is the opposite of the current one, in which case the heading is kept; it never turns onto the opposite heading. The heading stays in {U,D,L,R}, and only arrow keys change it. |
| Snake.ShiftBodyAt | games/SnakeGame.java:125-129 | After the shift, slot 0 is the new head and every slot 1..n (slot n included) holds its predecessor's old value. Slots above n are untouched. |
| Snake.HeadStepped | games/SnakeGame.java:124-145 | Stepping the head of a shifted body by at most one unit gives the old body shifted behind the stepped head, and keeps every coordinate of a grid-aligned body a multiple of 25. |
| Snake.GamePanel.constructor | games/SnakeGame.java:39-61 | Arrays of 576 zeros, six parts, heading R, score 0, apple on the drawn cell, and the game running. Establishes the invariant. |
| Snake.GamePanel.StartGame | games/SnakeGame.java:63-69 | Places the apple on the drawn cell and sets the game running. Body, score and heading are unchanged. |
| Snake.GamePanel.NewApple | games/SnakeGame.java:117-121 | The apple lands on the drawn cell, inside [0,600) on both axes and aligned to the grid. |
| Snake.GamePanel.Move | games/SnakeGame.java:123-146 | Each array becomes the old array shifted one slot towards the tail, behind a head stepped by HeadStep. The grid invariant is kept. Requires a free slot past the body, which the loop writes. |
| Snake.GamePanel.ShiftSegments | games/SnakeGame.java:125-129 | The in-place descending loop leaves each array equal to the old array shifted behind the old head. |
| Snake.GamePanel.CheckApple | games/SnakeGame.java:148-155 | bodyParts and applesEaten both grow by one exactly when the head is on the apple, and the apple is then redrawn. Otherwise nothing changes. `bodyParts - applesEaten == 6` is kept. |
| Snake.GamePanel.CheckCollisions | games/SnakeGame.java:157-187 | running becomes old running and not (the head equals a slot 1..bodyParts, upper end included, or the head is outside [0,600)x[0,600)). It never becomes true. |
| Snake.GamePanel.ActionPerformed | games/SnakeGame.java:208-217 | A tick while stopped changes nothing. On a running tick each array becomes the old array shifted one slot towards the tail behind the stepped head, and the slots past the old body are untouched. On an apple both counters grow by one and the apple moves to the drawn cell; otherwise counters and apple stay. The game stops exactly on a collision. The invariant and the length/score relation are kept. A tick at 576 parts stops where Java's array access throws. |
| Snake.GamePanel.KeyPressed | games/SnakeGame.java:219-246 | The heading becomes Turn(old heading, key), so it is never the opposite of the old one. The invariant is kept. |
| MarsAttacks.Bullet.Bounds | games/MarsAttacksGame.java:343-345 | The box holds exactly the pixels [x, x + width) x [y, y + height). |
| MarsAttacks.Alien.Bounds | games/MarsAttacksGame.java:381-383 | The box holds exactly the pixels [x, x + width) x [y, y + height). |
| MarsAttacks.PlayerBox | games/MarsAttacksGame.java:301-303 | The ship's box holds exactly the pixels [x, x + 40) x [540, 580). `Player.getBounds` is used only through this box. |
| MarsAttacks.MovedBullet | games/MarsAttacksGame.java:331-333 | A bullet moves strictly up; moving it back down 7 pixels gives the old bullet, so only y changes. |
| MarsAttacks.MovedAlien | games/MarsAttacksGame.java:369-371 | An alien moves strictly down; moving it back up 2 pixels gives the old alien, so only y changes. |
| MarsAttacks.Clamped | games/MarsAttacksGame.java:283-291 | The ship's x ends in [0, panelWidth - width] when it fits. A target inside that range is kept, one past the left edge gives 0, and one past the right edge gives panelWidth - width. |
| MarsAttacks.PlayerStepBounded | games/MarsAttacksGame.java:151-157 | The arrow moves of a tick keep the ship on the panel. The ship moves at most 5 pixels either way, including with both keys held. Each single held key moves it only in its own direction, and with no key held it stays put. |
| MarsAttacks.SpawnedAlien | games/MarsAttacksGame.java:210-219 | A spawned alien is 40x40, lies horizontally inside the panel at x in [0,760), and sits just above the top edge (y = -40). |
| MarsAttacks.FiredBullet | games/MarsAttacksGame.java:238-245 | A fired bullet is 5x10, its top on the ship's top edge, and centred on the ship to within half a pixel. |
| MarsAttacks.RowCountPositive | games/MarsAttacksGame.java:189-197 | A bullet scores at least once in the collision pass exactly when it overlaps some alien. |
| MarsAttacks.RemovedBulletsScored | games/MarsAttacksGame.java:186-198 | The number of overlapping pairs is at least the number of bullets the collision pass removes. |
| MarsAttacks.RemovedAliensScored | games/MarsAttacksGame.java:186-199 | The number of overlapping pairs is at least the number of aliens the collision pass removes. |
| MarsAttacks.NoHitSurvives | games/MarsAttacksGame.java:186-199 | After the collision pass no remaining bullet overlaps any remaining alien. |
| MarsAttacks.AdvanceBullets | games/MarsAttacksGame.java:159-167 | The bullet loop leaves exactly the bullets that are still on screen after climbing 7 pixels, in order. |
| MarsAttacks.AdvanceAliens | games/MarsAttacksGame.java:169-177 | Every alien drops 2 pixels. The escape flag is set exactly when some moved alien is below y = 600. |
| MarsAttacks.CheckBullet | games/MarsAttacksGame.java:190-196 | The inner loop marks the bullet exactly when it overlaps an alien, marks exactly the aliens it overlaps, and scores 10 per overlap. |
| MarsAttacks.ResolveHits | games/MarsAttacksGame.java:186-199 | The collision pass removes exactly the bullets that overlap some alien and the aliens that some bullet overlaps, keeping order, and scores 10 per overlapping pair. |
| MarsAttacks.AnyAlienTouches | games/MarsAttacksGame.java:201-207 | The contact loop reports contact exactly when some alien overlaps the ship. |
| MarsAttacks.TickKeepsInv | games/MarsAttacksGame.java:147-208 | A tick keeps the invariant. The ship stays on the panel, the spawn counter stays in [0,50), and the score stays a non-negative multiple of 10. No bullet is above the top edge. While the game is on, no alien is past the bottom or touching the ship. |
| MarsAttacks.KeysKeepInv | games/MarsAttacksGame.java:228-263 | Key presses and releases keep the invariant. |
| MarsAttacks.TickEndsGame | games/MarsAttacksGame.java:140-177 | A tick never clears gameOver, and a tick while over changes nothing. An alien that ends the tick below the bottom edge sets gameOver. |
| MarsAttacks.TickEntities | games/MarsAttacksGame.java:159-199 | After a tick every bullet is an old bullet moved up 7 pixels and still on screen. Every alien is an old alien moved down 2 pixels, or the one just spawned. |
| MarsAttacks.TickScore | games/MarsAttacksGame.java:186-199 | The score a tick adds is at least 10 per bullet and 10 per alien the collision pass removed. |
| MarsAttacks.TickSpawns | games/MarsAttacksGame.java:179-184 | The counter restarts at 0 exactly on the tick it reaches 50. On that tick exactly one alien, the spawned one, is appended. On other ticks the counter gains one and no alien is added. |
| MarsAttacks.KeyRules | games/MarsAttacksGame.java:228-252 | While playing, Space appends exactly one fired bullet and changes nothing else, and R does nothing. Once over, Space does nothing and R empties both lists and zeroes the score and counter. |
| MarsAttacks.Player.constructor | games/MarsAttacksGame.java:273-278 | The ship has the given position and size, and speed 5. |
| MarsAttacks.Player.Move | games/MarsAttacksGame.java:280-291 | x becomes the clamp of x + dx into the panel. No other field changes. |
| MarsAttacks.GamePanel.constructor | games/MarsAttacksGame.java:51-68 | Keys released, the ship at (380,540), no bullets or aliens, score and counter 0, game on. Establishes the invariant. |
| MarsAttacks.GamePanel.InitGame | games/MarsAttacksGame.java:70-88 | A new ship at the bottom centre, both lists empty, score, counter and gameOver reset. The held-key flags are left as they were. |
| MarsAttacks.GamePanel.SpawnAlien | games/MarsAttacksGame.java:210-219 | Appends exactly the spawned alien for the drawn column. |
| MarsAttacks.GamePanel.UpdateGame | games/MarsAttacksGame.java:147-208 | The new state is Tick of the old state, and the invariant is kept. |
| MarsAttacks.GamePanel.MovePlayer | games/MarsAttacksGame.java:151-157 | Only the ship's x changes: left first, then right, each clamped. |
| MarsAttacks.GamePanel.AdvanceEntities | games/MarsAttacksGame.java:159-184 | Bullets climb and are dropped off the top. Aliens drop, and an escape sets gameOver. The spawn counter runs. |
| MarsAttacks.GamePanel.EndGameIf | games/MarsAttacksGame.java:172-176 | gameOver becomes true when the condition holds and is never cleared. |
| MarsAttacks.GamePanel.CountSpawn | games/MarsAttacksGame.java:179-184 | The counter gains one, or restarts at 0 on reaching 50. An alien is appended exactly then. |
| MarsAttacks.GamePanel.CollideEntities | games/MarsAttacksGame.java:186-207 | Overlapping pairs are removed and scored. Contact between a remaining alien and the ship sets gameOver. |
| MarsAttacks.GamePanel.ActionPerformed | games/MarsAttacksGame.java:136-145 | A tick while over changes nothing. Otherwise it plays updateGame. The invariant is kept. |
| MarsAttacks.GamePanel.KeyPressed | games/MarsAttacksGame.java:228-252 | The new state is Pressed of the old state. The invariant is kept, and the ship object survives unless R restarts a finished game. |
| MarsAttacks.GamePanel.KeyReleased | games/MarsAttacksGame.java:254-263 | Releasing an arrow clears its flag, whatever the game state. Only the two key flags are in the frame, so nothing else changes. |
| Dino.Cactus.Bounds | games/DinoGame.java:228-230 | The box holds exactly the pixels [x, x + width) x [y, y + height). |
| Dino.MovedCactus | games/DinoGame.java:211-213 | A cactus with positive speed moves strictly left; sliding it back by its speed gives the old cactus, so only x changes. |
| Dino.LandingY | games/DinoGame.java:171-175 | After the clamp the dinosaur is never below its standing row. It is put on that row exactly when it reached or passed it, and otherwise keeps its row. |
| Dino.SpawnedCactus | games/DinoGame.java:117-122 | A spawned cactus has width in [20,30), height in [40,60), x = 800 and speed 5, and its bottom edge on the ground line (y + height = 300). |
| Dino.NextSpawnTimer | games/DinoGame.java:114-124 | The timer gains 20 and resets to 0 exactly when it reaches the drawn threshold 1500 + draw. It always stays below that threshold. |
| Dino.AdvanceCacti | games/DinoGame.java:98-112 | The iterator loop leaves exactly the moved cacti that are still on screen, in order. It reports a hit exactly when some moved cactus overlaps the dinosaur, a dropped one included. |
| Dino.CactusPass | games/DinoGame.java:98-106 | After the pass every cactus is an old one moved left by 5 and still on screen, keeps its spawned shape, and the survivors keep their order. |
| Dino.DroppedCactusMisses | games/DinoGame.java:103-111 | A cactus dropped off the left edge cannot overlap a dinosaur standing inside the panel. |
| Dino.Dinosaur.constructor | games/DinoGame.java:157-164 | The dinosaur has the given position, size and ground line, at rest. |
| Dino.Dinosaur.Bounds | games/DinoGame.java:190-192 | The box holds exactly the pixels [x, x + width) x [y, y + height). |
| Dino.Dinosaur.Update | games/DinoGame.java:166-176 | y ends at LandingY of the fallen row. Velocity is reset to 0 when the clamp fires, and otherwise gains 0.6. |
| Dino.Dinosaur.Jump | games/DinoGame.java:178-183 | Velocity becomes -12 only when the dinosaur is on or below its standing row. Otherwise nothing changes. |
| Dino.GamePanel.constructor | games/DinoGame.java:43-49 | The dinosaur stands on the ground, at rest, with no cacti, the game on and the timer at 0. Establishes the invariant. |
| Dino.GamePanel.InitGame | games/DinoGame.java:51-64 | A new dinosaur on the ground at rest, no cacti, gameOver cleared and the timer at 0. |
| Dino.GamePanel.ActionPerformed | games/DinoGame.java:92-127 | A tick while over changes nothing. Otherwise the dinosaur lands by LandingY and the cacti move and are dropped. gameOver is set exactly when a moved cactus overlaps the moved dinosaur. The timer runs, and a cactus is spawned exactly when it resets. The invariant is kept. |
| Dino.GamePanel.UpdateCacti | games/DinoGame.java:98-112 | The cactus list becomes the on-screen moved cacti, and contact sets gameOver. Every cactus stays well shaped and on screen. |
| Dino.GamePanel.Spawn | games/DinoGame.java:114-124 | The timer follows NextSpawnTimer. A spawned cactus is appended exactly when the timer resets. |
| Dino.GamePanel.KeyPressed | games/DinoGame.java:129-141 | While playing, only Space acts, and only by the jump rule. Once over, only R acts, restarting the game. The invariant is kept. |

## Left out

- Painting is not modelled: `paintComponent`, `draw`, `gameOver(Graphics)`, fonts, colours and `Toolkit.sync` only render.
- Windowing is not modelled: the `JFrame` subclasses, `main` and `invokeLater` only set up windows and threads.
- `javax.swing.Timer` objects are not modelled. The `running` and `gameOver` flags stand for a started or stopped timer, and one call of `ActionPerformed` is one tick.
- `java.util.Random` is not modelled. Each draw is a parameter restricted to its `nextInt` range:
  - Snake takes the apple cell on every tick, though it is used only when an apple is eaten.
  - Mars Attacks takes the spawn column.
  - Dino takes the threshold, width and height draws.
- Java's 32-bit `int` arithmetic is modelled with unbounded integers. Score, counters and coordinates would wrap only after far more ticks than a game lasts.
- AWT `Rectangle`'s overflow-safe internal arithmetic is not modelled; `Geometry.Intersects` stands for it.
- Object identity of bullets, aliens and cacti is not modelled. They are values, because each object lives in exactly one list, and `removeAll` by identity is modelled by marking positions.
- Dino.Dinosaur.Update: the row after the narrowing `y += velocityY` is the parameter `fallenY` and is not derived from `velocityY`. The velocity is a mathematical real rather than an IEEE double, so only the landing clamp and the velocity reset or gravity step are modelled.
- Snake.GamePanel.ActionPerformed: with 576 body parts Java's array access throws `ArrayIndexOutOfBoundsException` inside `move` or `checkCollisions`. The model ends the tick at the same point, leaving the state Java leaves. The exception itself is not modelled.
