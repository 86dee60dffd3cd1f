/** The Mars Attacks arcade game: a ship at the bottom of an 800 x 600 panel that slides left
    and right and fires bullets upwards at aliens that drop from the top. Every tick moves the
    ship, advances bullets and aliens, spawns an alien every fiftieth tick, removes the
    bullet/alien pairs that collide (10 points each) and ends the game when an alien gets past
    the bottom edge or touches the ship. */
module MarsAttacks {
  import opened Geometry
  import opened KeyCodes
  import opened Seqs

  const PANEL_WIDTH: int := 800
  const PANEL_HEIGHT: int := 600
  const PLAYER_SIZE: int := 40
  /** The ship's row: PANEL_HEIGHT - 60, fixed for the whole game. */
  const PLAYER_Y: int := PANEL_HEIGHT - 60
  const PLAYER_SPEED: int := 5
  const BULLET_WIDTH: int := 5
  const BULLET_HEIGHT: int := 10
  const BULLET_SPEED: int := 7
  const ALIEN_SIZE: int := 40
  const ALIEN_SPEED: int := 2
  /** Ticks between two spawned aliens. */
  const ALIEN_SPAWN_DELAY: int := 50
  const POINTS_PER_HIT: int := 10

  datatype Bullet = Bullet(x: int, y: int, width: int, height: int)
  {
    /** getBounds: the box holding exactly the pixels from (x, y) up to, but not including,
        x + width and y + height. */
    function Bounds(): (r: Rect)
      ensures forall px, py :: Covers(r, px, py) <==> x <= px < x + width && y <= py < y + height
    {
      Rect(x, y, width, height)
    }
  }

  datatype Alien = Alien(x: int, y: int, width: int, height: int)
  {
    /** getBounds, as for a bullet. */
    function Bounds(): (r: Rect)
      ensures forall px, py :: Covers(r, px, py) <==> x <= px < x + width && y <= py < y + height
    {
      Rect(x, y, width, height)
    }
  }

  /** Bullet.update: a bullet climbs BULLET_SPEED pixels; moving it back down undoes it. */
  function MovedBullet(b: Bullet): (r: Bullet)
    ensures r.y < b.y
    ensures r.(y := r.y + BULLET_SPEED) == b
  {
    b.(y := b.y - BULLET_SPEED)
  }

  /** Alien.update: an alien drops ALIEN_SPEED pixels; moving it back up undoes it. */
  function MovedAlien(a: Alien): (r: Alien)
    ensures r.y > a.y
    ensures r.(y := r.y - ALIEN_SPEED) == a
  {
    a.(y := a.y + ALIEN_SPEED)
  }

  /** A bullet survives the bullet pass unless it has left through the top edge. */
  function OnScreen(b: Bullet): bool
  {
    !(b.y < 0)
  }

  /** Player.move on the x coordinate: add the offset, then pull the ship back inside
      [0, panelWidth - width], the left edge first. */
  function Clamped(t: int, width: int, panelWidth: int): (r: int)
    ensures width <= panelWidth ==> 0 <= r <= panelWidth - width
    ensures 0 <= t && t + width <= panelWidth ==> r == t
    ensures t + width > panelWidth ==> r == panelWidth - width
    ensures t < 0 && width <= panelWidth ==> r == 0
  {
    var x := if t < 0 then 0 else t;
    if x + width > panelWidth then panelWidth - width else x
  }

  /** The ship's column after the key-driven moves of one tick: left first, then right. */
  function PlayerStep(x: int, left: bool, right: bool): int
  {
    var x1 := if left then Clamped(x - PLAYER_SPEED, PLAYER_SIZE, PANEL_WIDTH) else x;
    if right then Clamped(x1 + PLAYER_SPEED, PLAYER_SIZE, PANEL_WIDTH) else x1
  }

  /** A tick never takes the ship off the panel, moves it at most one speed step either way
      (both keys held: left then right), and leaves it alone when no arrow key is held. */
  lemma PlayerStepBounded(x: int, left: bool, right: bool)
    requires 0 <= x <= PANEL_WIDTH - PLAYER_SIZE
    ensures var r := PlayerStep(x, left, right);
            && 0 <= r <= PANEL_WIDTH - PLAYER_SIZE
            && x - PLAYER_SPEED <= r <= x + PLAYER_SPEED
            && (!right ==> x - PLAYER_SPEED <= r <= x)
            && (!left ==> x <= r <= x + PLAYER_SPEED)
            && (!left && !right ==> r == x)
  {
  }

  /** Player.getBounds for a ship in column x on its fixed row. */
  function PlayerBox(x: int): (r: Rect)
    ensures forall px, py :: Covers(r, px, py) <==> x <= px < x + PLAYER_SIZE && PLAYER_Y <= py < PLAYER_Y + PLAYER_SIZE
  {
    Rect(x, PLAYER_Y, PLAYER_SIZE, PLAYER_SIZE)
  }

  /** spawnAlien: a 40 x 40 alien at the drawn column, just above the top edge. */
  function SpawnedAlien(column: int): (a: Alien)
    requires 0 <= column < PANEL_WIDTH - ALIEN_SIZE
    ensures a.width == ALIEN_SIZE && a.height == ALIEN_SIZE
    ensures 0 <= a.x && a.x + a.width < PANEL_WIDTH
    ensures a.y + a.height == 0
  {
    Alien(column, -ALIEN_SIZE, ALIEN_SIZE, ALIEN_SIZE)
  }

  /** The Space key's bullet: 5 x 10, its top on the ship's top edge, horizontally centred on
      the ship to within half a pixel (5 / 2 rounds the offset down to 2, so the bullet's
      centre lies half a pixel right of the ship's when the ship's width is even). */
  function FiredBullet(shipX: int, shipY: int, shipWidth: int): (b: Bullet)
    ensures b.width == BULLET_WIDTH && b.height == BULLET_HEIGHT && b.y == shipY
    ensures shipWidth >= 0 ==> 0 <= (2 * b.x + b.width) - (2 * shipX + shipWidth) <= 1
  {
    Bullet(shipX + shipWidth / 2 - BULLET_WIDTH / 2, shipY, BULLET_WIDTH, BULLET_HEIGHT)
  }

  /** Some alien has got past the bottom edge. */
  predicate AnyEscaped(aliens: seq<Alien>)
  {
    exists i :: 0 <= i < |aliens| && aliens[i].y > PANEL_HEIGHT
  }

  /** Some alien overlaps the box. */
  predicate AnyTouches(aliens: seq<Alien>, box: Rect)
  {
    exists i :: 0 <= i < |aliens| && Intersects(aliens[i].Bounds(), box)
  }

  /** The bullet overlaps some alien. */
  predicate HitsAnyAlien(b: Bullet, aliens: seq<Alien>)
  {
    exists j :: 0 <= j < |aliens| && Intersects(b.Bounds(), aliens[j].Bounds())
  }

  /** Some bullet overlaps the alien. */
  predicate ShotByAny(a: Alien, bullets: seq<Bullet>)
  {
    exists i :: 0 <= i < |bullets| && Intersects(bullets[i].Bounds(), a.Bounds())
  }

  /** Keeps the bullets that overlap none of the aliens. */
  function NotHit(aliens: seq<Alien>): Bullet -> bool
  {
    b => !HitsAnyAlien(b, aliens)
  }

  /** Keeps the aliens that none of the bullets overlaps. */
  function NotShot(bullets: seq<Bullet>): Alien -> bool
  {
    a => !ShotByAny(a, bullets)
  }

  /** Number of aliens the bullet overlaps. */
  function RowCount(b: Bullet, aliens: seq<Alien>): nat
  {
    if aliens == [] then 0
    else
      RowCount(b, aliens[..|aliens| - 1])
      + (if Intersects(b.Bounds(), aliens[|aliens| - 1].Bounds()) then 1 else 0)
  }

  /** Number of overlapping (bullet, alien) pairs: the number of times the collision pass
      adds points. */
  function PairCount(bullets: seq<Bullet>, aliens: seq<Alien>): nat
  {
    if bullets == [] then 0
    else PairCount(bullets[..|bullets| - 1], aliens) + RowCount(bullets[|bullets| - 1], aliens)
  }

  /** A bullet scores at least once exactly when it overlaps some alien. */
  lemma {:induction false} RowCountPositive(b: Bullet, aliens: seq<Alien>)
    ensures RowCount(b, aliens) > 0 <==> HitsAnyAlien(b, aliens)
  {
    if aliens != [] {
      var init := aliens[..|aliens| - 1];
      RowCountPositive(b, init);
      if HitsAnyAlien(b, init) {
        var j :| 0 <= j < |init| && Intersects(b.Bounds(), init[j].Bounds());
        assert aliens[j] == init[j];
      }
      if HitsAnyAlien(b, aliens) && !Intersects(b.Bounds(), aliens[|aliens| - 1].Bounds()) {
        var j :| 0 <= j < |aliens| && Intersects(b.Bounds(), aliens[j].Bounds());
        assert init[j] == aliens[j];
      }
    }
  }

  /** Every bullet the collision pass removes has scored at least once: the points added
      are at least 10 per removed bullet. */
  lemma {:induction false} RemovedBulletsScored(bullets: seq<Bullet>, aliens: seq<Alien>)
    ensures |bullets| - |Filter(bullets, NotHit(aliens))| <= PairCount(bullets, aliens)
  {
    if bullets != [] {
      var init, b := bullets[..|bullets| - 1], bullets[|bullets| - 1];
      assert bullets == init + [b];
      RemovedBulletsScored(init, aliens);
      FilterSnoc(init, b, NotHit(aliens));
      RowCountPositive(b, aliens);
    }
  }

  /** The aliens among s that the bullets hit, counted. */
  function ShotCount(s: seq<Alien>, bullets: seq<Bullet>): nat
  {
    |s| - |Filter(s, NotShot(bullets))|
  }

  /** Adding one bullet adds at most the number of aliens that bullet overlaps to the number
      of aliens hit. */
  lemma {:induction false} ShotCountSnoc(s: seq<Alien>, bullets: seq<Bullet>, b: Bullet)
    ensures ShotCount(s, bullets + [b]) <= ShotCount(s, bullets) + RowCount(b, s)
  {
    if s != [] {
      var init, a := s[..|s| - 1], s[|s| - 1];
      assert s == init + [a];
      ShotCountSnoc(init, bullets, b);
      FilterSnoc(init, a, NotShot(bullets));
      FilterSnoc(init, a, NotShot(bullets + [b]));
      if ShotByAny(a, bullets + [b]) && !ShotByAny(a, bullets) {
        var i :| 0 <= i < |bullets + [b]| && Intersects((bullets + [b])[i].Bounds(), a.Bounds());
      }
      if ShotByAny(a, bullets) {
        var i :| 0 <= i < |bullets| && Intersects(bullets[i].Bounds(), a.Bounds());
        assert (bullets + [b])[i] == bullets[i];
      }
    }
  }

  /** Every alien the collision pass removes has scored at least once: the points added are
      at least 10 per removed alien. */
  lemma {:induction false} RemovedAliensScored(bullets: seq<Bullet>, aliens: seq<Alien>)
    ensures |aliens| - |Filter(aliens, NotShot(bullets))| <= PairCount(bullets, aliens)
  {
    if bullets == [] {
      NoBulletsNoneShot(aliens);
    } else {
      var init, b := bullets[..|bullets| - 1], bullets[|bullets| - 1];
      assert bullets == init + [b];
      RemovedAliensScored(init, aliens);
      ShotCountSnoc(aliens, init, b);
    }
  }

  lemma {:induction false} NoBulletsNoneShot(aliens: seq<Alien>)
    ensures Filter(aliens, NotShot([])) == aliens
  {
    if aliens != [] {
      var init := aliens[..|aliens| - 1];
      NoBulletsNoneShot(init);
      FilterSnoc(init, aliens[|aliens| - 1], NotShot([]));
      assert init + [aliens[|aliens| - 1]] == aliens;
    }
  }

  /** After the collision pass no remaining bullet overlaps any remaining alien. */
  lemma NoHitSurvives(bullets: seq<Bullet>, aliens: seq<Alien>)
    ensures forall b, a :: b in Filter(bullets, NotHit(aliens)) && a in Filter(aliens, NotShot(bullets))
                       ==> !Intersects(b.Bounds(), a.Bounds())
  {
  }

  /** The bullet pass: each bullet climbs, and the ones that left through the top edge are
      collected and removed afterwards. */
  method AdvanceBullets(bullets: seq<Bullet>) returns (kept: seq<Bullet>)
    ensures kept == Filter(Map(bullets, MovedBullet), OnScreen)
  {
    var moved: seq<Bullet> := [];
    var toRemove: seq<bool> := [];
    var i := 0;
    while i < |bullets|
      invariant 0 <= i <= |bullets|
      invariant |moved| == i && |toRemove| == i
      invariant forall k :: 0 <= k < i ==> moved[k] == MovedBullet(bullets[k])
      invariant forall k :: 0 <= k < i ==> toRemove[k] == (moved[k].y < 0)
    {
      var b := MovedBullet(bullets[i]);
      moved := moved + [b];
      toRemove := toRemove + [b.y < 0];
      i := i + 1;
    }
    assert moved == Map(bullets, MovedBullet);
    UnflaggedIsFilter(moved, toRemove, OnScreen);
    kept := Unflagged(moved, toRemove);
  }

  /** The alien pass: each alien drops, and the game is lost if one is past the bottom edge. */
  method AdvanceAliens(aliens: seq<Alien>) returns (moved: seq<Alien>, escaped: bool)
    ensures moved == Map(aliens, MovedAlien)
    ensures escaped <==> AnyEscaped(moved)
  {
    moved := [];
    escaped := false;
    var i := 0;
    while i < |aliens|
      invariant 0 <= i <= |aliens|
      invariant |moved| == i
      invariant forall k :: 0 <= k < i ==> moved[k] == MovedAlien(aliens[k])
      invariant escaped <==> exists k :: 0 <= k < i && moved[k].y > PANEL_HEIGHT
    {
      var a := MovedAlien(aliens[i]);
      moved := moved + [a];
      if a.y > PANEL_HEIGHT {
        escaped := true;
      }
      i := i + 1;
    }
  }

  /** The inner loop of the collision pass for one bullet: marks the bullet if it overlaps
      any alien, marks every alien it overlaps, and scores each overlap. */
  method CheckBullet(b: Bullet, aliens: seq<Alien>, shot: seq<bool>)
      returns (hit: bool, shot': seq<bool>, points: int)
    requires |shot| == |aliens|
    ensures hit == HitsAnyAlien(b, aliens)
    ensures |shot'| == |aliens|
    ensures forall m :: 0 <= m < |aliens| ==>
              shot'[m] == (shot[m] || Intersects(b.Bounds(), aliens[m].Bounds()))
    ensures points == POINTS_PER_HIT * RowCount(b, aliens)
  {
    hit, shot', points := false, shot, 0;
    var j := 0;
    while j < |aliens|
      invariant 0 <= j <= |aliens| && |shot'| == |aliens|
      invariant hit == HitsAnyAlien(b, aliens[..j])
      invariant forall m :: 0 <= m < |aliens| ==>
                  shot'[m] == (shot[m] || (m < j && Intersects(b.Bounds(), aliens[m].Bounds())))
      invariant points == POINTS_PER_HIT * RowCount(b, aliens[..j])
    {
      assert aliens[..j + 1][..j] == aliens[..j];
      if Intersects(b.Bounds(), aliens[j].Bounds()) {
        hit := true;
        shot' := shot'[j := true];
        points := points + POINTS_PER_HIT;
      }
      assert hit == HitsAnyAlien(b, aliens[..j + 1]) by {
        if HitsAnyAlien(b, aliens[..j]) {
          var k :| 0 <= k < j && Intersects(b.Bounds(), aliens[..j][k].Bounds());
          assert aliens[..j + 1][k] == aliens[..j][k];
        }
        if HitsAnyAlien(b, aliens[..j + 1]) {
          var k :| 0 <= k < j + 1 && Intersects(b.Bounds(), aliens[..j + 1][k].Bounds());
          if k < j {
            assert aliens[..j][k] == aliens[..j + 1][k];
          }
        }
      }
      j := j + 1;
    }
    assert aliens[..j] == aliens;
  }

  /** Adding a bullet to the scanned prefix: an alien is shot by the longer prefix exactly
      when the earlier bullets or the new one overlap it. */
  lemma ShotBySnoc(a: Alien, bullets: seq<Bullet>, i: nat)
    requires i < |bullets|
    ensures ShotByAny(a, bullets[..i + 1])
            <==> ShotByAny(a, bullets[..i]) || Intersects(bullets[i].Bounds(), a.Bounds())
  {
  }

  /** The collision pass: every (bullet, alien) pair is checked for overlap; each overlap
      scores 10 and marks both, and the marked bullets and aliens are removed once the scan
      is over. */
  method ResolveHits(bullets: seq<Bullet>, aliens: seq<Alien>)
      returns (keptBullets: seq<Bullet>, keptAliens: seq<Alien>, points: int)
    ensures keptBullets == Filter(bullets, NotHit(aliens))
    ensures keptAliens == Filter(aliens, NotShot(bullets))
    ensures points == POINTS_PER_HIT * PairCount(bullets, aliens)
  {
    var bulletHit: seq<bool> := [];
    var alienHit: seq<bool> := seq(|aliens|, _ => false);
    points := 0;
    var i := 0;
    while i < |bullets|
      invariant 0 <= i <= |bullets|
      invariant |bulletHit| == i && |alienHit| == |aliens|
      invariant forall k :: 0 <= k < i ==> bulletHit[k] == HitsAnyAlien(bullets[k], aliens)
      invariant forall m :: 0 <= m < |aliens| ==> alienHit[m] == ShotByAny(aliens[m], bullets[..i])
      invariant points == POINTS_PER_HIT * PairCount(bullets[..i], aliens)
    {
      var hit, rowPoints;
      hit, alienHit, rowPoints := CheckBullet(bullets[i], aliens, alienHit);
      forall m | 0 <= m < |aliens|
        ensures alienHit[m] == ShotByAny(aliens[m], bullets[..i + 1])
      {
        ShotBySnoc(aliens[m], bullets, i);
      }
      assert bullets[..i + 1][..i] == bullets[..i];
      bulletHit := bulletHit + [hit];
      points := points + rowPoints;
      i := i + 1;
    }
    assert bullets[..i] == bullets;
    UnflaggedIsFilter(bullets, bulletHit, NotHit(aliens));
    UnflaggedIsFilter(aliens, alienHit, NotShot(bullets));
    keptBullets := Unflagged(bullets, bulletHit);
    keptAliens := Unflagged(aliens, alienHit);
  }

  /** The contact pass: the game is lost if any remaining alien overlaps the ship. */
  method AnyAlienTouches(aliens: seq<Alien>, ship: Rect) returns (touched: bool)
    ensures touched <==> AnyTouches(aliens, ship)
  {
    touched := false;
    var i := 0;
    while i < |aliens|
      invariant 0 <= i <= |aliens|
      invariant touched <==> exists k :: 0 <= k < i && Intersects(aliens[k].Bounds(), ship)
    {
      if Intersects(aliens[i].Bounds(), ship) {
        touched := true;
      }
      i := i + 1;
    }
  }

  /** The game state that the ticks and keys act on, with the ship reduced to its column
      (its row, size and speed never change). */
  datatype World = World(
    playerX: int,
    bullets: seq<Bullet>,
    aliens: seq<Alien>,
    score: int,
    gameOver: bool,
    leftPressed: bool,
    rightPressed: bool,
    spawnCounter: int)

  /** The arrow-key moves that open updateGame. */
  function Steered(w: World): World
  {
    w.(playerX := PlayerStep(w.playerX, w.leftPressed, w.rightPressed))
  }

  /** The middle of updateGame: the bullet pass, the alien pass with its escape check, and
      the spawn counter, with column the value spawnAlien would draw. */
  function Advanced(w: World, column: int): World
    requires 0 <= column < PANEL_WIDTH - ALIEN_SIZE
  {
    var moved := Map(w.aliens, MovedAlien);
    var counter := w.spawnCounter + 1;
    w.(bullets := Filter(Map(w.bullets, MovedBullet), OnScreen),
       aliens := if counter >= ALIEN_SPAWN_DELAY then moved + [SpawnedAlien(column)] else moved,
       gameOver := w.gameOver || AnyEscaped(moved),
       spawnCounter := if counter >= ALIEN_SPAWN_DELAY then 0 else counter)
  }

  /** The end of updateGame: the collision pass, which scores and removes the overlapping
      pairs, then the contact check against the ship. */
  function Collided(w: World): World
  {
    var aliens := Filter(w.aliens, NotShot(w.bullets));
    w.(bullets := Filter(w.bullets, NotHit(w.aliens)),
       aliens := aliens,
       score := w.score + POINTS_PER_HIT * PairCount(w.bullets, w.aliens),
       gameOver := w.gameOver || AnyTouches(aliens, PlayerBox(w.playerX)))
  }

  /** updateGame: one tick. */
  function Tick(w: World, column: int): World
    requires 0 <= column < PANEL_WIDTH - ALIEN_SIZE
  {
    Collided(Advanced(Steered(w), column))
  }

  /** actionPerformed: a tick acts only while the game is on. */
  function Act(w: World, column: int): World
    requires 0 <= column < PANEL_WIDTH - ALIEN_SIZE
  {
    if w.gameOver then w else Tick(w, column)
  }

  /** initGame: the ship back at the bottom centre, no bullets or aliens, score and spawn
      counter at zero. The held-key flags are not reset. */
  function Restarted(w: World): World
  {
    World(PANEL_WIDTH / 2 - PLAYER_SIZE / 2, [], [], 0, false, w.leftPressed, w.rightPressed, 0)
  }

  /** keyPressed: while playing, the arrows set their flags and Space fires; once the game is
      over, only R (restart) does anything. */
  function Pressed(w: World, key: int): World
  {
    if !w.gameOver then
      var bullets := if key == VK_SPACE
                     then w.bullets + [FiredBullet(w.playerX, PLAYER_Y, PLAYER_SIZE)]
                     else w.bullets;
      w.(leftPressed := w.leftPressed || key == VK_LEFT,
         rightPressed := w.rightPressed || key == VK_RIGHT,
         bullets := bullets)
    else if key == VK_R then Restarted(w)
    else w
  }

  /** keyReleased: an arrow's flag is cleared whatever the game state. */
  function Released(w: World, key: int): World
  {
    w.(leftPressed := w.leftPressed && key != VK_LEFT,
       rightPressed := w.rightPressed && key != VK_RIGHT)
  }

  /** What holds between events: the ship on the panel, the spawn counter below the delay,
      the score a non-negative multiple of 10, no bullet above the top edge, and, while the
      game is on, no alien past the bottom edge or touching the ship. */
  predicate Inv(w: World)
  {
    && 0 <= w.playerX <= PANEL_WIDTH - PLAYER_SIZE
    && 0 <= w.spawnCounter < ALIEN_SPAWN_DELAY
    && w.score >= 0 && w.score % POINTS_PER_HIT == 0
    && (forall b :: b in w.bullets ==> b.y >= 0)
    && (!w.gameOver ==> forall a :: a in w.aliens ==> a.y <= PANEL_HEIGHT)
    && (!w.gameOver ==> !AnyTouches(w.aliens, PlayerBox(w.playerX)))
  }

  /** A tick keeps the invariant. */
  lemma TickKeepsInv(w: World, column: int)
    requires Inv(w) && 0 <= column < PANEL_WIDTH - ALIEN_SIZE
    ensures Inv(Tick(w, column))
  {
  }

  /** Key presses and releases keep the invariant. */
  lemma KeysKeepInv(w: World, key: int)
    requires Inv(w)
    ensures Inv(Pressed(w, key)) && Inv(Released(w, key))
  {
  }

  /** A finished game stays finished: a tick never clears gameOver, and it sets it whenever an
      alien ends the tick below the bottom edge. While the game is on, a tick is a real step. */
  lemma TickEndsGame(w: World, column: int)
    requires 0 <= column < PANEL_WIDTH - ALIEN_SIZE
    ensures w.gameOver ==> Tick(w, column).gameOver && Act(w, column) == w
    ensures (exists a :: a in w.aliens && a.y + ALIEN_SPEED > PANEL_HEIGHT) ==> Tick(w, column).gameOver
  {
  }

  /** What a tick leaves: every bullet is an old bullet moved up by BULLET_SPEED and still on
      screen, and every alien is an old alien moved down by ALIEN_SPEED or the one just
      spawned; the score grows by 10 per removed bullet and per removed alien at least. */
  lemma TickEntities(w: World, column: int)
    requires 0 <= column < PANEL_WIDTH - ALIEN_SIZE
    ensures var w' := Tick(w, column);
            && (forall b :: b in w'.bullets ==>
                  b.y >= 0 && exists o :: o in w.bullets && b == o.(y := o.y - BULLET_SPEED))
            && (forall a :: a in w'.aliens ==>
                  a == SpawnedAlien(column) || exists o :: o in w.aliens && a == o.(y := o.y + ALIEN_SPEED))
  {
    var w' := Tick(w, column);
    var moved := Map(w.bullets, MovedBullet);
    var bullets := Filter(moved, OnScreen);
    var aliens := Advanced(Steered(w), column).aliens;
    var movedA := Map(w.aliens, MovedAlien);
    forall b | b in w'.bullets
      ensures b.y >= 0 && exists o :: o in w.bullets && b == o.(y := o.y - BULLET_SPEED)
    {
      assert b in bullets;
      var i :| 0 <= i < |moved| && moved[i] == b;
      assert w.bullets[i] in w.bullets;
    }
    forall a | a in w'.aliens
      ensures a == SpawnedAlien(column) || exists o :: o in w.aliens && a == o.(y := o.y + ALIEN_SPEED)
    {
      assert a in aliens;
      if a in movedA {
        var i :| 0 <= i < |movedA| && movedA[i] == a;
        assert w.aliens[i] in w.aliens;
      }
    }
  }

  /** The score a tick adds pays at least 10 for every bullet and every alien the collision
      pass removed. */
  lemma TickScore(w: World, column: int)
    requires 0 <= column < PANEL_WIDTH - ALIEN_SIZE
    ensures var bullets := Filter(Map(w.bullets, MovedBullet), OnScreen);
            var aliens := Advanced(Steered(w), column).aliens;
            var w' := Tick(w, column);
            && w'.score - w.score >= POINTS_PER_HIT * (|bullets| - |w'.bullets|)
            && w'.score - w.score >= POINTS_PER_HIT * (|aliens| - |w'.aliens|)
  {
    var bullets := Filter(Map(w.bullets, MovedBullet), OnScreen);
    var aliens := Advanced(Steered(w), column).aliens;
    RemovedBulletsScored(bullets, aliens);
    RemovedAliensScored(bullets, aliens);
  }

  /** The spawn rule: with the counter below the delay, exactly one alien (the spawned one)
      joins the list on the tick that brings the counter to 50, and the counter restarts. */
  lemma TickSpawns(w: World, column: int)
    requires Inv(w) && 0 <= column < PANEL_WIDTH - ALIEN_SIZE
    ensures var aliens := Advanced(Steered(w), column).aliens;
            && (Tick(w, column).spawnCounter == 0 <==> w.spawnCounter == ALIEN_SPAWN_DELAY - 1)
            && (w.spawnCounter == ALIEN_SPAWN_DELAY - 1 ==>
                  |aliens| == |w.aliens| + 1 && aliens[|w.aliens|] == SpawnedAlien(column))
            && (w.spawnCounter < ALIEN_SPAWN_DELAY - 1 ==>
                  |aliens| == |w.aliens| && Tick(w, column).spawnCounter == w.spawnCounter + 1)
  {
  }

  /** The keys: Space while playing appends one bullet and changes nothing else; R once the
      game is over restarts it; while playing, R does nothing and once over, Space does nothing. */
  lemma KeyRules(w: World)
    ensures !w.gameOver ==>
              Pressed(w, VK_SPACE).bullets == w.bullets + [FiredBullet(w.playerX, PLAYER_Y, PLAYER_SIZE)]
              && Pressed(w, VK_SPACE).(bullets := w.bullets) == w
              && Pressed(w, VK_R) == w
    ensures w.gameOver ==>
              && Pressed(w, VK_SPACE) == w
              && var r := Pressed(w, VK_R);
                 r.bullets == [] && r.aliens == [] && r.score == 0 && r.spawnCounter == 0 && !r.gameOver
  {
  }

  /** The player ship. Its row, size and speed never change after construction. */
  class Player {
    var x: int
    var y: int
    const width: int
    const height: int
    const speed: int

    constructor (x: int, y: int, width: int, height: int)
      ensures this.x == x && this.y == y && this.width == width && this.height == height
      ensures speed == PLAYER_SPEED
    {
      this.x, this.y := x, y;
      this.width, this.height := width, height;
      speed := PLAYER_SPEED;
    }

    /** Moves horizontally by dx and clamps to the panel; dy is accepted and ignored. */
    method Move(dx: int, dy: int, panelWidth: int)
      modifies this`x
      ensures x == Clamped(old(x) + dx, width, panelWidth)
    {
      x := x + dx;
      if x < 0 {
        x := 0;
      }
      if x + width > panelWidth {
        x := panelWidth - width;
      }
    }
  }

  class GamePanel {
    var player: Player
    var bullets: seq<Bullet>
    var aliens: seq<Alien>
    var score: int
    var gameOver: bool
    var leftPressed: bool
    var rightPressed: bool
    var alienSpawnCounter: int

    function State(): World
      reads this, player
    {
      World(player.x, bullets, aliens, score, gameOver, leftPressed, rightPressed, alienSpawnCounter)
    }

    ghost predicate Valid()
      reads this, player
    {
      && player.y == PLAYER_Y && player.width == PLAYER_SIZE && player.height == PLAYER_SIZE
      && player.speed == PLAYER_SPEED
      && Inv(State())
    }

    /** The panel constructor: field initialisers (keys released, counter 0), then initGame. */
    constructor ()
      ensures Valid() && fresh(player)
      ensures State() == World(PANEL_WIDTH / 2 - PLAYER_SIZE / 2, [], [], 0, false, false, false, 0)
    {
      leftPressed, rightPressed := false, false;
      alienSpawnCounter := 0;
      player := new Player(PANEL_WIDTH / 2 - PLAYER_SIZE / 2, PANEL_HEIGHT - 60, PLAYER_SIZE, PLAYER_SIZE);
      bullets, aliens := [], [];
      score, gameOver := 0, false;
      new;
      InitGame();
    }

    /** Starts or restarts the game with a new ship at the bottom centre. */
    method InitGame()
      modifies this
      ensures Valid() && fresh(player)
      ensures State() == Restarted(old(State()))
    {
      player := new Player(PANEL_WIDTH / 2 - PLAYER_SIZE / 2, PANEL_HEIGHT - 60, PLAYER_SIZE, PLAYER_SIZE);
      bullets := [];
      aliens := [];
      score := 0;
      gameOver := false;
      alienSpawnCounter := 0;
    }

    /** Appends an alien at the drawn column, just above the top edge. */
    method SpawnAlien(column: int)
      requires 0 <= column < PANEL_WIDTH - ALIEN_SIZE
      modifies this`aliens
      ensures aliens == old(aliens) + [SpawnedAlien(column)]
    {
      var alienWidth := ALIEN_SIZE;
      var alienHeight := ALIEN_SIZE;
      aliens := aliens + [Alien(column, -alienHeight, alienWidth, alienHeight)];
    }

    /** One tick of play; column is what spawnAlien's nextInt(760) would draw. */
    method UpdateGame(column: int)
      requires Valid() && 0 <= column < PANEL_WIDTH - ALIEN_SIZE
      modifies this, player
      ensures Valid() && player == old(player)
      ensures State() == Tick(old(State()), column)
    {
      ghost var w := State();
      MovePlayer();
      AdvanceEntities(column);
      CollideEntities();
      TickKeepsInv(w, column);
    }

    /** The bullet pass, the alien pass and the spawn counter of a tick. */
    method AdvanceEntities(column: int)
      requires 0 <= column < PANEL_WIDTH - ALIEN_SIZE
      modifies this`bullets, this`aliens, this`gameOver, this`alienSpawnCounter
      ensures State() == Advanced(old(State()), column)
    {
      bullets := AdvanceBullets(bullets);
      var escaped;
      aliens, escaped := AdvanceAliens(aliens);
      EndGameIf(escaped);
      CountSpawn(column);
    }

    /** The collision pass and the contact check of a tick. */
    method CollideEntities()
      requires player.y == PLAYER_Y && player.width == PLAYER_SIZE && player.height == PLAYER_SIZE
      modifies this`bullets, this`aliens, this`score, this`gameOver
      ensures State() == Collided(old(State()))
    {
      var points;
      bullets, aliens, points := ResolveHits(bullets, aliens);
      score := score + points;
      var touched := AnyAlienTouches(aliens, PlayerBox(player.x));
      EndGameIf(touched);
    }

    /** The arrow-key moves of a tick: left first, then right, each clamped to the panel. */
    method MovePlayer()
      requires player.width == PLAYER_SIZE && player.speed == PLAYER_SPEED
      modifies player`x
      ensures State() == Steered(old(State()))
    {
      if leftPressed {
        player.Move(-player.speed, 0, PANEL_WIDTH);
      }
      if rightPressed {
        player.Move(player.speed, 0, PANEL_WIDTH);
      }
    }

    /** Sets gameOver (and stops the timer) when the condition holds; never clears it. */
    method EndGameIf(condition: bool)
      modifies this`gameOver
      ensures gameOver == (old(gameOver) || condition)
    {
      if condition {
        gameOver := true;
      }
    }

    /** The spawn counter of a tick: counts up, and on reaching the delay spawns an alien and
        starts again from zero. */
    method CountSpawn(column: int)
      requires 0 <= column < PANEL_WIDTH - ALIEN_SIZE
      modifies this`alienSpawnCounter, this`aliens
      ensures var counter := old(alienSpawnCounter) + 1;
              && alienSpawnCounter == (if counter >= ALIEN_SPAWN_DELAY then 0 else counter)
              && aliens == old(aliens) + (if counter >= ALIEN_SPAWN_DELAY then [SpawnedAlien(column)] else [])
    {
      alienSpawnCounter := alienSpawnCounter + 1;
      if alienSpawnCounter >= ALIEN_SPAWN_DELAY {
        SpawnAlien(column);
        alienSpawnCounter := 0;
      }
    }

    /** The timer callback: plays a tick unless the game is over. */
    method ActionPerformed(column: int)
      requires Valid() && 0 <= column < PANEL_WIDTH - ALIEN_SIZE
      modifies this, player
      ensures Valid() && player == old(player)
      ensures State() == Act(old(State()), column)
    {
      if !gameOver {
        UpdateGame(column);
      }
    }

    /** The key listener's press handler. */
    method KeyPressed(key: int)
      requires Valid()
      modifies this
      ensures Valid()
      ensures State() == Pressed(old(State()), key)
      ensures key != VK_R || !old(gameOver) ==> player == old(player)
    {
      ghost var w := State();
      if !gameOver {
        if key == VK_LEFT {
          leftPressed := true;
        }
        if key == VK_RIGHT {
          rightPressed := true;
        }
        if key == VK_SPACE {
          var bulletWidth := BULLET_WIDTH;
          var bulletHeight := BULLET_HEIGHT;
          var bulletX := player.x + player.width / 2 - bulletWidth / 2;
          var bulletY := player.y;
          bullets := bullets + [Bullet(bulletX, bulletY, bulletWidth, bulletHeight)];
        }
      } else {
        if key == VK_R {
          InitGame();
        }
      }
      KeysKeepInv(w, key);
    }

    /** The key listener's release handler. */
    method KeyReleased(key: int)
      requires Valid()
      modifies this`leftPressed, this`rightPressed
      ensures Valid()
      ensures State() == Released(old(State()), key)
    {
      ghost var w := State();
      if key == VK_LEFT {
        leftPressed := false;
      }
      if key == VK_RIGHT {
        rightPressed := false;
      }
      KeysKeepInv(w, key);
    }
  }
}
