/** The dinosaur runner: a dinosaur standing on the ground line of an 800 x 400 panel jumps
    over cacti that enter from the right edge at random intervals and slide left; touching
    one ends the game. */
module Dino {
  import opened Geometry
  import opened KeyCodes
  import opened Seqs

  const PANEL_WIDTH: int := 800
  const PANEL_HEIGHT: int := 400
  const GROUND_Y: int := 300
  /** Timer delay in milliseconds; also what spawnTimer gains per tick. */
  const DELAY: int := 20
  /** The spawn threshold is SPAWN_BASE plus a draw below SPAWN_SPREAD. */
  const SPAWN_BASE: int := 1500
  const SPAWN_SPREAD: int := 1000
  const CACTUS_MIN_WIDTH: int := 20
  const CACTUS_WIDTH_SPREAD: int := 10
  const CACTUS_MIN_HEIGHT: int := 40
  const CACTUS_HEIGHT_SPREAD: int := 20
  const CACTUS_SPEED: int := 5
  const DINO_X: int := 50
  const DINO_SIZE: int := 50
  const GRAVITY: real := 0.6
  const JUMP_STRENGTH: real := -12.0

  datatype Cactus = Cactus(x: int, y: int, width: int, height: int, speed: int)
  {
    /** getBounds: the box holding exactly the pixels from (x, y) up to, but not including,
        x + width and y + height. */
    function Bounds(): (r: Rect)
      ensures forall px, py :: Covers(r, px, py) <==> x <= px < x + width && y <= py < y + height
    {
      Rect(x, y, width, height)
    }
  }

  /** Cactus.update: a cactus slides left by its own speed; sliding it back undoes it. */
  function MovedCactus(c: Cactus): (r: Cactus)
    ensures c.speed > 0 ==> r.x < c.x
    ensures r.(x := r.x + c.speed) == c
  {
    c.(x := c.x - c.speed)
  }

  /** A cactus stays in the list unless its right edge has passed the left edge of the panel. */
  function OnScreen(c: Cactus): bool
  {
    !(c.x + c.width < 0)
  }

  /** Some cactus overlaps the box. */
  predicate AnyHits(cacti: seq<Cactus>, box: Rect)
  {
    exists i :: 0 <= i < |cacti| && Intersects(cacti[i].Bounds(), box)
  }

  /** The landing clamp of Dinosaur.update, with fallenY the row after y += velocityY: the
      dinosaur never ends below its standing row floor, and it is put on that row exactly
      when it has reached or passed it. */
  function LandingY(fallenY: int, floor: int): (r: int)
    ensures r <= floor
    ensures r == floor <==> fallenY >= floor
    ensures fallenY < floor ==> r == fallenY
  {
    if fallenY >= floor then floor else fallenY
  }

  /** A cactus drawn at the right edge: width 20 + nextInt(10), height 40 + nextInt(20), its
      bottom on the ground line, speed 5. */
  function SpawnedCactus(widthDraw: int, heightDraw: int): (c: Cactus)
    requires 0 <= widthDraw < CACTUS_WIDTH_SPREAD && 0 <= heightDraw < CACTUS_HEIGHT_SPREAD
    ensures CACTUS_MIN_WIDTH <= c.width < CACTUS_MIN_WIDTH + CACTUS_WIDTH_SPREAD
    ensures CACTUS_MIN_HEIGHT <= c.height < CACTUS_MIN_HEIGHT + CACTUS_HEIGHT_SPREAD
    ensures c.x == PANEL_WIDTH && c.y + c.height == GROUND_Y && c.speed == CACTUS_SPEED
  {
    var width := CACTUS_MIN_WIDTH + widthDraw;
    var height := CACTUS_MIN_HEIGHT + heightDraw;
    Cactus(PANEL_WIDTH, GROUND_Y - height, width, height, CACTUS_SPEED)
  }

  /** The spawn timer after a tick: DELAY more, or 0 when that reaches the drawn threshold
      1500 + thresholdDraw. */
  function NextSpawnTimer(timer: int, thresholdDraw: int): (r: int)
    ensures timer + DELAY > 0 ==> (r == 0 <==> timer + DELAY >= SPAWN_BASE + thresholdDraw)
    ensures r != 0 ==> r == timer + DELAY
    ensures 0 <= timer && 0 <= thresholdDraw < SPAWN_SPREAD ==> 0 <= r < SPAWN_BASE + thresholdDraw
  {
    var t := timer + DELAY;
    if t >= SPAWN_BASE + thresholdDraw then 0 else t
  }

  /** The shape every cactus in the game has: spawned at the right edge on the ground with
      speed 5, and moved only horizontally since. */
  predicate WellShaped(c: Cactus)
  {
    && CACTUS_MIN_WIDTH <= c.width < CACTUS_MIN_WIDTH + CACTUS_WIDTH_SPREAD
    && CACTUS_MIN_HEIGHT <= c.height < CACTUS_MIN_HEIGHT + CACTUS_HEIGHT_SPREAD
    && c.y + c.height == GROUND_Y && c.speed == CACTUS_SPEED
  }

  /** The cactus pass: each cactus slides left and is dropped once off the left edge; a
      cactus that overlaps the dinosaur ends the game, even one dropped in the same step. */
  method AdvanceCacti(cacti: seq<Cactus>, dinoBox: Rect) returns (kept: seq<Cactus>, hit: bool)
    ensures kept == Filter(Map(cacti, MovedCactus), OnScreen)
    ensures hit <==> AnyHits(Map(cacti, MovedCactus), dinoBox)
  {
    kept, hit := [], false;
    ghost var moved: seq<Cactus> := [];
    var i := 0;
    while i < |cacti|
      invariant 0 <= i <= |cacti| && |moved| == i
      invariant forall k :: 0 <= k < i ==> moved[k] == MovedCactus(cacti[k])
      invariant kept == Filter(moved, OnScreen)
      invariant hit <==> exists k :: 0 <= k < i && Intersects(moved[k].Bounds(), dinoBox)
    {
      var cactus := MovedCactus(cacti[i]);
      FilterSnoc(moved, cactus, OnScreen);
      moved := moved + [cactus];
      if cactus.x + cactus.width < 0 {
        // iter.remove(): the cactus is not carried over.
      } else {
        kept := kept + [cactus];
      }
      if Intersects(cactus.Bounds(), dinoBox) {
        hit := true;
      }
      i := i + 1;
    }
    assert moved == Map(cacti, MovedCactus);
  }

  /** After the cactus pass, every cactus is an old one moved left by its speed, still on
      screen, and still well shaped if it was; the survivors keep their order. */
  lemma CactusPass(cacti: seq<Cactus>)
    requires forall c :: c in cacti ==> WellShaped(c)
    ensures var kept := Filter(Map(cacti, MovedCactus), OnScreen);
            && IsSubsequence(kept, Map(cacti, MovedCactus))
            && forall c :: c in kept ==>
                 && c.x + c.width >= 0 && WellShaped(c)
                 && exists o :: o in cacti && c == o.(x := o.x - CACTUS_SPEED)
  {
    var moved := Map(cacti, MovedCactus);
    FilterIsSubsequence(moved, OnScreen);
    forall c | c in Filter(moved, OnScreen)
      ensures c.x + c.width >= 0 && WellShaped(c) && exists o :: o in cacti && c == o.(x := o.x - CACTUS_SPEED)
    {
      var i :| 0 <= i < |moved| && moved[i] == c;
      assert cacti[i] in cacti;
    }
  }

  /** A cactus that has left through the left edge cannot touch a dinosaur standing inside
      the panel, so the pass's checking of dropped cacti never ends a game by itself. */
  lemma DroppedCactusMisses(c: Cactus, dinoBox: Rect)
    requires !OnScreen(c) && dinoBox.x >= 0
    ensures !Intersects(c.Bounds(), dinoBox)
  {
  }

  /** The player's dinosaur. Its column, size and ground line never change; velocityY stands
      for the Java double. */
  class Dinosaur {
    const x: int
    var y: int
    const width: int
    const height: int
    const groundY: int
    var velocityY: real

    constructor (x: int, y: int, width: int, height: int, groundY: int)
      ensures this.x == x && this.y == y && this.width == width && this.height == height
      ensures this.groundY == groundY && velocityY == 0.0
    {
      this.x, this.y := x, y;
      this.width, this.height := width, height;
      this.groundY := groundY;
      velocityY := 0.0;
    }

    /** getBounds, as for a cactus. */
    function Bounds(): (r: Rect)
      reads this
      ensures forall px, py :: Covers(r, px, py) <==> x <= px < x + width && y <= py < y + height
    {
      Rect(x, y, width, height)
    }

    /** One tick of vertical motion. fallenY is y after the narrowing y += velocityY; gravity
        is then added, and a dinosaur at or below its standing row is put on it, at rest. */
    method Update(fallenY: int)
      modifies this`y, this`velocityY
      ensures y == LandingY(fallenY, groundY - height)
      ensures velocityY == if fallenY >= groundY - height then 0.0 else old(velocityY) + GRAVITY
    {
      y := fallenY;
      velocityY := velocityY + GRAVITY;
      if y >= groundY - height {
        y := groundY - height;
        velocityY := 0.0;
      }
    }

    /** Starts a jump, but only from the ground. */
    method Jump()
      modifies this`velocityY
      ensures velocityY == if y >= groundY - height then JUMP_STRENGTH else old(velocityY)
    {
      if y >= groundY - height {
        velocityY := JUMP_STRENGTH;
      }
    }
  }

  class GamePanel {
    var dino: Dinosaur
    var cacti: seq<Cactus>
    var gameOver: bool
    var spawnTimer: int

    /** The dinosaur in its column on the ground line, never below it; the spawn timer a
        multiple of DELAY below the largest threshold; every cactus well shaped and on screen. */
    ghost predicate Valid()
      reads this, dino
    {
      && dino.x == DINO_X && dino.width == DINO_SIZE && dino.height == DINO_SIZE
      && dino.groundY == GROUND_Y
      && dino.y <= GROUND_Y - DINO_SIZE
      && 0 <= spawnTimer < SPAWN_BASE + SPAWN_SPREAD && spawnTimer % DELAY == 0
      && (forall c :: c in cacti ==> WellShaped(c) && c.x + c.width >= 0)
    }

    /** The panel constructor: initGame. */
    constructor ()
      ensures Valid() && fresh(dino)
      ensures dino.y == GROUND_Y - DINO_SIZE && dino.velocityY == 0.0
      ensures cacti == [] && !gameOver && spawnTimer == 0
    {
      dino := new Dinosaur(DINO_X, GROUND_Y - DINO_SIZE, DINO_SIZE, DINO_SIZE, GROUND_Y);
      cacti := [];
      gameOver := false;
      spawnTimer := 0;
      new;
      InitGame();
    }

    /** Starts or restarts: a new dinosaur standing on the ground, no cacti, timer at 0. */
    method InitGame()
      modifies this
      ensures Valid() && fresh(dino)
      ensures dino.y == GROUND_Y - DINO_SIZE && dino.velocityY == 0.0
      ensures cacti == [] && !gameOver && spawnTimer == 0
    {
      dino := new Dinosaur(DINO_X, GROUND_Y - DINO_SIZE, DINO_SIZE, DINO_SIZE, GROUND_Y);
      cacti := [];
      gameOver := false;
      spawnTimer := 0;
    }

    /** The timer callback. fallenY is the dinosaur's row after y += velocityY; thresholdDraw,
        widthDraw and heightDraw are the nextInt(1000), nextInt(10) and nextInt(20) draws. */
    method ActionPerformed(fallenY: int, thresholdDraw: int, widthDraw: int, heightDraw: int)
      requires Valid()
      requires 0 <= thresholdDraw < SPAWN_SPREAD
      requires 0 <= widthDraw < CACTUS_WIDTH_SPREAD && 0 <= heightDraw < CACTUS_HEIGHT_SPREAD
      modifies this, dino
      ensures Valid() && dino == old(dino)
      ensures old(gameOver) ==> unchanged(this, dino)
      ensures !old(gameOver) ==>
                && dino.y == LandingY(fallenY, GROUND_Y - DINO_SIZE)
                && dino.velocityY == (if fallenY >= GROUND_Y - DINO_SIZE then 0.0 else old(dino.velocityY) + GRAVITY)
                && gameOver == AnyHits(Map(old(cacti), MovedCactus), dino.Bounds())
                && spawnTimer == NextSpawnTimer(old(spawnTimer), thresholdDraw)
                && cacti == Filter(Map(old(cacti), MovedCactus), OnScreen)
                            + (if spawnTimer == 0 then [SpawnedCactus(widthDraw, heightDraw)] else [])
    {
      if !gameOver {
        dino.Update(fallenY);
        UpdateCacti();
        Spawn(thresholdDraw, widthDraw, heightDraw);
      }
    }

    /** The cactus loop of a tick: moves and drops the cacti, and ends the game on contact
        with the dinosaur. */
    method UpdateCacti()
      requires forall c :: c in cacti ==> WellShaped(c)
      modifies this`cacti, this`gameOver
      ensures cacti == Filter(Map(old(cacti), MovedCactus), OnScreen)
      ensures gameOver == (old(gameOver) || AnyHits(Map(old(cacti), MovedCactus), dino.Bounds()))
      ensures forall c :: c in cacti ==> WellShaped(c) && c.x + c.width >= 0
    {
      CactusPass(cacti);
      var hit;
      cacti, hit := AdvanceCacti(cacti, dino.Bounds());
      if hit {
        gameOver := true;
      }
    }

    /** The spawn step of a tick: the timer gains DELAY and, on reaching the drawn threshold,
        a new cactus is added and the timer restarts. */
    method Spawn(thresholdDraw: int, widthDraw: int, heightDraw: int)
      requires 0 <= spawnTimer && 0 <= thresholdDraw < SPAWN_SPREAD
      requires 0 <= widthDraw < CACTUS_WIDTH_SPREAD && 0 <= heightDraw < CACTUS_HEIGHT_SPREAD
      modifies this`spawnTimer, this`cacti
      ensures spawnTimer == NextSpawnTimer(old(spawnTimer), thresholdDraw)
      ensures cacti == old(cacti) + (if spawnTimer == 0 then [SpawnedCactus(widthDraw, heightDraw)] else [])
    {
      spawnTimer := spawnTimer + DELAY;
      if spawnTimer >= SPAWN_BASE + thresholdDraw {
        var cactusWidth := CACTUS_MIN_WIDTH + widthDraw;
        var cactusHeight := CACTUS_MIN_HEIGHT + heightDraw;
        var cactus := Cactus(PANEL_WIDTH, GROUND_Y - cactusHeight, cactusWidth, cactusHeight, CACTUS_SPEED);
        cacti := cacti + [cactus];
        spawnTimer := 0;
      }
    }

    /** Space jumps while playing; R restarts once the game is over; nothing else acts. */
    method KeyPressed(key: int)
      requires Valid()
      modifies this, dino
      ensures Valid()
      ensures !old(gameOver) ==>
                && dino == old(dino) && cacti == old(cacti) && !gameOver && spawnTimer == old(spawnTimer)
                && dino.y == old(dino.y)
                && dino.velocityY == (if key == VK_SPACE && old(dino.y) >= GROUND_Y - DINO_SIZE
                                      then JUMP_STRENGTH else old(dino.velocityY))
      ensures old(gameOver) && key != VK_R ==> unchanged(this, old(dino))
      ensures old(gameOver) && key == VK_R ==>
                && fresh(dino) && dino.y == GROUND_Y - DINO_SIZE && dino.velocityY == 0.0
                && cacti == [] && !gameOver && spawnTimer == 0
    {
      if !gameOver {
        if key == VK_SPACE {
          dino.Jump();
        }
      } else {
        if key == VK_R {
          InitGame();
        }
      }
    }
  }
}
