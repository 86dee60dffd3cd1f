/** The grid snake game: a 24 x 24 board of 25-pixel cells, the body held in two coordinate
    arrays that every tick shifts in place, an apple, and a direction changed by arrow keys. */
module Snake {
  import opened KeyCodes

  const SCREEN_WIDTH: int := 600
  const SCREEN_HEIGHT: int := 600
  const UNIT_SIZE: int := 25
  /** Number of cells on the board, and the capacity of each coordinate array. */
  const GAME_UNITS: int := (SCREEN_WIDTH * SCREEN_HEIGHT) / (UNIT_SIZE * UNIT_SIZE)
  const INITIAL_BODY_PARTS: int := 6

  /** The four headings the direction field can hold: up, down, left, right. */
  predicate IsHeading(d: char)
  {
    d == 'U' || d == 'D' || d == 'L' || d == 'R'
  }

  /** The heading that would turn the snake back onto itself. */
  function Opposite(d: char): char
  {
    match d
    case 'U' => 'D'
    case 'D' => 'U'
    case 'L' => 'R'
    case 'R' => 'L'
    case _ => d
  }

  /** How the head moves on one tick: one cell along exactly one axis, chosen by the
      heading; any other character leaves the head where it is. */
  function HeadStep(direction: char): (d: (int, int))
    ensures IsHeading(direction) ==>
              && (d.0 == 0 || d.1 == 0)
              && (d.0 == UNIT_SIZE || d.0 == -UNIT_SIZE || d.1 == UNIT_SIZE || d.1 == -UNIT_SIZE)
    ensures !IsHeading(direction) ==> d == (0, 0)
    ensures direction == 'L' || direction == 'R' <==> d.0 != 0
    ensures direction == 'U' || direction == 'D' <==> d.1 != 0
    ensures direction == 'U' ==> d.1 < 0
    ensures direction == 'D' ==> d.1 > 0
    ensures direction == 'L' ==> d.0 < 0
    ensures direction == 'R' ==> d.0 > 0
  {
    match direction
    case 'U' => (0, -UNIT_SIZE)
    case 'D' => (0, UNIT_SIZE)
    case 'L' => (-UNIT_SIZE, 0)
    case 'R' => (UNIT_SIZE, 0)
    case _ => (0, 0)
  }

  /** The arrow-key rule of the key adapter: an arrow key turns the snake unless it would
      reverse it; any other key leaves the heading alone. */
  function Turn(direction: char, key: int): (d: char)
    ensures IsHeading(direction) ==> IsHeading(d) && d != Opposite(direction)
    ensures d != direction ==> key in {VK_LEFT, VK_RIGHT, VK_UP, VK_DOWN}
    ensures key == VK_LEFT && direction != 'R' ==> d == 'L'
    ensures key == VK_RIGHT && direction != 'L' ==> d == 'R'
    ensures key == VK_UP && direction != 'D' ==> d == 'U'
    ensures key == VK_DOWN && direction != 'U' ==> d == 'D'
    ensures d != direction ==>
              d == (if key == VK_LEFT then 'L' else if key == VK_RIGHT then 'R'
                    else if key == VK_UP then 'U' else 'D')
  {
    if key == VK_LEFT then (if direction != 'R' then 'L' else direction)
    else if key == VK_RIGHT then (if direction != 'L' then 'R' else direction)
    else if key == VK_UP then (if direction != 'D' then 'U' else direction)
    else if key == VK_DOWN then (if direction != 'U' then 'D' else direction)
    else direction
  }

  /** One coordinate array after a move: slot 0 takes the new head and every other slot up
      to n takes its predecessor's value (ShiftBodyAt spells this out slot by slot). */
  function ShiftBody(s: seq<int>, n: nat, head: int): (r: seq<int>)
    requires n < |s|
    ensures |r| == |s|
  {
    [head] + s[..n] + s[n + 1..]
  }

  /** Slot 0 holds the new head; every slot 1..n (the slot n, one past the live body,
      included) holds its predecessor's old value; the slots beyond n are untouched. */
  lemma ShiftBodyAt(s: seq<int>, n: nat, head: int)
    requires n < |s|
    ensures ShiftBody(s, n, head)[0] == head
    ensures forall i :: 1 <= i <= n ==> ShiftBody(s, n, head)[i] == s[i - 1]
    ensures forall i :: n < i < |s| ==> ShiftBody(s, n, head)[i] == s[i]
  {
  }

  /** An array part-way through the shifting loop of move: slots above i already hold their
      predecessor's old value, slots 0..i still hold their own. */
  ghost function PartlyShifted(s: seq<int>, n: nat, i: nat): seq<int>
    requires i <= n < |s|
  {
    s[..i + 1] + s[i..n] + s[n + 1..]
  }

  lemma PartlyShiftedStart(s: seq<int>, n: nat)
    requires n < |s|
    ensures PartlyShifted(s, n, n) == s
  {
  }

  /** One iteration of the loop: slot i takes the value of slot i - 1. */
  lemma PartlyShiftedStep(s: seq<int>, n: nat, i: nat)
    requires 0 < i <= n < |s|
    ensures |PartlyShifted(s, n, i)| == |s| && PartlyShifted(s, n, i)[i - 1] == s[i - 1]
    ensures PartlyShifted(s, n, i)[i := s[i - 1]] == PartlyShifted(s, n, i - 1)
  {
  }

  /** When the loop ends, the whole body has moved back one slot behind the old head. */
  lemma PartlyShiftedDone(s: seq<int>, n: nat)
    requires n < |s|
    ensures PartlyShifted(s, n, 0) == ShiftBody(s, n, s[0])
  {
  }

  /** Every coordinate lies on a cell boundary. */
  predicate OnGrid(s: seq<int>)
  {
    forall i :: 0 <= i < |s| ==> s[i] % UNIT_SIZE == 0
  }

  /** Stepping the head of a shifted body by at most one cell gives the body shifted behind
      the stepped head, and keeps a grid-aligned body on the grid. */
  lemma HeadStepped(before: seq<int>, shifted: seq<int>, after: seq<int>, n: nat, d: int)
    requires n < |before| && OnGrid(before) && (d == 0 || d == UNIT_SIZE || d == -UNIT_SIZE)
    requires shifted == ShiftBody(before, n, before[0])
    requires after == shifted[0 := shifted[0] + d]
    ensures after == ShiftBody(before, n, before[0] + d) && OnGrid(after)
  {
  }

  /** The head cell (xs[0], ys[0]) coincides with one of the slots 1..n (upper end included). */
  predicate HitsBody(xs: seq<int>, ys: seq<int>, n: nat)
    requires n < |xs| && n < |ys|
  {
    exists i :: 1 <= i <= n && xs[i] == xs[0] && ys[i] == ys[0]
  }

  /** The head has left the board. */
  predicate OffBoard(hx: int, hy: int)
  {
    hx < 0 || hx >= SCREEN_WIDTH || hy < 0 || hy >= SCREEN_HEIGHT
  }

  /** The condition under which checkCollisions ends the game. */
  predicate Collision(xs: seq<int>, ys: seq<int>, n: nat)
    requires 0 < |xs| && 0 < |ys| && n < |xs| && n < |ys|
  {
    HitsBody(xs, ys, n) || OffBoard(xs[0], ys[0])
  }

  class GamePanel {
    /** Column and row (in pixels) of each segment; slot 0 is the head. */
    const x: array<int>
    const y: array<int>
    var bodyParts: int
    var applesEaten: int
    var appleX: int
    var appleY: int
    var direction: char
    /** Stands for the Swing timer: ticks act only while it is set. */
    var running: bool

    ghost predicate Valid()
      reads this, x, y
    {
      && x.Length == GAME_UNITS && y.Length == GAME_UNITS && x != y
      && INITIAL_BODY_PARTS <= bodyParts <= GAME_UNITS
      && bodyParts - applesEaten == INITIAL_BODY_PARTS
      && 0 <= appleX < SCREEN_WIDTH && appleX % UNIT_SIZE == 0
      && 0 <= appleY < SCREEN_HEIGHT && appleY % UNIT_SIZE == 0
      && OnGrid(x[..]) && OnGrid(y[..])
      && IsHeading(direction)
    }

    /** The panel constructor: field initialisers, then startGame. */
    constructor (appleCol: int, appleRow: int)
      requires 0 <= appleCol < SCREEN_WIDTH / UNIT_SIZE && 0 <= appleRow < SCREEN_HEIGHT / UNIT_SIZE
      ensures Valid() && fresh(x) && fresh(y)
      ensures forall i :: 0 <= i < GAME_UNITS ==> x[i] == 0 && y[i] == 0
      ensures bodyParts == INITIAL_BODY_PARTS && applesEaten == 0 && direction == 'R'
      ensures appleX == appleCol * UNIT_SIZE && appleY == appleRow * UNIT_SIZE
      ensures running
    {
      x := new int[GAME_UNITS](_ => 0);
      y := new int[GAME_UNITS](_ => 0);
      bodyParts := INITIAL_BODY_PARTS;
      applesEaten := 0;
      appleX, appleY := 0, 0;
      direction := 'R';
      running := false;
      new;
      StartGame(appleCol, appleRow);
    }

    /** Places the first apple and starts ticking. */
    method StartGame(appleCol: int, appleRow: int)
      requires Valid()
      requires 0 <= appleCol < SCREEN_WIDTH / UNIT_SIZE && 0 <= appleRow < SCREEN_HEIGHT / UNIT_SIZE
      modifies this
      ensures Valid() && running
      ensures appleX == appleCol * UNIT_SIZE && appleY == appleRow * UNIT_SIZE
      ensures bodyParts == old(bodyParts) && applesEaten == old(applesEaten) && direction == old(direction)
    {
      NewApple(appleCol, appleRow);
      running := true;
    }

    /** Puts the apple on the cell drawn by the two nextInt(24) calls. */
    method NewApple(appleCol: int, appleRow: int)
      requires 0 <= appleCol < SCREEN_WIDTH / UNIT_SIZE && 0 <= appleRow < SCREEN_HEIGHT / UNIT_SIZE
      modifies this`appleX, this`appleY
      ensures appleX == appleCol * UNIT_SIZE && appleY == appleRow * UNIT_SIZE
      ensures 0 <= appleX < SCREEN_WIDTH && appleX % UNIT_SIZE == 0
      ensures 0 <= appleY < SCREEN_HEIGHT && appleY % UNIT_SIZE == 0
    {
      appleX := appleCol * UNIT_SIZE;
      appleY := appleRow * UNIT_SIZE;
    }

    /** Shifts the body one slot towards the tail, in place and from the tail end, then steps
        the head. Slot bodyParts is written, so the arrays must have room for it. */
    method Move()
      requires Valid() && bodyParts < GAME_UNITS
      modifies x, y
      ensures Valid()
      ensures x[..] == ShiftBody(old(x[..]), bodyParts, old(x[0]) + HeadStep(direction).0)
      ensures y[..] == ShiftBody(old(y[..]), bodyParts, old(y[0]) + HeadStep(direction).1)
    {
      ghost var oldX, oldY := x[..], y[..];
      ShiftSegments();
      // The switch on direction: HeadStep gives the head's displacement.
      var step := HeadStep(direction);
      ghost var shiftedX, shiftedY := x[..], y[..];
      x[0] := x[0] + step.0;
      y[0] := y[0] + step.1;
      HeadStepped(oldX, shiftedX, x[..], bodyParts, step.0);
      HeadStepped(oldY, shiftedY, y[..], bodyParts, step.1);
    }

    /** The loop of move: for i from bodyParts down to 1, slot i takes slot i - 1. */
    method ShiftSegments()
      requires x.Length == GAME_UNITS && y.Length == GAME_UNITS && x != y
      requires 0 <= bodyParts < GAME_UNITS
      modifies x, y
      ensures x[..] == ShiftBody(old(x[..]), bodyParts, old(x[0]))
      ensures y[..] == ShiftBody(old(y[..]), bodyParts, old(y[0]))
    {
      ghost var oldX, oldY := x[..], y[..];
      var i := bodyParts;
      PartlyShiftedStart(oldX, bodyParts);
      PartlyShiftedStart(oldY, bodyParts);
      while i > 0
        invariant 0 <= i <= bodyParts
        invariant x[..] == PartlyShifted(oldX, bodyParts, i)
        invariant y[..] == PartlyShifted(oldY, bodyParts, i)
      {
        PartlyShiftedStep(oldX, bodyParts, i);
        PartlyShiftedStep(oldY, bodyParts, i);
        x[i] := x[i - 1];
        y[i] := y[i - 1];
        i := i - 1;
      }
      PartlyShiftedDone(oldX, bodyParts);
      PartlyShiftedDone(oldY, bodyParts);
    }

    /** Grows the snake and scores when the head is on the apple, then draws a new apple. */
    method CheckApple(appleCol: int, appleRow: int)
      requires Valid() && bodyParts < GAME_UNITS
      requires 0 <= appleCol < SCREEN_WIDTH / UNIT_SIZE && 0 <= appleRow < SCREEN_HEIGHT / UNIT_SIZE
      modifies this
      ensures Valid()
      ensures var ate := x[0] == old(appleX) && y[0] == old(appleY);
              && bodyParts == old(bodyParts) + (if ate then 1 else 0)
              && applesEaten == old(applesEaten) + (if ate then 1 else 0)
              && (appleX, appleY) == (if ate then (appleCol * UNIT_SIZE, appleRow * UNIT_SIZE)
                                      else (old(appleX), old(appleY)))
      ensures direction == old(direction) && running == old(running)
    {
      if x[0] == appleX && y[0] == appleY {
        bodyParts := bodyParts + 1;
        applesEaten := applesEaten + 1;
        NewApple(appleCol, appleRow);
      }
    }

    /** Ends the game when the head has hit the body (slots bodyParts down to 1) or left the
        board; never restarts it. Slot bodyParts is read, so the arrays must have room for it. */
    method CheckCollisions()
      requires Valid() && bodyParts < GAME_UNITS
      modifies this`running
      ensures Valid()
      ensures running == (old(running) && !Collision(x[..], y[..], bodyParts))
    {
      var i := bodyParts;
      while i > 0
        invariant 0 <= i <= bodyParts
        invariant running == (old(running) &&
                              !exists k :: i < k <= bodyParts && x[k] == x[0] && y[k] == y[0])
      {
        if x[0] == x[i] && y[0] == y[i] {
          running := false;
        }
        i := i - 1;
      }
      if x[0] < 0 {
        running := false;
      }
      if x[0] >= SCREEN_WIDTH {
        running := false;
      }
      if y[0] < 0 {
        running := false;
      }
      if y[0] >= SCREEN_HEIGHT {
        running := false;
      }
    }

    /** One timer tick. With 576 body parts the write (in move) or read (in checkCollisions)
        of slot bodyParts falls outside the arrays and Java aborts the tick with an
        ArrayIndexOutOfBoundsException; the model stops the tick at the same point. */
    method ActionPerformed(appleCol: int, appleRow: int)
      requires Valid()
      requires 0 <= appleCol < SCREEN_WIDTH / UNIT_SIZE && 0 <= appleRow < SCREEN_HEIGHT / UNIT_SIZE
      modifies this, x, y
      ensures Valid()
      ensures running ==> old(running)
      ensures bodyParts - applesEaten == INITIAL_BODY_PARTS
      ensures !old(running) || old(bodyParts) == GAME_UNITS ==> unchanged(this, x, y)
      ensures old(running) && old(bodyParts) < GAME_UNITS ==>
                && x[..] == ShiftBody(old(x[..]), old(bodyParts), old(x[0]) + HeadStep(direction).0)
                && y[..] == ShiftBody(old(y[..]), old(bodyParts), old(y[0]) + HeadStep(direction).1)
                && var ate := x[0] == old(appleX) && y[0] == old(appleY);
                && bodyParts == old(bodyParts) + (if ate then 1 else 0)
                && applesEaten == old(applesEaten) + (if ate then 1 else 0)
                && (appleX, appleY) == (if ate then (appleCol * UNIT_SIZE, appleRow * UNIT_SIZE)
                                        else (old(appleX), old(appleY)))
                && (running <==> bodyParts == GAME_UNITS || !Collision(x[..], y[..], bodyParts))
      ensures direction == old(direction)
    {
      if running {
        if bodyParts == GAME_UNITS {
          return;
        }
        Move();
        CheckApple(appleCol, appleRow);
        if bodyParts == GAME_UNITS {
          return;
        }
        CheckCollisions();
      }
    }

    /** The key adapter: arrow keys turn the snake, never straight back. */
    method KeyPressed(key: int)
      requires Valid()
      modifies this`direction
      ensures Valid()
      ensures direction == Turn(old(direction), key)
      ensures direction != Opposite(old(direction))
    {
      if key == VK_LEFT {
        if direction != 'R' {
          direction := 'L';
        }
      } else if key == VK_RIGHT {
        if direction != 'L' {
          direction := 'R';
        }
      } else if key == VK_UP {
        if direction != 'D' {
          direction := 'U';
        }
      } else if key == VK_DOWN {
        if direction != 'U' {
          direction := 'D';
        }
      }
    }
  }
}
