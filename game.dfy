/** The game simulation: the module-level state of the game (body, committed
    and pending headings, food, score, running flag) as the fields of one
    object, with the tick, the collision and occupancy scans, food placement,
    reset, the session transitions and the three input handlers. */
module Game {
  import opened Wrappers
  import opened Grid
  import opened Input
  import opened Rules

  class Game {
    /** Canvas size in pixels. */
    const width: nat
    const height: nat

    /** The body, head first. */
    var wyrm: seq<Cell>
    /** The committed heading and the pending one the next tick commits. */
    var direction: Heading
    var nextDirection: Heading
    var food: Option<Food>
    var score: nat
    var isGameRunning: bool

    /** The pending heading never reverses the committed one, and no two
        segments share a cell. */
    ghost predicate Valid()
      reads this
    {
      nextDirection != Opposite(direction) && Distinct(wyrm)
    }

    /** The state before the first start: no body, no food, facing right. */
    constructor (width: nat, height: nat)
      ensures this.width == width && this.height == height
      ensures wyrm == [] && direction == Right && nextDirection == Right
      ensures food == None && score == 0 && !isGameRunning
      ensures Valid()
    {
      this.width := width;
      this.height := height;
      wyrm := [];
      direction := Right;
      nextDirection := Right;
      food := None;
      score := 0;
      isGameRunning := false;
    }

    /** Whether a segment of the body is on `position`. */
    method IsPositionOccupied(position: Cell) returns (occupied: bool)
      ensures occupied <==> position in wyrm
    {
      for i := 0 to |wyrm|
        invariant forall j :: 0 <= j < i ==> wyrm[j] != position
      {
        var segment := wyrm[i];
        if position.x == segment.x && position.y == segment.y {
          return true;
        }
      }
      return false;
    }

    /** The wall test, then the scan over every segment of the current body. */
    method CheckCollision(position: Cell) returns (collided: bool)
      ensures collided <==> Collides(wyrm, position, width, height)
      ensures !InBounds(position, width, height) ==> collided
      ensures InBounds(position, width, height) ==> (collided <==> position in wyrm)
    {
      var gridWidth := (width as real) / (GridSize as real);
      var gridHeight := (height as real) / (GridSize as real);
      InBoundsIsRealBound(position, width, height);
      if position.x < 0 || position.x as real >= gridWidth ||
         position.y < 0 || position.y as real >= gridHeight {
        return true;
      }
      for i := 0 to |wyrm|
        invariant forall j :: 0 <= j < i ==> wyrm[j] != position
      {
        var segment := wyrm[i];
        if position.x == segment.x && position.y == segment.y {
          return true;
        }
      }
      return false;
    }

    /** Pick the kind once, then draw candidates until one is free or 100
        have been drawn; the last candidate is kept even if occupied. */
    method SpawnFood(r: real, draws: seq<(real, real)>)
      requires RandomDraws(r, draws)
      modifies this`food
      ensures food == Some(Spawned(wyrm, r, draws, width, height))
    {
      var foodType := KindFor(r);
      var newFood := Food(Cell(0, 0), foodType);
      var attempts := 0;
      var searching := true;
      while searching
        invariant attempts <= MaxAttempts
        invariant searching ==>
          (attempts < MaxAttempts &&
           PlacementIndex(wyrm, draws, width, height, 0) == PlacementIndex(wyrm, draws, width, height, attempts))
        invariant !searching ==>
          (1 <= attempts &&
           PlacementIndex(wyrm, draws, width, height, 0) == attempts - 1 &&
           newFood == Food(Candidate(draws[attempts - 1], width, height), foodType))
        decreases MaxAttempts - attempts
      {
        newFood := Food(Candidate(draws[attempts], width, height), foodType);
        attempts := attempts + 1;
        var occupied := IsPositionOccupied(newFood.cell);
        searching := occupied && attempts < MaxAttempts;
      }
      food := Some(newFood);
    }

    /** A fresh three-cell body, both headings right, score zero, new food. */
    method Reset(r: real, draws: seq<(real, real)>)
      requires RandomDraws(r, draws)
      modifies this
      ensures Valid()
      ensures wyrm == InitialBody(width, height)
      ensures direction == Right && nextDirection == Right && score == 0
      ensures food == Some(Spawned(wyrm, r, draws, width, height))
      ensures isGameRunning == old(isGameRunning)
    {
      var startX: int := StartX(width);
      var centerY: int := CenterY(height);
      wyrm := [Cell(startX, centerY), Cell(startX - 1, centerY), Cell(startX - 2, centerY)];
      direction := Right;
      nextDirection := Right;
      score := 0;
      SpawnFood(r, draws);
    }

    /** Start from the start screen: reset, then run. */
    method StartGame(r: real, draws: seq<(real, real)>)
      requires RandomDraws(r, draws)
      modifies this
      ensures Valid() && isGameRunning
      ensures wyrm == InitialBody(width, height)
      ensures direction == Right && nextDirection == Right && score == 0
      ensures food == Some(Spawned(wyrm, r, draws, width, height))
    {
      Reset(r, draws);
      isGameRunning := true;
    }

    /** Restart from the game-over screen: the same reinitialisation as a start. */
    method RestartGame(r: real, draws: seq<(real, real)>)
      requires RandomDraws(r, draws)
      modifies this
      ensures Valid() && isGameRunning
      ensures wyrm == InitialBody(width, height)
      ensures direction == Right && nextDirection == Right && score == 0
      ensures food == Some(Spawned(wyrm, r, draws, width, height))
    {
      Reset(r, draws);
      isGameRunning := true;
    }

    /** A collision stops the session and changes nothing else. */
    method GameOver()
      modifies this`isGameRunning
      ensures !isGameRunning
    {
      isGameRunning := false;
    }

    /** One tick: commit the pending heading, then collide, or move, or eat.
        `r` and `draws` are the random inputs of the spawn an eating move makes. */
    method Step(r: real, draws: seq<(real, real)>)
      requires Valid() && wyrm != [] && RandomDraws(r, draws)
      modifies this
      ensures Valid() && wyrm != []
      ensures direction == old(nextDirection) && nextDirection == old(nextDirection)
      ensures var head := Moved(old(wyrm)[0], old(nextDirection));
        if Collides(old(wyrm), head, width, height) then
          wyrm == old(wyrm) && score == old(score) && food == old(food) && !isGameRunning
        else if Eats(old(food), head) then
          wyrm == NextBody(old(wyrm), head, true) && isGameRunning == old(isGameRunning) &&
          score == old(score) + Points(old(food).value.kind) &&
          food == Some(Spawned(wyrm, r, draws, width, height))
        else
          wyrm == NextBody(old(wyrm), head, false) && isGameRunning == old(isGameRunning) &&
          score == old(score) && food == old(food)
    {
      direction := nextDirection;
      var head := wyrm[0];
      var newHead := Cell(head.x + DX(direction), head.y + DY(direction));
      var collided := CheckCollision(newHead);
      if collided {
        GameOver();
        return;
      }
      NextBodyDistinct(wyrm, newHead, true);
      NextBodyDistinct(wyrm, newHead, false);
      wyrm := [newHead] + wyrm;
      if food.Some? && newHead.x == food.value.cell.x && newHead.y == food.value.cell.y {
        score := score + Points(food.value.kind);
        SpawnFood(r, draws);
      } else {
        wyrm := wyrm[..|wyrm| - 1];
      }
    }

    /** Arrow keys and WASD, in any case; ignored unless the game runs. */
    method HandleKeyPress(key: string)
      requires Valid()
      modifies this`nextDirection
      ensures Valid()
      ensures nextDirection == Steer(isGameRunning, direction, old(nextDirection), KeyRequest(key))
    {
      if !isGameRunning {
        return;
      }
      var k := LowerAscii(key);
      if k == "arrowup" || k == "w" {
        if DY(direction) != 1 { nextDirection := Up; }
      } else if k == "arrowdown" || k == "s" {
        if DY(direction) != -1 { nextDirection := Down; }
      } else if k == "arrowleft" || k == "a" {
        if DX(direction) != 1 { nextDirection := Left; }
      } else if k == "arrowright" || k == "d" {
        if DX(direction) != -1 { nextDirection := Right; }
      }
    }

    /** An on-screen button carrying data-direction `name`. */
    method HandleButton(name: string)
      requires Valid()
      modifies this`nextDirection
      ensures Valid()
      ensures nextDirection == Steer(isGameRunning, direction, old(nextDirection), ButtonRequest(name))
    {
      if !isGameRunning {
        return;
      }
      if name == "up" {
        if DY(direction) != 1 { nextDirection := Up; }
      } else if name == "down" {
        if DY(direction) != -1 { nextDirection := Down; }
      } else if name == "left" {
        if DX(direction) != 1 { nextDirection := Left; }
      } else if name == "right" {
        if DX(direction) != -1 { nextDirection := Right; }
      }
    }

    /** The end of a swipe with displacement (dx, dy) in pixels. */
    method HandleTouchEnd(dx: int, dy: int)
      requires Valid()
      modifies this`nextDirection
      ensures Valid()
      ensures nextDirection == Steer(isGameRunning, direction, old(nextDirection), SwipeRequest(dx, dy))
    {
      if !isGameRunning {
        return;
      }
      if Abs(dx) > Abs(dy) {
        if Abs(dx) > SwipeThreshold {
          if dx > 0 && DX(direction) != -1 {
            nextDirection := Right;
          } else if dx < 0 && DX(direction) != 1 {
            nextDirection := Left;
          }
        }
      } else {
        if Abs(dy) > SwipeThreshold {
          if dy > 0 && DY(direction) != -1 {
            nextDirection := Down;
          } else if dy < 0 && DY(direction) != 1 {
            nextDirection := Up;
          }
        }
      }
    }
  }

  /** The start of a session on a 200 by 200 canvas, driven only through
      the contracts above: input before the start is ignored. */
  method ClientStart() returns (g: Game)
    ensures fresh(g) && g.Valid() && g.isGameRunning && g.width == 200 && g.height == 200
    ensures g.wyrm == [Cell(2, 5), Cell(1, 5), Cell(0, 5)]
    ensures g.direction == Right && g.nextDirection == Right && g.score == 0
    ensures g.food == Some(Food(Cell(0, 0), Apple))
  {
    var draws := seq(MaxAttempts, _ => (0.0, 0.0));
    assert RandomDraws(0.5, draws);
    g := new Game(200, 200);
    g.HandleButton("up");
    assert g.nextDirection == Right;
    g.StartGame(0.5, draws);
    ghost var body := [Cell(2, 5), Cell(1, 5), Cell(0, 5)];
    assert InitialBody(200, 200) == body;
    assert Candidate(draws[0], 200, 200) == Cell(0, 0) by {
      assert Scaled(0.0, 200) == 0;
    }
    assert PlacementIndex(body, draws, 200, 200, 0) == 0;
  }

  /** Two ticks of that session: a reversing swipe is ignored, the wyrm moves
      right, then a key turns it up. */
  method ClientTicks(g: Game, r: real, draws: seq<(real, real)>)
    requires g.Valid() && g.isGameRunning && g.width == 200 && g.height == 200
    requires g.wyrm == [Cell(2, 5), Cell(1, 5), Cell(0, 5)]
    requires g.direction == Right && g.nextDirection == Right && g.score == 0
    requires g.food == Some(Food(Cell(0, 0), Apple))
    requires RandomDraws(r, draws)
    modifies g
  {
    g.HandleTouchEnd(-100, 5);
    assert g.nextDirection == Right;
    g.Step(r, draws);
    assert g.wyrm == [Cell(3, 5), Cell(2, 5), Cell(1, 5)];
    assert g.score == 0 && g.isGameRunning;
    KeyRequestExamples();
    g.HandleKeyPress("W");
    assert g.nextDirection == Up;
    g.Step(r, draws);
    assert g.direction == Up && g.wyrm == [Cell(3, 4), Cell(3, 5), Cell(2, 5)];
  }
}
