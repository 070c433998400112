/** The rules of one tick and of food placement, as functions of values:
    the collision test, the new body, the placement attempt that is kept, and
    the body a reset builds. The class in module Game is specified by them. */
module Rules {
  import opened Wrappers
  import opened Grid

  /** Maximum number of candidate cells one food placement draws. */
  const MaxAttempts: nat := 100

  /** No two segments of the body share a cell. */
  predicate Distinct(body: seq<Cell>)
  {
    forall i, j :: 0 <= i < j < |body| ==> body[i] != body[j]
  }

  /** A move to `position` ends the game: off the playfield, or onto any
      segment of the body as it is before the move (its tail included). */
  predicate Collides(body: seq<Cell>, position: Cell, width: nat, height: nat)
  {
    !InBounds(position, width, height) || position in body
  }

  /** Moving into the cell the tail is about to leave still collides. */
  lemma TailCellCollides(body: seq<Cell>, h: Heading, width: nat, height: nat)
    requires body != [] && Moved(body[0], h) == body[|body| - 1]
    ensures Collides(body, Moved(body[0], h), width, height)
  {
  }

  /** The food item is eaten when the new head is on its cell. */
  predicate Eats(food: Option<Food>, head: Cell)
  {
    food.Some? && food.value.cell == head
  }

  /** The body after a move that does not collide: the new head goes in
      front, and the tail is dropped unless the move eats. */
  function NextBody(body: seq<Cell>, head: Cell, eats: bool): (next: seq<Cell>)
    requires body != []
    ensures |next| == if eats then |body| + 1 else |body|
    ensures next[0] == head
    ensures forall i :: 1 <= i < |next| ==> next[i] == body[i - 1]
  {
    if eats then [head] + body else [head] + body[..|body| - 1]
  }

  /** A move that eats grows the body by one and keeps every old segment; a
      move that does not keeps the length and loses exactly the tail cell. */
  lemma NextBodyCells(body: seq<Cell>, head: Cell, eats: bool)
    requires body != []
    ensures eats ==> multiset(NextBody(body, head, eats)) == multiset(body) + multiset{head}
    ensures !eats ==> multiset(NextBody(body, head, eats)) == multiset(body) - multiset{body[|body| - 1]} + multiset{head}
  {
    var n := |body|;
    if !eats {
      assert body == body[..n - 1] + [body[n - 1]];
      assert multiset(body) == multiset(body[..n - 1]) + multiset{body[n - 1]};
    }
  }

  /** A move that does not collide keeps the segments pairwise distinct. */
  lemma NextBodyDistinct(body: seq<Cell>, head: Cell, eats: bool)
    requires body != [] && Distinct(body) && head !in body
    ensures Distinct(NextBody(body, head, eats))
  {
    var next := NextBody(body, head, eats);
    forall i, j | 0 <= i < j < |next|
      ensures next[i] != next[j]
    {
      if i == 0 {
        assert next[j] == body[j - 1];
      } else {
        assert next[i] == body[i - 1] && next[j] == body[j - 1];
      }
    }
  }

  /** The index of the placement attempt that is kept, searching from
      attempt `i`: the first unoccupied candidate, or the last attempt. */
  function PlacementIndex(body: seq<Cell>, draws: seq<(real, real)>, width: nat, height: nat, i: nat): (k: nat)
    requires i < MaxAttempts <= |draws|
    ensures i <= k < MaxAttempts
    ensures forall j :: i <= j < k ==> Candidate(draws[j], width, height) in body
    ensures Candidate(draws[k], width, height) !in body || k == MaxAttempts - 1
    decreases MaxAttempts - i
  {
    if i == MaxAttempts - 1 || Candidate(draws[i], width, height) !in body then i
    else PlacementIndex(body, draws, width, height, i + 1)
  }

  /** Food that was placed clear of the body stays clear after a move that does not eat it. */
  lemma FoodStaysClear(body: seq<Cell>, head: Cell, food: Food)
    requires body != [] && !Eats(Some(food), head) && food.cell !in body
    ensures food.cell !in NextBody(body, head, false)
  {
    var next := NextBody(body, head, false);
    forall i | 0 <= i < |next|
      ensures next[i] != food.cell
    {
      if i > 0 {
        assert next[i] == body[i - 1];
      }
    }
  }

  /** The random inputs of one spawn, as Math.random gives them: a kind draw
      and at least 100 coordinate pairs, all in [0, 1). */
  predicate RandomDraws(r: real, draws: seq<(real, real)>)
  {
    0.0 <= r < 1.0 && MaxAttempts <= |draws| &&
    forall j :: 0 <= j < |draws| ==> 0.0 <= draws[j].0 < 1.0 && 0.0 <= draws[j].1 < 1.0
  }

  /** The kept attempt is determined by being the first free one (or the last). */
  lemma PlacementIndexIsFirstFree(body: seq<Cell>, draws: seq<(real, real)>, width: nat, height: nat, k: nat)
    requires MaxAttempts <= |draws| && k < MaxAttempts
    requires forall j :: 0 <= j < k ==> Candidate(draws[j], width, height) in body
    requires Candidate(draws[k], width, height) !in body || k == MaxAttempts - 1
    ensures PlacementIndex(body, draws, width, height, 0) == k
  {
  }

  /** The food item a spawn places: the kind from `r`, the cell of the kept attempt. */
  function Spawned(body: seq<Cell>, r: real, draws: seq<(real, real)>, width: nat, height: nat): Food
    requires MaxAttempts <= |draws|
  {
    Food(Candidate(draws[PlacementIndex(body, draws, width, height, 0)], width, height), KindFor(r))
  }

  /** A spawn avoids the body whenever one of the 100 candidates is free, and
      with a non-empty canvas it is always inside the playfield. */
  lemma SpawnedPlacement(body: seq<Cell>, r: real, draws: seq<(real, real)>, width: nat, height: nat)
    requires MaxAttempts <= |draws|
    requires forall j :: 0 <= j < |draws| ==> 0.0 <= draws[j].0 < 1.0 && 0.0 <= draws[j].1 < 1.0
    ensures (exists j :: 0 <= j < MaxAttempts && Candidate(draws[j], width, height) !in body) ==>
      Spawned(body, r, draws, width, height).cell !in body
    ensures width > 0 && height > 0 ==> InBounds(Spawned(body, r, draws, width, height).cell, width, height)
  {
    var k := PlacementIndex(body, draws, width, height, 0);
    if width > 0 && height > 0 {
      CandidateInBounds(draws[k], width, height);
    }
  }

  /** The body a reset builds: three horizontal cells, head at (StartX, CenterY), facing right. */
  function InitialBody(width: nat, height: nat): (body: seq<Cell>)
    ensures |body| == 3 && Distinct(body)
    ensures forall i :: 0 <= i < 3 ==> body[i] == Cell(width / 80 - i, height / 40)
    ensures forall i :: 1 <= i < 3 ==> body[i - 1] == Moved(body[i], Right)
  {
    var sx, cy := StartX(width), CenterY(height);
    [Cell(sx, cy), Cell(sx - 1, cy), Cell(sx - 2, cy)]
  }

  /** A move on a 10 by 10 grid with no food ahead translates the body. */
  lemma MoveExample()
    ensures var body := [Cell(5, 5), Cell(4, 5), Cell(3, 5)];
      var head := Moved(body[0], Right);
      !Collides(body, head, 200, 200) && !Eats(Some(Food(Cell(1, 1), Apple)), head) &&
      NextBody(body, head, false) == [Cell(6, 5), Cell(5, 5), Cell(4, 5)]
  {
  }

  /** The same move onto an apple grows the body by its old tail. */
  lemma EatExample()
    ensures var body := [Cell(5, 5), Cell(4, 5), Cell(3, 5)];
      var head := Moved(body[0], Right);
      Eats(Some(Food(Cell(6, 5), Apple)), head) &&
      NextBody(body, head, true) == [Cell(6, 5), Cell(5, 5), Cell(4, 5), Cell(3, 5)]
  {
  }

  /** Heading left from column 0 hits the wall. */
  lemma WallExample()
    ensures Collides([Cell(0, 5), Cell(1, 5), Cell(2, 5)], Moved(Cell(0, 5), Left), 200, 200)
  {
  }
}
