/** Grid geometry of the Wyrm game: cells, the four headings, the playfield
    bound used by the wall check, the food kinds and their weighted draw, and
    the mapping of a random draw to a candidate food cell. */
module Grid {

  /** Side of one grid cell in pixels (GRID_SIZE). */
  const GridSize: nat := 20

  /** A grid cell; coordinates are integers and may lie off the playfield. */
  datatype Cell = Cell(x: int, y: int)

  /** The four unit vectors a heading can be: (1,0), (-1,0), (0,1), (0,-1). */
  datatype Heading = Right | Left | Down | Up

  function DX(h: Heading): int
  {
    match h
    case Right => 1
    case Left => -1
    case _ => 0
  }

  function DY(h: Heading): int
  {
    match h
    case Down => 1
    case Up => -1
    case _ => 0
  }

  /** The reverse heading: the negated unit vector. */
  function Opposite(h: Heading): (o: Heading)
    ensures DX(o) == -DX(h) && DY(o) == -DY(h)
    ensures o != h
  {
    match h
    case Right => Left
    case Left => Right
    case Down => Up
    case Up => Down
  }

  /** The cell one step from `c` along `h`. */
  function Moved(c: Cell, h: Heading): Cell
  {
    Cell(c.x + DX(h), c.y + DY(h))
  }

  /** Inside the playfield: 0 <= x < width / GridSize and likewise for y. */
  predicate InBounds(c: Cell, width: nat, height: nat)
  {
    0 <= c.x && c.x * GridSize < width && 0 <= c.y && c.y * GridSize < height
  }

  /** The wall test compares a cell coordinate with the pixel size divided by
      GridSize without rounding; for integer coordinates that is InBounds. */
  lemma InBoundsIsRealBound(c: Cell, width: nat, height: nat)
    ensures InBounds(c, width, height) <==>
      0 <= c.x && (c.x as real) < (width as real) / (GridSize as real) &&
      0 <= c.y && (c.y as real) < (height as real) / (GridSize as real)
  {
  }

  /** Column of the initial head: floor(width / GridSize / 4) in real arithmetic. */
  function StartX(width: nat): (x: nat)
    ensures x == width / (4 * GridSize)
  {
    RealFloorOfQuotient(width, 4 * GridSize);
    assert (width as real) / (GridSize as real) / 4.0 == (width as real) / ((4 * GridSize) as real);
    ((width as real) / (GridSize as real) / 4.0).Floor
  }

  /** Row of the initial body: floor(height / GridSize / 2) in real arithmetic. */
  function CenterY(height: nat): (y: nat)
    ensures y == height / (2 * GridSize)
  {
    RealFloorOfQuotient(height, 2 * GridSize);
    assert (height as real) / (GridSize as real) / 2.0 == (height as real) / ((2 * GridSize) as real);
    ((height as real) / (GridSize as real) / 2.0).Floor
  }

  /** The floor of a real quotient of naturals is their integer quotient. */
  lemma RealFloorOfQuotient(n: nat, d: nat)
    requires d > 0
    ensures ((n as real) / (d as real)).Floor == n / d
  {
    var q, m := n / d, n % d;
    assert n == q * d + m && 0 <= m < d;
    assert (n as real) == (q as real) * (d as real) + (m as real);
    assert (n as real) / (d as real) == (q as real) + (m as real) / (d as real);
    assert 0.0 <= (m as real) / (d as real) < 1.0;
  }

  /** The food kinds with their point values (FOOD_TYPES). */
  datatype FoodKind = Apple | Shamrock | Mistletoe

  function Points(k: FoodKind): (p: nat)
    ensures 1 <= p <= 3
  {
    match k
    case Apple => 1
    case Shamrock => 2
    case Mistletoe => 3
  }

  /** A placed food item: its cell and its kind. */
  datatype Food = Food(cell: Cell, kind: FoodKind)

  /** The kind picked by a draw r in [0, 1): the thresholds 0.6 and 0.85. */
  function KindFor(r: real): (k: FoodKind)
    ensures 0.0 <= r < 1.0 ==> WeightBefore(k) <= r < WeightBefore(k) + Weight(k)
  {
    if r < 0.6 then Apple
    else if r < 0.85 then Shamrock
    else Mistletoe
  }

  /** The probability weight of each kind. */
  function Weight(k: FoodKind): real
  {
    match k
    case Apple => 0.6
    case Shamrock => 0.25
    case Mistletoe => 0.15
  }

  /** The total weight of the kinds listed before `k`. */
  function WeightBefore(k: FoodKind): real
  {
    match k
    case Apple => 0.0
    case Shamrock => Weight(Apple)
    case Mistletoe => Weight(Apple) + Weight(Shamrock)
  }

  /** The thresholds of KindFor cut [0, 1) into consecutive intervals whose
      lengths are the kinds' weights, and the weights sum to 1. */
  lemma KindForFollowsWeights(r: real, k: FoodKind)
    requires 0.0 <= r < 1.0
    ensures KindFor(r) == k <==> WeightBefore(k) <= r < WeightBefore(k) + Weight(k)
    ensures Weight(Apple) + Weight(Shamrock) + Weight(Mistletoe) == 1.0
  {
  }

  /** One coordinate of a candidate: floor(random * pixels / GridSize). */
  function Scaled(r: real, pixels: nat): int
  {
    (r * ((pixels as real) / (GridSize as real))).Floor
  }

  /** The candidate cell for one placement attempt, one draw per coordinate. */
  function Candidate(draw: (real, real), width: nat, height: nat): Cell
  {
    Cell(Scaled(draw.0, width), Scaled(draw.1, height))
  }

  /** Scaling by a draw in [0, 1) keeps a positive size below itself. */
  lemma ScaleBelow(r: real, g: real)
    requires 0.0 <= r < 1.0 && g > 0.0
    ensures 0.0 <= r * g < g
  {
    assert g - r * g == (1.0 - r) * g;
  }

  /** A draw in [0, 1) scales to a coordinate inside [0, pixels / GridSize). */
  lemma ScaledInRange(r: real, pixels: nat)
    requires 0.0 <= r < 1.0 && pixels > 0
    ensures 0 <= Scaled(r, pixels) && Scaled(r, pixels) * GridSize < pixels
  {
    var g := (pixels as real) / 20.0;
    ScaleBelow(r, g);
    var v := Scaled(r, pixels);
    assert (v as real) <= r * g;
    assert (v as real) * 20.0 < pixels as real;
  }

  /** With a non-empty canvas, every candidate drawn from [0, 1) passes the wall check. */
  lemma CandidateInBounds(draw: (real, real), width: nat, height: nat)
    requires 0.0 <= draw.0 < 1.0 && 0.0 <= draw.1 < 1.0
    requires width > 0 && height > 0
    ensures InBounds(Candidate(draw, width, height), width, height)
  {
    ScaledInRange(draw.0, width);
    ScaledInRange(draw.1, height);
  }
}
