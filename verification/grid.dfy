/**
 Cells of the tile grid and the pure geometry of one A* move: which cells are
 adjacent, what a move costs, the Manhattan heuristic and the corner-cutting
 test against the water cells.
 */
module Grid {

  /** A cell of the tile map. The source carries a third (layer) axis that every
      neighbour copies from its parent, so it never varies within a search. */
  datatype Coord = Coord(x: int, y: int)

  function Abs(n: int): (r: nat)
    ensures r == n || r == -n
  {
    if n < 0 then -n else n
  }

  /** `a` and `b` are distinct cells within Chebyshev distance 1 of each other. */
  predicate Adjacent(a: Coord, b: Coord) {
    && a != b
    && -1 <= a.x - b.x <= 1
    && -1 <= a.y - b.y <= 1
  }

  /** A move between `a` and `b` changes both coordinates. */
  predicate Diagonal(a: Coord, b: Coord) {
    a.x != b.x && a.y != b.y
  }

  /** Cost of the move from `current` to the adjacent cell `neighbor`: the source
      decides by the parity of the difference of the two offsets, which for unit
      offsets separates straight moves (10) from diagonal ones (14). */
  function DetermineGScore(neighbor: Coord, current: Coord): (g: int)
    ensures g == 10 || g == 14
    ensures Adjacent(neighbor, current) ==> (g == 10 <==> !Diagonal(neighbor, current))
    ensures Adjacent(neighbor, current) ==> (g == 14 <==> Diagonal(neighbor, current))
  {
    var x := current.x - neighbor.x;
    var y := current.y - neighbor.y;
    if Abs(x - y) % 2 == 1 then 10 else 14
  }

  /** The heuristic: ten times the Manhattan distance to the goal. */
  function Heuristic(p: Coord, goal: Coord): (h: nat)
    ensures h % 10 == 0
    ensures h == 0 <==> p == goal
    ensures Adjacent(p, goal) ==> h == 10 || h == 20
  {
    (Abs(p.x - goal.x) + Abs(p.y - goal.y)) * 10
  }

  /** The corner-cutting filter. The two cells probed are the neighbour's column
      on the current row and the current column on the neighbour's row; for a
      straight move they are the neighbour and the current cell themselves. */
  function ConnectedDiagonally(current: Coord, neighbor: Coord, water: set<Coord>): (ok: bool)
    ensures !ok <==> Coord(neighbor.x, current.y) in water || Coord(current.x, neighbor.y) in water
    ensures neighbor.y == current.y ==> (ok <==> neighbor !in water && current !in water)
    ensures neighbor.x == current.x ==> (ok <==> neighbor !in water && current !in water)
  {
    var direct := Coord(current.x - neighbor.x, current.y - neighbor.y);
    var first := Coord(current.x + direct.x * -1, current.y);
    var second := Coord(current.x, current.y + direct.y * -1);
    !(first in water || second in water)
  }

  /** Each of the eight unit offsets costs 14 if it is diagonal and 10 if it is straight. */
  lemma MoveCostOverAllOffsets(c: Coord)
    ensures forall dx, dy | -1 <= dx <= 1 && -1 <= dy <= 1 && (dx, dy) != (0, 0) ::
      DetermineGScore(Coord(c.x + dx, c.y + dy), c) == (if dx != 0 && dy != 0 then 14 else 10)
  {
  }

  /** A diagonal step costs less than the two straight steps it replaces. */
  lemma DiagonalCheaperThanTwoStraight(c: Coord, d: Coord)
    requires Adjacent(d, c) && Diagonal(d, c)
    ensures DetermineGScore(d, c) < DetermineGScore(Coord(d.x, c.y), c) + DetermineGScore(d, Coord(d.x, c.y))
  {
  }

  /** A diagonal move is refused when either corner cell is water, even if the
      target itself is dry. */
  lemma CornerCuttingRefused(current: Coord, neighbor: Coord, water: set<Coord>)
    requires Diagonal(neighbor, current)
    requires Coord(neighbor.x, current.y) in water || Coord(current.x, neighbor.y) in water
    ensures !ConnectedDiagonally(current, neighbor, water)
    ensures Coord(neighbor.x, current.y) != neighbor && Coord(current.x, neighbor.y) != neighbor
  {
  }
}
