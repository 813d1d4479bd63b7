/**
 Neighbour generation: the eight cells around a position, in the order the
 source's two nested loops visit them, filtered by the start cell, the water
 cells and the painted area, with a record fetched from the store for each
 cell kept.
 */
module Neighbours {
  import opened Grid
  import opened NodeStore

  /** No cell occurs twice. */
  predicate Distinct(s: seq<Coord>) {
    forall i, j :: 0 <= i < j < |s| ==> s[i] != s[j]
  }

  /** The eight surrounding cells. The outer loop runs x from -1 to 1, the inner
      one y from -1 to 1, and the cell visited is the position minus (x, y). */
  function Candidates(p: Coord): (cs: seq<Coord>)
    ensures |cs| == 8
    ensures forall c :: c in cs ==> Adjacent(c, p)
  {
    [ Coord(p.x + 1, p.y + 1), Coord(p.x + 1, p.y), Coord(p.x + 1, p.y - 1),
      Coord(p.x, p.y + 1), Coord(p.x, p.y - 1),
      Coord(p.x - 1, p.y + 1), Coord(p.x - 1, p.y), Coord(p.x - 1, p.y - 1) ]
  }

  /** A cell may be offered as a neighbour: it is not the start cell, not water,
      and has a tile painted on it. */
  predicate Admissible(c: Coord, startPos: Coord, water: set<Coord>, painted: set<Coord>) {
    c != startPos && c !in water && c in painted
  }

  /** The candidates are exactly the cells adjacent to `p`, each once. */
  lemma CandidatesAreTheAdjacentCells(p: Coord)
    ensures forall c :: c in Candidates(p) <==> Adjacent(c, p)
    ensures Distinct(Candidates(p))
  {
  }

  /** The admissible candidates, in the order they are visited. */
  function Filter(cs: seq<Coord>, startPos: Coord, water: set<Coord>, painted: set<Coord>): (kept: seq<Coord>)
    ensures forall n :: n in kept <==> n in cs && Admissible(n, startPos, water, painted)
    ensures |kept| <= |cs|
    ensures Distinct(cs) ==> Distinct(kept)
  {
    if cs == [] then []
    else
      var rest := Filter(cs[1..], startPos, water, painted);
      assert forall n :: n in cs[1..] ==> n in cs;
      if Admissible(cs[0], startPos, water, painted) then [cs[0]] + rest else rest
  }

  /** Looks up every cell of `ns` in turn, creating the records that are missing. */
  function Register(nodes: Store, ns: seq<Coord>): (store: Store)
    ensures forall k :: k in store <==> k in nodes || k in ns
    ensures forall k :: k in nodes ==> store[k] == nodes[k]
    ensures forall k :: k in store && k !in nodes ==> store[k] == NewNode(k)
    decreases |ns|
  {
    if ns == [] then nodes
    else
      var store := Register(GetNode(nodes, ns[0]).1, ns[1..]);
      assert forall n :: n in ns <==> n == ns[0] || n in ns[1..];
      store
  }

  /** The neighbours of `p`, with the store extended by a record for each.
      Result: the store and the neighbour cells. */
  function FindNeighbors(nodes: Store, p: Coord, startPos: Coord, water: set<Coord>, painted: set<Coord>)
    : (res: (Store, seq<Coord>))
    ensures forall n :: n in res.1 ==>
      Adjacent(n, p) && n != startPos && n !in water && n in painted
    ensures forall c :: Adjacent(c, p) && Admissible(c, startPos, water, painted) ==> c in res.1
    ensures |res.1| <= 8 && Distinct(res.1)
    ensures forall k :: k in res.0 <==> k in nodes || k in res.1
    ensures forall k :: k in nodes ==> res.0[k] == nodes[k]
    ensures WellKeyed(nodes) ==> WellKeyed(res.0)
  {
    CandidatesAreTheAdjacentCells(p);
    var kept := Filter(Candidates(p), startPos, water, painted);
    (Register(nodes, kept), kept)
  }
}
