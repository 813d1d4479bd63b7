/**
 The node store: one scoring record per cell the search has touched, created on
 first use and shared afterwards, and the re-scoring of a record when it gets a
 new parent.
 */
module NodeStore {
  import opened Wrappers
  import opened Grid

  /** The scoring record of one cell. The parent is held by its cell rather than
      by reference; the store below maps every cell to at most one record. */
  datatype Node = Node(position: Coord, parent: Option<Coord>, g: int, h: int, f: int)

  type Store = map<Coord, Node>

  /** A record as the source's constructor leaves it: no parent, all scores zero. */
  function NewNode(p: Coord): (n: Node)
    ensures n.position == p && n.parent.None?
    ensures n.g == 0 && n.h == 0 && n.f == 0
  {
    Node(p, None, 0, 0, 0)
  }

  /** Every record sits under its own cell. */
  predicate WellKeyed(nodes: Store) {
    forall k :: k in nodes ==> nodes[k].position == k
  }

  /** Returns the record for `p`, creating and registering a fresh one on first use.
      Result: the record and the store after the call. */
  function GetNode(nodes: Store, p: Coord): (res: (Node, Store))
    ensures p in res.1 && res.1[p] == res.0
    ensures res.1.Keys == nodes.Keys + {p}
    ensures forall k :: k in nodes ==> res.1[k] == nodes[k]
    ensures p in nodes ==> res.1 == nodes
    ensures p !in nodes ==> res.0 == NewNode(p) && |res.1| == |nodes| + 1
    ensures WellKeyed(nodes) ==> WellKeyed(res.1) && res.0.position == p
  {
    if p in nodes then (nodes[p], nodes)
    else
      var node := NewNode(p);
      (node, nodes[p := node])
  }

  /** A second lookup of the same cell returns the same record and leaves the
      store as the first lookup left it. */
  lemma GetNodeIdempotent(nodes: Store, p: Coord)
    ensures GetNode(GetNode(nodes, p).1, p) == GetNode(nodes, p)
    ensures GetNode(nodes, p).1 == GetNode(GetNode(nodes, p).1, p).1
  {
  }

  /** Re-scores `neighbor` as reached from `parent` at step cost `cost`: the
      parent link and G follow the move, H is the scaled Manhattan distance to
      `goal`, and F adds the new G to the record's previous F (H is not used). */
  function CalcValues(parent: Node, neighbor: Node, cost: int, goal: Coord): (r: Node)
    ensures r.position == neighbor.position
    ensures r.parent == Some(parent.position)
    ensures r.g - parent.g == cost
    ensures cost > 0 ==> r.g > parent.g
    ensures r.h == Heuristic(neighbor.position, goal)
    ensures r.h == 0 <==> neighbor.position == goal
    ensures r.f - neighbor.f == r.g
  {
    var g := parent.g + cost;
    var h := Heuristic(neighbor.position, goal);
    Node(neighbor.position, Some(parent.position), g, h, g + neighbor.f)
  }

  /** The source's F is not G + H: on a record fresh from the store, F comes out
      equal to G whatever the distance to the goal. */
  lemma CalcValuesIgnoresHeuristic(parent: Node, p: Coord, cost: int, goal: Coord)
    requires p != goal
    ensures CalcValues(parent, NewNode(p), cost, goal).f == CalcValues(parent, NewNode(p), cost, goal).g
    ensures CalcValues(parent, NewNode(p), cost, goal).f
      != CalcValues(parent, NewNode(p), cost, goal).g + CalcValues(parent, NewNode(p), cost, goal).h
  {
  }
}
