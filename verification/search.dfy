/**
 The search engine: the session state, the examination of a node's neighbours,
 the move of the current node from the open to the closed set with the choice of
 the next one, the reconstruction of the path along parent links, and the driver
 loop that runs one iteration or runs to completion.
 */
module Search {
  import opened Wrappers
  import opened Grid
  import opened NodeStore
  import opened Neighbours

  /** The fields of the search component. `open` and `closed` hold cells; the
      record of each is in `nodes`. */
  datatype State = State(
    startPos: Coord,
    goalPos: Coord,
    startSet: bool,
    goalSet: bool,
    water: set<Coord>,
    nodes: Store,
    open: set<Coord>,
    closed: set<Coord>,
    current: Option<Coord>,
    path: Option<seq<Coord>>)

  /** The state before any edit: both markers at the origin and unset. */
  function InitialState(): (s: State)
    ensures s.current.None? && s.path.None? && s.nodes == map[]
    ensures !s.startSet && !s.goalSet && s.water == {}
    ensures Inv(s)
  {
    State(Coord(0, 0), Coord(0, 0), false, false, {}, map[], {}, {}, None, None)
  }

  /** Every parent is closed and has a strictly smaller G than its child. */
  predicate ParentsBelow(nodes: Store, closed: set<Coord>) {
    forall k :: k in nodes && nodes[k].parent.Some? ==>
      && nodes[k].parent.value in closed
      && nodes[k].parent.value in nodes
      && nodes[nodes[k].parent.value].g < nodes[k].g
  }

  /** What holds of every state the operations below produce. */
  predicate Inv(s: State) {
    && WellKeyed(s.nodes)
    && (forall k :: k in s.nodes ==> s.nodes[k].g >= 0)
    && ParentsBelow(s.nodes, s.closed)
    && (s.current.None? ==> s.nodes == map[] && s.path.None?)
    && (s.current.Some? ==>
          && s.open !! s.closed
          && s.open <= s.nodes.Keys
          && s.closed <= s.nodes.Keys
          && (s.current.value in s.open || s.current.value in s.closed)
          && (s.open != {} ==> s.current.value in s.open))
  }

  /** Only the root of the parent tree, `root`, is an open or closed cell without a parent. */
  predicate RootedAt(s: State, root: Coord) {
    forall k :: k in s.nodes && s.nodes[k].parent.None? && (k in s.open || k in s.closed) ==> k == root
  }

  // ---------------------------------------------------------------------------
  // Neighbour examination

  /** The neighbour `n` is given `cur` as its parent: the move is not a corner
      cut, and either `n` is open and the new route is cheaper, or `n` is neither
      open nor closed. */
  predicate Improves(nodes: Store, open: set<Coord>, closed: set<Coord>, cur: Node, n: Coord, water: set<Coord>) {
    && n in nodes
    && ConnectedDiagonally(cur.position, n, water)
    && (if n in open then cur.g + DetermineGScore(n, cur.position) < nodes[n].g else n !in closed)
  }

  /** The record `n` gets from being examined while it improves. */
  function Rescore(nodes: Store, cur: Node, n: Coord, goal: Coord): Node
    requires n in nodes
  {
    CalcValues(cur, nodes[n], DetermineGScore(n, cur.position), goal)
  }

  /** One pass of the loop body over the neighbour `n`. */
  function ExamineOne(nodes: Store, open: set<Coord>, closed: set<Coord>, cur: Node, n: Coord,
                      goal: Coord, water: set<Coord>): (res: (Store, set<Coord>))
    requires n in nodes
    ensures res.0.Keys == nodes.Keys
    ensures open <= res.1 <= open + {n}
  {
    if !ConnectedDiagonally(cur.position, n, water) then (nodes, open)
    else
      var gScore := DetermineGScore(n, cur.position);
      if n in open then
        if cur.g + gScore < nodes[n].g then (nodes[n := CalcValues(cur, nodes[n], gScore, goal)], open)
        else (nodes, open)
      else if n !in closed then (nodes[n := CalcValues(cur, nodes[n], gScore, goal)], open + {n})
      else (nodes, open)
  }

  /** What examining the single neighbour `n` does: `n` is re-scored and opened
      when it improves and is no longer improving afterwards; nothing else changes. */
  lemma ExamineOneEffect(nodes: Store, open: set<Coord>, closed: set<Coord>, cur: Node, n: Coord,
                         goal: Coord, water: set<Coord>)
    requires n in nodes
    ensures var step := ExamineOne(nodes, open, closed, cur, n, goal, water);
      && step.0.Keys == nodes.Keys
      && step.0[n] == (if Improves(nodes, open, closed, cur, n, water) then Rescore(nodes, cur, n, goal) else nodes[n])
      && !Improves(step.0, step.1, closed, cur, n, water)
      && step.1 == open + (if ConnectedDiagonally(cur.position, n, water) && n !in closed then {n} else {})
      && (forall k :: k in nodes && k != n ==> step.0[k] == nodes[k])
  {
  }

  /** `res` is what examining `nbs` from (`nodes`, `open`) must give, cell by cell. */
  ghost predicate ExaminedFrom(nodes: Store, open: set<Coord>, closed: set<Coord>, cur: Node, nbs: seq<Coord>,
                         goal: Coord, water: set<Coord>, res: (Store, set<Coord>))
  {
    && res.0.Keys == nodes.Keys
    && (forall k :: k in nodes ==>
          res.0[k] == if k in nbs && Improves(nodes, open, closed, cur, k, water) then Rescore(nodes, cur, k, goal) else nodes[k])
    && (forall k :: k in res.1 <==>
          k in open || (k in nbs && ConnectedDiagonally(cur.position, k, water) && k !in closed))
  }

  /** Examining `n` and then `tail` is examining `[n] + tail`. */
  lemma ExaminedCons(nodes: Store, open: set<Coord>, closed: set<Coord>, cur: Node, n: Coord,
                                        tail: seq<Coord>, goal: Coord, water: set<Coord>, rest: (Store, set<Coord>))
    requires n in nodes
    requires var step := ExamineOne(nodes, open, closed, cur, n, goal, water);
      ExaminedFrom(step.0, step.1, closed, cur, tail, goal, water, rest)
    ensures ExaminedFrom(nodes, open, closed, cur, [n] + tail, goal, water, rest)
  {
    var step := ExamineOne(nodes, open, closed, cur, n, goal, water);
    ExamineOneEffect(nodes, open, closed, cur, n, goal, water);
    var nbs := [n] + tail;
    assert forall k :: k in nbs <==> k == n || k in tail;
    forall k | k in nodes
      ensures rest.0[k] == if k in nbs && Improves(nodes, open, closed, cur, k, water) then Rescore(nodes, cur, k, goal) else nodes[k]
    {
      if k != n {
        assert step.0[k] == nodes[k];
        assert k in step.1 <==> k in open;
        assert Improves(step.0, step.1, closed, cur, k, water) <==> Improves(nodes, open, closed, cur, k, water);
        if k in tail && Improves(nodes, open, closed, cur, k, water) {
          assert Rescore(step.0, cur, k, goal) == Rescore(nodes, cur, k, goal);
        }
      }
    }
  }

  /** Examines the neighbours in order. Result: the store and the open set after.
      Cell by cell: a neighbour that improves is re-scored from `cur` and is open
      afterwards; every other record, closed ones included, is left as it was. */
  function ExamineNeighbors(nodes: Store, open: set<Coord>, closed: set<Coord>, cur: Node,
                            nbs: seq<Coord>, goal: Coord, water: set<Coord>): (res: (Store, set<Coord>))
    requires forall n :: n in nbs ==> n in nodes
    ensures res.0.Keys == nodes.Keys
    ensures forall k :: k in nodes ==>
      res.0[k] == if k in nbs && Improves(nodes, open, closed, cur, k, water) then Rescore(nodes, cur, k, goal) else nodes[k]
    ensures forall k :: k in res.1 <==>
      k in open || (k in nbs && ConnectedDiagonally(cur.position, k, water) && k !in closed)
    decreases |nbs|
  {
    if nbs == [] then (nodes, open)
    else
      var step := ExamineOne(nodes, open, closed, cur, nbs[0], goal, water);
      assert forall k :: k in nbs[1..] ==> k in nbs;
      ExamineOneEffect(nodes, open, closed, cur, nbs[0], goal, water);
      var rest := ExamineNeighbors(step.0, step.1, closed, cur, nbs[1..], goal, water);
      ExaminedCons(nodes, open, closed, cur, nbs[0], nbs[1..], goal, water, rest);
      assert [nbs[0]] + nbs[1..] == nbs;
      rest
  }

  /** With open and closed disjoint, as in every session: closed records are
      never touched, only cells that were neither open nor closed join the open
      set, an open record is re-scored only for a strictly cheaper route, and a
      re-scored record has `cur` as parent and G one move above it. */
  lemma ExamineNeighborsRespectsClosed(nodes: Store, open: set<Coord>, closed: set<Coord>, cur: Node,
                                       nbs: seq<Coord>, goal: Coord, water: set<Coord>)
    requires forall n :: n in nbs ==> n in nodes
    requires open !! closed
    ensures var res := ExamineNeighbors(nodes, open, closed, cur, nbs, goal, water);
      && (forall k :: k in closed && k in nodes ==> res.0[k] == nodes[k])
      && open <= res.1 && res.1 !! closed
      && (forall k :: k in res.1 && k !in open ==> k in nbs)
      && (forall k :: k in open && k in nodes && res.0[k] != nodes[k] ==>
            cur.g + DetermineGScore(k, cur.position) < nodes[k].g)
      && (forall k :: k in nodes && res.0[k] != nodes[k] ==>
            res.0[k].parent == Some(cur.position) && res.0[k].g == cur.g + DetermineGScore(k, cur.position))
  {
  }

  /** The store and the open set after the current node's neighbours have been
      found and examined (the first two statements of the loop body). */
  function Examine(s: State, painted: set<Coord>): (t: State)
    requires s.current.Some? && s.current.value in s.nodes
    ensures t == s.(nodes := t.nodes, open := t.open)
    ensures s.nodes.Keys <= t.nodes.Keys && s.open <= t.open
  {
    var cur := s.current.value;
    var found := FindNeighbors(s.nodes, cur, s.startPos, s.water, painted);
    var examined := ExamineNeighbors(found.0, s.open, s.closed, found.0[cur], found.1, s.goalPos, s.water);
    s.(nodes := examined.0, open := examined.1)
  }

  // ---------------------------------------------------------------------------
  // Choosing the next node

  /** `c` is an open cell whose F is as small as any open cell's. */
  predicate LowestF(nodes: Store, open: set<Coord>, c: Coord)
    requires open <= nodes.Keys
  {
    c in open && forall o :: o in open ==> nodes[c].f <= nodes[o].f
  }

  /** Moves the current node from the open to the closed set and, if open cells
      remain, makes one with the lowest F current. Among cells of equal F the
      choice is left open, as the source leaves it to hash-set order. */
  method UpdateCurrentTile(s: State) returns (t: State)
    requires s.current.Some? && s.open <= s.nodes.Keys
    ensures t.nodes == s.nodes
    ensures t.open == s.open - {s.current.value}
    ensures t.closed == s.closed + {s.current.value}
    ensures t.open != {} ==> t.current.Some? && LowestF(t.nodes, t.open, t.current.value)
    ensures t.open == {} ==> t.current == s.current
    ensures t == s.(open := t.open, closed := t.closed, current := t.current)
  {
    var open := s.open - {s.current.value};
    var closed := s.closed + {s.current.value};
    var next := s.current;
    if open != {} {
      var best :| best in open;
      var rest := open - {best};
      while rest != {}
        invariant rest <= open && best in open
        invariant forall o :: o in open && o !in rest ==> s.nodes[best].f <= s.nodes[o].f
        decreases rest
      {
        var o :| o in rest;
        if s.nodes[o].f < s.nodes[best].f {
          best := o;
        }
        rest := rest - {o};
      }
      next := Some(best);
    }
    t := s.(open := open, closed := closed, current := next);
  }

  // ---------------------------------------------------------------------------
  // Path reconstruction

  /** Outcome of reconstructing the path from the current node. */
  datatype PathResult =
    | NotAtGoal                   // the current node is not the goal: no path yet
    | Found(path: seq<Coord>)     // the cells after the start up to the current node
    | NullParent                  // the walk reached a node without a parent before the start cell
    | Diverges                    // the walk revisited a node, so the source's loop would not end,
                                  // or reached a parent with no record; `Inv` excludes both

  /** Each cell of `p` has the one before it (the first: `start`) as its parent. */
  predicate Linked(nodes: Store, start: Coord, p: seq<Coord>) {
    && (forall i :: 0 <= i < |p| ==> p[i] in nodes)
    && (|p| > 0 ==> nodes[p[0]].parent == Some(start))
    && (forall i :: 0 < i < |p| ==> nodes[p[i]].parent == Some(p[i - 1]))
  }

  /** Follows parent links from `pos` until the cell `stop`, listing the cells
      passed in start-to-goal order; `unvisited` holds the records not yet passed. */
  function Walk(nodes: Store, pos: Coord, stop: Coord, unvisited: set<Coord>): (r: PathResult)
    ensures !r.NotAtGoal?
    ensures r.Found? ==> stop !in r.path && Linked(nodes, stop, r.path)
    ensures r.Found? ==> (r.path == [] <==> pos == stop)
    ensures r.Found? && r.path != [] ==> r.path[|r.path| - 1] == pos
    decreases unvisited
  {
    if pos == stop then Found([])
    else if pos !in unvisited || pos !in nodes then Diverges
    else match nodes[pos].parent
      case None => NullParent
      case Some(q) =>
        var sub := Walk(nodes, q, stop, unvisited - {pos});
        if sub.Found? then
          var p := sub.path + [pos];
          assert Linked(nodes, stop, sub.path);
          assert forall i :: 0 <= i < |sub.path| ==> p[i] == sub.path[i];
          assert p[|sub.path|] == pos;
          Found(p)
        else sub
  }

  /** The path, read top to bottom of the source's stack, when the current node is
      the goal. */
  function GeneratePath(nodes: Store, current: Coord, startPos: Coord, goalPos: Coord): (r: PathResult)
    ensures r.NotAtGoal? <==> current != goalPos
    ensures r.Found? ==> startPos !in r.path && Linked(nodes, startPos, r.path)
    ensures r.Found? ==> (r.path == [] <==> goalPos == startPos)
    ensures r.Found? && r.path != [] ==> r.path[|r.path| - 1] == goalPos
  {
    if current == goalPos then Walk(nodes, current, startPos, nodes.Keys) else NotAtGoal
  }

  /** Along decreasing G the walk can never come back to a node, so it ends; when
      the start cell is the only parentless open or closed cell it ends there. */
  lemma {:induction false} WalkEnds(s: State, pos: Coord, unvisited: set<Coord>)
    requires Inv(s) && s.current.Some?
    requires pos in s.nodes && (pos in s.open || pos in s.closed)
    requires forall k :: k in s.nodes && s.nodes[k].g <= s.nodes[pos].g ==> k in unvisited
    ensures !Walk(s.nodes, pos, s.startPos, unvisited).Diverges?
    ensures RootedAt(s, s.startPos) ==> Walk(s.nodes, pos, s.startPos, unvisited).Found?
    decreases s.nodes[pos].g
  {
    if pos != s.startPos {
      assert pos in unvisited;
      match s.nodes[pos].parent
      case None =>
      case Some(q) =>
        forall k | k in s.nodes && s.nodes[k].g <= s.nodes[q].g
          ensures k in unvisited - {pos}
        {
        }
        WalkEnds(s, q, unvisited - {pos});
    }
  }

  /** Under the invariant the reconstruction never loops; in a session whose
      start cell has not moved it never reaches a missing parent either. */
  lemma GeneratePathEnds(s: State)
    requires Inv(s) && s.current.Some?
    ensures !GeneratePath(s.nodes, s.current.value, s.startPos, s.goalPos).Diverges?
    ensures RootedAt(s, s.startPos) ==> !GeneratePath(s.nodes, s.current.value, s.startPos, s.goalPos).NullParent?
  {
    if s.current.value == s.goalPos {
      WalkEnds(s, s.current.value, s.nodes.Keys);
    }
  }

  // ---------------------------------------------------------------------------
  // Initialisation and one iteration

  /** A fresh session: the start cell's record is the current node and the only
      open one; nothing is closed. */
  function Initialize(s: State): (t: State)
    requires Inv(s) && s.current.None?
    ensures Inv(t) && RootedAt(t, t.startPos)
    ensures t.current == Some(s.startPos) && t.open == {s.startPos} && t.closed == {}
    ensures t.nodes.Keys == {s.startPos} && t.nodes[s.startPos] == NewNode(s.startPos)
    ensures t == s.(nodes := t.nodes, current := t.current, open := t.open, closed := t.closed)
  {
    var got := GetNode(s.nodes, s.startPos);
    s.(nodes := got.1, current := Some(s.startPos), open := {s.startPos}, closed := {})
  }

  /** A move from `from` to `to` that the neighbour rules allow: adjacent, into a
      painted cell that is neither water nor the start, and not past a water corner. */
  predicate LegalMove(from: Coord, to: Coord, s: State, painted: set<Coord>) {
    && Adjacent(to, from)
    && ConnectedDiagonally(from, to, s.water)
    && to in painted && to !in s.water && to != s.startPos
  }

  /** Every parent link is a legal move from the parent to the child. */
  ghost predicate MovesLegal(s: State, painted: set<Coord>) {
    forall k :: k in s.nodes && s.nodes[k].parent.Some? ==> LegalMove(s.nodes[k].parent.value, k, s, painted)
  }

  /** Every legal move out of a closed cell lands on an open or closed cell, and
      the start cell is one of them: the closed cells have all been expanded. */
  ghost predicate Frontier(s: State, painted: set<Coord>) {
    && (s.startPos in s.open || s.startPos in s.closed)
    && (forall k, m :: k in s.closed && LegalMove(k, m, s, painted) ==> m in s.open || m in s.closed)
  }

  /** A session on an unchanged grid: the start is the root of the parent tree,
      parent links are legal moves and a stored path leads to the goal. */
  ghost predicate Grounded(s: State, painted: set<Coord>) {
    && RootedAt(s, s.startPos)
    && MovesLegal(s, painted)
    && PathLeadsToGoal(s)
  }

  /** A grounded session whose closed cells have been expanded, and in which the
      goal has neither become current nor been closed without the path being
      stored (unless the goal is the start, which the search reports only when
      the start has nothing to open, leaving it current with an empty path). */
  ghost predicate Sound(s: State, painted: set<Coord>) {
    && Grounded(s, painted)
    && Frontier(s, painted)
    && (s.goalPos in s.closed ==> s.path.Some? || s.goalPos == s.startPos)
    && (s.current == Some(s.goalPos) ==> s.path.Some? || s.goalPos == s.startPos)
  }

  /** What examining the current cell `c` does to the store and the open set,
      record by record: each is unchanged, freshly created, or re-scored with
      `c` as parent; the open set grows only by cells that were re-scored so. */
  ghost predicate Expanded(s: State, c: Coord, e: State, painted: set<Coord>) {
    && s.nodes.Keys <= e.nodes.Keys
    && c in e.nodes && c in s.nodes && e.nodes[c] == s.nodes[c]
    && (forall k :: k in e.nodes ==> e.nodes[k].position == k)
    && (forall k :: k in e.nodes ==>
          || (k in s.nodes && e.nodes[k] == s.nodes[k])
          || (k !in s.nodes && e.nodes[k].parent.None? && e.nodes[k].g == 0)
          || (&& k !in s.closed && k != c && e.nodes[k].parent == Some(c) && e.nodes[k].g > s.nodes[c].g
              && LegalMove(c, k, s, painted)))
    && s.open <= e.open
    && (forall m :: LegalMove(c, m, s, painted) ==> m in e.open || m in s.closed)
    && (forall k :: k in e.open ==>
          && k in e.nodes
          && (k in s.open || (k in painted && k !in s.closed && k != c && e.nodes[k].parent == Some(c))))
    && e == s.(nodes := e.nodes, open := e.open)
  }

  /** Finding and examining the current cell's neighbours is such an expansion. */
  lemma ExamineExpands(s: State, painted: set<Coord>)
    requires Inv(s) && s.current.Some? && s.current.value in s.open
    ensures Expanded(s, s.current.value, Examine(s, painted), painted)
  {
    var c := s.current.value;
    var found := FindNeighbors(s.nodes, c, s.startPos, s.water, painted);
    var cur := found.0[c];
    assert cur == s.nodes[c];
    var e := Examine(s, painted);
    var ex := ExamineNeighbors(found.0, s.open, s.closed, cur, found.1, s.goalPos, s.water);
    assert e.nodes == ex.0 && e.open == ex.1;
    assert c !in found.1;
    forall k | k in e.nodes
      ensures || (k in s.nodes && e.nodes[k] == s.nodes[k])
              || (k !in s.nodes && e.nodes[k].parent.None? && e.nodes[k].g == 0)
              || (&& k !in s.closed && k != c && e.nodes[k].parent == Some(c) && e.nodes[k].g > s.nodes[c].g
                  && LegalMove(c, k, s, painted))
      ensures e.nodes[k].position == k
    {
      if k in found.1 && Improves(found.0, s.open, s.closed, cur, k, s.water) {
        assert e.nodes[k] == Rescore(found.0, cur, k, s.goalPos);
      } else if k !in s.nodes {
        assert found.0[k] == NewNode(k);
      }
    }
    forall m | LegalMove(c, m, s, painted)
      ensures m in e.open || m in s.closed
    {
      assert m in found.1;
    }
    forall k | k in e.open
      ensures k in e.nodes && (k in s.open || (k in painted && k !in s.closed && k != c && e.nodes[k].parent == Some(c)))
    {
      if k !in s.open {
        assert Improves(found.0, s.open, s.closed, cur, k, s.water);
      }
    }
  }

  /** The state after an expansion of the current cell and its move to the closed
      set, before the next cell is chosen, keeps everything the invariant asks of it. */
  lemma ExpandKeepsInvariant(s: State, c: Coord, e: State, painted: set<Coord>)
    requires Inv(s) && s.current == Some(c) && c in s.open
    requires Expanded(s, c, e, painted)
    ensures && WellKeyed(e.nodes)
            && (forall k :: k in e.nodes ==> e.nodes[k].g >= 0)
            && ParentsBelow(e.nodes, s.closed + {c})
            && (e.open - {c}) !! (s.closed + {c})
            && e.open <= e.nodes.Keys
            && s.closed + {c} <= e.nodes.Keys
            && e.open <= s.open + painted
  {
  }

  /** The same step keeps the start cell the only parentless open or closed one. */
  lemma ExpandKeepsRoot(s: State, c: Coord, e: State, painted: set<Coord>)
    requires Inv(s) && s.current == Some(c) && c in s.open
    requires Expanded(s, c, e, painted)
    requires RootedAt(s, s.startPos)
    ensures RootedAt(e.(open := e.open - {c}, closed := s.closed + {c}), s.startPos)
  {
  }

  /** With the grid unchanged, the same step keeps every parent link a legal move. */
  lemma ExpandKeepsMovesLegal(s: State, c: Coord, e: State, painted: set<Coord>)
    requires Inv(s) && s.current == Some(c) && c in s.open
    requires Expanded(s, c, e, painted)
    requires MovesLegal(s, painted)
    ensures MovesLegal(e, painted)
  {
  }

  /** With the grid unchanged, closing the expanded cell keeps the closed cells expanded. */
  lemma AdvanceKeepsFrontier(s: State, c: Coord, e: State, u: State, painted: set<Coord>)
    requires Inv(s) && s.current == Some(c) && c in s.open
    requires Expanded(s, c, e, painted)
    requires u == e.(open := e.open - {c}, closed := e.closed + {c}, current := u.current)
    requires Frontier(s, painted)
    ensures Frontier(u, painted)
  {
  }

  /** |(painted + open) - closed| is the number of cells the run may still close. */
  function Remaining(s: State, painted: set<Coord>): nat {
    |(painted + s.open) - s.closed|
  }

  lemma RemainingShrinks(s: State, t: State, painted: set<Coord>, c: Coord)
    requires c in s.open && c !in s.closed
    requires t.open <= s.open + painted && t.closed == s.closed + {c}
    ensures Remaining(t, painted) < Remaining(s, painted)
  {
    var a := (painted + t.open) - t.closed;
    var b := (painted + s.open) - s.closed;
    assert a <= b - {c};
    SubsetCardinality(a, b - {c});
  }

  lemma {:induction false} SubsetCardinality<T>(a: set<T>, b: set<T>)
    requires a <= b
    ensures |a| <= |b|
    decreases a
  {
    if a != {} {
      var x :| x in a;
      SubsetCardinality(a - {x}, b - {x});
    }
  }

  /** An expansion of the current cell followed by the move to the closed set and
      the choice of the next current cell keeps the invariant, the root and the
      legality of the parent links, and leaves fewer cells to close. */
  lemma AdvanceKeeps(s: State, c: Coord, e: State, u: State, painted: set<Coord>)
    requires Inv(s) && s.current == Some(c) && c in s.open
    requires Expanded(s, c, e, painted)
    requires u == e.(open := e.open - {c}, closed := e.closed + {c}, current := u.current)
    requires u.open != {} ==> u.current.Some? && u.current.value in u.open
    requires u.open == {} ==> u.current == e.current
    ensures Inv(u) && u.current.Some? && SameGrid(s, u) && u.path == s.path
    ensures u.open <= s.open + painted
    ensures Remaining(u, painted) < Remaining(s, painted)
    ensures RootedAt(s, s.startPos) ==> RootedAt(u, u.startPos)
    ensures MovesLegal(s, painted) ==> MovesLegal(u, painted)
  {
    ExpandKeepsInvariant(s, c, e, painted);
    if RootedAt(s, s.startPos) {
      ExpandKeepsRoot(s, c, e, painted);
    }
    if MovesLegal(s, painted) {
      ExpandKeepsMovesLegal(s, c, e, painted);
    }
    RemainingShrinks(s, u, painted, c);
  }

  /** Storing what the reconstruction found keeps the invariant and the grid.
      With the start as root and legal links, the stored path leads to the goal;
      and a sound session stays sound, since the goal becoming current stores the
      path and the only cell closed by the step was current before it. */
  lemma RecordKeeps(s: State, u: State, pr: PathResult, v: State, painted: set<Coord>)
    requires Inv(u) && u.current.Some? && s.current.Some?
    requires pr == GeneratePath(u.nodes, u.current.value, u.startPos, u.goalPos) && (pr.Found? || pr.NotAtGoal?)
    requires v == u.(path := if pr.Found? then Some(pr.path) else None)
    ensures Inv(v) && PathRecorded(v) && SameGrid(u, v) && PathLeadsToGoal(v)
    ensures Advanced(s, u, painted) ==> Advanced(s, v, painted)
    ensures RootedAt(u, u.startPos) && MovesLegal(u, painted) ==> Grounded(v, painted)
    ensures && Sound(s, painted) && s.path.None? && SameGrid(s, u)
            && u.closed == s.closed + {s.current.value}
            && RootedAt(u, u.startPos) && MovesLegal(u, painted) && Frontier(u, painted)
            ==> Sound(v, painted)
  {
    if RootedAt(u, u.startPos) && MovesLegal(u, painted) && Frontier(u, painted) {
      forall k, m | k in v.closed && LegalMove(k, m, v, painted)
        ensures m in v.open || m in v.closed
      {
        assert LegalMove(k, m, u, painted);
      }
    }
  }

  /** How one iteration ended. */
  datatype Outcome = Completed(state: State) | Faulted(state: State)

  /** `t` is `s` after the first three statements of the loop body: the store and
      the open set are those of the examination of the current cell, minus that
      cell, which is closed; the new current cell is an open one of lowest F, or
      the old one when nothing is open. */
  predicate Advanced(s: State, t: State, painted: set<Coord>) {
    && s.current.Some? && s.current.value in s.nodes
    && (var c := s.current.value;
        var e := Examine(s, painted);
        && t.nodes == e.nodes
        && t.open == e.open - {c}
        && t.closed == s.closed + {c}
        && t.current.Some?
        && (t.open != {} ==> t.open <= t.nodes.Keys && LowestF(t.nodes, t.open, t.current.value))
        && (t.open == {} ==> t.current == s.current)
        && SameGrid(s, t))
  }

  /** The path field holds what the reconstruction from the current cell found. */
  predicate PathRecorded(t: State) {
    && t.current.Some?
    && t.path == match GeneratePath(t.nodes, t.current.value, t.startPos, t.goalPos)
                 case Found(p) => Some(p)
                 case _ => None
  }

  /** The first three statements of the loop body: find and examine the current
      cell's neighbours, then close it and choose the next current cell. */
  method Advance(s: State, painted: set<Coord>) returns (u: State)
    requires Inv(s) && s.current.Some? && s.open != {}
    ensures Inv(u) && Advanced(s, u, painted) && u.path == s.path
    ensures u.current.Some? && SameGrid(s, u) && u.closed == s.closed + {s.current.value}
    ensures u.open <= s.open + painted
    ensures Remaining(u, painted) < Remaining(s, painted)
    ensures RootedAt(s, s.startPos) ==> RootedAt(u, u.startPos)
    ensures MovesLegal(s, painted) ==> MovesLegal(u, painted)
    ensures Frontier(s, painted) ==> Frontier(u, painted)
  {
    var c := s.current.value;
    var e := Examine(s, painted);
    ExamineExpands(s, painted);
    u := UpdateCurrentTile(e);
    AdvanceKeeps(s, c, e, u, painted);
    if Frontier(s, painted) {
      AdvanceKeepsFrontier(s, c, e, u, painted);
    }
  }

  /** One pass of the source's loop body: advance as above, then try to build the
      path. A parent chain that ends before the start cell is a null dereference
      in the source: the iteration faults with the path still unset. */
  method Iterate(s: State, painted: set<Coord>) returns (r: Outcome)
    requires Inv(s) && s.current.Some? && s.open != {}
    ensures Inv(r.state) && Advanced(s, r.state, painted)
    ensures r.state.open <= s.open + painted
    ensures Remaining(r.state, painted) < Remaining(s, painted)
    ensures r.Completed? ==> PathRecorded(r.state)
    ensures r.Faulted? <==> GeneratePath(r.state.nodes, r.state.current.value, r.state.startPos, r.state.goalPos).NullParent?
    ensures r.Faulted? ==> r.state.path == s.path
    ensures s.path.None? ==> PathLeadsToGoal(r.state)
    ensures Grounded(s, painted) ==> r.Completed? && Grounded(r.state, painted)
    ensures Sound(s, painted) && s.path.None? ==> Sound(r.state, painted)
  {
    var u := Advance(s, painted);
    GeneratePathEnds(u);
    var pr := GeneratePath(u.nodes, u.current.value, u.startPos, u.goalPos);
    if pr.NullParent? {
      r := Faulted(u);
    } else {
      var v := u.(path := if pr.Found? then Some(pr.path) else None);
      RecordKeeps(s, u, pr, v, painted);
      r := Completed(v);
    }
  }

  // ---------------------------------------------------------------------------
  // The driver

  /** A stored path leads from the start cell to the goal along parent links:
      it omits the start, ends at the goal, and is empty only when they coincide. */
  predicate PathLeadsToGoal(s: State) {
    s.path.Some? ==>
      && s.startPos !in s.path.value
      && Linked(s.nodes, s.startPos, s.path.value)
      && (s.path.value == [] <==> s.goalPos == s.startPos)
      && (s.path.value != [] ==> s.path.value[|s.path.value| - 1] == s.goalPos)
  }

  /** `p` lists the cells of a walk out of the start cell, one legal move each. */
  predicate LegalWalk(s: State, painted: set<Coord>, p: seq<Coord>) {
    && (|p| > 0 ==> LegalMove(s.startPos, p[0], s, painted))
    && (forall i :: 0 < i < |p| ==> LegalMove(p[i - 1], p[i], s, painted))
  }

  /** Every step of a stored path, from the start cell on, is a legal move. */
  predicate PathMovesLegal(s: State, painted: set<Coord>) {
    s.path.Some? ==> LegalWalk(s, painted, s.path.value)
  }

  /** A path along parent links inherits the legality of the links. */
  lemma LinkedPathIsLegal(s: State, painted: set<Coord>)
    requires MovesLegal(s, painted) && PathLeadsToGoal(s)
    ensures PathMovesLegal(s, painted)
  {
  }

  /** With nothing open, a legal walk out of the start cell never leaves the
      closed cells. */
  lemma {:induction false} WalkStaysClosed(s: State, painted: set<Coord>, p: seq<Coord>, i: int)
    requires Frontier(s, painted) && s.open == {} && LegalWalk(s, painted, p)
    requires 0 <= i < |p|
    ensures p[i] in s.closed
    decreases i
  {
    if i == 0 {
      assert LegalMove(s.startPos, p[0], s, painted);
    } else {
      WalkStaysClosed(s, painted, p, i - 1);
      assert LegalMove(p[i - 1], p[i], s, painted);
    }
  }

  /** A sound session whose open set has run out with no path stored has proved
      the goal unreachable: no legal walk out of the start cell passes through it. */
  lemma NoRouteWhenExhausted(s: State, painted: set<Coord>)
    requires Sound(s, painted) && s.open == {} && s.path.None? && s.goalPos != s.startPos
    ensures forall p :: LegalWalk(s, painted, p) ==> s.goalPos !in p
  {
    forall p | LegalWalk(s, painted, p)
      ensures s.goalPos !in p
    {
      forall i | 0 <= i < |p|
        ensures p[i] in s.closed
      {
        WalkStaysClosed(s, painted, p, i);
      }
    }
  }

  /** Once a sound session has stopped (a path stored or nothing open), a path is
      stored exactly when some legal walk out of the start cell ends at the goal. */
  lemma PathIffRoute(s: State, painted: set<Coord>)
    requires Sound(s, painted) && (s.path.Some? || s.open == {}) && s.goalPos != s.startPos
    ensures s.path.Some? <==> exists p :: LegalWalk(s, painted, p) && |p| > 0 && p[|p| - 1] == s.goalPos
  {
    if s.path.Some? {
      LinkedPathIsLegal(s, painted);
      var p := s.path.value;
      assert LegalWalk(s, painted, p) && |p| > 0 && p[|p| - 1] == s.goalPos;
    } else {
      NoRouteWhenExhausted(s, painted);
    }
  }

  /** The edits of the grid (start, goal, water) are left alone. */
  predicate SameGrid(s: State, t: State) {
    && t.startPos == s.startPos && t.goalPos == s.goalPos
    && t.startSet == s.startSet && t.goalSet == s.goalSet
    && t.water == s.water
  }

  /** A fresh session is sound: nothing is closed yet, the start is open and
      current, and so the goal is current only when it is the start. */
  lemma InitializeIsSound(s: State, painted: set<Coord>)
    requires Inv(s) && s.current.None?
    ensures Sound(Initialize(s), painted)
  {
  }

  /** What holds between loop bodies of a run from `t0` that has taken `n` of
      them and reached `t`, the last one starting from `prev` and faulting if
      `faulted`. */
  ghost predicate Looping(t0: State, prev: State, t: State, n: nat, faulted: bool, painted: set<Coord>) {
    && Inv(t) && t.current.Some? && SameGrid(t0, t)
    && (n > 0 ==> prev.open != {} && prev.path.None? && Advanced(prev, t, painted))
    && (n == 1 ==> prev == t0)
    && (n > 0 && !faulted ==> PathRecorded(t))
    && (faulted ==> t.path.None? && GeneratePath(t.nodes, t.current.value, t.startPos, t.goalPos).NullParent?)
    && (n == 0 ==> t == t0 && !faulted)
    && (t0.path.None? ==> PathLeadsToGoal(t))
    && t0.closed <= t.closed
    && (Grounded(t0, painted) ==> !faulted && Grounded(t, painted))
    && (Sound(t0, painted) ==> Sound(t, painted))
  }

  /** One loop body of the run. */
  method LoopBody(t0: State, ghost prev: State, t: State, n: nat, painted: set<Coord>)
    returns (next: State, faulted: bool)
    requires Looping(t0, prev, t, n, false, painted)
    requires t.open != {} && t.path.None?
    ensures Looping(t0, t, next, n + 1, faulted, painted)
    ensures Remaining(next, painted) < Remaining(t, painted)
  {
    var o := Iterate(t, painted);
    faulted := o.Faulted?;
    next := o.state;
  }

  /** The loop of the search from `t0`: while open cells remain and no path
      exists, one iteration; in step mode at most one. A fault in the path walk
      ends it. `iterations` counts the loop bodies run; the last one started
      from `prev`. */
  method RunLoop(t0: State, painted: set<Coord>, step: bool)
    returns (t: State, faulted: bool, iterations: nat, ghost prev: State)
    requires Inv(t0) && t0.current.Some?
    ensures Looping(t0, prev, t, iterations, faulted, painted)
    ensures step ==> iterations <= 1
    ensures t0.open != {} && t0.path.None? ==> iterations >= 1
    ensures t0.open == {} || t0.path.Some? ==> iterations == 0
    ensures !faulted && !step ==> t.path.Some? || t.open == {}
  {
    t := t0;
    prev := t0;
    faulted := false;
    iterations := 0;
    while !faulted && t.open != {} && t.path.None?
      invariant Looping(t0, prev, t, iterations, faulted, painted)
      invariant step ==> iterations <= 1
      invariant step && iterations == 1 ==> faulted || t.open == {} || t.path.Some?
      invariant t0.open == {} || t0.path.Some? ==> iterations == 0
      decreases Remaining(t, painted)
    {
      ghost var before := t;
      t, faulted := LoopBody(t0, prev, t, iterations, painted);
      prev := before;
      iterations := iterations + 1;
      if step {
        break;
      }
    }
  }

  /** Starts a session if none is active, then runs the loop. A session started
      here, or one still sound from earlier calls, never faults; its path is made
      of legal moves; and once a full run stops, a path is stored exactly when a
      legal walk from the start reaches the goal. */
  method Algorithm(s: State, painted: set<Coord>, step: bool) returns (r: Outcome, iterations: nat, ghost prev: State)
    requires Inv(s)
    ensures Inv(r.state) && r.state.current.Some? && SameGrid(s, r.state)
    ensures iterations == 0 ==> r == Completed(if s.current.None? then Initialize(s) else s)
    ensures iterations == 1 ==> prev == (if s.current.None? then Initialize(s) else s)
    ensures iterations > 0 ==> prev.open != {} && prev.path.None? && Advanced(prev, r.state, painted)
    ensures r.Completed? && iterations > 0 ==> PathRecorded(r.state)
    ensures r.Faulted? ==>
      && r.state.path.None?
      && GeneratePath(r.state.nodes, r.state.current.value, r.state.startPos, r.state.goalPos).NullParent?
    ensures step ==> iterations <= 1
    ensures s.path.None? && (s.current.None? || s.open != {}) ==> iterations >= 1
    ensures r.Completed? && !step ==> r.state.path.Some? || r.state.open == {}
    ensures s.path.None? ==> PathLeadsToGoal(r.state)
    ensures s.path.Some? ==> r == Completed(s) && iterations == 0
    ensures s.current.Some? ==> s.closed <= r.state.closed
    ensures s.current.None? || Grounded(s, painted) ==>
      r.Completed? && Grounded(r.state, painted) && PathMovesLegal(r.state, painted)
    ensures s.current.None? || Sound(s, painted) ==> Sound(r.state, painted)
    ensures (s.current.None? || Sound(s, painted)) && !step && r.state.goalPos != r.state.startPos ==>
      (r.state.path.Some? <==> exists p :: LegalWalk(r.state, painted, p) && |p| > 0 && p[|p| - 1] == r.state.goalPos)
  {
    var t0 := s;
    if s.current.None? {
      t0 := Initialize(s);
      InitializeIsSound(s, painted);
    }
    var t, faulted;
    t, faulted, iterations, prev := RunLoop(t0, painted, step);
    r := if faulted then Faulted(t) else Completed(t);
    if s.current.None? || Grounded(s, painted) {
      LinkedPathIsLegal(r.state, painted);
    }
    if (s.current.None? || Sound(s, painted)) && !step && r.state.goalPos != r.state.startPos {
      PathIffRoute(r.state, painted);
    }
  }
}
