# A* grid search, modelled in Dafny

This project models the A* search that the `Astar` component runs on a Unity tile map
(`PFAS/Assets/script/Astar.cs`). The user paints water cells and places a start and a goal
marker. The search then expands nodes from an open set to a closed set until the goal becomes
the current node or the open set runs out. It can run one iteration per call (step mode) or
run to completion. The path is read back along parent links.

The model is functional. A cell is a `Coord` (x, y). Every scoring record (`Node`: position,
parent, G, H, F) lives in a map from cell to record. A parent is stored as a cell, not as a
reference. The open and closed sets are sets of cells. The painted area of the tile map is an
abstract finite set `painted`, passed to the operations that read it.

Files:

- `wrappers.dfy` defines `Wrappers`: `Option` and `Result`.
- `grid.dfy` defines `Grid`: adjacency, move cost, the heuristic and the corner-cutting test.
- `nodes.dfy` defines `NodeStore`: the record type, `GetNode` and `CalcValues`.
- `neighbours.dfy` defines `Neighbours`: `FindNeighbors`.
- `search.dfy` defines `Search`: the state, its invariant, `ExamineNeighbors`,
  `UpdateCurrentTile`, `GeneratePath`, `Initialize`, one loop iteration, the loop and
  `Algorithm`, together with the soundness and completeness argument for a full run.
- `controller.dfy` defines `Controller`: the state effects of `changeTile` and `Reset`.

The invariant `Search.Inv` is the backbone of the model. It says:

- open and closed are disjoint;
- whenever the open set is non-empty, the current node is in it;
- every record sits under its own cell and has G >= 0;
- every parent is closed and has a strictly smaller G than its child.

`Initialize`, `Algorithm`, `ChangeTile` and `Reset` all preserve it. Because of the last
clause, the parent walk in `GeneratePath` can never revisit a node, so it always ends.

Quirks of the source that the model keeps:

- F is updated as G plus the previous F, not G + H (`Astar.cs:189`).
- The goal is detected when it becomes the current node, not when it is expanded.
- A closed node is never re-scored, even when a cheaper route to it turns up later.
- `changeTile` never removes a cell from the water list. A start placed on water stays water,
  and then every straight move out of the start is refused. This happens because
  `ConnectedDiagonally` also probes the current cell for straight moves.
- `Reset` keeps the start and goal positions. It clears only their flags.
- `Reset` is not idempotent. It iterates the stored path without a null check, so it faults
  whenever no path is stored, and a second reset in a row always faults.
- `Initialize` checks neither the start nor the goal flag. A search started before the start
  marker is placed runs from the origin cell (0, 0).
- When the goal is the start cell (as in the state before any marker is placed, where both
  sit at (0, 0)), the empty path is stored only if the start has no neighbour to open, so it
  stays current after being closed. Otherwise the current node moves away from the start,
  which is never opened again, and a full run ends with no path.
- The corner test runs on every move, not only diagonal ones. For a straight move it probes
  the neighbour and the current cell.

Beyond what one call does, the model argues about a whole run on an unchanged grid. Call a
session sound (`Search.Sound`) when these hold:

- the start is the root of the parent tree;
- every parent link is a legal move;
- every legal move out of a closed cell lands on an open or closed cell;
- the goal has not been closed or made current without the path being stored, unless the goal
  is the start cell.

A fresh session is sound, and every loop body keeps it sound. When a full run stops, a path is
therefore stored exactly when some walk of legal moves from the start reaches the goal, provided
the goal is not the start cell.

## Model

| member | source | states |
|---|---|---|
| Grid.DetermineGScore | PFAS/Assets/script/Astar.cs:192-208 | the cost is 10 or 14; for an adjacent cell it is 10 exactly when the move is straight and 14 exactly when it is diagonal |
| Grid.MoveCostOverAllOffsets | PFAS/Assets/script/Astar.cs:192-208 | each of the eight unit offsets gets 14 if both components are non-zero and 10 otherwise |
| Grid.DiagonalCheaperThanTwoStraight | PFAS/Assets/script/Astar.cs:199-206 | a diagonal step costs less than the two straight steps around its corner |
| Grid.Heuristic | PFAS/Assets/script/Astar.cs:187 | H is a multiple of 10 and is zero exactly at the goal |
| Grid.ConnectedDiagonally | PFAS/Assets/script/Astar.cs:262-275 | a move is refused exactly when (neighbour.x, current.y) or (current.x, neighbour.y) is water; for a straight move these cells are the neighbour and the current cell |
| Grid.CornerCuttingRefused | PFAS/Assets/script/Astar.cs:266-272 | a diagonal move past a water corner is refused even if the target is dry |
| NodeStore.NewNode | PFAS/Assets/script/Astar.cs:84 | a new record has no parent and G = H = F = 0 |
| NodeStore.GetNode | PFAS/Assets/script/Astar.cs:76-88 | the result is the record stored under the cell; an existing record leaves the store unchanged; a first lookup adds exactly one fresh record; nothing else changes |
| NodeStore.GetNodeIdempotent | PFAS/Assets/script/Astar.cs:76-88 | a second lookup of the same cell returns the same record and leaves the store unchanged |
| NodeStore.CalcValues | PFAS/Assets/script/Astar.cs:181-190 | the parent becomes the given node; G is the parent's G plus the cost, so it exceeds the parent's for a positive cost; H is 10 times the Manhattan distance to the goal; F grows by the new G |
| NodeStore.CalcValuesIgnoresHeuristic | PFAS/Assets/script/Astar.cs:187-189 | on a fresh record F comes out equal to G, so it differs from G + H away from the goal |
| Neighbours.Candidates | PFAS/Assets/script/Astar.cs:133-139 | the nested loops visit eight cells, each adjacent to the position |
| Neighbours.CandidatesAreTheAdjacentCells | PFAS/Assets/script/Astar.cs:133-139 | the nested loops visit exactly the eight cells within Chebyshev distance 1, each once |
| Neighbours.Filter | PFAS/Assets/script/Astar.cs:141 | a candidate is kept exactly when it is not the start, not water and painted; no duplicates are introduced |
| Neighbours.Register | PFAS/Assets/script/Astar.cs:143 | every kept cell gets a record; existing records are unchanged; new ones are fresh |
| Neighbours.FindNeighbors | PFAS/Assets/script/Astar.cs:127-150 | a cell is returned exactly when it is adjacent, not the start, not water and painted; there are at most 8 results and none repeats; the store gains their records and nothing else |
| Search.InitialState | PFAS/Assets/script/Astar.cs:29-45 | before any edit there is no session, no path, no record and no water, both flags are unset, and the invariant holds |
| Search.ExamineOne | PFAS/Assets/script/Astar.cs:156-177 | examining one neighbour creates no record and adds at most that neighbour to the open set, never removing one |
| Search.ExamineOneEffect | PFAS/Assets/script/Astar.cs:156-177 | examining one neighbour re-scores it exactly when it improves (connected, and either open with a cheaper route or neither open nor closed); afterwards it no longer improves; no other record changes |
| Search.ExaminedCons | PFAS/Assets/script/Astar.cs:154-178 | examining one neighbour and then the rest of the list gives the cell-by-cell result for the whole list |
| Search.ExamineNeighbors | PFAS/Assets/script/Astar.cs:152-179 | each record is re-scored from the current node exactly when it is a listed neighbour that improves, and is otherwise unchanged; the open set gains exactly the connected listed neighbours that are not closed |
| Search.ExamineNeighborsRespectsClosed | PFAS/Assets/script/Astar.cs:165-177 | with open and closed disjoint: closed records never change; cells joining the open set are listed neighbours and not closed; an open record is re-scored only when current G plus cost is below its G; a re-scored record has the current node as parent |
| Search.UpdateCurrentTile | PFAS/Assets/script/Astar.cs:210-220 | the current node leaves the open set and joins the closed set; if open cells remain, the new current node is one of them with the lowest F; otherwise the current node is unchanged |
| Search.Walk | PFAS/Assets/script/Astar.cs:283-287 | a completed walk lists cells whose parent is the cell before them (the first cell's parent is the start); it never contains the start and ends at the cell the walk began from |
| Search.GeneratePath | PFAS/Assets/script/Astar.cs:277-291 | no path unless the current node is the goal; a path follows parent links from the start, excludes the start, ends at the goal, and is empty only when start and goal coincide |
| Search.WalkEnds | PFAS/Assets/script/Astar.cs:283-287 | under the invariant the walk never revisits a node, because G strictly decreases along parents; if the start is the only parentless open or closed cell, the walk reaches it |
| Search.GeneratePathEnds | PFAS/Assets/script/Astar.cs:277-291 | under the invariant path reconstruction always ends; in a session whose start has not moved it never reaches a null parent |
| Search.Initialize | PFAS/Assets/script/Astar.cs:63-74 | the start cell's fresh record is current and the only open cell; nothing is closed; the invariant holds; the markers, flags, water and path are left unchanged |
| Search.Examine | PFAS/Assets/script/Astar.cs:99-101 | finding and examining the neighbours changes only the store and the open set; no record is dropped and no open cell leaves |
| Search.ExamineExpands | PFAS/Assets/script/Astar.cs:99-101 | after neighbour finding and examination, every record is unchanged, fresh, or re-scored with the current node as parent and a larger G; new open cells are painted, were not closed, and have that parent |
| Search.ExpandKeepsInvariant | PFAS/Assets/script/Astar.cs:99-103 | after examining the neighbours and closing the current node, open and closed stay disjoint, every parent is closed with a smaller G, and the open set grows only by painted cells |
| Search.ExpandKeepsRoot | PFAS/Assets/script/Astar.cs:99-103 | the same step leaves the start as the only parentless open or closed cell |
| Search.ExpandKeepsMovesLegal | PFAS/Assets/script/Astar.cs:141-174 | with the grid unchanged, every parent link stays a legal move: adjacent, into a painted cell that is not water and not the start, and not past a water corner |
| Search.AdvanceKeeps | PFAS/Assets/script/Astar.cs:99-103 | examining, closing and choosing the next node together keep the invariant, the root and legal parent links, and leave fewer cells to close |
| Search.AdvanceKeepsFrontier | PFAS/Assets/script/Astar.cs:141-177 | on an unchanged grid, after the current cell is expanded and closed, every legal move out of a closed cell still lands on an open or closed cell |
| Search.RecordKeeps | PFAS/Assets/script/Astar.cs:105 | storing the reconstructed path keeps the invariant and the grid; the stored path leads from the start to the goal; a sound session stays sound |
| Search.Advance | PFAS/Assets/script/Astar.cs:99-103 | the store and open set become those of examining the current cell, minus that cell, which is closed; the next current cell is an open one of lowest F, or the old one when nothing is open; the invariant, root, legal links and expanded closed cells are kept; fewer cells remain to close |
| Search.LinkedPathIsLegal | PFAS/Assets/script/Astar.cs:283-287 | a path built along legal parent links is made of legal moves only, from the start cell onward |
| Search.RemainingShrinks | PFAS/Assets/script/Astar.cs:97-111 | closing an open cell while opening only painted cells strictly shrinks the set of painted or open cells not yet closed, so running to completion terminates |
| Search.Iterate | PFAS/Assets/script/Astar.cs:99-105 | one loop body advances as `Advance` states and then stores what the reconstruction from the new current node finds; it faults exactly when that reconstruction reaches a null parent, and then leaves the path unset; it never faults in a session rooted at the start with legal links; it keeps such a session rooted and legal, and a sound one sound |
| Search.LoopBody | PFAS/Assets/script/Astar.cs:99-105 | one iteration taken from inside the loop keeps the loop's invariant, with the state it started from as the latest predecessor, and leaves fewer cells to close |
| Search.RunLoop | PFAS/Assets/script/Astar.cs:97-111 | the loop runs no body when the open set is empty or a path exists and at least one otherwise; step mode runs at most one; a run that does not fault stops only with a path or an empty open set; the last body is an advance from its predecessor; closed cells stay closed; a rooted, legal session never faults and a sound one stays sound |
| Search.InitializeIsSound | PFAS/Assets/script/Astar.cs:63-74 | a freshly started session is sound |
| Search.WalkStaysClosed | PFAS/Assets/script/Astar.cs:97-101 | once nothing is open, every cell of a legal walk out of the start is closed, because closed cells were expanded |
| Search.NoRouteWhenExhausted | PFAS/Assets/script/Astar.cs:97-111 | a sound session whose open set ran out without a path has no legal walk from the start through the goal |
| Search.PathIffRoute | PFAS/Assets/script/Astar.cs:97-111 | when a sound session has stopped and the goal is not the start, a path is stored exactly when some legal walk from the start ends at the goal |
| Search.Algorithm | PFAS/Assets/script/Astar.cs:90-111 | a session is started if none is active; with no iteration the result is that session, otherwise the last iteration is an advance from its predecessor and the path field holds its reconstruction; step mode runs at most one iteration, and at least one when the search can proceed; a full run stops only with a path or an empty open set; a stored path leads from start to goal; the invariant holds; closed cells stay closed; a fresh or still rooted and legal session never faults, and every move of its path is between adjacent cells, enters neither water nor the start, and cuts no water corner; after a full run of a fresh or sound session whose goal is not the start, a path is stored exactly when a legal walk from the start reaches the goal |
| Controller.ChangeTile | PFAS/Assets/script/Astar.cs:227-260 | water adds the cell to the water set; start and goal move their marker and set its flag; no edit removes water or touches the search session; the invariant is preserved |
| Controller.StartOnWaterStaysWater | PFAS/Assets/script/Astar.cs:236-243 | a start placed on a water cell stays water, and every straight move out of it is refused |
| Controller.Reset | PFAS/Assets/script/Astar.cs:293-316 | it faults exactly when no path is stored; otherwise it clears water, store, flags, path and current node and keeps both positions and the stale open and closed sets; the invariant holds after |
| Controller.ResetTwiceFaults | PFAS/Assets/script/Astar.cs:302-314 | after a successful reset, a second one always faults |
| Controller.ResetChecked | PFAS/Assets/script/Astar.cs:293-316 | the reset with a null check always clears the store, path, current node, water cells and both flags, keeping both positions and the stale open and closed sets, and agrees with the source whenever a path exists |
| Controller.ResetCheckedIdempotent | PFAS/Assets/script/Astar.cs:293-316 | two checked resets in a row leave the same state as one |

## Left out

- Mouse and camera input (`Update`, the raycast and `WorldToCell`) is Unity I/O. The clicked cell is a parameter of `ChangeTile`.
- Tile painting (every `tilemap.SetTile`, and `ChangeTileType`) is a rendering side effect. `tilemap.GetTile` is modelled only as the set `painted`, which is an input of `FindNeighbors` and `Algorithm`.
- `changedTiles` feeds only the repainting in `Reset`, so it is not part of the state.
- The debugger component (`AstarDebugger.cs`) only visualises: tile colours, debug text, arrows, and the debugger's own reset. `AstarDebugger.cs` is not part of this model.
- The `Node` class is not among the source files. It is modelled as a plain record whose scores start at 0.
- The third (layer) coordinate is dropped. Neighbours copy it from their parent, so it is constant within a search.
- The iteration order of `HashSet` and the stability of `OrderBy` are library behaviour. Among open cells of equal lowest F, `UpdateCurrentTile` may choose any one.
- Search.Algorithm: equivalence of step mode and run mode, equal cost across repeated runs, and optimality of the path are not stated. The tie-break is unspecified, and with closed-set finality and the F quirk the source does not promise a cheapest path.
- Search.Algorithm: the contract ties only the last loop body to its predecessor. The whole sequence of intermediate states is not stated; each of them keeps the invariants that `Search.RunLoop` carries.
- Search.RunLoop: like `Search.Algorithm`, it ties only the last loop body to its predecessor. The earlier bodies are summarised by the invariant `Search.Looping`, and the whole sequence of intermediate states is not stated.
- Search.Algorithm: the statement that a path exists exactly when the goal is reachable needs an unchanged grid, a fresh or sound session, and a goal distinct from the start (the start-is-goal behaviour is described among the quirks above and is not stated as a contract). After water is painted mid-session, parent links may cross water, and nothing is promised.
- Integers are unbounded. The source's 32-bit G, H and F would wrap only after about 2^31 / 10 accumulated moves, so wrap-around is not modelled.
- Search.Iterate: a C# exception ends the current call. The model reports it as `Faulted`, carrying the state at the point of the throw. The frame loop that recovers from it is not modelled.

## Findings

| source | as written | input that shows it | evidently intended | confidence | as-written member | corrected member |
|---|---|---|---|---|---|---|
| PFAS/Assets/script/Astar.cs:302 | `Reset` iterates `path` with no null check | any reset while no path is stored, e.g. a second reset in a row, or a reset before a search finishes | skip the path repaint when there is no path and clear the state anyway | not executed; high | Controller.ResetTwiceFaults | Controller.ResetCheckedIdempotent |
