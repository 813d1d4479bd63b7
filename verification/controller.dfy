/**
 Grid edits and reset: the state effects of clicking a cell with a tile type
 selected, and of resetting the search.
 */
module Controller {
  import opened Wrappers
  import opened Grid
  import opened Search

  /** The tile types the user can paint with. */
  datatype TileType = Start | Goal | Water | Grass | PathTile

  /** The state effect of clicking `clickPos` with `tileType` selected. Water is
      added to the water cells; start and goal move their marker and set its flag;
      grass and path only repaint. No edit removes a cell from the water cells,
      and none touches the session. */
  function ChangeTile(s: State, clickPos: Coord, tileType: TileType): (t: State)
    ensures s.water <= t.water
    ensures clickPos in t.water <==> clickPos in s.water || tileType == Water
    ensures forall c :: c != clickPos ==> (c in t.water <==> c in s.water)
    ensures t.startPos == (if tileType == Start then clickPos else s.startPos)
    ensures t.startSet == (s.startSet || tileType == Start)
    ensures t.goalPos == (if tileType == Goal then clickPos else s.goalPos)
    ensures t.goalSet == (s.goalSet || tileType == Goal)
    ensures t.nodes == s.nodes && t.open == s.open && t.closed == s.closed
    ensures t.current == s.current && t.path == s.path
    ensures Inv(s) ==> Inv(t)
  {
    match tileType
    case Water => s.(water := s.water + {clickPos})
    case Start => s.(startSet := true, startPos := clickPos)
    case Goal => s.(goalSet := true, goalPos := clickPos)
    case _ => s
  }

  /** Marking a water cell as the start leaves it water: the search then refuses
      every straight move out of it. */
  lemma StartOnWaterStaysWater(s: State, c: Coord, n: Coord)
    requires c in s.water
    requires Adjacent(n, c) && !Diagonal(n, c)
    ensures var t := ChangeTile(s, c, Start);
      t.startPos == c && c in t.water && !ConnectedDiagonally(t.startPos, n, t.water)
  {
  }

  /** Why a reset can fail: the source walks the stored path without a null check. */
  datatype ResetFault = NullPath

  /** The state effect of a reset. The water cells, the node store, both flags,
      the path and the current node are cleared; the start and goal positions and
      the (stale) open and closed sets are kept. With no path stored the source
      dereferences null before clearing anything, so nothing changes. */
  function Reset(s: State): (r: Result<State, ResetFault>)
    ensures r.Failure? <==> s.path.None?
    ensures r.Success? ==> Inv(r.value) && r.value.current.None? && r.value.path.None?
    ensures r.Success? ==> r.value.nodes == map[] && r.value.water == {}
    ensures r.Success? ==> !r.value.startSet && !r.value.goalSet
    ensures r.Success? ==> r.value.startPos == s.startPos && r.value.goalPos == s.goalPos
    ensures r.Success? ==> r.value.open == s.open && r.value.closed == s.closed
  {
    if s.path.None? then Failure(NullPath)
    else Success(s.(water := {}, nodes := map[], startSet := false, goalSet := false, path := None, current := None))
  }

  /** A second reset in a row always faults: the first one cleared the path. */
  lemma ResetTwiceFaults(s: State)
    requires Reset(s).Success?
    ensures Reset(Reset(s).value).Failure?
    ensures Reset(s).value.nodes == map[] && Reset(s).value.water == {}
  {
  }

  /** A reset with the missing null check added: with no path there is nothing
      to repaint, and the clearing goes ahead. */
  function ResetChecked(s: State): (t: State)
    ensures Inv(t) && t.current.None? && t.path.None? && t.nodes == map[] && t.water == {}
    ensures !t.startSet && !t.goalSet && t.startPos == s.startPos && t.goalPos == s.goalPos
    ensures t.open == s.open && t.closed == s.closed
    ensures s.path.Some? ==> Reset(s) == Success(t)
  {
    s.(water := {}, nodes := map[], startSet := false, goalSet := false, path := None, current := None)
  }

  /** Resetting twice leaves the same state as resetting once. */
  lemma ResetCheckedIdempotent(s: State)
    ensures ResetChecked(ResetChecked(s)) == ResetChecked(s)
  {
  }
}
