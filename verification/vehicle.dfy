/** A movable vehicle (src/objects/Vehicle.js) without its three.js mesh:
    position, axis tag, facing, selection flag and pending move target. */
module Vehicles {
  import opened Common
  import opened Constants

  /** A scene position, in tenths of a unit. */
  datatype Pos = Pos(x: int, y: int, z: int)

  /** The mesh's rotation about y: 0 (forward is +z) or pi/2 (forward is +x). */
  datatype Facing = FacingZ | FacingX

  /** The emissive colour the selection logic paints the mesh with. */
  datatype Glow = Dark | HoverGrey | SelectGreen

  /** `targetX` / `targetZ` are the pending move target; `None` is
      `undefined`. */
  datatype Vehicle = Vehicle(
    pos: Pos,
    axis: Axis,
    facing: Facing,
    isSelected: bool,
    glow: Glow,
    isPlayer: bool,
    targetX: Option<int>,
    targetZ: Option<int>)

  /** The constructor: `direction` defaults to BOTH; the vehicle starts
      unselected, at rest, and is not the player until main marks it. */
  function NewVehicle(pos: Pos, direction: Option<Axis>, facing: Facing): (v: Vehicle)
    ensures v.pos == pos && v.facing == facing
    ensures direction.None? ==> v.axis == Both
    ensures direction.Some? ==> v.axis == direction.value
    ensures !v.isSelected && !v.isPlayer && !IsMoving(v)
  {
    Vehicle(pos, direction.GetOr(Both), facing, false, Dark, false, None, None)
  }

  /** A vehicle is moving while either axis still has a target. */
  function IsMoving(v: Vehicle): (moving: bool)
    ensures moving <==> Update(v) != v
  {
    v.targetX.Some? || v.targetZ.Some?
  }

  /** canMove: a BOTH vehicle may move along any axis, any other only
      along its own. */
  function CanMove(v: Vehicle, d: Axis): (ok: bool)
    ensures ok <==> v.axis == Both || v.axis == d
    ensures v.axis != Both && d != v.axis ==> !ok
  {
    v.axis == Both || (d == Horizontal && v.axis == Horizontal) || (d == Vertical && v.axis == Vertical)
  }

  /** moveTo: record a target on both axes; the position itself only
      changes when `update` settles. */
  function MoveTo(v: Vehicle, x: int, z: int): (r: Vehicle)
    ensures IsMoving(r)
    ensures r.targetX == Some(x) && r.targetZ == Some(z)
    ensures r.pos == v.pos
    ensures r.axis == v.axis && r.facing == v.facing && r.isSelected == v.isSelected
    ensures r.isPlayer == v.isPlayer && r.glow == v.glow
  {
    v.(targetX := Some(x), targetZ := Some(z))
  }

  /** One settling step of `update`: each axis with a target snaps to it
      and clears the target. The source gets there by a lerp over several
      frames; only the settled outcome is modelled. */
  function Update(v: Vehicle): (r: Vehicle)
    ensures r.targetX.None? && r.targetZ.None?
    ensures r.pos.y == v.pos.y
    ensures r.pos.x == v.targetX.GetOr(v.pos.x)
    ensures r.pos.z == v.targetZ.GetOr(v.pos.z)
    ensures r.axis == v.axis && r.facing == v.facing && r.isSelected == v.isSelected
    ensures r.isPlayer == v.isPlayer && r.glow == v.glow
  {
    var x := if v.targetX.Some? then v.targetX.value else v.pos.x;
    var z := if v.targetZ.Some? then v.targetZ.value else v.pos.z;
    v.(pos := Pos(x, v.pos.y, z), targetX := None, targetZ := None)
  }

  /** A vehicle at rest is left alone by `update`. */
  lemma UpdateAtRestIsIdentity(v: Vehicle)
    requires !IsMoving(v)
    ensures Update(v) == v
  {
  }

  /** moveTo followed by settling puts the vehicle exactly on the target,
      on the same floor, at rest. */
  lemma MoveToThenUpdateArrives(v: Vehicle, x: int, z: int)
    ensures Update(MoveTo(v, x, z)).pos == Pos(x, v.pos.y, z)
    ensures !IsMoving(Update(MoveTo(v, x, z)))
  {
  }

  /** getPosition: the current (possibly mid-slide) position. */
  function GetPosition(v: Vehicle): (p: Pos)
    ensures p == v.pos
    ensures p.y == Update(v).pos.y
    ensures !IsMoving(v) ==> p == Update(v).pos
  {
    v.pos
  }

  function Select(v: Vehicle): (r: Vehicle)
    ensures r.isSelected && r.glow == SelectGreen
    ensures r.pos == v.pos && r.axis == v.axis && r.targetX == v.targetX && r.targetZ == v.targetZ
    ensures r.facing == v.facing && r.isPlayer == v.isPlayer
  {
    v.(isSelected := true, glow := SelectGreen)
  }

  function Deselect(v: Vehicle): (r: Vehicle)
    ensures !r.isSelected && r.glow == Dark
    ensures r.pos == v.pos && r.axis == v.axis && r.targetX == v.targetX && r.targetZ == v.targetZ
    ensures r.facing == v.facing && r.isPlayer == v.isPlayer
  {
    v.(isSelected := false, glow := Dark)
  }

  /** hover greys out an unselected vehicle and leaves a selected one as
      it is. */
  function Hover(v: Vehicle): (r: Vehicle)
    ensures r.isSelected == v.isSelected
    ensures v.isSelected ==> r == v
    ensures !v.isSelected ==> r == v.(glow := HoverGrey)
  {
    if v.isSelected then v else v.(glow := HoverGrey)
  }

  /** unhover darkens an unselected vehicle and leaves a selected one as
      it is. */
  function Unhover(v: Vehicle): (r: Vehicle)
    ensures r.isSelected == v.isSelected
    ensures v.isSelected ==> r == v
    ensures !v.isSelected ==> r == v.(glow := Dark)
  {
    if v.isSelected then v else v.(glow := Dark)
  }

  /** Hovering over and off a selected vehicle keeps its selection glow;
      on an unselected one, unhover undoes hover. */
  lemma HoverUnhoverRestores(v: Vehicle)
    requires v.isSelected || v.glow == Dark
    ensures Unhover(Hover(v)) == v
  {
  }

  /** A selected vehicle is green whatever hover events arrive. */
  lemma SelectedStaysGreen(v: Vehicle, hovers: seq<bool>)
    ensures HoverSequence(Select(v), hovers).glow == SelectGreen
    ensures HoverSequence(Select(v), hovers).isSelected
  {
    SelectionSurvivesHovers(Select(v), hovers);
  }

  /** Apply a sequence of hover (true) / unhover (false) events. */
  function HoverSequence(v: Vehicle, hovers: seq<bool>): Vehicle
    decreases |hovers|
  {
    if hovers == [] then v
    else HoverSequence(if hovers[0] then Hover(v) else Unhover(v), hovers[1..])
  }

  lemma {:induction false} SelectionSurvivesHovers(v: Vehicle, hovers: seq<bool>)
    requires v.isSelected
    ensures HoverSequence(v, hovers) == v
    decreases |hovers|
  {
    if hovers != [] {
      SelectionSurvivesHovers(v, hovers[1..]);
    }
  }

  /** VehicleManager.update: settle every vehicle. */
  function UpdateAll(vs: seq<Vehicle>): (ws: seq<Vehicle>)
    ensures |ws| == |vs|
    ensures forall j :: 0 <= j < |vs| ==> ws[j] == Update(vs[j])
  {
    seq(|vs|, j requires 0 <= j < |vs| => Update(vs[j]))
  }
}
