/** Elevator floor transitions (src/objects/Elevator.js) without models
    and indicator animation. An elevator is fixed on one floor and moves
    a vehicle to the adjacent floor by setting its height; the transition
    itself checks neither occupancy nor collisions. */
module Elevators {
  import opened Common
  import opened Constants
  import opened Vehicles
  import Collision

  datatype Elevator = Elevator(x: int, z: int, floorIndex: FloorIndex, y: int)

  /** The constructor: the height is FLOORS[floorIndex].y. An index outside
      FLOORS makes the source throw (it reads `.y` of undefined): `None`. */
  function NewElevator(x: int, z: int, floorIndex: int): (e: Option<Elevator>)
    ensures e.Some? <==> 0 <= floorIndex < |Floors|
    ensures e.Some? ==> e.value.x == x && e.value.z == z && e.value.floorIndex == floorIndex
                        && e.value.y == Floors[floorIndex].y
  {
    if 0 <= floorIndex < 3 then Some(Elevator(x, z, floorIndex, Floors[floorIndex].y)) else None
  }

  /** isVehicleOnElevator: within 0.6 cells on x and z and 0.5 units in y. */
  function IsVehicleOnElevator(e: Elevator, p: Pos): (on: bool)
    ensures on <==>
      && e.x - 12 < p.x < e.x + 12
      && e.z - 12 < p.z < e.z + 12
      && e.y - 5 < p.y < e.y + 5
  {
    Abs(p.x - e.x) < GridSize * 6 / 10 && Abs(p.z - e.z) < GridSize * 6 / 10 && Abs(p.y - e.y) < Unit / 2
  }

  function GetFloorIndex(e: Elevator): (i: FloorIndex)
    ensures i == e.floorIndex
  {
    e.floorIndex
  }

  /** canGoDown: there is a floor below. */
  function CanGoDown(e: Elevator): (ok: bool)
    ensures ok <==> exists f :: 0 <= f < |Floors| && Floors[f].y == Floors[e.floorIndex].y - FloorHeight
  {
    FloorsOneHeightApart(e.floorIndex);
    e.floorIndex < |Floors| - 1
  }

  /** canGoUp: there is a floor above. */
  function CanGoUp(e: Elevator): (ok: bool)
    ensures ok <==> exists f :: 0 <= f < |Floors| && Floors[f].y == Floors[e.floorIndex].y + FloorHeight
  {
    FloorsOneHeightApart(e.floorIndex);
    e.floorIndex > 0
  }

  /** The floors are FLOOR_HEIGHT apart in index order: the floor one
      height below floor `i` is floor `i + 1`, the one above is `i - 1`. */
  lemma FloorsOneHeightApart(i: FloorIndex)
    ensures forall f :: 0 <= f < |Floors| ==> (Floors[f].y == Floors[i].y - FloorHeight <==> f == i + 1)
    ensures forall f :: 0 <= f < |Floors| ==> (Floors[f].y == Floors[i].y + FloorHeight <==> f == i - 1)
    ensures i + 1 < |Floors| ==> Floors[i + 1].y == Floors[i].y - FloorHeight
    ensures i > 0 ==> Floors[i - 1].y == Floors[i].y + FloorHeight
  {
    forall f | 0 <= f < |Floors|
      ensures Floors[f].y == Floors[i].y - FloorHeight <==> f == i + 1
      ensures Floors[f].y == Floors[i].y + FloorHeight <==> f == i - 1
    {
      assert Floors[f].y == -FloorHeight * f && Floors[i].y == -FloorHeight * i;
    }
  }

  /** The new floor index (`null` when refused) and the vehicle after it. */
  datatype Transition = Transition(floor: Option<FloorIndex>, vehicle: Vehicle)

  /** moveVehicleToFloorBelow. */
  function MoveVehicleToFloorBelow(e: Elevator, v: Vehicle): (r: Transition)
    ensures !CanGoDown(e) ==> r == Transition(None, v)
    ensures CanGoDown(e) ==> r.floor == Some(e.floorIndex + 1)
    ensures CanGoDown(e) ==> r.vehicle == v.(pos := Pos(v.pos.x, Floors[e.floorIndex + 1].y, v.pos.z))
    ensures r.vehicle.pos.x == v.pos.x && r.vehicle.pos.z == v.pos.z
  {
    if !CanGoDown(e) then Transition(None, v)
    else
      var target := e.floorIndex + 1;
      Transition(Some(target), v.(pos := v.pos.(y := Floors[target].y)))
  }

  /** moveVehicleToFloorAbove. */
  function MoveVehicleToFloorAbove(e: Elevator, v: Vehicle): (r: Transition)
    ensures !CanGoUp(e) ==> r == Transition(None, v)
    ensures CanGoUp(e) ==> r.floor == Some(e.floorIndex - 1)
    ensures CanGoUp(e) ==> r.vehicle == v.(pos := Pos(v.pos.x, Floors[e.floorIndex - 1].y, v.pos.z))
    ensures r.vehicle.pos.x == v.pos.x && r.vehicle.pos.z == v.pos.z
  {
    if !CanGoUp(e) then Transition(None, v)
    else
      var target := e.floorIndex - 1;
      Transition(Some(target), v.(pos := v.pos.(y := Floors[target].y)))
  }

  /** A transition lands exactly on the adjacent floor's height, one
      FLOOR_HEIGHT away, whatever the vehicle's previous height was. */
  lemma TransitionIsOneFloor(e: Elevator, v: Vehicle)
    ensures var r := MoveVehicleToFloorBelow(e, v);
      r.floor.Some? ==> r.vehicle.pos.y == Floors[e.floorIndex].y - FloorHeight
    ensures var r := MoveVehicleToFloorAbove(e, v);
      r.floor.Some? ==> r.vehicle.pos.y == Floors[e.floorIndex].y + FloorHeight
  {
    FloorsOrdered();
  }

  /** Riding down from floor i and back up from an elevator on floor i+1
      returns the vehicle to its original state when it started on floor i. */
  lemma DownThenUpRestores(e: Elevator, below: Elevator, v: Vehicle)
    requires CanGoDown(e)
    requires below.floorIndex == e.floorIndex + 1
    requires v.pos.y == Floors[e.floorIndex].y
    ensures MoveVehicleToFloorAbove(below, MoveVehicleToFloorBelow(e, v).vehicle).vehicle == v
    ensures MoveVehicleToFloorAbove(below, MoveVehicleToFloorBelow(e, v).vehicle).floor == Some(e.floorIndex)
  {
  }

  /** On the grid, and on a floor height, a vehicle is on an elevator iff
      it stands on exactly the elevator's cell and floor. */
  lemma OnElevatorIsExactCell(e: Elevator, p: Pos, i: FloorIndex)
    requires e.x % GridSize == 0 && e.z % GridSize == 0 && e.y == Floors[e.floorIndex].y
    requires p.x % GridSize == 0 && p.z % GridSize == 0 && p.y == Floors[i].y
    ensures IsVehicleOnElevator(e, p) <==> p == Pos(e.x, e.y, e.z)
  {
    if IsVehicleOnElevator(e, p) {
      Collision.GridCloseIsEqual(p.x, e.x, GridSize);
      Collision.GridCloseIsEqual(p.z, e.z, GridSize);
      FloorsOrdered();
    }
  }
}
