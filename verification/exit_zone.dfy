/** The exit cell (src/objects/ExitZone.js) without its model: a stored
    position and the in-zone test. */
module Exits {
  import opened Common
  import opened Constants
  import opened Vehicles
  import Elevators
  import Collision

  datatype ExitZone = ExitZone(position: Pos)

  /** The constructor: the position is kept as given, `y` defaulting to 0. */
  function NewExitZone(x: int, z: int, y: Option<int>): (e: ExitZone)
    ensures e.position.x == x && e.position.z == z
    ensures e.position.y == (if y.Some? then y.value else 0)
  {
    ExitZone(Pos(x, y.GetOr(0), z))
  }

  /** isVehicleInZone: within half a cell on x and z and 0.5 units in y. */
  function IsVehicleInZone(e: ExitZone, p: Pos): (inside: bool)
    ensures inside <==>
      && e.position.x - 10 < p.x < e.position.x + 10
      && e.position.z - 10 < p.z < e.position.z + 10
      && e.position.y - 5 < p.y < e.position.y + 5
  {
    Abs(p.x - e.position.x) < GridSize / 2 && Abs(p.z - e.position.z) < GridSize / 2
      && Abs(p.y - e.position.y) < Unit / 2
  }

  /** On the grid and on floor heights, in-zone means exactly on the exit
      cell and floor. */
  lemma InZoneIsExactCell(e: ExitZone, p: Pos, i: FloorIndex, j: FloorIndex)
    requires e.position.x % GridSize == 0 && e.position.z % GridSize == 0 && e.position.y == Floors[j].y
    requires p.x % GridSize == 0 && p.z % GridSize == 0 && p.y == Floors[i].y
    ensures IsVehicleInZone(e, p) <==> p == e.position
  {
    if IsVehicleInZone(e, p) {
      Collision.GridCloseIsEqual(p.x, e.position.x, GridSize);
      Collision.GridCloseIsEqual(p.z, e.position.z, GridSize);
      FloorsOrdered();
    }
  }

  /** The exit zone is strictly smaller than an elevator's catchment: a
      position in the exit zone on an elevator's cell is on that elevator. */
  lemma ExitZoneInsideElevatorCatchment(e: ExitZone, el: Elevators.Elevator, p: Pos)
    requires e.position == Pos(el.x, el.y, el.z)
    requires IsVehicleInZone(e, p)
    ensures Elevators.IsVehicleOnElevator(el, p)
  {
  }
}
