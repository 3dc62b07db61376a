/** Collision and bounds predicates (src/game/CollisionManager.js).
    A vehicle reference is its index in the vehicle list: every vehicle
    the game creates is pushed onto that list. */
module Collision {
  import opened Common
  import opened Constants
  import opened Vehicles

  /** A rectangular no-go zone (a pillar), bounds included. */
  datatype Zone = Zone(minX: int, maxX: int, minZ: int, maxZ: int)

  /** PILLAR_ZONES: pillar collisions are switched off, the list is empty. */
  const PillarZones: seq<Zone> := []

  predicate InZone(zone: Zone, x: int, z: int) {
    zone.minX <= x <= zone.maxX && zone.minZ <= z <= zone.maxZ
  }

  /** The pillar loop: whether some zone contains (x, z). */
  function InAnyZone(zones: seq<Zone>, x: int, z: int): (hit: bool)
    ensures hit <==> exists k :: 0 <= k < |zones| && InZone(zones[k], x, z)
    decreases |zones|
  {
    if zones == [] then false
    else InZone(zones[0], x, z) || InAnyZone(zones[1..], x, z)
  }

  /** Two heights are on the same floor unless they differ by more than
      0.5 units. */
  predicate SameLevel(y1: int, y2: int) {
    Abs(y1 - y2) <= Unit / 2
  }

  /** Vehicle `j` blocks vehicle `mover` from entering (tx, tz): it is
      another vehicle, on the mover's floor, less than half a cell away
      from the target on x AND on z. */
  predicate Blocks(vs: seq<Vehicle>, mover: nat, j: nat, tx: int, tz: int)
    requires mover < |vs| && j < |vs|
  {
    && j != mover
    && SameLevel(vs[j].pos.y, vs[mover].pos.y)
    && Abs(vs[j].pos.x - tx) < GridSize / 2
    && Abs(vs[j].pos.z - tz) < GridSize / 2
  }

  /** The vehicle loop, from index `j` on. */
  function ScanFrom(vs: seq<Vehicle>, mover: nat, tx: int, tz: int, j: nat): (hit: bool)
    requires mover < |vs| && j <= |vs|
    ensures hit <==> exists k :: j <= k < |vs| && Blocks(vs, mover, k, tx, tz)
    decreases |vs| - j
  {
    if j == |vs| then false
    else Blocks(vs, mover, j, tx, tz) || ScanFrom(vs, mover, tx, tz, j + 1)
  }

  /** checkCollision: pillars first (none), then every other vehicle. */
  function CheckCollision(vs: seq<Vehicle>, mover: nat, tx: int, tz: int): (hit: bool)
    requires mover < |vs|
    ensures hit <==> exists j :: 0 <= j < |vs| && Blocks(vs, mover, j, tx, tz)
  {
    InAnyZone(PillarZones, tx, tz) || ScanFrom(vs, mover, tx, tz, 0)
  }

  /** isWithinBounds: all four edges are legal. */
  function IsWithinBounds(x: int, z: int, b: Bounds): (inside: bool)
    ensures inside <==>
      Abs(2 * x - (b.minX + b.maxX)) <= b.maxX - b.minX && Abs(2 * z - (b.minZ + b.maxZ)) <= b.maxZ - b.minZ
  {
    x >= b.minX && x <= b.maxX && z >= b.minZ && z <= b.maxZ
  }

  /** The bounds are inclusive: the four edges are in, one tenth beyond
      any edge is out. */
  lemma WithinBoundsIsInclusive(b: Bounds, x: int, z: int)
    requires b.minX <= x <= b.maxX && b.minZ <= z <= b.maxZ
    ensures IsWithinBounds(b.minX, z, b) && IsWithinBounds(b.maxX, z, b)
    ensures IsWithinBounds(x, b.minZ, b) && IsWithinBounds(x, b.maxZ, b)
    ensures !IsWithinBounds(b.minX - 1, z, b) && !IsWithinBounds(b.maxX + 1, z, b)
    ensures !IsWithinBounds(x, b.minZ - 1, b) && !IsWithinBounds(x, b.maxZ + 1, b)
  {
  }

  /** With PILLAR_ZONES empty, no target is ever inside a pillar. */
  lemma PillarsNeverCollide(x: int, z: int)
    ensures !InAnyZone(PillarZones, x, z)
  {
  }

  /** Only the mover's height matters about the mover: its x, z, tag and
      target do not change the verdict. */
  lemma MoverOnlyContributesHeight(vs: seq<Vehicle>, mover: nat, w: Vehicle, tx: int, tz: int)
    requires mover < |vs|
    requires w.pos.y == vs[mover].pos.y
    ensures CheckCollision(vs[mover := w], mover, tx, tz) == CheckCollision(vs, mover, tx, tz)
  {
    var ws := vs[mover := w];
    if CheckCollision(ws, mover, tx, tz) {
      var j :| 0 <= j < |ws| && Blocks(ws, mover, j, tx, tz);
      assert Blocks(vs, mover, j, tx, tz);
    }
    if CheckCollision(vs, mover, tx, tz) {
      var j :| 0 <= j < |vs| && Blocks(vs, mover, j, tx, tz);
      assert Blocks(ws, mover, j, tx, tz);
    }
  }

  /** Vehicles more than 0.5 units above or below the mover never block. */
  lemma OtherFloorsNeverBlock(vs: seq<Vehicle>, mover: nat, tx: int, tz: int)
    requires mover < |vs|
    requires forall j :: 0 <= j < |vs| && j != mover ==> Abs(vs[j].pos.y - vs[mover].pos.y) > Unit / 2
    ensures !CheckCollision(vs, mover, tx, tz)
  {
  }

  /** The x and z tests are independent half-cell tests, not a distance:
      any list in which every other vehicle on the mover's floor is at
      least one cell from the target on x or on z (a neighbour in a row,
      in a column or diagonally) lets the move through. */
  lemma NeighbourCellsDoNotBlock(vs: seq<Vehicle>, mover: nat, tx: int, tz: int)
    requires mover < |vs|
    requires forall j :: 0 <= j < |vs| && j != mover && SameLevel(vs[j].pos.y, vs[mover].pos.y) ==>
      Abs(vs[j].pos.x - tx) >= GridSize || Abs(vs[j].pos.z - tz) >= GridSize
    ensures !CheckCollision(vs, mover, tx, tz)
  {
  }

  /** A coordinate on the grid: a multiple of GRID_SIZE. */
  predicate OnGridValue(a: int) {
    a % GridSize == 0
  }

  /** Two grid values less than one cell apart are equal. */
  lemma GridCloseIsEqual(a: int, b: int, tolerance: int)
    requires OnGridValue(a) && OnGridValue(b)
    requires tolerance <= GridSize
    requires Abs(a - b) < tolerance
    ensures a == b
  {
    var p := a / GridSize;
    var q := b / GridSize;
    assert a == GridSize * p;
    assert b == GridSize * q;
    assert a - b == GridSize * (p - q);
  }

  /** Every vehicle sits on the grid (x and z multiples of GRID_SIZE). */
  predicate AllOnGrid(vs: seq<Vehicle>) {
    forall j :: 0 <= j < |vs| ==> OnGridValue(vs[j].pos.x) && OnGridValue(vs[j].pos.z)
  }

  /** On the grid the half-cell tests are exact: a grid target collides iff
      another same-floor vehicle sits on exactly that cell. */
  lemma GridCollisionIsExactCell(vs: seq<Vehicle>, mover: nat, tx: int, tz: int)
    requires mover < |vs|
    requires AllOnGrid(vs)
    requires OnGridValue(tx) && OnGridValue(tz)
    ensures CheckCollision(vs, mover, tx, tz) <==>
      exists j :: 0 <= j < |vs| && j != mover && SameLevel(vs[j].pos.y, vs[mover].pos.y)
                  && vs[j].pos.x == tx && vs[j].pos.z == tz
  {
    if CheckCollision(vs, mover, tx, tz) {
      var j :| 0 <= j < |vs| && Blocks(vs, mover, j, tx, tz);
      GridCloseIsEqual(vs[j].pos.x, tx, GridSize / 2);
      GridCloseIsEqual(vs[j].pos.z, tz, GridSize / 2);
    }
    if exists j :: 0 <= j < |vs| && j != mover && SameLevel(vs[j].pos.y, vs[mover].pos.y)
                  && vs[j].pos.x == tx && vs[j].pos.z == tz {
      var j :| 0 <= j < |vs| && j != mover && SameLevel(vs[j].pos.y, vs[mover].pos.y)
                  && vs[j].pos.x == tx && vs[j].pos.z == tz;
      assert Blocks(vs, mover, j, tx, tz);
    }
  }

  /** The mover never collides with itself: in any list of vehicles on the
      grid where no other vehicle shares its cell on its floor, the mover
      may always enter the cell it stands on. */
  lemma SelfNeverCollides(vs: seq<Vehicle>, mover: nat)
    requires mover < |vs|
    requires AllOnGrid(vs)
    requires forall j :: 0 <= j < |vs| && j != mover && SameLevel(vs[j].pos.y, vs[mover].pos.y) ==>
      vs[j].pos.x != vs[mover].pos.x || vs[j].pos.z != vs[mover].pos.z
    ensures !CheckCollision(vs, mover, vs[mover].pos.x, vs[mover].pos.z)
  {
    GridCollisionIsExactCell(vs, mover, vs[mover].pos.x, vs[mover].pos.z);
  }
}
