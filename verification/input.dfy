/** Keyboard move resolution (src/controls/InputController.js,
    `onKeyDown`). The selected vehicle is an index into the vehicle list
    (mouse picking is outside the model). The handler steps one cell along
    the vehicle's facing; it never looks at the axis tag, never checks
    whether the vehicle is still sliding, and reports nothing to any
    move-counting callback. */
module Input {
  import opened Common
  import opened Constants
  import opened Vehicles
  import opened Collision

  /** `Math.round(t / GRID_SIZE) * GRID_SIZE`: the nearest grid value,
      halves rounded up (towards +infinity), as Math.round does. */
  function RoundToGrid(t: int): (r: int)
    ensures OnGridValue(r)
    ensures t - GridSize / 2 < r <= t + GridSize / 2
  {
    ((t + GridSize / 2) / GridSize) * GridSize
  }

  /** Rounding leaves grid values alone. */
  lemma RoundToGridFixesGrid(t: int)
    requires OnGridValue(t)
    ensures RoundToGrid(t) == t
  {
    GridCloseIsEqual(RoundToGrid(t), t, GridSize);
  }

  /** x component of the forward vector (sin of the rotation). */
  function ForwardX(f: Facing): int {
    if f == FacingX then 1 else 0
  }

  /** z component of the forward vector (cos of the rotation). */
  function ForwardZ(f: Facing): int {
    if f == FacingZ then 1 else 0
  }

  /** 'ArrowUp' and 'z' drive forward, 'ArrowDown' and 's' back; every
      other key is ignored. */
  function KeySign(key: string): (sign: int)
    ensures sign == 1 <==> key == "ArrowUp" || key == "z"
    ensures sign == -1 <==> key == "ArrowDown" || key == "s"
    ensures sign == 0 || sign == 1 || sign == -1
  {
    if key == "ArrowUp" || key == "z" then 1
    else if key == "ArrowDown" || key == "s" then -1
    else 0
  }

  datatype Target = Target(x: int, z: int)

  /** The candidate cell: one GRID_SIZE along the forward vector (times
      `sign`), then rounded onto the grid. */
  function TargetFor(v: Vehicle, sign: int): (t: Target)
    ensures OnGridValue(t.x) && OnGridValue(t.z)
    ensures Abs(t.x - (v.pos.x + sign * GridSize * ForwardX(v.facing))) <= GridSize / 2
    ensures Abs(t.z - (v.pos.z + sign * GridSize * ForwardZ(v.facing))) <= GridSize / 2
  {
    Target(RoundToGrid(v.pos.x + sign * ForwardX(v.facing) * GridSize),
           RoundToGrid(v.pos.z + sign * ForwardZ(v.facing) * GridSize))
  }

  /** Moving a grid value by -1, 0 or 1 cells keeps it on the grid. */
  lemma GridStep(a: int, k: int)
    requires OnGridValue(a)
    requires -1 <= k <= 1
    ensures OnGridValue(a + k * GridSize)
  {
    assert a + k * GridSize == GridSize * (a / GridSize + k);
  }

  /** From a grid cell the target is exactly one cell away, along the
      facing axis only. */
  lemma TargetIsOneCell(v: Vehicle, sign: int)
    requires OnGridValue(v.pos.x) && OnGridValue(v.pos.z)
    requires sign == 1 || sign == -1
    ensures v.facing == FacingX ==> TargetFor(v, sign) == Target(v.pos.x + sign * GridSize, v.pos.z)
    ensures v.facing == FacingZ ==> TargetFor(v, sign) == Target(v.pos.x, v.pos.z + sign * GridSize)
  {
    var dx := sign * ForwardX(v.facing) * GridSize;
    var dz := sign * ForwardZ(v.facing) * GridSize;
    GridStep(v.pos.x, sign * ForwardX(v.facing));
    GridStep(v.pos.z, sign * ForwardZ(v.facing));
    RoundToGridFixesGrid(v.pos.x + dx);
    RoundToGridFixesGrid(v.pos.z + dz);
  }

  /** What became of a key press. The two rejections are the cases where
      the source flashes the vehicle red. */
  datatype KeyOutcome =
    | Ignored
    | OutOfBounds(tx: int, tz: int)
    | Blocked(tx: int, tz: int)
    | Moved(tx: int, tz: int)

  datatype KeyResult = KeyResult(outcome: KeyOutcome, vehicles: seq<Vehicle>)

  /** onKeyDown. */
  function OnKeyDown(vs: seq<Vehicle>, selected: Option<nat>, key: string): (r: KeyResult)
    requires selected.Some? ==> selected.value < |vs|
    ensures |r.vehicles| == |vs|
    ensures selected.None? || KeySign(key) == 0 ==> r == KeyResult(Ignored, vs)
    ensures !r.outcome.Moved? ==> r.vehicles == vs
    ensures selected.Some? && KeySign(key) != 0 ==>
      var i := selected.value;
      var t := TargetFor(vs[i], KeySign(key));
      && (r.outcome.OutOfBounds? <==> !IsWithinBounds(t.x, t.z, ParkingBounds))
      && (r.outcome.Blocked? <==> IsWithinBounds(t.x, t.z, ParkingBounds) && CheckCollision(vs, i, t.x, t.z))
      && (r.outcome.Moved? <==> IsWithinBounds(t.x, t.z, ParkingBounds) && !CheckCollision(vs, i, t.x, t.z))
      && (r.outcome.Moved? ==> r.outcome == Moved(t.x, t.z) && r.vehicles == vs[i := MoveTo(vs[i], t.x, t.z)])
  {
    if selected.None? then KeyResult(Ignored, vs)
    else
      var i := selected.value;
      var sign := KeySign(key);
      if sign == 0 then KeyResult(Ignored, vs)
      else
        var t := TargetFor(vs[i], sign);
        if !IsWithinBounds(t.x, t.z, ParkingBounds) then KeyResult(OutOfBounds(t.x, t.z), vs)
        else if CheckCollision(vs, i, t.x, t.z) then KeyResult(Blocked(t.x, t.z), vs)
        else KeyResult(Moved(t.x, t.z), vs[i := MoveTo(vs[i], t.x, t.z)])
  }

  /** The axis tag never gates a key move: retagging the selected vehicle
      leaves the outcome unchanged. */
  lemma AxisTagDoesNotGate(vs: seq<Vehicle>, i: nat, key: string, a: Axis)
    requires i < |vs|
    ensures OnKeyDown(vs[i := vs[i].(axis := a)], Some(i), key).outcome == OnKeyDown(vs, Some(i), key).outcome
  {
    var t := TargetFor(vs[i], KeySign(key));
    MoverOnlyContributesHeight(vs, i, vs[i].(axis := a), t.x, t.z);
  }

  /** Neither does a pending target: a vehicle still sliding accepts a new
      move exactly as if it were at rest. */
  lemma SlidingDoesNotGate(vs: seq<Vehicle>, i: nat, key: string)
    requires i < |vs|
    ensures OnKeyDown(vs[i := vs[i].(targetX := None, targetZ := None)], Some(i), key).outcome
            == OnKeyDown(vs, Some(i), key).outcome
  {
    var t := TargetFor(vs[i], KeySign(key));
    MoverOnlyContributesHeight(vs, i, vs[i].(targetX := None, targetZ := None), t.x, t.z);
  }

  /** No two vehicles at rest on the same floor share a cell. */
  predicate Exclusive(vs: seq<Vehicle>) {
    forall a, b :: 0 <= a < |vs| && 0 <= b < |vs| && a != b && SameLevel(vs[a].pos.y, vs[b].pos.y)
      ==> vs[a].pos.x != vs[b].pos.x || vs[a].pos.z != vs[b].pos.z
  }

  predicate AllAtRest(vs: seq<Vehicle>) {
    forall j :: 0 <= j < |vs| ==> !IsMoving(vs[j])
  }

  /** A key press followed by settling keeps every vehicle on the grid and
      keeps the one-vehicle-per-cell invariant. */
  lemma KeyMovePreservesExclusive(vs: seq<Vehicle>, i: nat, key: string)
    requires i < |vs|
    requires AllOnGrid(vs) && AllAtRest(vs) && Exclusive(vs)
    ensures var ws := UpdateAll(OnKeyDown(vs, Some(i), key).vehicles);
      AllOnGrid(ws) && AllAtRest(ws) && Exclusive(ws)
  {
    var r := OnKeyDown(vs, Some(i), key);
    var ws := UpdateAll(r.vehicles);
    if r.outcome.Moved? {
      var tx, tz := r.outcome.tx, r.outcome.tz;
      assert ws[i].pos == Pos(tx, vs[i].pos.y, tz);
      assert forall j :: 0 <= j < |vs| && j != i ==> ws[j] == vs[j];
      forall a, b | 0 <= a < |ws| && 0 <= b < |ws| && a != b && SameLevel(ws[a].pos.y, ws[b].pos.y)
        ensures ws[a].pos.x != ws[b].pos.x || ws[a].pos.z != ws[b].pos.z
      {
        if a == i || b == i {
          var j := if a == i then b else a;
          assert SameLevel(vs[j].pos.y, vs[i].pos.y);
          assert !Blocks(vs, i, j, tx, tz);
        }
      }
    } else {
      assert forall j :: 0 <= j < |vs| ==> ws[j] == vs[j];
    }
  }

  /** A vertical vehicle at (2, 0) facing +z with an obstacle at (2, -2):
      backing up ('s') is blocked, driving forward ('z') moves it to (2, 2). */
  lemma BlockedThenForwardScenario()
    ensures var car := NewVehicle(Pos(20, 0, 0), Some(Vertical), FacingZ);
      var obstacle := NewVehicle(Pos(20, 0, -20), Some(Vertical), FacingZ);
      && OnKeyDown([car, obstacle], Some(0), "s").outcome == Blocked(20, -20)
      && OnKeyDown([car, obstacle], Some(0), "z").outcome == Moved(20, 20)
  {
    var car := NewVehicle(Pos(20, 0, 0), Some(Vertical), FacingZ);
    var obstacle := NewVehicle(Pos(20, 0, -20), Some(Vertical), FacingZ);
    assert Blocks([car, obstacle], 0, 1, 20, -20);
    assert !Blocks([car, obstacle], 0, 1, 20, 20);
  }
}
