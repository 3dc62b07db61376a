/** The move-hint arrows (src/objects/DirectionHelper.js) without their
    meshes: which arrows are shown for the selected vehicle, and the
    one-cell look-ahead that decides it. */
module DirectionHelp {
  import opened Common
  import opened Constants
  import opened Vehicles
  import opened Collision
  import opened Input

  /** The four arrows; up points to -z, down to +z, left to -x, right to +x. */
  datatype Arrow = Up | Down | Left | Right

  /** The axis an arrow belongs to (its `userData.direction`). */
  function ArrowAxis(a: Arrow): Axis {
    if a == Up || a == Down then Vertical else Horizontal
  }

  /** The cell an arrow points at: one GRID_SIZE from the position. */
  function ArrowTarget(p: Pos, a: Arrow): (t: Target)
    ensures a == Up ==> t == Target(p.x, p.z - GridSize)
    ensures a == Down ==> t == Target(p.x, p.z + GridSize)
    ensures a == Left ==> t == Target(p.x - GridSize, p.z)
    ensures a == Right ==> t == Target(p.x + GridSize, p.z)
    ensures Abs(t.x - p.x) + Abs(t.z - p.z) == GridSize
  {
    match a
    case Up => Target(p.x, p.z - GridSize)
    case Down => Target(p.x, p.z + GridSize)
    case Left => Target(p.x - GridSize, p.z)
    case Right => Target(p.x + GridSize, p.z)
  }

  /** The bounds test as DirectionHelper writes it, negated. */
  predicate OutsideParking(x: int, z: int) {
    x < ParkingBounds.minX || x > ParkingBounds.maxX || z < ParkingBounds.minZ || z > ParkingBounds.maxZ
  }

  /** The two files' bounds tests agree: outside is exactly not within. */
  lemma OutsideIsNotWithin(x: int, z: int)
    ensures OutsideParking(x, z) <==> !IsWithinBounds(x, z, ParkingBounds)
  {
  }

  /** canMoveInDirection; `hasChecker` is whether a collision manager was
      passed (without one every direction is allowed). */
  function CanMoveInDirection(vs: seq<Vehicle>, i: nat, a: Arrow, hasChecker: bool): (ok: bool)
    requires i < |vs|
    ensures !hasChecker ==> ok
    ensures hasChecker ==>
      var t := ArrowTarget(vs[i].pos, a);
      (ok <==> IsWithinBounds(t.x, t.z, ParkingBounds) && !CheckCollision(vs, i, t.x, t.z))
  {
    if !hasChecker then true
    else
      var t := ArrowTarget(vs[i].pos, a);
      if OutsideParking(t.x, t.z) then false
      else !CheckCollision(vs, i, t.x, t.z)
  }

  /** The axis filter of `show`: BOTH shows every arrow, a tagged vehicle
      only the arrows of its axis. */
  predicate AxisShows(axis: Axis, a: Arrow) {
    match axis
    case Both => true
    case Horizontal => ArrowAxis(a) == Horizontal
    case Vertical => ArrowAxis(a) == Vertical
  }

  /** The arrow filter and Vehicle.canMove are the same rule. */
  lemma ArrowFilterIsCanMove(v: Vehicle, a: Arrow)
    ensures AxisShows(v.axis, a) == CanMove(v, ArrowAxis(a))
  {
  }

  /** The helper's visible flag and each arrow's own visibility. */
  datatype Helper = Helper(visible: bool, up: bool, down: bool, left: bool, right: bool)

  /** A new helper: hidden, arrows not yet filtered. */
  const NewHelper: Helper := Helper(false, true, true, true, true)

  function ArrowVisible(h: Helper, a: Arrow): bool {
    match a
    case Up => h.up
    case Down => h.down
    case Left => h.left
    case Right => h.right
  }

  /** Whether `show` displays arrow `a` for vehicle `i`. */
  predicate ShouldShow(vs: seq<Vehicle>, i: nat, a: Arrow, hasChecker: bool)
    requires i < |vs|
  {
    AxisShows(vs[i].axis, a) && (!hasChecker || CanMoveInDirection(vs, i, a, true))
  }

  /** show: the helper becomes visible and each arrow is shown iff it
      matches the vehicle's axis and, given a checker, its cell is free. */
  function Show(vs: seq<Vehicle>, i: nat, hasChecker: bool): (h: Helper)
    requires i < |vs|
    ensures h.visible
    ensures forall a: Arrow :: ArrowVisible(h, a) <==>
      CanMove(vs[i], ArrowAxis(a)) && (!hasChecker || CanMoveInDirection(vs, i, a, hasChecker))
  {
    var h := Helper(true, ShouldShow(vs, i, Up, hasChecker), ShouldShow(vs, i, Down, hasChecker),
                    ShouldShow(vs, i, Left, hasChecker), ShouldShow(vs, i, Right, hasChecker));
    assert forall a: Arrow :: ArrowVisible(h, a) == ShouldShow(vs, i, a, hasChecker);
    h
  }

  /** hide: only the visible flag changes. */
  function Hide(h: Helper): (r: Helper)
    ensures !r.visible
    ensures forall a: Arrow :: ArrowVisible(r, a) == ArrowVisible(h, a)
  {
    h.(visible := false)
  }

  /** The arrow a key press drives along: forward is +x (right) or +z
      (down), backward the opposite. */
  function KeyArrow(f: Facing, sign: int): Arrow {
    if f == FacingX then (if sign > 0 then Right else Left)
    else (if sign > 0 then Down else Up)
  }

  /** For a vehicle on the grid, a driving key is accepted exactly when
      the arrow it drives along passes the look-ahead. */
  lemma KeyAcceptedIffArrowFree(vs: seq<Vehicle>, i: nat, key: string)
    requires i < |vs|
    requires OnGridValue(vs[i].pos.x) && OnGridValue(vs[i].pos.z)
    requires KeySign(key) != 0
    ensures OnKeyDown(vs, Some(i), key).outcome.Moved?
            <==> CanMoveInDirection(vs, i, KeyArrow(vs[i].facing, KeySign(key)), true)
  {
    TargetIsOneCell(vs[i], KeySign(key));
  }

  /** When the facing matches the tag (HORIZONTAL facing x, VERTICAL facing
      z, as in every level), the arrows `show` displays are exactly the
      key moves that will be accepted, and no other arrow is displayed. */
  lemma ShownArrowsAreAcceptedKeys(vs: seq<Vehicle>, i: nat)
    requires i < |vs|
    requires OnGridValue(vs[i].pos.x) && OnGridValue(vs[i].pos.z)
    requires (vs[i].axis == Horizontal && vs[i].facing == FacingX)
          || (vs[i].axis == Vertical && vs[i].facing == FacingZ)
    ensures var h := Show(vs, i, true);
      && (ArrowVisible(h, KeyArrow(vs[i].facing, 1)) <==> OnKeyDown(vs, Some(i), "ArrowUp").outcome.Moved?)
      && (ArrowVisible(h, KeyArrow(vs[i].facing, -1)) <==> OnKeyDown(vs, Some(i), "ArrowDown").outcome.Moved?)
      && (forall a: Arrow :: a != KeyArrow(vs[i].facing, 1) && a != KeyArrow(vs[i].facing, -1)
            ==> !ArrowVisible(h, a))
  {
    KeyAcceptedIffArrowFree(vs, i, "ArrowUp");
    KeyAcceptedIffArrowFree(vs, i, "ArrowDown");
  }
}
