/** The level table and level-progress logic (src/game/LevelManager.js).
    Positions are in tenths, as everywhere in this model: the table's
    x = -8 is -80 here and its floor y = -3 is -30. */
module Levels {
  import opened Common
  import opened Constants
  import opened Vehicles
  import opened Collision
  import opened Saves

  /** One vehicle entry: model path, position, axis tag and rotation. */
  datatype VehicleSpec = VehicleSpec(model: string, x: int, y: int, z: int, direction: Axis, facing: Facing)

  datatype ElevatorSpec = ElevatorSpec(x: int, z: int, floorIndex: int)

  datatype Level = Level(
    name: string,
    floors: nat,
    exitFloor: nat,
    exitX: int,
    exitZ: int,
    elevators: seq<ElevatorSpec>,
    player: VehicleSpec,
    vehicles: seq<VehicleSpec>)

  const Van: string := "/models/van.glb"
  const Delivery: string := "/models/delivery.glb"
  const TruckFlat: string := "/models/truck-flat.glb"
  const Taxi: string := "/models/taxi.glb"

  function V(model: string, x: int, y: int, z: int): VehicleSpec {
    VehicleSpec(model, x, y, z, Vertical, FacingZ)
  }

  function H(model: string, x: int, y: int, z: int): VehicleSpec {
    VehicleSpec(model, x, y, z, Horizontal, FacingX)
  }

  const LevelElevators: seq<ElevatorSpec> := [ElevatorSpec(-80, 0, 0), ElevatorSpec(40, 0, 1)]

  const PlayerSpec: VehicleSpec := H(Taxi, 40, 0, 0)

  // Each level's vehicles, floor by floor, in table order.
  const Level1Ground: seq<VehicleSpec> := [V(Van, 20, 0, 0), V(Delivery, 0, 0, 0), V(TruckFlat, -20, 0, 0)]
  const Level1Minus1: seq<VehicleSpec> := [V(Delivery, 20, -30, 0), V(Van, 0, -30, 0)]
  const Level1Minus2: seq<VehicleSpec> := [V(TruckFlat, -60, -60, 0), V(Van, -40, -60, 0)]

  const Level2Ground: seq<VehicleSpec> := [
    V(TruckFlat, 20, 0, 0), V(Van, 0, 0, 0), V(Delivery, -20, 0, 0), V(Van, -40, 0, 0),
    H(Van, 20, 0, -20), H(Delivery, -20, 0, -20),
    H(TruckFlat, 0, 0, 20), H(Van, -40, 0, 20)]
  const Level2Minus1: seq<VehicleSpec> := [
    V(Van, 20, -30, 0), V(TruckFlat, 0, -30, 0), V(Delivery, -20, -30, 0),
    H(Van, 20, -30, -20), H(Van, 0, -30, 20)]
  const Level2Minus2: seq<VehicleSpec> := [
    V(Delivery, -60, -60, 0), V(Van, -40, -60, 0), V(TruckFlat, -20, -60, 0),
    H(Van, -40, -60, -20)]

  const Level3Ground: seq<VehicleSpec> := [
    V(Van, 20, 0, 0), V(Delivery, 0, 0, 0), V(TruckFlat, -20, 0, 0), V(Van, -40, 0, 0), V(Delivery, -60, 0, 0),
    H(TruckFlat, 20, 0, -20), H(Van, -20, 0, -20),
    H(Delivery, 0, 0, 20), H(Van, -40, 0, 20),
    V(Van, 20, 0, -40), V(TruckFlat, -20, 0, -40),
    V(Delivery, 0, 0, 40), V(Van, -40, 0, 40)]
  const Level3Minus1: seq<VehicleSpec> := [
    V(TruckFlat, 20, -30, 0), V(Van, 0, -30, 0), V(Delivery, -20, -30, 0), V(TruckFlat, -40, -30, 0),
    H(Van, 20, -30, -20), H(Delivery, -20, -30, -20),
    H(TruckFlat, 0, -30, 20), H(Van, -40, -30, 20),
    V(Delivery, 20, -30, -40), V(Van, 0, -30, 40)]
  const Level3Minus2: seq<VehicleSpec> := [
    V(Van, -60, -60, 0), V(Delivery, -40, -60, 0), V(TruckFlat, -20, -60, 0), V(Van, 0, -60, 0),
    H(Delivery, -40, -60, -20), H(Van, 0, -60, -20),
    H(TruckFlat, -60, -60, 20), H(Van, -20, -60, 20),
    V(Delivery, -40, -60, -40), V(Van, -60, -60, 40)]

  /** A level of the table: three floors, exit at x = -8 on the bottom floor. */
  function TableLevel(name: string, ground: seq<VehicleSpec>, minus1: seq<VehicleSpec>, minus2: seq<VehicleSpec>): Level {
    Level(name, 3, 2, -80, 0, LevelElevators, PlayerSpec, ground + minus1 + minus2)
  }

  const Level1: Level := TableLevel("Niveau 1 - Tutoriel", Level1Ground, Level1Minus1, Level1Minus2)
  const Level2: Level := TableLevel("Niveau 2 - Intermédiaire", Level2Ground, Level2Minus1, Level2Minus2)
  const Level3: Level := TableLevel("Niveau 3 - Expert", Level3Ground, Level3Minus1, Level3Minus2)

  /** LEVELS, keyed by level number. */
  const LevelTable: map<int, Level> := map[1 := Level1, 2 := Level2, 3 := Level3]

  /** Whether a spec's rotation agrees with its axis tag. */
  predicate FacingAgrees(s: VehicleSpec) {
    (s.direction == Horizontal ==> s.facing == FacingX) && (s.direction == Vertical ==> s.facing == FacingZ)
  }

  /** A spec sits on a grid cell of a floor inside the parking bounds. */
  predicate WellPlaced(s: VehicleSpec) {
    && OnGridValue(s.x) && OnGridValue(s.z)
    && IsWithinBounds(s.x, s.z, ParkingBounds)
    && (s.y == Floors[0].y || s.y == Floors[1].y || s.y == Floors[2].y)
  }

  predicate SameCell(a: VehicleSpec, b: VehicleSpec) {
    a.x == b.x && a.y == b.y && a.z == b.z
  }

  /** No vehicle of the level occupies cell (x, y, z). */
  predicate CellFree(l: Level, x: int, y: int, z: int) {
    && !(l.player.x == x && l.player.y == y && l.player.z == z)
    && forall k :: 0 <= k < |l.vehicles| ==> !(l.vehicles[k].x == x && l.vehicles[k].y == y && l.vehicles[k].z == z)
  }

  /** The design rules written at the head of the level table, plus the
      placement facts the rest of the game relies on. */
  predicate DesignRules(l: Level) {
    // the taxi is horizontal on z = 0 of the ground floor
    && l.player.direction == Horizontal && l.player.z == 0 && l.player.y == Floors[0].y
    && FacingAgrees(l.player) && WellPlaced(l.player)
    // obstacles on z = 0 are vertical, so they can be cleared
    && (forall k :: 0 <= k < |l.vehicles| && l.vehicles[k].z == 0 ==> l.vehicles[k].direction == Vertical)
    && (forall k :: 0 <= k < |l.vehicles| ==> FacingAgrees(l.vehicles[k]) && WellPlaced(l.vehicles[k]))
    // elevators sit on z = 0 and can take a vehicle down
    && (forall e :: e in l.elevators ==> e.z == 0 && 0 <= e.floorIndex < |Floors| - 1)
    // the exit is a free cell of the bottom floor
    && l.floors == |Floors| && l.exitFloor == |Floors| - 1
    && l.exitZ == 0 && OnGridValue(l.exitX) && IsWithinBounds(l.exitX, l.exitZ, ParkingBounds)
    && CellFree(l, l.exitX, Floors[l.exitFloor].y, l.exitZ)
  }

  /** Every vertical obstacle on z = 0 has a free cell next to it along z. */
  predicate VerticalsCanClear(l: Level) {
    forall k :: 0 <= k < |l.vehicles| && l.vehicles[k].z == 0 && l.vehicles[k].direction == Vertical ==>
      CellFree(l, l.vehicles[k].x, l.vehicles[k].y, -GridSize) || CellFree(l, l.vehicles[k].x, l.vehicles[k].y, GridSize)
  }

  /** No two vehicles (taxi included) share a cell. */
  predicate CellsDistinct(l: Level) {
    && (forall k :: 0 <= k < |l.vehicles| ==> !SameCell(l.player, l.vehicles[k]))
    && Distinct(l.vehicles)
  }

  predicate Distinct(vs: seq<VehicleSpec>) {
    forall i, j :: 0 <= i < j < |vs| ==> !SameCell(vs[i], vs[j])
  }

  /** No vehicle of `vs` is at cell (x, y, z). */
  predicate FreeIn(vs: seq<VehicleSpec>, x: int, y: int, z: int) {
    forall k :: 0 <= k < |vs| ==> !(vs[k].x == x && vs[k].y == y && vs[k].z == z)
  }

  /** The vertical obstacles on z = 0 of one group can clear within it. */
  predicate ClearableIn(vs: seq<VehicleSpec>) {
    forall k :: 0 <= k < |vs| && vs[k].z == 0 && vs[k].direction == Vertical ==>
      FreeIn(vs, vs[k].x, vs[k].y, -GridSize) || FreeIn(vs, vs[k].x, vs[k].y, GridSize)
  }

  /** Two groups on different floors. */
  predicate FloorsApart(a: seq<VehicleSpec>, b: seq<VehicleSpec>) {
    forall i, j :: 0 <= i < |a| && 0 <= j < |b| ==> a[i].y != b[j].y
  }

  predicate OnFloorY(vs: seq<VehicleSpec>, y: int) {
    forall k :: 0 <= k < |vs| ==> vs[k].y == y
  }

  /** Joining two groups on different floors keeps both distinct and clearable. */
  lemma {:induction false} JoinFloors(a: seq<VehicleSpec>, b: seq<VehicleSpec>)
    requires FloorsApart(a, b)
    requires Distinct(a) && Distinct(b)
    requires ClearableIn(a) && ClearableIn(b)
    ensures Distinct(a + b)
    ensures ClearableIn(a + b)
  {
    var ab := a + b;
    forall i, j | 0 <= i < j < |ab|
      ensures !SameCell(ab[i], ab[j])
    {
      if j < |a| {
        assert !SameCell(a[i], a[j]);
      } else if i >= |a| {
        assert !SameCell(b[i - |a|], b[j - |a|]);
      } else {
        assert a[i].y != b[j - |a|].y;
      }
    }
    forall k | 0 <= k < |ab| && ab[k].z == 0 && ab[k].direction == Vertical
      ensures FreeIn(ab, ab[k].x, ab[k].y, -GridSize) || FreeIn(ab, ab[k].x, ab[k].y, GridSize)
    {
      var w := ab[k];
      if k < |a| {
        assert FreeIn(a, w.x, w.y, -GridSize) || FreeIn(a, w.x, w.y, GridSize);
        assert FreeIn(b, w.x, w.y, -GridSize) && FreeIn(b, w.x, w.y, GridSize) by {
          forall m | 0 <= m < |b| ensures b[m].y != w.y { assert a[k].y != b[m].y; }
        }
      } else {
        assert FreeIn(b, w.x, w.y, -GridSize) || FreeIn(b, w.x, w.y, GridSize);
        assert FreeIn(a, w.x, w.y, -GridSize) && FreeIn(a, w.x, w.y, GridSize) by {
          forall m | 0 <= m < |a| ensures a[m].y != w.y { assert a[m].y != b[k - |a|].y; }
        }
      }
      FreeInJoin(a, b, w.x, w.y, -GridSize);
      FreeInJoin(a, b, w.x, w.y, GridSize);
    }
  }

  lemma FreeInJoin(a: seq<VehicleSpec>, b: seq<VehicleSpec>, x: int, y: int, z: int)
    ensures FreeIn(a + b, x, y, z) <==> FreeIn(a, x, y, z) && FreeIn(b, x, y, z)
  {
    if FreeIn(a, x, y, z) && FreeIn(b, x, y, z) {
      forall k | 0 <= k < |a + b| ensures !((a + b)[k].x == x && (a + b)[k].y == y && (a + b)[k].z == z) {
        if k >= |a| { assert (a + b)[k] == b[k - |a|]; }
      }
    }
    if FreeIn(a + b, x, y, z) {
      forall k | 0 <= k < |a| ensures !(a[k].x == x && a[k].y == y && a[k].z == z) {
        assert (a + b)[k] == a[k];
      }
      forall k | 0 <= k < |b| ensures !(b[k].x == x && b[k].y == y && b[k].z == z) {
        assert (a + b)[|a| + k] == b[k];
      }
    }
  }

  /** The per-floor facts every table level is built from. */
  predicate FloorGroupOk(g: seq<VehicleSpec>, y: int) {
    && OnFloorY(g, y) && Distinct(g) && ClearableIn(g)
    && (forall k :: 0 <= k < |g| ==> !SameCell(PlayerSpec, g[k]))
    && (forall k :: 0 <= k < |g| ==> g[k].z == 0 ==> g[k].direction == Vertical)
    && (forall k :: 0 <= k < |g| ==> FacingAgrees(g[k]) && WellPlaced(g[k]))
  }

  /** A table level whose floor groups are sound satisfies all the rules. */
  lemma TableLevelFollowsRules(name: string, g0: seq<VehicleSpec>, g1: seq<VehicleSpec>, g2: seq<VehicleSpec>)
    requires FloorGroupOk(g0, Floors[0].y) && FloorGroupOk(g1, Floors[1].y) && FloorGroupOk(g2, Floors[2].y)
    requires FreeIn(g2, -80, Floors[2].y, 0)
    ensures var l := TableLevel(name, g0, g1, g2);
      DesignRules(l) && VerticalsCanClear(l) && CellsDistinct(l)
  {
    var l := TableLevel(name, g0, g1, g2);
    JoinFloors(g0, g1);
    JoinFloors(g0 + g1, g2);
    FreeInJoin(g0 + g1, g2, -80, Floors[2].y, 0);
    FreeInJoin(g0, g1, -80, Floors[2].y, 0);
    assert CellFree(l, l.exitX, Floors[l.exitFloor].y, l.exitZ);
    forall k | 0 <= k < |l.vehicles| && l.vehicles[k].z == 0 && l.vehicles[k].direction == Vertical
      ensures CellFree(l, l.vehicles[k].x, l.vehicles[k].y, -GridSize) || CellFree(l, l.vehicles[k].x, l.vehicles[k].y, GridSize)
    {
    }
    forall k | 0 <= k < |l.vehicles|
      ensures !SameCell(l.player, l.vehicles[k])
      ensures l.vehicles[k].z == 0 ==> l.vehicles[k].direction == Vertical
      ensures FacingAgrees(l.vehicles[k]) && WellPlaced(l.vehicles[k])
    {
      if k < |g0 + g1| {
        if k >= |g0| { assert l.vehicles[k] == g1[k - |g0|]; }
      } else {
        assert l.vehicles[k] == g2[k - |g0 + g1|];
      }
    }
  }

  lemma Level1GroundOk()
    ensures FloorGroupOk(Level1Ground, Floors[0].y)
  {
  }

  lemma Level1Minus1Ok()
    ensures FloorGroupOk(Level1Minus1, Floors[1].y)
  {
  }

  lemma Level1Minus2Ok()
    ensures FloorGroupOk(Level1Minus2, Floors[2].y)
  {
  }

  lemma Level2GroundOk()
    ensures FloorGroupOk(Level2Ground, Floors[0].y)
  {
    Level2GroundClearable();
    Level2GroundDistinct();
  }

  lemma Level2GroundDistinct()
    ensures Distinct(Level2Ground)
  {
  }

  lemma Level2GroundClearable()
    ensures ClearableIn(Level2Ground)
  {
  }

  lemma Level2Minus1Ok()
    ensures FloorGroupOk(Level2Minus1, Floors[1].y)
  {
    Level2Minus1Clearable();
    Level2Minus1Distinct();
  }

  lemma Level2Minus1Distinct()
    ensures Distinct(Level2Minus1)
  {
  }

  lemma Level2Minus1Clearable()
    ensures ClearableIn(Level2Minus1)
  {
  }

  lemma Level2Minus2Ok()
    ensures FloorGroupOk(Level2Minus2, Floors[2].y)
  {
  }

  lemma Level3GroundOk()
    ensures FloorGroupOk(Level3Ground, Floors[0].y)
  {
    Level3GroundClearable();
    Level3GroundDistinct();
  }

  lemma Level3GroundDistinct()
    ensures Distinct(Level3Ground)
  {
  }

  lemma Level3GroundClearable()
    ensures ClearableIn(Level3Ground)
  {
  }

  lemma Level3Minus1Ok()
    ensures FloorGroupOk(Level3Minus1, Floors[1].y)
  {
    Level3Minus1Clearable();
    Level3Minus1Distinct();
  }

  lemma Level3Minus1Distinct()
    ensures Distinct(Level3Minus1)
  {
  }

  lemma Level3Minus1Clearable()
    ensures ClearableIn(Level3Minus1)
  {
  }

  lemma Level3Minus2Ok()
    ensures FloorGroupOk(Level3Minus2, Floors[2].y)
  {
    Level3Minus2Clearable();
    Level3Minus2Distinct();
  }

  lemma Level3Minus2Distinct()
    ensures Distinct(Level3Minus2)
  {
  }

  lemma Level3Minus2Clearable()
    ensures ClearableIn(Level3Minus2)
  {
  }

  lemma Level1FollowsRules()
    ensures DesignRules(Level1) && VerticalsCanClear(Level1) && CellsDistinct(Level1)
  {
    Level1GroundOk();
    Level1Minus1Ok();
    Level1Minus2Ok();
    TableLevelFollowsRules("Niveau 1 - Tutoriel", Level1Ground, Level1Minus1, Level1Minus2);
  }

  lemma Level2FollowsRules()
    ensures DesignRules(Level2) && VerticalsCanClear(Level2) && CellsDistinct(Level2)
  {
    Level2GroundOk();
    Level2Minus1Ok();
    Level2Minus2Ok();
    TableLevelFollowsRules("Niveau 2 - Intermédiaire", Level2Ground, Level2Minus1, Level2Minus2);
  }

  lemma Level3FollowsRules()
    ensures DesignRules(Level3) && VerticalsCanClear(Level3) && CellsDistinct(Level3)
  {
    Level3GroundOk();
    Level3Minus1Ok();
    Level3Minus2Ok();
    TableLevelFollowsRules("Niveau 3 - Expert", Level3Ground, Level3Minus1, Level3Minus2);
  }

  /** The storage key of the unlocked-level list. */
  const ProgressKey: string := "parkingJam_unlockedLevels"

  datatype LevelManager = LevelManager(currentLevel: int, unlockedLevels: seq<int>)

  /** loadProgress: the stored list, or [1] when absent or unreadable. */
  function LoadProgress(store: Store): (levels: seq<int>)
    ensures ProgressKey in store && store[ProgressKey].LevelList? ==> levels == store[ProgressKey].levels
    ensures !(ProgressKey in store && store[ProgressKey].LevelList?) ==> levels == [1]
  {
    if ProgressKey in store && store[ProgressKey].LevelList? then store[ProgressKey].levels else [1]
  }

  /** The constructor: level 1 current, progress read from the store. */
  function NewLevelManager(store: Store): (lm: LevelManager)
    ensures lm.currentLevel == 1 && lm.unlockedLevels == LoadProgress(store)
  {
    LevelManager(1, LoadProgress(store))
  }

  /** getLevel: the numbered level, or level 1 when there is no such level. */
  function GetLevel(n: int): (l: Level)
    ensures 1 <= n <= 3 ==> l == LevelTable[n]
    ensures !(1 <= n <= 3) ==> l == Level1
  {
    if n in LevelTable then LevelTable[n] else LevelTable[1]
  }

  /** getCurrentLevel: the current level through getLevel, so level 1
      when the number is out of range; it always follows the design rules. */
  function GetCurrentLevel(lm: LevelManager): (l: Level)
    ensures lm.currentLevel in LevelTable ==> l == LevelTable[lm.currentLevel]
    ensures lm.currentLevel !in LevelTable ==> l == Level1
    ensures DesignRules(l) && VerticalsCanClear(l) && CellsDistinct(l)
  {
    TableFollowsRules(if lm.currentLevel in LevelTable then lm.currentLevel else 1);
    GetLevel(lm.currentLevel)
  }

  /** getLevelCount. */
  function GetLevelCount(): (n: nat)
    ensures n == 3
    ensures forall k :: k in LevelTable <==> 1 <= k <= n
  {
    assert LevelTable.Keys == {1, 2, 3};
    |LevelTable.Keys|
  }

  datatype Switch = Switch(ok: bool, manager: LevelManager)

  /** setLevel: only an existing level can be made current. */
  function SetLevel(lm: LevelManager, n: int): (r: Switch)
    ensures r.ok <==> 1 <= n <= 3
    ensures r.ok ==> r.manager == lm.(currentLevel := n)
    ensures !r.ok ==> r.manager == lm
  {
    if n in LevelTable then Switch(true, lm.(currentLevel := n)) else Switch(false, lm)
  }

  datatype Progress = Progress(manager: LevelManager, store: Store)

  /** unlockLevel: append a level not yet listed and persist the list. */
  function UnlockLevel(lm: LevelManager, store: Store, n: int): (r: Progress)
    ensures n in r.manager.unlockedLevels
    ensures r.manager.currentLevel == lm.currentLevel
    ensures n in lm.unlockedLevels ==> r == Progress(lm, store)
    ensures n !in lm.unlockedLevels ==>
      && r.manager.unlockedLevels == lm.unlockedLevels + [n]
      && r.store == store[ProgressKey := LevelList(r.manager.unlockedLevels)]
  {
    if n in lm.unlockedLevels then Progress(lm, store)
    else
      var m := lm.(unlockedLevels := lm.unlockedLevels + [n]);
      Progress(m, store[ProgressKey := LevelList(m.unlockedLevels)])
  }

  /** isLevelUnlocked: level 1 always is. */
  function IsLevelUnlocked(lm: LevelManager, n: int): (unlocked: bool)
    ensures n == 1 ==> unlocked
    ensures n != 1 ==> (unlocked <==> exists k :: 0 <= k < |lm.unlockedLevels| && lm.unlockedLevels[k] == n)
  {
    n == 1 || n in lm.unlockedLevels
  }

  datatype Advance = Advance(ok: bool, manager: LevelManager, store: Store)

  /** nextLevel: move to the following level and unlock it, if it exists. */
  function NextLevel(lm: LevelManager, store: Store): (r: Advance)
    ensures r.ok <==> 0 <= lm.currentLevel <= 2
    ensures r.ok ==> r.manager.currentLevel == lm.currentLevel + 1 && IsLevelUnlocked(r.manager, r.manager.currentLevel)
    ensures !r.ok ==> r.manager == lm && r.store == store
  {
    var next := lm.currentLevel + 1;
    if next in LevelTable then
      var p := UnlockLevel(lm.(currentLevel := next), store, next);
      Advance(true, p.manager, p.store)
    else Advance(false, lm, store)
  }

  /** After nextLevel, setLevel back to the level played returns to it,
      and the level just reached stays unlocked and selectable. */
  lemma NextThenSetBack(lm: LevelManager, store: Store)
    requires 1 <= lm.currentLevel <= 2
    ensures var r := NextLevel(lm, store);
      var back := SetLevel(r.manager, lm.currentLevel);
      && r.ok && back.ok
      && back.manager.currentLevel == lm.currentLevel
      && back.manager.unlockedLevels == r.manager.unlockedLevels
      && IsLevelUnlocked(back.manager, lm.currentLevel + 1)
      && SetLevel(back.manager, lm.currentLevel + 1).manager == r.manager
  {
  }

  predicate NoDuplicates(xs: seq<int>) {
    forall i, j :: 0 <= i < j < |xs| ==> xs[i] != xs[j]
  }

  /** Unlocking keeps the list free of duplicates, and unlocking twice is
      the same as unlocking once. */
  lemma UnlockKeepsListClean(lm: LevelManager, store: Store, n: int)
    requires NoDuplicates(lm.unlockedLevels)
    ensures NoDuplicates(UnlockLevel(lm, store, n).manager.unlockedLevels)
    ensures var r := UnlockLevel(lm, store, n);
      UnlockLevel(r.manager, r.store, n) == r
  {
  }

  /** Unlocking one level changes no other level's status. */
  lemma UnlockOnlyAddsThatLevel(lm: LevelManager, store: Store, n: int, k: int)
    requires k != n
    ensures IsLevelUnlocked(UnlockLevel(lm, store, n).manager, k) == IsLevelUnlocked(lm, k)
  {
  }

  /** An unlocked level list survives a fresh start: what unlockLevel
      writes is what loadProgress reads back. */
  lemma UnlockPersists(lm: LevelManager, store: Store, n: int)
    requires n !in lm.unlockedLevels
    ensures var r := UnlockLevel(lm, store, n);
      NewLevelManager(r.store).unlockedLevels == r.manager.unlockedLevels
  {
  }

  /** clearAll on the game's save manager does not touch level progress. */
  lemma ClearAllKeepsProgress(store: Store)
    ensures LoadProgress(ClearAll(NewSaveManager(None), store)) == LoadProgress(store)
  {
    var m := NewSaveManager(None);
    assert ProgressKey != m.storageKey && ProgressKey != BestKey(m) by {
      assert ProgressKey[10] == '_' && m.storageKey[10] == '3';
      assert |BestKey(m)| == 17 && |ProgressKey| == 25;
    }
  }

  /** Every level in the table follows the design rules. */
  lemma TableFollowsRules(n: int)
    requires n in LevelTable
    ensures DesignRules(LevelTable[n]) && VerticalsCanClear(LevelTable[n]) && CellsDistinct(LevelTable[n])
  {
    if n == 1 { Level1FollowsRules(); }
    else if n == 2 { Level2FollowsRules(); }
    else { Level3FollowsRules(); }
  }
}
