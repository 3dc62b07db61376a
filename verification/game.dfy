/** The game wiring of src/main.js: the `onMove` callback, the Ctrl+Z
    handler, the win latch of the animation loop, the victory screen's
    "new record" flag, the floor shown for the taxi, the elevator/exit
    placement and the resume-or-discard choice at start-up. Cameras,
    GUI, DOM and model loading are outside the model. */
module Game {
  import opened Common
  import opened Constants
  import opened Vehicles
  import opened Collision
  import opened Input
  import opened Elevators
  import opened Exits
  import Moves
  import Score
  import opened Saves

  datatype GameState = GameState(
    vehicles: seq<Vehicle>,
    player: Option<nat>,
    selected: Option<nat>,
    exit: ExitZone,
    session: Score.Session,
    history: Moves.History,
    saver: SaveManager,
    store: Store,
    hasWon: bool)

  /** Every vehicle reference (player, selection, history) is in the list. */
  predicate Wf(g: GameState) {
    && (g.player.Some? ==> g.player.value < |g.vehicles|)
    && (g.selected.Some? ==> g.selected.value < |g.vehicles|)
    && Moves.RefsValid(g.history, |g.vehicles|)
  }

  /** onMove: count the move, record it, and auto-save. */
  function OnMove(g: GameState, vehicle: nat, fromX: int, fromZ: int, toX: int, toZ: int): (r: GameState)
    requires Wf(g) && vehicle < |g.vehicles|
    ensures Wf(r)
    ensures r.session.isRunning
    ensures r.session.moves == (if g.session.isRunning then g.session.moves + 1 else 1)
    ensures |r.history| == |g.history| + 1 && r.history[..|g.history|] == g.history
    ensures r.history[|g.history|] == Moves.MoveRecord(vehicle, fromX, fromZ, toX, toZ)
    ensures r.saver.autoSaveEnabled ==> Load(r.saver, r.store) == Some(Snapshot(g.vehicles, r.session, |r.history|))
    ensures !r.saver.autoSaveEnabled ==> r.store == g.store
    ensures r.vehicles == g.vehicles && r.selected == g.selected && r.player == g.player
    ensures r.hasWon == g.hasWon && r.exit == g.exit && r.saver == g.saver
  {
    var s := Score.AddMove(g.session);
    var h := Moves.AddMove(g.history, vehicle, fromX, fromZ, toX, toZ);
    var store := if g.saver.autoSaveEnabled then SaveGameState(g.saver, g.store, g.vehicles, s, |h|).store else g.store;
    g.(session := s, history := h, store := store)
  }

  /** The Ctrl+Z handler: when there is something to undo, pop it (its
      vehicle is sent back) and lower the move counter, never below 0. */
  function UndoKey(g: GameState): (r: GameState)
    requires Wf(g)
    ensures Wf(r)
    ensures !Moves.CanUndo(g.history) ==> r == g
    ensures Moves.CanUndo(g.history) ==>
      var last := g.history[|g.history| - 1];
      && r.history == g.history[..|g.history| - 1]
      && r.vehicles == g.vehicles[last.vehicle := MoveTo(g.vehicles[last.vehicle], last.fromX, last.fromZ)]
      && r.session == g.session.(moves := if g.session.moves == 0 then 0 else g.session.moves - 1)
      && r.store == g.store && r.hasWon == g.hasWon && r.selected == g.selected && r.player == g.player
  {
    if Moves.CanUndo(g.history) then
      var u := Moves.Undo(g.history, g.vehicles);
      var moves := if g.session.moves - 1 < 0 then 0 else g.session.moves - 1;
      g.(history := u.history, vehicles := u.vehicles, session := g.session.(moves := moves))
    else g
  }

  datatype KeyEvent = KeyEvent(key: string, ctrl: bool, meta: bool)

  /** Ctrl+Z or Cmd+Z. */
  predicate IsUndoChord(e: KeyEvent) {
    (e.ctrl || e.meta) && e.key == "z"
  }

  /** A key press as the code is wired: the controller's listener runs
      first (it is registered when the controller is built, before main's
      own listener) and is not told about `onMove`; then main's Ctrl+Z
      handler runs. */
  function KeyDown(g: GameState, e: KeyEvent): (r: GameState)
    requires Wf(g)
    ensures Wf(r)
    ensures r.session.moves <= g.session.moves && |r.history| <= |g.history|
    ensures !IsUndoChord(e) ==> r == g.(vehicles := OnKeyDown(g.vehicles, g.selected, e.key).vehicles)
  {
    var k := OnKeyDown(g.vehicles, g.selected, e.key);
    var g1 := g.(vehicles := k.vehicles);
    if IsUndoChord(e) then UndoKey(g1) else g1
  }

  /** onMouseClick: the previous selection is deselected, then the
      vehicle under the pointer, if any, is selected. `hit` is what the
      raycast finds: the index of the vehicle under the pointer, or none;
      an index outside the list finds no vehicle. */
  function Click(g: GameState, hit: Option<nat>): (r: GameState)
    requires Wf(g)
    ensures Wf(r) && |r.vehicles| == |g.vehicles|
    ensures r == g.(vehicles := r.vehicles, selected := r.selected)
    ensures r.selected == (if hit.Some? && hit.value < |g.vehicles| then hit else None)
    ensures r.selected.Some? ==> r.vehicles[r.selected.value].isSelected
    ensures g.selected.Some? && r.selected != g.selected ==> !r.vehicles[g.selected.value].isSelected
    ensures forall j :: 0 <= j < |g.vehicles| ==>
      && r.vehicles[j].pos == g.vehicles[j].pos && r.vehicles[j].axis == g.vehicles[j].axis
      && r.vehicles[j].facing == g.vehicles[j].facing && r.vehicles[j].isPlayer == g.vehicles[j].isPlayer
      && r.vehicles[j].targetX == g.vehicles[j].targetX && r.vehicles[j].targetZ == g.vehicles[j].targetZ
    ensures forall j :: 0 <= j < |g.vehicles| && g.selected != Some(j) && r.selected != Some(j) ==>
      r.vehicles[j] == g.vehicles[j]
  {
    var vs := if g.selected.Some? then g.vehicles[g.selected.value := Deselect(g.vehicles[g.selected.value])] else g.vehicles;
    if hit.Some? && hit.value < |vs| then g.(vehicles := vs[hit.value := Select(vs[hit.value])], selected := hit)
    else g.(vehicles := vs, selected := None)
  }

  /** Clicking the same spot twice is clicking it once. */
  lemma ClickTwiceIsOnce(g: GameState, hit: Option<nat>)
    requires Wf(g)
    ensures Click(Click(g, hit), hit) == Click(g, hit)
  {
  }

  /** The 'E' key, the letter on the elevator's indicator sprite (the
      sprite starts hidden and nothing in the source shows it). */
  predicate IsRideKey(e: KeyEvent) {
    e.key == "e" || e.key == "E"
  }

  /** The first elevator of the list that the position stands on. */
  function ElevatorUnder(els: seq<Option<Elevator>>, p: Pos): (r: Option<Elevator>)
    ensures r.Some? ==> Some(r.value) in els && IsVehicleOnElevator(r.value, p)
    ensures r.None? ==> forall k :: 0 <= k < |els| && els[k].Some? ==> !IsVehicleOnElevator(els[k].value, p)
    decreases |els|
  {
    if els == [] then None
    else if els[0].Some? && IsVehicleOnElevator(els[0].value, p) then els[0]
    else ElevatorUnder(els[1..], p)
  }

  /** The elevator ride as evidently intended: 'E' takes the selected
      vehicle, when it stands on one of the elevators main.js builds, one
      floor down (moveVehicleToFloorBelow). The ride is not passed to
      onMove: a move record holds only x and z, so undo could not bring
      the vehicle back up. */
  function RideKey(g: GameState): (r: GameState)
    requires Wf(g)
    ensures Wf(r) && r == g.(vehicles := r.vehicles) && |r.vehicles| == |g.vehicles|
    ensures forall j :: 0 <= j < |g.vehicles| && g.selected != Some(j) ==> r.vehicles[j] == g.vehicles[j]
    ensures g.selected.Some? ==>
      var v := g.vehicles[g.selected.value];
      var w := r.vehicles[g.selected.value];
      && w == v.(pos := Pos(v.pos.x, w.pos.y, v.pos.z))
      && (ElevatorUnder(MainElevators, v.pos).None? ==> w == v)
      && (ElevatorUnder(MainElevators, v.pos).Some? ==> Abs(w.pos.y - (v.pos.y - FloorHeight)) < Unit / 2)
  {
    if g.selected.None? then g
    else
      var i := g.selected.value;
      match ElevatorUnder(MainElevators, g.vehicles[i].pos)
      case None => g
      case Some(el) =>
        MainElevatorsGoDown(el);
        g.(vehicles := g.vehicles[i := MoveVehicleToFloorBelow(el, g.vehicles[i]).vehicle])
  }

  /** Both main elevators sit at their floor's height and lead one floor
      further down. */
  lemma MainElevatorsGoDown(el: Elevator)
    requires Some(el) in MainElevators
    ensures CanGoDown(el) && el.y == Floors[el.floorIndex].y
    ensures Floors[el.floorIndex + 1].y == el.y - FloorHeight
  {
  }

  /** A key press as evidently intended: an accepted move goes through
      `onMove`, the undo chord only undoes, and 'E' rides the elevator. */
  function KeyDownCorrected(g: GameState, e: KeyEvent): (r: GameState)
    requires Wf(g)
    ensures Wf(r)
    ensures IsUndoChord(e) ==> r == UndoKey(g)
    ensures IsRideKey(e) ==> r == RideKey(g)
    ensures !IsUndoChord(e) && !IsRideKey(e) ==>
      var k := OnKeyDown(g.vehicles, g.selected, e.key);
      && r.vehicles == k.vehicles
      && (!k.outcome.Moved? ==> r == g)
      && (k.outcome.Moved? ==>
            var i := g.selected.value;
            && r.history == g.history + [Moves.MoveRecord(i, g.vehicles[i].pos.x, g.vehicles[i].pos.z, k.outcome.tx, k.outcome.tz)]
            && r.session.moves == (if g.session.isRunning then g.session.moves + 1 else 1))
  {
    if IsUndoChord(e) then UndoKey(g)
    else if IsRideKey(e) then RideKey(g)
    else
      var k := OnKeyDown(g.vehicles, g.selected, e.key);
      var g1 := g.(vehicles := k.vehicles);
      match k.outcome
      case Moved(tx, tz) =>
        var i := g.selected.value;
        OnMove(g1, i, g.vehicles[i].pos.x, g.vehicles[i].pos.z, tx, tz)
      case _ => g1
  }

  /** The guard of the win check in `animate`. */
  predicate WinGuard(g: GameState)
    requires Wf(g)
  {
    && g.player.Some? && !g.hasWon
    && !IsMoving(g.vehicles[g.player.value])
    && IsVehicleInZone(g.exit, g.vehicles[g.player.value].pos)
  }

  /** The win check: latch `hasWon`, stop the session, try the best score
      and drop the saved game. */
  function WinCheck(g: GameState): (r: GameState)
    requires Wf(g)
    ensures Wf(r)
    ensures r.hasWon <==> g.hasWon || WinGuard(g)
    ensures !WinGuard(g) ==> r == g
    ensures WinGuard(g) ==>
      && r.vehicles == g.vehicles && r.history == g.history
      && !r.session.isRunning && r.session.moves == g.session.moves && r.session.elapsed == g.session.elapsed
      && !HasSave(r.saver, r.store)
      && (!GetBestScore(g.saver, g.store).Foreign? ==>
            RecordOf(r.saver, r.store).Some?
            && LexLe(RecordOf(r.saver, r.store).value, BestScore(g.session.moves, g.session.elapsed)))
      && (GetBestScore(g.saver, g.store).Foreign? ==>
            GetBestScore(r.saver, r.store) == GetBestScore(g.saver, g.store)
            || RecordOf(r.saver, r.store) == Some(BestScore(g.session.moves, g.session.elapsed)))
  {
    if WinGuard(g) then
      var s := Score.Stop(g.session);
      var best := SaveBestScore(g.saver, g.store, s.moves, s.elapsed);
      BestIsLexMinimum(g.saver, g.store, s.moves, s.elapsed);
      ClearSaveKeepsBest(g.saver, best.store);
      g.(hasWon := true, session := s, store := ClearSave(g.saver, best.store))
    else g
  }

  /** One frame of `animate`: vehicles settle, then the win check. */
  function Animate(g: GameState): (r: GameState)
    requires Wf(g)
    ensures Wf(r)
    ensures |r.vehicles| == |g.vehicles| && forall j :: 0 <= j < |r.vehicles| ==> !IsMoving(r.vehicles[j])
    ensures r.vehicles == UpdateAll(g.vehicles) && r.selected == g.selected
    ensures r.hasWon <==> g.hasWon || WinGuard(g.(vehicles := UpdateAll(g.vehicles)))
  {
    WinCheck(g.(vehicles := UpdateAll(g.vehicles)))
  }

  /** The win fires at most once: a second check changes nothing, and a
      won game stays won. */
  lemma WinFiresOnce(g: GameState)
    requires Wf(g)
    ensures WinCheck(WinCheck(g)) == WinCheck(g)
    ensures g.hasWon ==> WinCheck(g) == g && Animate(g).hasWon
  {
  }

  /** No win while the taxi is still sliding. */
  lemma NoWinWhileMoving(g: GameState)
    requires Wf(g) && g.player.Some? && IsMoving(g.vehicles[g.player.value])
    ensures WinCheck(g) == g
  {
  }

  /** The victory screen's "new record" flag: the stored best has this
      game's moves and this game's time. Anything other than a record lacks
      a `time` field and never raises it. */
  function IsNewBest(g: GameState): (flag: bool)
    ensures flag ==> RecordOf(g.saver, g.store).Some?
    ensures RecordOf(g.saver, g.store).Some? ==>
      var b := RecordOf(g.saver, g.store).value;
      var result := BestScore(g.session.moves, g.session.elapsed);
      (flag <==> LexLe(b, result) && LexLe(result, b))
  {
    var b := GetBestScore(g.saver, g.store);
    MovesField(b) == Some(g.session.moves) && TimeField(b) == Some(g.session.elapsed)
  }

  /** Right after a win the flag is raised iff the record was replaced or
      the old record exactly ties this result; a tie is reported as a new
      record although saveBestScore kept the old one. */
  lemma NewBestFlag(g: GameState)
    requires Wf(g) && WinGuard(g)
    ensures var result := BestScore(g.session.moves, g.session.elapsed);
      IsNewBest(WinCheck(g)) <==>
        SaveBestScore(g.saver, g.store, result.moves, result.time).replaced
        || RecordOf(g.saver, g.store) == Some(result)
    ensures RecordOf(g.saver, g.store) == Some(BestScore(g.session.moves, g.session.elapsed)) ==>
      !SaveBestScore(g.saver, g.store, g.session.moves, g.session.elapsed).replaced && IsNewBest(WinCheck(g))
  {
    var s := Score.Stop(g.session);
    var best := SaveBestScore(g.saver, g.store, s.moves, s.elapsed);
    ClearSaveKeepsBest(g.saver, best.store);
  }

  /** The first floor whose height is within 0.5 of `y`. */
  function FindFloor(fs: seq<Floor>, y: int): (r: Option<Floor>)
    ensures r.None? <==> forall i :: 0 <= i < |fs| ==> Abs(fs[i].y - y) >= Unit / 2
    ensures r.Some? ==> exists i :: 0 <= i < |fs| && fs[i] == r.value && Abs(fs[i].y - y) < Unit / 2
                         && forall k :: 0 <= k < i ==> Abs(fs[k].y - y) >= Unit / 2
  {
    if |fs| == 0 then None
    else if Abs(fs[0].y - y) < Unit / 2 then Some(fs[0])
    else
      var r := FindFloor(fs[1..], y);
      assert forall i :: 0 < i < |fs| ==> fs[1..][i - 1] == fs[i];
      r
  }

  /** updateTaxiFloorDisplay: the name of the floor at the taxi's height,
      or the name already shown when the taxi is between floors. */
  function FloorNameAt(y: int, shown: string): (name: string)
    ensures name == shown || exists i :: 0 <= i < |Floors| && name == Floors[i].name && Abs(Floors[i].y - y) < Unit / 2
  {
    match FindFloor(Floors, y)
    case Some(f) => f.name
    case None => shown
  }

  /** On a floor the display names that floor; between two floor heights
      (further than 0.5 from both) it keeps what it showed. */
  lemma FloorNameTracksFloor(i: FloorIndex, shown: string, y: int)
    ensures FloorNameAt(Floors[i].y, shown) == Floors[i].name
    ensures (forall k :: 0 <= k < |Floors| ==> Abs(Floors[k].y - y) >= Unit / 2) ==> FloorNameAt(y, shown) == shown
  {
    FloorsOrdered();
    var f := FindFloor(Floors, Floors[i].y);
    assert f.Some?;
    var j :| 0 <= j < |Floors| && Floors[j] == f.value && Abs(Floors[j].y - Floors[i].y) < Unit / 2;
    assert j == i;
  }

  /** The elevators and exit main.js places: x = -6 on floor 0, x = 6 on
      floor -1, exit at x = -6 on floor -2. */
  const MainElevators: seq<Option<Elevator>> := [NewElevator(-60, 0, 0), NewElevator(60, 0, 1)]

  const MainExit: ExitZone := NewExitZone(-60, 0, Some(Floors[2].y))

  /** The placement chains the floors: each elevator exists and takes a
      vehicle one floor down, the second one down to the exit's floor. */
  lemma MainElevatorsChainFloors(v: Vehicle)
    ensures forall k :: 0 <= k < |MainElevators| ==> MainElevators[k].Some?
    ensures MoveVehicleToFloorBelow(MainElevators[0].value, v).floor == Some(1)
    ensures MoveVehicleToFloorBelow(MainElevators[1].value, v).floor == Some(2)
    ensures MoveVehicleToFloorBelow(MainElevators[1].value, v).vehicle.pos.y == MainExit.position.y
    ensures !CanGoDown(MainElevators[1].value.(floorIndex := 2))
  {
  }

  /** Start-up: with a saved game, resume it if the player confirms,
      otherwise discard it. */
  function ResumeOrDiscard(g: GameState, confirmResume: bool): (r: GameState)
    requires Wf(g)
    ensures Wf(r) && |r.vehicles| == |g.vehicles|
    ensures var saved := Load(g.saver, g.store);
      && (saved.None? || saved.value.vehicles.None? ==> r == g)
      && (saved.Some? && saved.value.vehicles.Some? && !confirmResume ==>
            r == g.(store := ClearSave(g.saver, g.store)))
      && (saved.Some? && saved.value.vehicles.Some? && confirmResume ==>
            var back := RestoreGameState(g.vehicles, g.session, saved);
            r == g.(vehicles := back.vehicles, session := back.session))
  {
    var saved := Load(g.saver, g.store);
    if saved.Some? && saved.value.vehicles.Some? then
      if confirmResume then
        var back := RestoreGameState(g.vehicles, g.session, saved);
        g.(vehicles := back.vehicles, session := back.session)
      else g.(store := ClearSave(g.saver, g.store))
    else g
  }

  /** Declining settles the prompt: once the save is cleared, a second
      start-up finds nothing to offer and leaves the game as it is, and
      the best score survives the clearing. */
  lemma DeclineSettlesPrompt(g: GameState, answer: bool)
    requires Wf(g)
    ensures var d := ResumeOrDiscard(g, false);
      && ResumeOrDiscard(d, answer) == d
      && GetBestScore(d.saver, d.store) == GetBestScore(g.saver, g.store)
  {
  }

  /** What the player does: press a key, click, or let a frame pass. */
  datatype Event = Press(e: KeyEvent) | MouseClick(hit: Option<nat>) | Frame

  /** One event, with the key wiring as written or corrected. Only a
      corrected 'E' changes a height. */
  function Step(g: GameState, ev: Event, corrected: bool): (r: GameState)
    requires Wf(g)
    ensures Wf(r) && |r.vehicles| == |g.vehicles| && r.exit == g.exit && r.player == g.player
    ensures !corrected || !ev.Press? || !IsRideKey(ev.e) ==>
      forall j :: 0 <= j < |g.vehicles| ==> r.vehicles[j].pos.y == g.vehicles[j].pos.y
    ensures g.hasWon ==> r.hasWon
  {
    match ev
    case Press(e) => KeyPress(g, e, corrected)
    case MouseClick(hit) => Click(g, hit)
    case Frame => Animate(g)
  }

  /** A key press, through the wiring as written or the corrected one. */
  function KeyPress(g: GameState, e: KeyEvent, corrected: bool): (r: GameState)
    requires Wf(g)
    ensures Wf(r) && |r.vehicles| == |g.vehicles| && r.exit == g.exit && r.player == g.player
    ensures !corrected || !IsRideKey(e) ==>
      forall j :: 0 <= j < |g.vehicles| ==> r.vehicles[j].pos.y == g.vehicles[j].pos.y
    ensures r.hasWon == g.hasWon
  {
    if corrected then KeyDownCorrected(g, e) else KeyDown(g, e)
  }

  /** A run of the game: key presses and animation frames. */
  function Play(g: GameState, events: seq<Event>, corrected: bool): (r: GameState)
    requires Wf(g)
    ensures Wf(r) && |r.vehicles| == |g.vehicles|
    decreases |events|, 1
  {
    if |events| == 0 then g else PlayFirst(g, events, corrected)
  }

  /** A non-empty run: its first event, then the rest. */
  function PlayFirst(g: GameState, events: seq<Event>, corrected: bool): (r: GameState)
    requires Wf(g) && |events| > 0
    ensures Wf(r) && |r.vehicles| == |g.vehicles|
    decreases |events|, 0
  {
    Play(Step(g, events[0], corrected), events[1..], corrected)
  }

  /** As wired, keys, undo and frames never change a vehicle's height:
      the code builds elevators but never calls their transitions. */
  lemma {:induction false} PlayKeepsHeights(g: GameState, events: seq<Event>)
    requires Wf(g)
    ensures forall j :: 0 <= j < |g.vehicles| ==> Play(g, events, false).vehicles[j].pos.y == g.vehicles[j].pos.y
    decreases |events|
  {
    if |events| > 0 {
      PlayKeepsHeights(Step(g, events[0], false), events[1..]);
    }
  }

  /** Hence, as wired, a taxi that starts on the ground floor, with the
      exit on the bottom floor, never wins. */
  lemma GroundFloorTaxiNeverWins(g: GameState, events: seq<Event>)
    requires Wf(g) && !g.hasWon && g.player.Some?
    requires g.vehicles[g.player.value].pos.y == Floors[0].y && g.exit.position.y == Floors[2].y
    ensures !Play(g, events, false).hasWon
  {
    NeverWinsFromOtherFloor(g, events);
  }

  lemma {:induction false} NeverWinsFromOtherFloor(g: GameState, events: seq<Event>)
    requires Wf(g) && !g.hasWon && g.player.Some?
    requires Abs(g.vehicles[g.player.value].pos.y - g.exit.position.y) >= Unit / 2
    ensures !Play(g, events, false).hasWon
    decreases |events|
  {
    if |events| > 0 {
      NeverWinsFromOtherFloor(Step(g, events[0], false), events[1..]);
    }
  }

  /** Running two runs back to back is running their concatenation. */
  lemma {:induction false} PlayAppend(g: GameState, a: seq<Event>, b: seq<Event>, corrected: bool)
    requires Wf(g)
    ensures Play(g, a + b, corrected) == Play(Play(g, a, corrected), b, corrected)
    decreases |a|
  {
    if |a| == 0 {
      assert a + b == b;
    } else {
      assert (a + b)[0] == a[0];
      assert (a + b)[1..] == a[1..] + b;
      PlayAppend(Step(g, a[0], corrected), a[1..], b, corrected);
    }
  }

  /** The taxi, vehicle 0, at (x, y, 0), at rest, selected, facing +x,
      with the exit main.js places; every other vehicle is at rest and off
      the taxi's row. */
  predicate TaxiAt(g: GameState, x: int, y: int) {
    && Wf(g) && |g.vehicles| >= 1 && g.player == Some(0) && g.selected == Some(0) && g.exit == MainExit
    && g.vehicles[0].pos == Pos(x, y, 0) && g.vehicles[0].targetX.None? && g.vehicles[0].targetZ.None?
    && ParkingBounds.minX <= x <= ParkingBounds.maxX
    && g.vehicles[0].axis == Horizontal && g.vehicles[0].facing == FacingX
    && OffTaxiRow(g.vehicles)
  }

  /** Every vehicle but the taxi is at rest, at least a cell away from the
      row z = 0. */
  predicate OffTaxiRow(vs: seq<Vehicle>) {
    forall j :: 1 <= j < |vs| ==> vs[j].targetX.None? && vs[j].targetZ.None? && Abs(vs[j].pos.z) >= GridSize
  }

  function PressKey(key: string): Event {
    Press(KeyEvent(key, false, false))
  }

  /** Press `key`, then let one frame pass. */
  function KeyThenFrame(key: string): (events: seq<Event>)
    ensures |events| == 2
  {
    [PressKey(key), Frame]
  }

  /** `n` times: press `key`, then one frame. */
  function Drive(key: string, n: nat): (events: seq<Event>)
    ensures |events| == 2 * n
    decreases n
  {
    if n == 0 then [] else KeyThenFrame(key) + Drive(key, n - 1)
  }

  /** Running `e` then `rest` is one step then the rest. */
  lemma PlayCons(g: GameState, e: Event, rest: seq<Event>, corrected: bool)
    requires Wf(g)
    ensures Play(g, [e] + rest, corrected) == Play(Step(g, e, corrected), rest, corrected)
  {
    assert ([e] + rest)[0] == e;
    assert ([e] + rest)[1..] == rest;
  }

  /** A key press and a frame are the two steps in turn. */
  lemma KeyThenFrameUnfolds(g: GameState, key: string)
    requires Wf(g)
    ensures Play(g, KeyThenFrame(key), true) == Step(Step(g, PressKey(key), true), Frame, true)
  {
    var g1 := Step(g, PressKey(key), true);
    PlayCons(g, PressKey(key), [Frame], true);
    PlayCons(g1, Frame, [], true);
  }

  /** Every vehicle is at rest. */
  predicate AllAtRest(vs: seq<Vehicle>) {
    forall j :: 0 <= j < |vs| ==> vs[j].targetX.None? && vs[j].targetZ.None?
  }

  /** A wired 'z' or 's' for the selected vehicle, then one frame: when
      its next cell is inside the lot and every other vehicle of its floor
      stands a cell or more away from that cell, it lands there and no
      other vehicle moves; the win latches exactly when the player's
      vehicle then stands in the exit. */
  lemma MoveSelected(g: GameState, key: string)
    requires Wf(g) && g.selected.Some? && AllAtRest(g.vehicles) && (key == "z" || key == "s")
    requires OnGridValue(g.vehicles[g.selected.value].pos.x) && OnGridValue(g.vehicles[g.selected.value].pos.z)
    requires var i := g.selected.value; var t := TargetFor(g.vehicles[i], KeySign(key));
      && IsWithinBounds(t.x, t.z, ParkingBounds)
      && forall j :: 0 <= j < |g.vehicles| && j != i && SameLevel(g.vehicles[j].pos.y, g.vehicles[i].pos.y) ==>
           Abs(g.vehicles[j].pos.x - t.x) >= GridSize || Abs(g.vehicles[j].pos.z - t.z) >= GridSize
    ensures var i := g.selected.value; var v := g.vehicles[i];
      var t := TargetFor(v, KeySign(key));
      var r := Play(g, KeyThenFrame(key), true);
      && r.vehicles == g.vehicles[i := v.(pos := Pos(t.x, v.pos.y, t.z))]
      && r.selected == g.selected && r.player == g.player && r.exit == g.exit
      && (r.hasWon <==> g.hasWon || (g.player.Some? && IsVehicleInZone(g.exit, r.vehicles[g.player.value].pos)))
  {
    var i := g.selected.value;
    var t := TargetFor(g.vehicles[i], KeySign(key));
    PressMovesSelected(g, key);
    FrameLands(Step(g, PressKey(key), true), g.vehicles, i, t.x, t.z);
    KeyThenFrameUnfolds(g, key);
  }

  /** The key press half of `MoveSelected`: the selected vehicle is sent
      towards its next cell and nothing else changes that a later frame
      reads. */
  lemma PressMovesSelected(g: GameState, key: string)
    requires Wf(g) && g.selected.Some? && AllAtRest(g.vehicles) && (key == "z" || key == "s")
    requires OnGridValue(g.vehicles[g.selected.value].pos.x) && OnGridValue(g.vehicles[g.selected.value].pos.z)
    requires var i := g.selected.value; var t := TargetFor(g.vehicles[i], KeySign(key));
      && IsWithinBounds(t.x, t.z, ParkingBounds)
      && forall j :: 0 <= j < |g.vehicles| && j != i && SameLevel(g.vehicles[j].pos.y, g.vehicles[i].pos.y) ==>
           Abs(g.vehicles[j].pos.x - t.x) >= GridSize || Abs(g.vehicles[j].pos.z - t.z) >= GridSize
    ensures var i := g.selected.value; var v := g.vehicles[i];
      var t := TargetFor(v, KeySign(key));
      var r := Step(g, PressKey(key), true);
      && Wf(r) && r.vehicles == g.vehicles[i := MoveTo(v, t.x, t.z)]
      && r.selected == g.selected && r.player == g.player && r.exit == g.exit && r.hasWon == g.hasWon
  {
    var i := g.selected.value;
    var v := g.vehicles[i];
    var t := TargetFor(v, KeySign(key));
    NeighbourCellsDoNotBlock(g.vehicles, i, t.x, t.z);
  }

  /** The frame half of `MoveSelected`: a vehicle sent to a target lands
      on it, the vehicles at rest stay, and the win latches exactly when
      the player's vehicle then stands in the exit. */
  lemma FrameLands(g: GameState, vs: seq<Vehicle>, i: nat, x: int, z: int)
    requires Wf(g) && i < |vs| && AllAtRest(vs) && g.vehicles == vs[i := MoveTo(vs[i], x, z)]
    ensures var r := Step(g, Frame, true);
      && r.vehicles == vs[i := vs[i].(pos := Pos(x, vs[i].pos.y, z))]
      && r.selected == g.selected && r.player == g.player && r.exit == g.exit
      && (r.hasWon <==> g.hasWon || (g.player.Some? && IsVehicleInZone(g.exit, r.vehicles[g.player.value].pos)))
  {
    var r := Step(g, Frame, true);
    forall j | 0 <= j < |vs|
      ensures r.vehicles[j] == vs[i := vs[i].(pos := Pos(x, vs[i].pos.y, z))][j]
    {
      if j != i {
        UpdateAtRestIsIdentity(vs[j]);
      }
    }
  }

  /** One cell forward ('z') or back ('s') and one frame, with the
      callback wired; the win latches exactly when the taxi lands on the
      exit. */
  lemma DriveOnce(g: GameState, x: int, y: int, key: string)
    requires TaxiAt(g, x, y) && OnGridValue(x)
    requires (key == "z" && x + GridSize <= ParkingBounds.maxX) || (key == "s" && x - GridSize >= ParkingBounds.minX)
    ensures var nx := if key == "z" then x + GridSize else x - GridSize;
      var r := Play(g, KeyThenFrame(key), true);
      && TaxiAt(r, nx, y)
      && (r.hasWon <==> g.hasWon || IsVehicleInZone(MainExit, Pos(nx, y, 0)))
  {
    TargetIsOneCell(g.vehicles[0], KeySign(key));
    MoveSelected(g, key);
  }

  /** The first cell of a drive of `n` cells: after it the rest of the
      drive runs from a taxi one cell further on. */
  lemma DriveFirstCell(g: GameState, x: int, y: int, key: string, n: nat) returns (g2: GameState)
    requires TaxiAt(g, x, y) && OnGridValue(x) && n > 0
    requires (key == "z" && x + GridSize <= ParkingBounds.maxX) || (key == "s" && x - GridSize >= ParkingBounds.minX)
    ensures var nx := if key == "z" then x + GridSize else x - GridSize;
      && TaxiAt(g2, nx, y) && OnGridValue(nx)
      && (g2.hasWon <==> g.hasWon || IsVehicleInZone(MainExit, Pos(nx, y, 0)))
    ensures Play(g, Drive(key, n), true) == Play(g2, Drive(key, n - 1), true)
  {
    DriveOnce(g, x, y, key);
    g2 := Play(g, KeyThenFrame(key), true);
    PlayAppend(g, KeyThenFrame(key), Drive(key, n - 1), true);
    GridStep(x, if key == "z" then 1 else -1);
  }

  /** `n` cells forward ('z', towards +x) along the taxi's row, ending
      at `nx`. */
  lemma {:induction false} DriveForward(g: GameState, x: int, y: int, n: nat, nx: int)
    requires TaxiAt(g, x, y) && OnGridValue(x) && nx == x + GridSize * n && nx <= ParkingBounds.maxX
    ensures var r := Play(g, Drive("z", n), true);
      && TaxiAt(r, nx, y)
      && (g.hasWon ==> r.hasWon)
      && (n > 0 && IsVehicleInZone(MainExit, Pos(nx, y, 0)) ==> r.hasWon)
      && (Abs(y - MainExit.position.y) >= Unit / 2 ==> r.hasWon == g.hasWon)
    decreases n
  {
    if n > 0 {
      var g2 := DriveFirstCell(g, x, y, "z", n);
      DriveForward(g2, x + GridSize, y, n - 1, nx);
    }
  }

  /** `n` cells back ('s', towards -x) along the taxi's row, ending at
      `nx`. */
  lemma {:induction false} DriveBackward(g: GameState, x: int, y: int, n: nat, nx: int)
    requires TaxiAt(g, x, y) && OnGridValue(x) && nx == x - GridSize * n && nx >= ParkingBounds.minX
    ensures var r := Play(g, Drive("s", n), true);
      && TaxiAt(r, nx, y)
      && (g.hasWon ==> r.hasWon)
      && (n > 0 && IsVehicleInZone(MainExit, Pos(nx, y, 0)) ==> r.hasWon)
      && (Abs(y - MainExit.position.y) >= Unit / 2 ==> r.hasWon == g.hasWon)
    decreases n
  {
    if n > 0 {
      var g2 := DriveFirstCell(g, x, y, "s", n);
      DriveBackward(g2, x - GridSize, y, n - 1, nx);
    }
  }

  /** 'E' on one of the main elevators, with the ride wired: one floor
      down, nothing else changes. */
  lemma RideOnce(g: GameState, x: int, y: int)
    requires TaxiAt(g, x, y)
    requires (x, y) == (-60, Floors[0].y) || (x, y) == (60, Floors[1].y)
    ensures var r := Step(g, PressKey("E"), true);
      TaxiAt(r, x, y - FloorHeight) && r.hasWon == g.hasWon
  {
    assert MainElevators[0].Some? && MainElevators[1].Some?;
    if x == -60 {
      assert IsVehicleOnElevator(MainElevators[0].value, Pos(x, y, 0));
    } else {
      assert !IsVehicleOnElevator(MainElevators[0].value, Pos(x, y, 0));
      assert IsVehicleOnElevator(MainElevators[1].value, Pos(x, y, 0));
    }
  }

  /** The main elevators are six cells apart along x. */
  const ElevatorGap: nat := 6

  lemma ElevatorGapIsDistance()
    ensures MainElevators[0].Some? && MainElevators[1].Some?
    ensures MainElevators[1].value.x - MainElevators[0].value.x == GridSize * ElevatorGap
  {
  }

  /** The route between the elevators and the exit main.js places, from
      the first elevator: ride down, drive to the second elevator, ride
      down, drive back to the exit. */
  function Route(): (events: seq<Event>)
    ensures |events| == 4 * ElevatorGap + 2
  {
    ([PressKey("E")] + Drive("z", ElevatorGap)) + ([PressKey("E")] + Drive("s", ElevatorGap))
  }

  /** First half of the route: ride down from the ground floor and drive
      to the second elevator. */
  lemma ToSecondElevator(g: GameState)
    requires TaxiAt(g, -60, Floors[0].y)
    ensures var r := Play(g, [PressKey("E")] + Drive("z", ElevatorGap), true);
      TaxiAt(r, 60, Floors[1].y) && r.hasWon == g.hasWon
  {
    RideOnce(g, -60, 0);
    var g1 := Step(g, PressKey("E"), true);
    DriveForward(g1, -60, -30, ElevatorGap, 60);
    PlayCons(g, PressKey("E"), Drive("z", ElevatorGap), true);
  }

  /** Second half: ride down to the bottom floor and drive back onto the
      exit. */
  lemma FromSecondElevator(g: GameState)
    requires TaxiAt(g, 60, Floors[1].y)
    ensures Play(g, [PressKey("E")] + Drive("s", ElevatorGap), true).hasWon
  {
    RideOnce(g, 60, -30);
    var g3 := Step(g, PressKey("E"), true);
    DriveBackward(g3, 60, -60, ElevatorGap, -60);
    PlayCons(g, PressKey("E"), Drive("s", ElevatorGap), true);
  }

  /** With the ride wired, the route wins any game that has the taxi
      alone on the ground-floor elevator. */
  lemma RouteWins(g: GameState)
    requires TaxiAt(g, -60, Floors[0].y)
    ensures Play(g, Route(), true).hasWon
  {
    var first := [PressKey("E")] + Drive("z", ElevatorGap);
    ToSecondElevator(g);
    FromSecondElevator(Play(g, first, true));
    PlayAppend(g, first, [PressKey("E")] + Drive("s", ElevatorGap), true);
  }

  /** A vehicle as initVehicles loads it: a vertical one keeps rotation 0
      and faces +z, a horizontal one is turned by pi/2 and faces +x. */
  function Loaded(x: int, y: int, z: int, axis: Axis): (v: Vehicle)
    ensures v.pos == Pos(x, y, z) && v.axis == axis && v.targetX.None? && v.targetZ.None?
    ensures v.facing == (if axis == Horizontal then FacingX else FacingZ) && !v.isPlayer
  {
    NewVehicle(Pos(x, y, z), Some(axis), if axis == Horizontal then FacingX else FacingZ)
  }

  /** The vehicles initVehicles loads, in load order (each load is
      awaited, so the list is filled in this order): the taxi, the player,
      at (6, 0, 0), then eight obstacles on the ground floor, eight on
      floor -1 and nine on floor -2. */
  const MainVehicles: seq<Vehicle> := [
    Loaded(60, 0, 0, Horizontal).(isPlayer := true),
    Loaded(20, 0, 0, Vertical), Loaded(-20, 0, 0, Vertical),
    Loaded(20, 0, -20, Horizontal), Loaded(-20, 0, 20, Horizontal),
    Loaded(40, 0, -40, Vertical), Loaded(0, 0, 40, Horizontal),
    Loaded(-40, 0, -20, Horizontal), Loaded(60, 0, 40, Vertical),
    Loaded(-20, -30, 0, Vertical), Loaded(20, -30, 0, Vertical),
    Loaded(0, -30, -20, Horizontal), Loaded(-40, -30, 20, Horizontal),
    Loaded(40, -30, 20, Vertical), Loaded(20, -30, 40, Horizontal),
    Loaded(0, -30, -40, Horizontal), Loaded(-40, -30, -20, Vertical),
    Loaded(20, -60, 0, Vertical), Loaded(-20, -60, 0, Vertical),
    Loaded(0, -60, -20, Horizontal), Loaded(40, -60, 20, Horizontal),
    Loaded(-40, -60, -40, Vertical), Loaded(-20, -60, 40, Horizontal),
    Loaded(20, -60, -40, Horizontal), Loaded(60, -60, -20, Vertical),
    Loaded(-60, -60, 20, Vertical)
  ]

  /** The positions of a list of vehicles. */
  function PositionsOf(vs: seq<Vehicle>): (ps: seq<Pos>)
    ensures |ps| == |vs| && forall j :: 0 <= j < |vs| ==> ps[j] == vs[j].pos
  {
    seq(|vs|, j requires 0 <= j < |vs| => vs[j].pos)
  }

  /** Where the vehicles of main.js start. */
  const MainPositions: seq<Pos> := PositionsOf(MainVehicles)

  /** The game once initVehicles has loaded every vehicle, before the
      saved-game prompt: the taxi is the player, nothing is selected, the
      score and the move history are fresh, auto-save is on and `store`
      is whatever the browser holds. */
  function MainStart(store: Store): (g: GameState)
    ensures MainBoard(g, MainPositions) && g.selected.None? && g.history == []
    ensures g.vehicles[0].pos == Pos(60, Floors[0].y, 0) && g.vehicles[0].isPlayer
    ensures !g.session.isRunning && g.session.moves == 0
  {
    GameState(MainVehicles, Some(0), None, MainExit, Score.NewSession, [], NewSaveManager(None), store, false)
  }

  /** The vehicles of main.js, at rest at positions `ps`, each with the
      axis and heading it was loaded with; the taxi is the player, the
      exit is main's, and the game is not won. */
  predicate MainBoard(g: GameState, ps: seq<Pos>) {
    && Wf(g) && |g.vehicles| == |MainVehicles| && |ps| == |MainVehicles|
    && g.player == Some(0) && g.exit == MainExit && !g.hasWon
    && forall j :: 0 <= j < |ps| ==>
         && g.vehicles[j].pos == ps[j] && g.vehicles[j].targetX.None? && g.vehicles[j].targetZ.None?
         && g.vehicles[j].axis == MainVehicles[j].axis && g.vehicles[j].facing == MainVehicles[j].facing
  }

  /** Click a vehicle, press a key, let one frame pass. */
  function Shift(i: nat, key: string): (events: seq<Event>)
    ensures |events| == 3
  {
    [MouseClick(Some(i))] + KeyThenFrame(key)
  }

  /** Clicking vehicle `i` of a main board selects it and leaves the
      board as it is. */
  lemma ClickOnBoard(g: GameState, ps: seq<Pos>, i: nat)
    requires MainBoard(g, ps) && i < |ps|
    ensures var r := Click(g, Some(i));
      && Wf(r) && r.selected == Some(i) && AllAtRest(r.vehicles)
      && r.player == g.player && r.exit == g.exit && r.hasWon == g.hasWon
      && |r.vehicles| == |g.vehicles|
      && forall j :: 0 <= j < |ps| ==>
           && r.vehicles[j].pos == ps[j] && r.vehicles[j].axis == MainVehicles[j].axis
           && r.vehicles[j].facing == MainVehicles[j].facing
  {
  }

  /** With the ride wired, clicking an obstacle that faces +z and pressing
      'z' or 's' moves it one cell along z to `p` when that cell is inside
      the lot and every other vehicle of its floor is a cell or more away
      from it; the taxi, on the ground floor, does not win meanwhile. */
  lemma ShiftVan(g: GameState, ps: seq<Pos>, i: nat, key: string, p: Pos)
    requires MainBoard(g, ps) && 1 <= i < |ps| && (key == "z" || key == "s")
    requires MainVehicles[i].facing == FacingZ && OnGridValue(ps[i].x) && OnGridValue(ps[i].z)
    requires ps[0].y == Floors[0].y
    requires p == Pos(ps[i].x, ps[i].y, if key == "z" then ps[i].z + GridSize else ps[i].z - GridSize)
    requires IsWithinBounds(p.x, p.z, ParkingBounds)
    requires CellFree(ps, i, p)
    ensures MainBoard(Play(g, Shift(i, key), true), ps[i := p])
  {
    ClickOnBoard(g, ps, i);
    ShiftStartsWithClick(g, i, key);
    MoveClicked(Click(g, Some(i)), ps, i, key, p);
  }

  /** `ShiftVan` once the van is selected. */
  lemma MoveClicked(g: GameState, ps: seq<Pos>, i: nat, key: string, p: Pos)
    requires Wf(g) && g.selected == Some(i) && AllAtRest(g.vehicles) && 1 <= i < |ps|
    requires g.player == Some(0) && g.exit == MainExit && !g.hasWon
    requires |g.vehicles| == |ps| == |MainVehicles| && (key == "z" || key == "s")
    requires forall j :: 0 <= j < |ps| ==>
      && g.vehicles[j].pos == ps[j] && g.vehicles[j].axis == MainVehicles[j].axis
      && g.vehicles[j].facing == MainVehicles[j].facing
    requires MainVehicles[i].facing == FacingZ && OnGridValue(ps[i].x) && OnGridValue(ps[i].z)
    requires ps[0].y == Floors[0].y
    requires p == Pos(ps[i].x, ps[i].y, if key == "z" then ps[i].z + GridSize else ps[i].z - GridSize)
    requires IsWithinBounds(p.x, p.z, ParkingBounds)
    requires CellFree(ps, i, p)
    ensures MainBoard(Play(g, KeyThenFrame(key), true), ps[i := p])
  {
    var v := g.vehicles[i];
    TargetIsOneCell(v, KeySign(key));
    assert TargetFor(v, KeySign(key)) == Target(p.x, p.z);
    assert v.(pos := Pos(p.x, v.pos.y, p.z)) == v.(pos := p);
    MoveSelected(g, key);
    BoardTakesOneMove(g, Play(g, KeyThenFrame(key), true), ps, i, p);
  }

  /** A board whose vehicle `i` alone has moved, to `p`, is the main board
      with `p` in place of `i`'s old position. */
  lemma BoardTakesOneMove(g: GameState, r: GameState, ps: seq<Pos>, i: nat, p: Pos)
    requires Wf(r) && |g.vehicles| == |ps| == |MainVehicles| && i < |ps|
    requires r.player == Some(0) && r.exit == MainExit && !r.hasWon
    requires forall j :: 0 <= j < |ps| ==>
      && g.vehicles[j].pos == ps[j] && g.vehicles[j].targetX.None? && g.vehicles[j].targetZ.None?
      && g.vehicles[j].axis == MainVehicles[j].axis && g.vehicles[j].facing == MainVehicles[j].facing
    requires r.vehicles == g.vehicles[i := g.vehicles[i].(pos := p)]
    ensures MainBoard(r, ps[i := p])
  {
  }

  /** A shift is the click, then the key and the frame. */
  lemma ShiftStartsWithClick(g: GameState, i: nat, key: string)
    requires Wf(g)
    ensures Play(g, Shift(i, key), true) == Play(Click(g, Some(i)), KeyThenFrame(key), true)
  {
    PlayCons(g, MouseClick(Some(i)), KeyThenFrame(key), true);
  }

  /** No vehicle of `i`'s floor other than `i` stands within a cell of
      `p`, in the positions `ps`. */
  predicate CellFree(ps: seq<Pos>, i: nat, p: Pos)
    requires i < |ps|
  {
    forall j :: 0 <= j < |ps| && j != i && SameLevel(ps[j].y, ps[i].y) ==>
      Abs(ps[j].x - p.x) >= GridSize || Abs(ps[j].z - p.z) >= GridSize
  }

  /** The positions once the first 1 van of the taxi's row has stepped
      aside: the ground-floor van at (2, 0, 0) steps to z = 2. */
  const Cleared1: seq<Pos> := MainPositions[1 := Pos(20, 0, 20)]

  /** The positions once the first 2 vans of the taxi's row have stepped
      aside: the ground-floor van at (-2, 0, 0) steps back to z = -2. */
  const Cleared2: seq<Pos> := Cleared1[2 := Pos(-20, 0, -20)]

  /** The positions once the first 3 vans of the taxi's row have stepped
      aside: the floor -1 van at (-2, -3, 0) steps to z = 2. */
  const Cleared3: seq<Pos> := Cleared2[9 := Pos(-20, -30, 20)]

  /** The positions once the first 4 vans of the taxi's row have stepped
      aside: the floor -1 van at (2, -3, 0) steps to z = 2. */
  const Cleared4: seq<Pos> := Cleared3[10 := Pos(20, -30, 20)]

  /** The positions once the first 5 vans of the taxi's row have stepped
      aside: the floor -2 van at (2, -6, 0) steps to z = 2. */
  const Cleared5: seq<Pos> := Cleared4[17 := Pos(20, -60, 20)]

  /** The positions once the first 6 vans of the taxi's row have stepped
      aside: the floor -2 van at (-2, -6, 0) steps to z = 2. */
  const Cleared6: seq<Pos> := Cleared5[18 := Pos(-20, -60, 20)]

  lemma ClearStep1(g: GameState)
    requires MainBoard(g, MainPositions)
    ensures MainBoard(Play(g, Shift(1, "z"), true), Cleared1)
  {
    CellFree1();
    ShiftVan(g, MainPositions, 1, "z", Pos(20, 0, 20));
  }

  lemma CellFree1()
    ensures CellFree(MainPositions, 1, Pos(20, 0, 20))
  {
  }

  lemma ClearStep2(g: GameState)
    requires MainBoard(g, Cleared1)
    ensures MainBoard(Play(g, Shift(2, "s"), true), Cleared2)
  {
    CellFree2();
    ShiftVan(g, Cleared1, 2, "s", Pos(-20, 0, -20));
  }

  lemma CellFree2()
    ensures CellFree(Cleared1, 2, Pos(-20, 0, -20))
  {
  }

  lemma ClearStep3(g: GameState)
    requires MainBoard(g, Cleared2)
    ensures MainBoard(Play(g, Shift(9, "z"), true), Cleared3)
  {
    CellFree3();
    ShiftVan(g, Cleared2, 9, "z", Pos(-20, -30, 20));
  }

  lemma CellFree3()
    ensures CellFree(Cleared2, 9, Pos(-20, -30, 20))
  {
  }

  lemma ClearStep4(g: GameState)
    requires MainBoard(g, Cleared3)
    ensures MainBoard(Play(g, Shift(10, "z"), true), Cleared4)
  {
    CellFree4();
    ShiftVan(g, Cleared3, 10, "z", Pos(20, -30, 20));
  }

  lemma CellFree4()
    ensures CellFree(Cleared3, 10, Pos(20, -30, 20))
  {
  }

  lemma ClearStep5(g: GameState)
    requires MainBoard(g, Cleared4)
    ensures MainBoard(Play(g, Shift(17, "z"), true), Cleared5)
  {
    CellFree5();
    ShiftVan(g, Cleared4, 17, "z", Pos(20, -60, 20));
  }

  lemma CellFree5()
    ensures CellFree(Cleared4, 17, Pos(20, -60, 20))
  {
  }

  lemma ClearStep6(g: GameState)
    requires MainBoard(g, Cleared5)
    ensures MainBoard(Play(g, Shift(18, "z"), true), Cleared6)
  {
    CellFree6();
    ShiftVan(g, Cleared5, 18, "z", Pos(-20, -60, 20));
  }

  lemma CellFree6()
    ensures CellFree(Cleared5, 18, Pos(-20, -60, 20))
  {
  }

  /** Clicking and moving the six vans that stand on the taxi's row
      (z = 0) on the three floors, one cell each. */
  function ClearRow(): (events: seq<Event>)
    ensures |events| == 18
  {
    Shift(1, "z") + (Shift(2, "s") + (Shift(9, "z") + (Shift(10, "z") + (Shift(17, "z") + Shift(18, "z")))))
  }

  /** From the start of main.js, clearing the row moves exactly those six
      vans: the board then has the positions `Cleared6`. */
  lemma ClearRowClears(g: GameState)
    requires MainBoard(g, MainPositions)
    ensures MainBoard(Play(g, ClearRow(), true), Cleared6)
  {
    var tail5 := Shift(17, "z") + Shift(18, "z");
    var tail4 := Shift(10, "z") + tail5;
    var tail3 := Shift(9, "z") + tail4;
    var tail2 := Shift(2, "s") + tail3;
    PlayAppend(g, Shift(1, "z"), tail2, true);
    ClearStep1(g);
    var g1 := Play(g, Shift(1, "z"), true);
    PlayAppend(g1, Shift(2, "s"), tail3, true);
    ClearStep2(g1);
    var g2 := Play(g1, Shift(2, "s"), true);
    PlayAppend(g2, Shift(9, "z"), tail4, true);
    ClearStep3(g2);
    var g3 := Play(g2, Shift(9, "z"), true);
    PlayAppend(g3, Shift(10, "z"), tail5, true);
    ClearStep4(g3);
    var g4 := Play(g3, Shift(10, "z"), true);
    PlayAppend(g4, Shift(17, "z"), Shift(18, "z"), true);
    ClearStep5(g4);
    ClearStep6(Play(g4, Shift(17, "z"), true));
  }

  /** With the row cleared, clicking the taxi selects it with every other
      vehicle off its row: the drives and rides of the route are open. */
  lemma ClickTaxi(g: GameState)
    requires MainBoard(g, Cleared6)
    ensures TaxiAt(Click(g, Some(0)), 60, Floors[0].y)
  {
    ClickOnBoard(g, Cleared6, 0);
    RowIsClear();
  }

  /** Once the six vans have moved, every vehicle but the taxi stands a
      cell or more off the row z = 0. */
  lemma RowIsClear()
    ensures |Cleared6| == |MainVehicles| && Cleared6[0] == Pos(60, 0, 0)
    ensures forall j :: 1 <= j < |Cleared6| ==> Abs(Cleared6[j].z) >= GridSize
  {
    forall j | 1 <= j < |Cleared6|
      ensures Abs(Cleared6[j].z) >= GridSize
    {
      assert j in {1, 2, 3, 4, 5, 6, 7, 8, 9, 10, 11, 12, 13, 14, 15, 16, 17, 18, 19, 20, 21, 22, 23, 24, 25};
    }
  }

  /** The whole run: clear the row, click the taxi, back it up six cells
      onto the ground-floor elevator, then the route. */
  function MainSolution(): (events: seq<Event>)
    ensures |events| == 18 + 1 + 2 * ElevatorGap + |Route()|
  {
    ClearRow() + ([MouseClick(Some(0))] + (Drive("s", ElevatorGap) + Route()))
  }

  /** With the ride wired, the vehicles main.js loads can be solved:
      whatever the browser holds, the run above wins. */
  lemma CorrectedMainStartWins(store: Store)
    ensures Play(MainStart(store), MainSolution(), true).hasWon
  {
    var g := MainStart(store);
    ClearRowClears(g);
    var gc := Play(g, ClearRow(), true);
    PlayAppend(g, ClearRow(), [MouseClick(Some(0))] + (Drive("s", ElevatorGap) + Route()), true);
    ClickTaxi(gc);
    var gt := Click(gc, Some(0));
    assert Step(gc, MouseClick(Some(0)), true) == gt;
    PlayCons(gc, MouseClick(Some(0)), Drive("s", ElevatorGap) + Route(), true);
    DriveBackward(gt, 60, 0, ElevatorGap, -60);
    PlayAppend(gt, Drive("s", ElevatorGap), Route(), true);
    RouteWins(Play(gt, Drive("s", ElevatorGap), true));
  }

  /** As written the ride is never wired, and the taxi starts on the
      ground floor while the exit is on floor -2: no series of events
      wins the game main.js starts. */
  lemma MainStartNeverWins(store: Store, events: seq<Event>)
    ensures !Play(MainStart(store), events, false).hasWon
  {
    GroundFloorTaxiNeverWins(MainStart(store), events);
  }


  /** A fresh two-vehicle game: a vertical car at (2, 0) facing +z,
      selected, and a vertical obstacle behind it at (2, -2). */
  function SmallGame(): (g: GameState)
    ensures Wf(g)
  {
    GameState(
      [NewVehicle(Pos(20, 0, 0), Some(Vertical), FacingZ), NewVehicle(Pos(20, 0, -20), Some(Vertical), FacingZ)],
      Some(0), Some(0), MainExit, Score.NewSession, [], NewSaveManager(None), map[], false)
  }

  /** As wired, an accepted move is neither counted nor recorded: pressing
      'z' starts the car towards (2, 2) while the counter stays at 0 and
      nothing can be undone. */
  lemma AcceptedMoveIsNotCounted()
    ensures var g := SmallGame();
      var r := KeyDown(g, KeyEvent("z", false, false));
      && OnKeyDown(g.vehicles, g.selected, "z").outcome == Moved(20, 20)
      && r.vehicles[0].targetZ == Some(20)
      && r.session.moves == 0 && !Moves.CanUndo(r.history)
  {
    var g := SmallGame();
    assert !Blocks(g.vehicles, 0, 1, 20, 20);
  }

  /** With the callback wired, the same press counts one move and records
      it, so it can be undone. */
  lemma CorrectedMoveIsCounted()
    ensures var g := SmallGame();
      var r := KeyDownCorrected(g, KeyEvent("z", false, false));
      && r.vehicles[0].targetZ == Some(20)
      && r.session.moves == 1 && r.history == [Moves.MoveRecord(0, 20, 0, 20, 20)]
  {
    var g := SmallGame();
    assert !Blocks(g.vehicles, 0, 1, 20, 20);
  }

  /** As wired, Ctrl+Z is also seen by the controller as a plain 'z': with
      nothing to undo, the selected car drives forward instead. */
  lemma UndoChordDrivesForward()
    ensures var g := SmallGame();
      KeyDown(g, KeyEvent("z", true, false)).vehicles[0].targetZ == Some(20)
  {
    var g := SmallGame();
    assert !Blocks(g.vehicles, 0, 1, 20, 20);
  }

  /** Corrected, the undo chord with nothing to undo changes nothing. */
  lemma CorrectedUndoChordOnlyUndoes(g: GameState, e: KeyEvent)
    requires Wf(g) && IsUndoChord(e)
    ensures !Moves.CanUndo(g.history) ==> KeyDownCorrected(g, e) == g
    ensures Moves.CanUndo(g.history) ==> |KeyDownCorrected(g, e).history| == |g.history| - 1
  {
  }

  /** Corrected, a counted move followed by Ctrl+Z and a frame returns a
      running game to exactly where it was. */
  lemma CorrectedMoveThenUndoRestores(g: GameState, e: KeyEvent)
    requires Wf(g) && !IsUndoChord(e) && g.session.isRunning
    requires forall j :: 0 <= j < |g.vehicles| ==> !IsMoving(g.vehicles[j])
    requires OnKeyDown(g.vehicles, g.selected, e.key).outcome.Moved?
    ensures var r := UndoKey(KeyDownCorrected(g, e));
      && r.history == g.history
      && r.session == g.session
      && UpdateAll(r.vehicles) == g.vehicles
  {
    var i := g.selected.value;
    var m := KeyDownCorrected(g, e);
    var r := UndoKey(m);
    assert m.history[|m.history| - 1].vehicle == i;
    assert m.history[..|m.history| - 1] == g.history;
    var ws := UpdateAll(r.vehicles);
    forall j | 0 <= j < |g.vehicles|
      ensures ws[j] == g.vehicles[j]
    {
    }
  }
}
