# ParkingJam 3D rules engine in Dafny

A model of the rules engine behind ParkingJam 3D, a "Rush Hour"-style sliding puzzle spread over three parking-garage floors. Vehicles sit on a grid of step 2 and slide one cell at a time along their facing. Each floor is 3 units high. Elevators link the floors. The taxi has to reach an exit cell on the bottom floor.

The model covers the following:

- the grid and floor constants;
- vehicle state: axis tag, selection, hover and the pending move target;
- the collision and bounds predicates;
- the keyboard move resolver;
- the move-hint arrows;
- elevator transitions;
- the exit zone;
- the undo stack;
- the score and timer session, including the `mm:ss` display;
- persistence over an abstract key/value store;
- the level table with its progress tracking;
- the game wiring in `main.js`: `onMove`, Ctrl+Z, the win latch, the "new record" flag, the floor display and the start-up resume;
- the mouse click that changes the selection;
- the vehicles `initVehicles` loads, and a run from that start.

Conventions:

- **Units.** All coordinates are integers in tenths of a scene unit, and the constants are written out in tenths. So GRID_SIZE is 20, FLOOR_HEIGHT is 30 and the floors sit at y = 0, -30 and -60. The tolerances 0.5·GRID, 0.6·GRID and 0.5 on y become 10, 12 and 5.
- **Vehicle references.** A vehicle is named by its index in the vehicle list.
- **Facing.** The rotation 0 / π/2 is the enum `FacingZ` / `FacingX`. Its forward vectors are (0, 1) and (1, 0).
- **Rounding.** `Math.round` is floor(v + 1/2).
- **The store.** `localStorage` is a `map<string, Stored>`. Unparsable JSON is the `Unreadable` case.
- **Settling.** `Vehicle.update` is modelled by its settled outcome. Each pending axis snaps to its target in one frame.

Facts of the code that the model keeps:

- The elevator transitions change only the vehicle's height. They check neither whether the landing cell is occupied nor whether the vehicle is on the elevator (src/objects/Elevator.js:139-156).
- Nothing in the code calls `moveVehicleToFloorBelow` or `moveVehicleToFloorAbove`. The InputController constructor takes three arguments (src/controls/InputController.js:5), and main.js passes the elevators and `onMove` as a fourth and fifth, which it ignores (src/main.js:158).
- The key handler does not wait for a slide to end. It reads the axis tag only to check that it is set (src/controls/InputController.js:56, 94), and it moves along the facing (src/controls/InputController.js:61-91). Every vehicle's tag is set: the DIRECTIONS values are non-empty strings, and the constructor defaults to BOTH (src/objects/Vehicle.js:5). So the tag never gates a move.

Modules follow the source files: `Constants` (constants.js), `Vehicles` (Vehicle.js and VehicleManager.update), `Collision`, `Input` (InputController), `DirectionHelp`, `Elevators`, `Exits`, `Moves` (MoveManager), `Score`, `Saves`, `Levels` and `Game` (main.js). `Common` holds `Option` and `Abs`.

`Game.Play` runs a sequence of key presses, mouse clicks and frames with either the wiring as written or the corrected wiring of the Findings below. A click carries what the raycast hit: the index of a vehicle, or none.

## Model

| member | source | states |
|---|---|---|
| Constants.GetAssetPath | src/utils/constants.js:4-9 | the URL is the base (or "/" when empty) followed by the path with exactly one leading '/' removed if present, otherwise unchanged; its length accounts for the one dropped slash |
| Constants.AssetPathIgnoresLeadingSlash | src/utils/constants.js:6-8 | "/p" and "p" give the same URL, so the slash after the base is never doubled |
| Constants.RootBaseKeepsAbsolutePath | src/utils/constants.js:5-8 | with base "/" (or an empty base) an absolute path such as "/models/x.glb" maps to itself |
| Constants.ParkingBoundsNonEmpty | src/utils/constants.js:13-18 | minX ≤ maxX and minZ ≤ maxZ |
| Constants.FloorsOrdered | src/utils/constants.js:21-26 | three floors, FLOORS[i].level == i, y == -i·FLOOR_HEIGHT, y strictly decreasing with the index |
| Vehicles.NewVehicle | src/objects/Vehicle.js:5-16 | a vehicle built without a direction has axis BOTH; it starts unselected, at rest, at the given position |
| Vehicles.IsMoving | src/objects/Vehicle.js:113-116 | a vehicle is moving iff a frame of update would still change it, so one at rest is a fixed point of update |
| Vehicles.GetPosition | src/objects/Vehicle.js:105-111 | the position read is the current one, possibly mid-slide; its height is the one update keeps, and at rest it is where update leaves the vehicle |
| Vehicles.CanMove | src/objects/Vehicle.js:75-80 | true iff the axis tag is BOTH or equals the requested axis |
| Vehicles.MoveTo | src/objects/Vehicle.js:82-85 | afterwards the vehicle is moving with targets exactly (x, z); the position and every flag are unchanged |
| Vehicles.Update | src/objects/Vehicle.js:87-103 | each pending axis ends exactly on its target and the target is cleared; y is never changed; nothing else changes |
| Vehicles.UpdateAtRestIsIdentity | src/objects/Vehicle.js:89-101 | a vehicle with no targets is left alone by update |
| Vehicles.MoveToThenUpdateArrives | src/objects/Vehicle.js:82-103 | moveTo then settling leaves the vehicle at rest exactly at (x, same y, z) |
| Vehicles.Select | src/objects/Vehicle.js:26-33 | isSelected becomes true with the green glow; position, tag and targets unchanged |
| Vehicles.Deselect | src/objects/Vehicle.js:35-42 | isSelected becomes false with no glow; position, tag and targets unchanged |
| Vehicles.Hover | src/objects/Vehicle.js:44-51 | never changes isSelected; a selected vehicle is untouched, an unselected one turns grey |
| Vehicles.Unhover | src/objects/Vehicle.js:53-60 | never changes isSelected; a selected vehicle is untouched, an unselected one goes dark |
| Vehicles.HoverUnhoverRestores | src/objects/Vehicle.js:44-60 | unhover undoes hover on a dark or selected vehicle |
| Vehicles.SelectedStaysGreen | src/objects/Vehicle.js:26-60 | after select, no sequence of hover/unhover events changes the selection or its glow |
| Vehicles.SelectionSurvivesHovers | src/objects/Vehicle.js:45-54 | a selected vehicle is a fixed point of any hover/unhover sequence |
| Vehicles.UpdateAll | src/game/VehicleManager.js:60-62 | every vehicle of the list is updated, in place, the list length kept |
| Collision.InAnyZone | src/game/CollisionManager.js:16-22 | a target hits the pillar zones iff some zone contains it (inclusive edges) |
| Collision.ScanFrom | src/game/CollisionManager.js:24-39 | scanning from index j reports a hit iff some vehicle at index ≥ j blocks the target |
| Collision.CheckCollision | src/game/CollisionManager.js:11-40 | a collision is reported iff some other vehicle within 0.5 in y has both \|dx\| < 1 and \|dz\| < 1 from the target (pillars never hit) |
| Collision.IsWithinBounds | src/game/CollisionManager.js:42-45 | inside iff the point is no farther from the centre of the bounds than half their width on x and half their depth on z, edges included |
| Collision.WithinBoundsIsInclusive | src/game/CollisionManager.js:42-45 | all four edges are inside the bounds, one tenth beyond any edge is outside |
| Collision.PillarsNeverCollide | src/game/CollisionManager.js:4-22 | with PILLAR_ZONES empty the pillar branch never fires |
| Collision.SelfNeverCollides | src/game/CollisionManager.js:24-25 | in any list of grid vehicles with no other vehicle on the mover's cell and floor, the mover may enter the cell it stands on: it is never reported against itself |
| Collision.MoverOnlyContributesHeight | src/game/CollisionManager.js:13-36 | the verdict depends on the mover only through its height: changing its x, z, tag or target changes nothing |
| Collision.OtherFloorsNeverBlock | src/game/CollisionManager.js:29-30 | vehicles more than 0.5 above or below the mover never cause a collision |
| Collision.NeighbourCellsDoNotBlock | src/game/CollisionManager.js:32-36 | in any list, if every other vehicle on the mover's floor is at least one cell from the target on x or on z (row, column or diagonal neighbour), the move is not blocked |
| Collision.GridCloseIsEqual | src/game/CollisionManager.js:33-34 | two grid values closer than one cell are equal, so the half-cell tests are exact on the grid |
| Collision.GridCollisionIsExactCell | src/game/CollisionManager.js:32-37 | on the grid, a target collides iff another same-floor vehicle sits on exactly that cell |
| Input.RoundToGrid | src/controls/InputController.js:89-91 | the result is a multiple of GRID_SIZE within half a cell of the input (halves rounded up) |
| Input.RoundToGridFixesGrid | src/controls/InputController.js:89-91 | rounding leaves grid values unchanged |
| Input.KeySign | src/controls/InputController.js:70-87 | ArrowUp and 'z' drive forward, ArrowDown and 's' backward, every other key is ignored |
| Input.TargetFor | src/controls/InputController.js:61-91 | the target is the position ± one GRID_SIZE along the facing vector, rounded onto the grid |
| Input.TargetIsOneCell | src/controls/InputController.js:61-91 | from a grid cell the target is exactly one cell away, along the facing axis only |
| Input.OnKeyDown | src/controls/InputController.js:52-114 | with no selection or a non-driving key nothing happens; an out-of-bounds target or a colliding one changes nothing; otherwise exactly one moveTo(target) on the selected vehicle |
| Input.AxisTagDoesNotGate | src/controls/InputController.js:70-96 | retagging the selected vehicle never changes the outcome of a key press |
| Input.SlidingDoesNotGate | src/controls/InputController.js:52-114 | a vehicle still sliding accepts a key move exactly as if it were at rest |
| Input.KeyMovePreservesExclusive | src/controls/InputController.js:98-113 | a key press followed by settling keeps every vehicle on the grid, at rest, and one vehicle per cell per floor |
| Input.BlockedThenForwardScenario | src/controls/InputController.js:70-113 | a car at (2,0) with an obstacle behind it: 's' is blocked, 'z' moves it to (2,2) |
| DirectionHelp.ArrowTarget | src/objects/DirectionHelper.js:196-209 | up/down/left/right point one GRID_SIZE along -z/+z/-x/+x; Manhattan distance is one cell |
| DirectionHelp.OutsideIsNotWithin | src/objects/DirectionHelper.js:212-215 | the helper's out-of-bounds test is exactly the negation of isWithinBounds (inclusive edges) |
| DirectionHelp.CanMoveInDirection | src/objects/DirectionHelper.js:188-219 | without a collision manager true; otherwise true iff the target is in bounds and not colliding |
| DirectionHelp.ArrowFilterIsCanMove | src/objects/DirectionHelper.js:262-269 | the arrow axis filter of show is the same rule as Vehicle.canMove |
| DirectionHelp.Show | src/objects/DirectionHelper.js:227-286 | the helper becomes visible and each arrow is visible iff its axis passes canMove and, given a checker, its cell is free |
| DirectionHelp.Hide | src/objects/DirectionHelper.js:291-294 | visible becomes false, arrows untouched |
| DirectionHelp.KeyAcceptedIffArrowFree | src/objects/DirectionHelper.js:188-219 | on the grid, a driving key is accepted iff the arrow it drives along passes canMoveInDirection |
| DirectionHelp.ShownArrowsAreAcceptedKeys | src/objects/DirectionHelper.js:257-277 | for a vehicle whose facing matches its tag, the shown arrows are exactly the key moves that would be accepted |
| Elevators.NewElevator | src/objects/Elevator.js:6-11 | the elevator keeps x, z and floorIndex and its y is FLOORS[floorIndex].y; an index outside FLOORS is refused |
| Elevators.IsVehicleOnElevator | src/objects/Elevator.js:120-124 | on iff the position lies strictly inside the open box of ±0.6 cell on x and z and ±0.5 on y around the elevator |
| Elevators.CanGoDown | src/objects/Elevator.js:130-132 | true iff some floor lies exactly one FLOOR_HEIGHT below the elevator's floor |
| Elevators.CanGoUp | src/objects/Elevator.js:134-136 | true iff some floor lies exactly one FLOOR_HEIGHT above the elevator's floor |
| Elevators.FloorsOneHeightApart | src/utils/constants.js:20-25 | the floor one FLOOR_HEIGHT below floor i is floor i+1 and the one above is floor i−1, and no other |
| Elevators.MoveVehicleToFloorBelow | src/objects/Elevator.js:139-146 | null and no change when the elevator cannot go down; otherwise y becomes FLOORS[idx+1].y and idx+1 is returned; x and z never change |
| Elevators.MoveVehicleToFloorAbove | src/objects/Elevator.js:149-156 | null and no change when the elevator cannot go up; otherwise y becomes FLOORS[idx-1].y and idx-1 is returned; x and z never change |
| Elevators.TransitionIsOneFloor | src/objects/Elevator.js:139-156 | a transition lands exactly one FLOOR_HEIGHT below or above the elevator's floor |
| Elevators.DownThenUpRestores | src/objects/Elevator.js:139-156 | going down from floor i and back up from an elevator on floor i+1 restores the vehicle |
| Elevators.OnElevatorIsExactCell | src/objects/Elevator.js:120-124 | on the grid and on floor heights, on-elevator holds iff the vehicle is exactly on the elevator's cell and floor |
| Exits.NewExitZone | src/objects/ExitZone.js:6-8 | the stored position is (x, y, z) as given, y defaulting to 0 |
| Exits.IsVehicleInZone | src/objects/ExitZone.js:68-72 | inside iff the position lies strictly inside the open box of ±0.5 cell on x and z and ±0.5 on y around the exit |
| Exits.InZoneIsExactCell | src/objects/ExitZone.js:68-72 | on the grid with floors 3 apart, in-zone holds iff the vehicle is exactly on the exit cell and floor |
| Exits.ExitZoneInsideElevatorCatchment | src/objects/ExitZone.js:68-72 | a position in an exit zone placed on an elevator's cell is also on that elevator |
| Moves.AddMove | src/game/MoveManager.js:6-12 | exactly one record {vehicle, from, to} is appended at the end, the rest kept |
| Moves.Undo | src/game/MoveManager.js:14-22 | empty history: null and no change; otherwise the last record is popped, returned, and its vehicle gets moveTo(from) |
| Moves.CanUndo | src/game/MoveManager.js:24-26 | true iff the history is non-empty, which is exactly when undo, on any vehicle list the history refers into, returns a record |
| Moves.CanUndoIffUndoPops | src/game/MoveManager.js:14-26 | canUndo holds exactly when undo returns a record; otherwise vehicles are untouched |
| Moves.Clear | src/game/MoveManager.js:28-30 | the history is empty and canUndo is false |
| Moves.AddThenUndo | src/game/MoveManager.js:6-21 | addMove then undo returns the record just added and restores the history |
| Moves.UndoTimes | src/game/MoveManager.js:14-22 | k undos shorten the history by k (down to empty) and keep every reference valid |
| Moves.UndoTimesUnwinds | src/game/MoveManager.js:6-22 | last in, first out: undoing as many times as records pushed removes exactly those records |
| Score.Start | src/game/ScoreManager.js:44-58 | a no-op when running; otherwise running with moves and elapsed zeroed |
| Score.Stop | src/game/ScoreManager.js:60-66 | not running, counters unchanged |
| Score.Reset | src/game/ScoreManager.js:68-74 | stopped with moves = 0 and elapsed = 0 |
| Score.AddMove | src/game/ScoreManager.js:76-83 | while running moves goes up by exactly 1; while stopped the session starts from zero so moves becomes 1 |
| Score.TimerTick | src/game/ScoreManager.js:54-57 | while running elapsed becomes the whole seconds since start; moves and running unchanged |
| Score.GetScore | src/game/ScoreManager.js:96-103 | never above 10000, zero iff the penalties reach 10000, otherwise exactly 10000 − 50·moves − 10·elapsed |
| Score.ScoreNonIncreasing | src/game/ScoreManager.js:96-103 | the score is non-increasing in moves and in elapsed time |
| Score.MoveCostsFifty | src/game/ScoreManager.js:76-103 | a move while running costs exactly 50 points while the score is at least 50 |
| Score.DecimalString | src/game/ScoreManager.js:114-115 | toString of a natural: digits only, one digit iff below 10, no leading zero |
| Score.DecimalStringRoundTrip | src/game/ScoreManager.js:114-115 | reading the digits back gives the number |
| Score.LeadingZeroIgnored | src/game/ScoreManager.js:114-115 | a leading '0' does not change the value read |
| Score.PadTwo | src/game/ScoreManager.js:114-115 | padStart(2,'0'): at least two digits, same value, unchanged if already two long |
| Score.SecondsFieldIsTwoDigits | src/game/ScoreManager.js:115 | seconds below 60 are shown with exactly two digits |
| Score.FormatClock | src/game/ScoreManager.js:113-117 | minutes, ':' and two seconds digits, each field all digits; the minutes field is padded to exactly two digits below 100 minutes (five characters iff t < 6000 s) and has no leading zero beyond that |
| Score.MinutesFieldWidth | src/game/ScoreManager.js:114 | padStart(2,'0') of the minutes is two characters iff the minutes are below 100, and from 100 on it is the plain decimal string |
| Score.GetFormattedTime | src/game/ScoreManager.js:113-117 | the display is digits, ':' and two digits; read back, 60·minutes + seconds is the elapsed time with seconds below 60; five characters iff the elapsed time is below 100 minutes, no extra leading zero |
| Score.FormattedTimeRoundTrip | src/game/ScoreManager.js:113-117 | 60·minutes + seconds read back from the display equals the elapsed time, with seconds below 60 |
| Score.ClockOfParts | src/game/ScoreManager.js:116 | splitting a clock string at its colon gives back its two fields |
| Saves.NewSaveManager | src/game/SaveManager.js:2-5 | key 'parkingJam3D' unless one is given; auto-save on |
| Saves.SetAutoSave | src/game/SaveManager.js:150-153 | only the auto-save flag changes |
| Saves.BestKey | src/game/SaveManager.js:109 | the best-score key never coincides with the game key |
| Saves.VehicleStates | src/game/SaveManager.js:29-39 | one entry per vehicle, index = list position, with its position, tag and player flag |
| Saves.Snapshot | src/game/SaveManager.js:41-47 | the saved object carries the vehicle entries, moves, elapsed time, running flag and history length |
| Saves.SaveGameState | src/game/SaveManager.js:26-50 | the snapshot is written under the game key and the call reports success |
| Saves.Load | src/game/SaveManager.js:54-69 | the saved game iff one is stored and readable, otherwise null |
| Saves.LastFor | src/game/SaveManager.js:78-83 | the last entry naming an index, or none iff no entry names it |
| Saves.ApplyStates | src/game/SaveManager.js:78-83 | each in-range vehicle ends at its last entry's (x, y, z); out-of-range entries are ignored; other vehicles unchanged |
| Saves.RestoreGameState | src/game/SaveManager.js:72-104 | null state or missing vehicles: false and nothing changes; otherwise true, positions restored, and when moves was saved: moves and elapsed copied (elapsed default 0), the session running afterwards iff it already ran or the save was running with moves > 0 |
| Saves.SnapshotEntryIsLast | src/game/SaveManager.js:29-39 | in a snapshot the entry for index i is entry i |
| Saves.SnapshotRestoreRoundTrip | src/game/SaveManager.js:26-104 | restoring a snapshot onto a list of the same length puts every vehicle back where it was saved and brings back the counters |
| Saves.GetBestScore | src/game/SaveManager.js:123-130 | null iff the best key is absent or unreadable; a record iff a record is stored, and then that record; any other parsed value is returned as it is, carrying the `moves` field of a saved game and no field of a level list |
| Saves.SaveBestScore | src/game/SaveManager.js:108-121 | with nothing stored it writes; over a record it writes iff the result has fewer moves, or as many moves in less time; over another value it writes iff that value has a `moves` field larger than the result's moves; the result reports whether it wrote, and otherwise the store is untouched |
| Saves.BestIsLexMinimum | src/game/SaveManager.js:108-121 | over a record or nothing, afterwards the record is the lexicographic minimum of the old record and the result; an exact tie does not replace |
| Saves.ListUnderBestKeyBlocksRecords | src/game/SaveManager.js:108-121 | a level list under the best key is never replaced: no series of results changes the store |
| Saves.SaveAllBestKeepsMinimum | src/game/SaveManager.js:108-121 | starting from a record or nothing, after any series of results the record is lexicographically no worse than each of them |
| Saves.SaveAllNeverWorsens | src/game/SaveManager.js:108-121 | recording more results never makes an existing record worse |
| Saves.HasSave | src/game/SaveManager.js:134-136 | true iff something is stored under the game key, so a loadable save is present and an unreadable one is present although load refuses it |
| Saves.ClearSave | src/game/SaveManager.js:138-141 | only the game key is removed |
| Saves.ClearAll | src/game/SaveManager.js:143-147 | the game key and the best key are removed, every other key kept |
| Saves.ClearSaveKeepsBest | src/game/SaveManager.js:138-141 | clearing the game save keeps the best score |
| Levels.JoinFloors | src/game/LevelManager.js:7-13 | two vehicle groups on different floors stay cell-distinct and clearable when joined |
| Levels.TableLevelFollowsRules | src/game/LevelManager.js:7-13 | a table level whose floors are sound meets every design rule: taxi horizontal on z=0 of the ground floor, obstacles on z=0 vertical, elevators on z=0, free exit cell, one vehicle per cell, room for every vertical to clear |
| Levels.Level1FollowsRules | src/game/LevelManager.js:20-53 | level 1 meets the level-design rules listed at the head of LEVELS |
| Levels.Level2FollowsRules | src/game/LevelManager.js:60-110 | level 2 meets the level-design rules listed at the head of LEVELS |
| Levels.Level3FollowsRules | src/game/LevelManager.js:117-200 | level 3 meets the level-design rules listed at the head of LEVELS |
| Levels.TableFollowsRules | src/game/LevelManager.js:15-201 | every level of LEVELS meets the level-design rules listed at its head |
| Levels.LoadProgress | src/game/LevelManager.js:257-264 | the stored unlocked list, or [1] when absent or unreadable |
| Levels.NewLevelManager | src/game/LevelManager.js:207-210 | level 1 current, progress read from the store |
| Levels.GetLevel | src/game/LevelManager.js:212-214 | LEVELS[n] when it exists, else LEVELS[1] |
| Levels.GetCurrentLevel | src/game/LevelManager.js:216-218 | the table level of the current number, or level 1 when the number is not in the table; either way a level that follows the rules at the head of the table |
| Levels.GetLevelCount | src/game/LevelManager.js:249-251 | three levels, keyed exactly 1..3 |
| Levels.SetLevel | src/game/LevelManager.js:220-226 | the current level changes only for an existing level, and the result says whether it did |
| Levels.UnlockLevel | src/game/LevelManager.js:238-243 | the level is unlocked afterwards; a new level is appended and the list persisted; an unlocked one changes nothing |
| Levels.NextLevel | src/game/LevelManager.js:228-236 | advances by exactly 1 and unlocks that level iff it exists; otherwise false with no change |
| Levels.IsLevelUnlocked | src/game/LevelManager.js:245-247 | level 1 is always unlocked; any other level iff it appears in the unlocked list |
| Levels.NextThenSetBack | src/game/LevelManager.js:220-236 | from level 1 or 2, nextLevel then setLevel back returns to the level played with the unlocked list kept; the next level stays unlocked and setLevel forward gives the state nextLevel reached |
| Levels.UnlockKeepsListClean | src/game/LevelManager.js:238-243 | unlocking never introduces duplicates and is idempotent |
| Levels.UnlockOnlyAddsThatLevel | src/game/LevelManager.js:238-247 | unlocking one level changes no other level's status |
| Levels.UnlockPersists | src/game/LevelManager.js:238-264 | what unlockLevel writes is what loadProgress reads back |
| Levels.ClearAllKeepsProgress | src/game/LevelManager.js:253-264 | clearAll of the game's save manager leaves level progress intact |
| Game.OnMove | src/main.js:148-156 | the move counter goes up once (starting the session if needed), exactly one record is appended, and with auto-save on the stored game is the new snapshot |
| Game.UndoKey | src/main.js:227-241 | acts only when canUndo: pops the last move, sends its vehicle back and sets moves := max(0, moves − 1); otherwise nothing changes |
| Game.KeyDown | src/main.js:221-243 | as wired, no key press ever raises the move counter or lengthens the history |
| Game.KeyDownCorrected | src/main.js:148-158 | an accepted move is counted and recorded through onMove; the undo chord only undoes; 'E' is the elevator ride of Game.RideKey; any other key is the controller's outcome with nothing else changed |
| Game.ElevatorUnder | src/objects/Elevator.js:120-124 | an elevator is found only if it is in the list and the position is on it; none is found iff the position is on none of them |
| Game.RideKey | src/objects/Elevator.js:139-146 | 'E' changes only the selected vehicle and only its height; off the main elevators nothing changes, on one the vehicle lands one FLOOR_HEIGHT lower |
| Game.MainElevatorsGoDown | src/main.js:123-126 | each elevator main.js builds sits at its floor's height and can go down, to the floor one FLOOR_HEIGHT lower |
| Game.WinCheck | src/main.js:609-623 | the win latches iff the taxi exists, has not won, is at rest and is in the exit zone; then the session stops with its counters and the saved game is gone; over a record or nothing a record no worse than this result is stored, over another value either that value stays or this result is stored |
| Game.Animate | src/main.js:597-627 | after a frame every vehicle is at rest and the win check has run on the settled positions |
| Game.WinFiresOnce | src/main.js:610-613 | a second win check changes nothing and a won game stays won |
| Game.NoWinWhileMoving | src/main.js:610 | no win while the taxi is moving |
| Game.IsNewBest | src/main.js:630-632 | the flag is raised only over a stored record, and then iff that record has exactly this game's moves and time; anything else under the best key never raises it |
| Game.NewBestFlag | src/main.js:630-632 | right after a win the "new record" flag holds iff the record was replaced or exactly tied; a tie is reported as new although it was not saved |
| Game.FindFloor | src/main.js:316 | the first floor within 0.5 of y, or none iff no floor is |
| Game.FloorNameAt | src/main.js:313-320 | the name of a floor within 0.5 of the height, or the name already shown |
| Game.FloorNameTracksFloor | src/main.js:313-320 | on a floor the display names it; between floors it keeps what it showed |
| Game.MainElevatorsChainFloors | src/main.js:123-130 | both elevators exist; the first takes a vehicle from floor 0 to 1, the second from 1 to 2, the exit's floor |
| Game.ResumeOrDiscard | src/main.js:577-587 | with a saved game: resume on confirm, otherwise clear the save; without one nothing changes |
| Game.DeclineSettlesPrompt | src/main.js:577-587 | after declining, a second start-up offers nothing and leaves the game as it is, and the best score survives the clearing |
| Game.Click | src/controls/InputController.js:27-49 | the previous selection is deselected; the vehicle hit, if it is in the list, becomes the selection with its glow on, otherwise nothing is selected; no position, tag, heading or target changes |
| Game.ClickTwiceIsOnce | src/controls/InputController.js:27-49 | clicking the same spot twice leaves the game as one click does |
| Game.KeyPress | src/main.js:158-243 | a key press, as wired or corrected, keeps the exit, the taxi and the win flag; only a corrected 'E' may change a height |
| Game.Step | src/main.js:158-243 | one key press, click or frame keeps the exit, the taxi and a won game; only a corrected 'E' may change a height |
| Game.PlayKeepsHeights | src/main.js:123-158 | as wired, no sequence of keys, clicks and frames changes any vehicle's height, since no elevator transition is ever called |
| Game.GroundFloorTaxiNeverWins | src/main.js:123-131 | as wired, a taxi starting on the ground floor with the exit on the bottom floor never wins, whatever is clicked, pressed or selected |
| Game.NeverWinsFromOtherFloor | src/main.js:610-613 | as wired, a taxi on a different floor from the exit never wins, over any series of key presses, clicks and frames |
| Game.PlayAppend | src/main.js:597-627 | playing two runs one after the other is playing their concatenation |
| Game.PlayCons | src/main.js:597-627 | playing one event then a run is one step followed by the run |
| Game.DriveOnce | src/controls/InputController.js:52-114 | corrected, from a grid cell 'z' then a frame moves the taxi one cell along +x ('s' along −x) within the bounds; the win latches exactly when the new cell is in the exit zone |
| Game.MoveSelected | src/controls/InputController.js:52-114 | corrected, a selected vehicle at rest on the grid whose next cell is inside the lot and free on its floor lands there after 'z' or 's' and a frame; no other vehicle moves and the win latches exactly when the player's vehicle then stands in the exit |
| Game.DriveFirstCell | src/controls/InputController.js:52-114 | the first cell of a drive lands one cell on, latches the win exactly on the exit, and leaves the rest of the drive to run from there |
| Game.DriveForward | src/controls/InputController.js:52-114 | corrected, n presses of 'z' with a frame each, within the bounds, take the taxi n cells along +x; a win is never undone, ending on the exit wins, and off the exit's floor winning does not change |
| Game.DriveBackward | src/controls/InputController.js:52-114 | the same for 's', n cells along −x |
| Game.RideOnce | src/objects/Elevator.js:139-146 | corrected, 'E' on either main elevator takes the taxi one floor down and nothing else changes |
| Game.ElevatorGapIsDistance | src/main.js:123-126 | the two elevators are six cells apart along x |
| Game.ToSecondElevator | src/main.js:123-130 | corrected, riding down and driving six cells along +x brings the taxi from the first elevator to the second, one floor lower, without a win |
| Game.FromSecondElevator | src/main.js:123-131 | corrected, riding down from the second elevator and driving six cells back along −x wins |
| Game.RouteWins | src/main.js:123-131 | corrected, the route ride, drive, ride, drive wins every game whose taxi stands selected and at rest on the ground-floor elevator with every other vehicle at rest off its row |
| Game.MainStart | src/main.js:324-574 | the game once initVehicles has loaded its 26 vehicles, in load order and at rest with the axis and heading each was loaded with: the taxi first, the player, at (6, 0, 0); nothing selected, no history, a fresh session |
| Game.ShiftVan | src/controls/InputController.js:27-114 | corrected, clicking a van that faces +z, pressing 'z' or 's' and letting a frame pass moves it one cell along z when that cell is inside the lot and free on its floor; every other vehicle stays, and the taxi does not win |
| Game.ClearRowClears | src/main.js:340-574 | from the start of main.js, six clicks, presses and frames move the six vans on the taxi's row (z = 0) of the three floors aside, one cell each |
| Game.RowIsClear | src/main.js:324-574 | with those vans moved, every vehicle but the taxi stands a cell or more off the row z = 0 |
| Game.ClickTaxi | src/controls/InputController.js:27-49 | clicking the taxi then selects it at (6, 0, 0) with the whole row open |
| Game.CorrectedMainStartWins | src/main.js:324-574 | corrected, whatever the browser holds, the game main.js starts is won by clearing the row, clicking the taxi, backing it six cells onto the first elevator and taking the route |
| Game.MainStartNeverWins | src/main.js:324-338 | as wired, no series of key presses, clicks and frames wins the game main.js starts: its taxi starts on the ground floor and the exit is on floor -2 |
| Game.AcceptedMoveIsNotCounted | src/main.js:148-158 | as wired, an accepted 'z' moves the car while moves stays 0 and nothing can be undone |
| Game.CorrectedMoveIsCounted | src/main.js:148-158 | corrected, the same press counts one move and records it |
| Game.UndoChordDrivesForward | src/main.js:222-229 | as wired, Ctrl+Z with nothing to undo drives the selected car forward |
| Game.CorrectedUndoChordOnlyUndoes | src/main.js:227-241 | corrected, the undo chord with nothing to undo changes nothing and otherwise pops one record |
| Game.CorrectedMoveThenUndoRestores | src/main.js:148-235 | corrected, in a running game at rest a counted move followed by Ctrl+Z gives back the history and the session, and once settled every vehicle as it was |

## Left out

- Rendering, three.js scene setup, cameras and their lerp, lights, GUI panels and the victory-screen DOM are presentation. So are the score display writes, arrow geometry, indicator and pulse animations, and the Elevator/ExitZone model loading and `update`.
- `Vehicle.update` interpolates with MOVE_SPEED over several frames. The model settles each pending axis in one frame. Mid-slide positions and the 0.01 snap threshold are floating point.
- The sin/cos facing is the `FacingX`/`FacingZ` enum. The tiny non-zero cos(π/2) disappears in the grid rounding.
- Positions are integers in tenths, so positions finer than a tenth are not represented.
- Timers are not modelled: `setInterval`, `Date.now`, the `startTime` reset on restore and `flashCollision`'s `setTimeout`. Elapsed seconds are an input to `Score.TimerTick`. A flash happens on the `OutOfBounds` and `Blocked` outcomes.
- JSON (de)serialisation, the timestamp and version fields, the saved `date` of a best score, and console output are storage I/O.
- Saves.SaveGameState: always reports success, because the storage quota and serialisation errors that make `save` return false are not modelled.
- Saves.Load: a stored value that parses to something other than a saved game is treated as absent. The source returns it, and `restoreGameState` then refuses it for lack of `vehicles`, so the outcome is the same.
- Levels.LoadProgress: a stored value that parses to something other than a list is read as [1]. The source would keep it and fail later in `includes`.
- Mouse picking is left out: the raycast and `getVehicleFromObject` become the `hit` of a click, and hovering (`onMouseMove`) has no effect on the game.
- Model loading (`loadVehicle`) is asynchronous asset I/O. Game.MainStart keeps only its outcome: the vehicles in load order, with the rotation and axis each was given.
- Game.MainStart: is the game before the saved-game prompt; the prompt itself is Game.ResumeOrDiscard, and the runs of Game.CorrectedMainStartWins and Game.MainStartNeverWins start before it, as on a first visit.
- The LEVELS table's model paths and rotations are kept as data. The table is not loaded by main.js.
- The 'C' camera switch key and the GUI button swap the active camera and controls. Then `switchCamera` calls `inputController.updateCamera` (src/main.js:182), which InputController does not define (src/controls/InputController.js:5-116). So every switch throws a TypeError after the swap, and the raycast keeps the camera the controller was built with. This does not reach the model, for two reasons. Picking is abstracted into a click's `hit`. The rest of that keydown listener is the undo branch, which needs key 'z', not 'c'.
- `ScoreManager.getMoves` and `getTime` read a field, which the model reads directly.
- Elevators.GetFloorIndex: its contract only says it returns the stored floor index, because that is all getFloorIndex does. It has no row in the table.
- Saves.BestIsLexMinimum: says nothing when the best key holds a value other than a record. The source keeps such a value unless it is a saved game with more moves than the result (see Saves.SaveBestScore and Saves.ListUnderBestKeyBlocksRecords).
- Saves.SaveAllBestKeepsMinimum: says nothing when the best key starts with a value other than a record, for the same reason.
- Game.WinCheck: over a value other than a record it only says that value stays or the result is stored, for the same reason.
- Game.RideKey: rides only down, on the two elevators main.js builds. The source has no 'E' listener, so which key and which direction were meant is a guess from the 'E' sprite each elevator creates (src/objects/Elevator.js:21-62) and from `showIndicatorIfPlayerOn` (src/objects/Elevator.js:175-182). The sprite starts hidden and nothing calls that method, so the indicator is never shown. The upward ride is left out. The ride is also neither counted, recorded nor auto-saved: its contract says only the vehicle list changes. A move record holds only x and z (src/game/MoveManager.js:6-12), and undo calls `moveTo`, which cannot restore a height (src/game/MoveManager.js:14-22). So recording a ride through `onMove` (src/main.js:148-156) would give an undo that leaves the vehicle on the lower floor.
- src/scene/ParkingFloors.js only draws floors and pillars. Its floor lookup repeats FLOORS.
- vite.config.js is build configuration.

## Findings

| source | as written | input that shows it | evidently intended | confidence | as-written member | corrected member |
|---|---|---|---|---|---|---|
| src/main.js:158 | main passes `onMove` as the fifth argument to an InputController whose constructor takes three (src/controls/InputController.js:5), so accepted moves are never counted, recorded, auto-saved or undoable | the two-car game of `Game.SmallGame`, key 'z': the car heads to (2, 2) while moves stays 0 and canUndo is false | every accepted move calls onMove, which counts, records and auto-saves it | high, not executed | Game.KeyDown | Game.KeyDownCorrected |
| src/main.js:123-158 | main.js builds the elevators, each with a hidden 'E' sprite (src/objects/Elevator.js:21-62), but nothing listens for 'E' or calls a transition, so no vehicle ever changes floor and the taxi, which starts on the ground floor, cannot reach the exit on the bottom floor | the game main.js starts with `Game.MainSolution`: clear the row, click the taxi, back it six cells onto the first elevator, ride, drive six cells, ride, drive six cells back; the taxi stays on the ground floor and never wins | 'E' on an elevator takes the selected vehicle one floor down, so the run reaches the exit | medium, not executed | Game.MainStartNeverWins | Game.CorrectedMainStartWins |
| src/controls/InputController.js:70-72 | the controller reacts to 'z' without looking at Ctrl/Meta, and its listener runs before main's Ctrl+Z handler, so Ctrl+Z also drives the selected vehicle forward | the same game with nothing to undo, Ctrl+Z: the car heads to (2, 2) | Ctrl+Z only undoes the last move | medium, not executed | Game.KeyDown | Game.KeyDownCorrected |

The first row's counterexample is `Game.AcceptedMoveIsNotCounted`. Its corrected properties are `Game.CorrectedMoveIsCounted` and `Game.CorrectedMoveThenUndoRestores`. The second row's general form is `Game.GroundFloorTaxiNeverWins`, which holds for any start with the taxi on the ground floor and any series of events. Its corrected wiring is `Game.KeyDownCorrected` with `Game.RideKey`, and `Game.RouteWins` proves the route wins once the taxi stands on the ground-floor elevator with its row clear. The third row's counterexample is `Game.UndoChordDrivesForward`, and its corrected property is `Game.CorrectedUndoChordOnlyUndoes`. `Game.Play` and `Game.Step` run either wiring.
