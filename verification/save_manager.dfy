/** Save and best-score logic (src/game/SaveManager.js) over an abstract
    key/value store standing in for localStorage. JSON encoding, the
    timestamp and version fields, and logging are not modelled. */
module Saves {
  import opened Common
  import opened Constants
  import opened Vehicles
  import opened Score

  /** One vehicle of a snapshot. */
  datatype VehicleState = VehicleState(index: int, x: int, y: int, z: int, direction: Axis, isPlayer: bool)

  /** A saved game as read back; a field missing from the stored object
      is `None`. */
  datatype SavedState = SavedState(
    vehicles: Option<seq<VehicleState>>,
    moves: Option<nat>,
    elapsedTime: Option<nat>,
    isRunning: bool,
    moveHistoryCount: nat)

  datatype BestScore = BestScore(moves: nat, time: nat)

  /** What a store entry parses to; `Unreadable` is data JSON.parse rejects. */
  datatype Stored = GameSave(state: SavedState) | BestRecord(best: BestScore) | LevelList(levels: seq<int>) | Unreadable

  type Store = map<string, Stored>

  datatype SaveManager = SaveManager(storageKey: string, autoSaveEnabled: bool)

  const DefaultStorageKey: string := "parkingJam3D"

  /** The constructor: key 'parkingJam3D' unless given, auto-save on. */
  function NewSaveManager(storageKey: Option<string>): (m: SaveManager)
    ensures m.autoSaveEnabled
    ensures m.storageKey == if storageKey.Some? then storageKey.value else DefaultStorageKey
  {
    SaveManager(storageKey.GetOr(DefaultStorageKey), true)
  }

  /** setAutoSave. */
  function SetAutoSave(m: SaveManager, enabled: bool): (r: SaveManager)
    ensures r.autoSaveEnabled == enabled && r.storageKey == m.storageKey
  {
    m.(autoSaveEnabled := enabled)
  }

  /** The best-score key: the storage key followed by "_best". */
  function BestKey(m: SaveManager): (k: string)
    ensures k != m.storageKey
  {
    m.storageKey + "_best"
  }

  /** The per-vehicle part of the snapshot, in list order. */
  function VehicleStates(vs: seq<Vehicle>): (states: seq<VehicleState>)
    ensures |states| == |vs|
    ensures forall i :: 0 <= i < |vs| ==>
      states[i] == VehicleState(i, vs[i].pos.x, vs[i].pos.y, vs[i].pos.z, vs[i].axis, vs[i].isPlayer)
  {
    seq(|vs|, i requires 0 <= i < |vs| =>
      VehicleState(i, vs[i].pos.x, vs[i].pos.y, vs[i].pos.z, vs[i].axis, vs[i].isPlayer))
  }

  /** The object saveGameState writes. */
  function Snapshot(vs: seq<Vehicle>, s: Session, historyLength: nat): (saved: SavedState)
    ensures saved.vehicles == Some(VehicleStates(vs))
    ensures saved.moves == Some(s.moves) && saved.elapsedTime == Some(s.elapsed)
    ensures saved.isRunning == s.isRunning && saved.moveHistoryCount == historyLength
  {
    SavedState(Some(VehicleStates(vs)), Some(s.moves), Some(s.elapsed), s.isRunning, historyLength)
  }

  datatype SaveResult = SaveResult(ok: bool, store: Store)

  /** saveGameState: store the snapshot under the storage key. */
  function SaveGameState(m: SaveManager, store: Store, vs: seq<Vehicle>, s: Session, historyLength: nat): (r: SaveResult)
    ensures r.ok
    ensures r.store == store[m.storageKey := GameSave(Snapshot(vs, s, historyLength))]
  {
    SaveResult(true, store[m.storageKey := GameSave(Snapshot(vs, s, historyLength))])
  }

  /** load: the saved game, or `None` when absent or unreadable. */
  function Load(m: SaveManager, store: Store): (saved: Option<SavedState>)
    ensures saved.Some? <==> m.storageKey in store && store[m.storageKey].GameSave?
    ensures saved.Some? ==> saved.value == store[m.storageKey].state
  {
    if m.storageKey in store && store[m.storageKey].GameSave? then Some(store[m.storageKey].state) else None
  }

  /** The last entry of `states` naming index `i` (later entries win,
      as the forEach applies them in order). */
  function LastFor(states: seq<VehicleState>, i: int): (r: Option<VehicleState>)
    ensures r.None? <==> forall k :: 0 <= k < |states| ==> states[k].index != i
    ensures r.Some? ==> exists k :: 0 <= k < |states| && states[k] == r.value && r.value.index == i
                         && forall l :: k < l < |states| ==> states[l].index != i
    decreases |states|
  {
    if |states| == 0 then None
    else if states[|states| - 1].index == i then Some(states[|states| - 1])
    else
      var init := states[..|states| - 1];
      var r := LastFor(init, i);
      assert forall k :: 0 <= k < |init| ==> init[k] == states[k];
      if r.None? then r
      else
        assert exists k :: 0 <= k < |states| && states[k] == r.value && r.value.index == i
                           && forall l :: k < l < |states| ==> states[l].index != i by {
          var k :| 0 <= k < |init| && init[k] == r.value && r.value.index == i
                   && forall l :: k < l < |init| ==> init[l].index != i;
          assert states[k] == r.value;
        }
        r
  }

  /** A vehicle placed where a saved entry says, or left alone. */
  function Placed(v: Vehicle, entry: Option<VehicleState>): Vehicle {
    match entry
    case None => v
    case Some(st) => v.(pos := Pos(st.x, st.y, st.z))
  }

  /** One step of the forEach: `vehicles[state.index]` is set when it exists. */
  function ApplyState(vs: seq<Vehicle>, st: VehicleState): seq<Vehicle> {
    if 0 <= st.index < |vs| then vs[st.index := Placed(vs[st.index], Some(st))] else vs
  }

  /** The whole forEach: each in-range vehicle ends at its last entry's
      position; out-of-range entries are ignored; the rest is untouched. */
  function ApplyStates(vs: seq<Vehicle>, states: seq<VehicleState>): (ws: seq<Vehicle>)
    ensures |ws| == |vs|
    ensures forall i :: 0 <= i < |vs| ==> ws[i] == Placed(vs[i], LastFor(states, i))
    decreases |states|
  {
    if |states| == 0 then vs
    else
      var prefix := states[..|states| - 1];
      var ws := ApplyState(ApplyStates(vs, prefix), states[|states| - 1]);
      assert forall i :: 0 <= i < |vs| && i != states[|states| - 1].index ==> LastFor(states, i) == LastFor(prefix, i);
      ws
  }

  datatype RestoreResult = RestoreResult(ok: bool, vehicles: seq<Vehicle>, session: Session)

  /** restoreGameState. */
  function RestoreGameState(vs: seq<Vehicle>, s: Session, saved: Option<SavedState>): (r: RestoreResult)
    ensures saved.None? || saved.value.vehicles.None? ==> r == RestoreResult(false, vs, s)
    ensures saved.Some? && saved.value.vehicles.Some? ==>
      var st := saved.value;
      && r.ok
      && r.vehicles == ApplyStates(vs, st.vehicles.value)
      && (st.moves.None? ==> r.session == s)
      && (st.moves.Some? ==>
            && r.session.moves == st.moves.value
            && r.session.elapsed == (if st.elapsedTime.Some? then st.elapsedTime.value else 0)
            && r.session.isRunning == ((st.isRunning && st.moves.value > 0) || s.isRunning))
  {
    if saved.None? || saved.value.vehicles.None? then RestoreResult(false, vs, s)
    else
      var st := saved.value;
      var ws := ApplyStates(vs, st.vehicles.value);
      if st.moves.None? then RestoreResult(true, ws, s)
      else
        var s1 := s.(moves := st.moves.value, elapsed := st.elapsedTime.GetOr(0));
        var s2 := if st.isRunning && st.moves.value > 0 then s1.(isRunning := true) else s1;
        RestoreResult(true, ws, s2)
  }

  /** In a snapshot, the only entry for index i is entry i. */
  lemma {:induction false} SnapshotEntryIsLast(states: seq<VehicleState>, i: nat)
    requires forall k :: 0 <= k < |states| ==> states[k].index == k
    requires i < |states|
    ensures LastFor(states, i) == Some(states[i])
    decreases |states|
  {
    if i < |states| - 1 {
      var prefix := states[..|states| - 1];
      assert forall k :: 0 <= k < |prefix| ==> prefix[k].index == k;
      SnapshotEntryIsLast(prefix, i);
    }
  }

  /** Saving then restoring onto a list of the same length puts every
      vehicle back where it was saved and brings back the counters. */
  lemma SnapshotRestoreRoundTrip(vs: seq<Vehicle>, s: Session, n: nat, ws: seq<Vehicle>, current: Session)
    requires |ws| == |vs|
    ensures var r := RestoreGameState(ws, current, Some(Snapshot(vs, s, n)));
      && r.ok
      && |r.vehicles| == |vs|
      && (forall i :: 0 <= i < |vs| ==> r.vehicles[i].pos == vs[i].pos)
      && r.session.moves == s.moves && r.session.elapsed == s.elapsed
  {
    var states := VehicleStates(vs);
    var r := RestoreGameState(ws, current, Some(Snapshot(vs, s, n)));
    forall i | 0 <= i < |vs|
      ensures r.vehicles[i].pos == vs[i].pos
    {
      SnapshotEntryIsLast(states, i);
    }
  }

  /** What getBestScore hands back: null (nothing stored, or data
      JSON.parse rejects), a best-score record, or some other parsed value
      found under the key. Of the latter only its `moves` field matters to
      the callers: a saved game has one, a level list has none, and
      neither has a `time` field. */
  datatype BestRead = NoBest | Record(best: BestScore) | Foreign(movesField: Option<nat>)

  /** getBestScore: whatever the best key parses to. */
  function GetBestScore(m: SaveManager, store: Store): (b: BestRead)
    ensures b.NoBest? <==> BestKey(m) !in store || store[BestKey(m)].Unreadable?
    ensures b.Record? <==> BestKey(m) in store && store[BestKey(m)].BestRecord?
    ensures b.Record? ==> b.best == store[BestKey(m)].best
    ensures b.Foreign? && store[BestKey(m)].GameSave? ==> b.movesField == store[BestKey(m)].state.moves
    ensures b.Foreign? && store[BestKey(m)].LevelList? ==> b.movesField.None?
  {
    var k := BestKey(m);
    if k !in store then NoBest
    else match store[k]
      case Unreadable => NoBest
      case BestRecord(best) => Record(best)
      case GameSave(state) => Foreign(state.moves)
      case LevelList(_) => Foreign(None)
  }

  /** The stored best-score record, if the best key holds one. */
  function RecordOf(m: SaveManager, store: Store): Option<BestScore> {
    var b := GetBestScore(m, store);
    if b.Record? then Some(b.best) else None
  }

  /** The `moves` and `time` fields of what getBestScore returned;
      `None` is `undefined`. */
  function MovesField(b: BestRead): Option<nat> {
    match b
    case NoBest => None
    case Record(best) => Some(best.moves)
    case Foreign(mv) => mv
  }

  function TimeField(b: BestRead): Option<nat> {
    if b.Record? then Some(b.best.time) else None
  }

  /** Fewer moves, or as many moves in less time. */
  predicate Beats(moves: nat, time: nat, b: BestScore) {
    moves < b.moves || (moves == b.moves && time < b.time)
  }

  /** The lexicographic order on (moves, time). */
  predicate LexLe(a: BestScore, b: BestScore) {
    a.moves < b.moves || (a.moves == b.moves && a.time <= b.time)
  }

  datatype BestResult = BestResult(replaced: bool, store: Store)

  /** saveBestScore: write the result when nothing is stored or it beats
      what is stored, comparing field by field; a comparison with a
      missing field is false. Report whether it wrote. */
  function SaveBestScore(m: SaveManager, store: Store, moves: nat, time: nat): (r: BestResult)
    ensures GetBestScore(m, store).NoBest? ==> r.replaced
    ensures GetBestScore(m, store).Record? ==> (r.replaced <==> Beats(moves, time, GetBestScore(m, store).best))
    ensures GetBestScore(m, store).Foreign? ==>
      (r.replaced <==> GetBestScore(m, store).movesField.Some? && moves < GetBestScore(m, store).movesField.value)
    ensures r.replaced ==> r.store == store[BestKey(m) := BestRecord(BestScore(moves, time))]
    ensures !r.replaced ==> r.store == store
  {
    var current := GetBestScore(m, store);
    var mv := MovesField(current);
    var tm := TimeField(current);
    if current.NoBest? || (mv.Some? && moves < mv.value) || (mv == Some(moves) && tm.Some? && time < tm.value) then
      BestResult(true, store[BestKey(m) := BestRecord(BestScore(moves, time))])
    else BestResult(false, store)
  }

  /** After saving a result over a record (or over nothing), the record is
      the lexicographic minimum of the old record and the result; a tie
      keeps the old record. */
  lemma BestIsLexMinimum(m: SaveManager, store: Store, moves: nat, time: nat)
    ensures !GetBestScore(m, store).Foreign? ==>
      var b := RecordOf(m, SaveBestScore(m, store, moves, time).store);
      && b.Some?
      && LexLe(b.value, BestScore(moves, time))
      && (RecordOf(m, store).Some? ==>
            LexLe(b.value, RecordOf(m, store).value)
            && (b.value == RecordOf(m, store).value || b.value == BestScore(moves, time)))
    ensures RecordOf(m, store) == Some(BestScore(moves, time)) ==> !SaveBestScore(m, store, moves, time).replaced
  {
  }

  /** A level list under the best key blocks every record: it has no
      `moves` field, so no result ever compares as better. */
  lemma {:induction false} ListUnderBestKeyBlocksRecords(m: SaveManager, store: Store, results: seq<BestScore>)
    requires BestKey(m) in store && store[BestKey(m)].LevelList?
    ensures SaveAllBest(m, store, results) == store
    decreases |results|
  {
    if |results| > 0 {
      ListUnderBestKeyBlocksRecords(m, store, results[1..]);
    }
  }

  /** Record a series of results in turn. */
  function SaveAllBest(m: SaveManager, store: Store, results: seq<BestScore>): Store
    decreases |results|
  {
    if |results| == 0 then store
    else SaveAllBest(m, SaveBestScore(m, store, results[0].moves, results[0].time).store, results[1..])
  }

  /** After any series of results the record is no worse than each of them. */
  lemma {:induction false} SaveAllBestKeepsMinimum(m: SaveManager, store: Store, results: seq<BestScore>)
    requires |results| > 0
    ensures !GetBestScore(m, store).Foreign? ==> RecordOf(m, SaveAllBest(m, store, results)).Some?
    ensures !GetBestScore(m, store).Foreign? ==>
      forall k :: 0 <= k < |results| ==> LexLe(RecordOf(m, SaveAllBest(m, store, results)).value, results[k])
    decreases |results|
  {
    var next := SaveBestScore(m, store, results[0].moves, results[0].time).store;
    BestIsLexMinimum(m, store, results[0].moves, results[0].time);
    if |results| > 1 && !GetBestScore(m, store).Foreign? {
      SaveAllBestKeepsMinimum(m, next, results[1..]);
      SaveAllNeverWorsens(m, next, results[1..]);
      var final := RecordOf(m, SaveAllBest(m, store, results)).value;
      forall k | 0 <= k < |results|
        ensures LexLe(final, results[k])
      {
        if k > 0 {
          assert results[k] == results[1..][k - 1];
        }
      }
    }
  }

  /** Recording more results never makes an existing record worse. */
  lemma {:induction false} SaveAllNeverWorsens(m: SaveManager, store: Store, results: seq<BestScore>)
    requires RecordOf(m, store).Some?
    ensures RecordOf(m, SaveAllBest(m, store, results)).Some?
    ensures LexLe(RecordOf(m, SaveAllBest(m, store, results)).value, RecordOf(m, store).value)
    decreases |results|
  {
    if |results| > 0 {
      var next := SaveBestScore(m, store, results[0].moves, results[0].time).store;
      BestIsLexMinimum(m, store, results[0].moves, results[0].time);
      SaveAllNeverWorsens(m, next, results[1..]);
    }
  }

  /** hasSave: something is stored under the game key, readable or not;
      so a save that load rejects still counts as present. */
  function HasSave(m: SaveManager, store: Store): (present: bool)
    ensures present <==> m.storageKey in store
    ensures Load(m, store).Some? ==> present
    ensures m.storageKey in store && store[m.storageKey].Unreadable? ==> present && Load(m, store).None?
  {
    m.storageKey in store
  }

  /** clearSave: remove the game entry only. */
  function ClearSave(m: SaveManager, store: Store): (r: Store)
    ensures !HasSave(m, r)
    ensures r.Keys == store.Keys - {m.storageKey}
    ensures forall k :: k in r ==> r[k] == store[k]
  {
    store - {m.storageKey}
  }

  /** clearAll: remove the game entry and the best score. */
  function ClearAll(m: SaveManager, store: Store): (r: Store)
    ensures !HasSave(m, r) && GetBestScore(m, r).NoBest?
    ensures r.Keys == store.Keys - {m.storageKey, BestKey(m)}
    ensures forall k :: k in r ==> r[k] == store[k]
  {
    store - {m.storageKey, BestKey(m)}
  }

  /** Clearing the game save keeps the best score. */
  lemma ClearSaveKeepsBest(m: SaveManager, store: Store)
    ensures GetBestScore(m, ClearSave(m, store)) == GetBestScore(m, store)
  {
  }
}
