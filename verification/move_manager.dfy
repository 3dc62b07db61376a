/** The undo stack (src/game/MoveManager.js). A record names its vehicle
    by list index and keeps the origin and destination cells. */
module Moves {
  import opened Common
  import opened Vehicles

  datatype MoveRecord = MoveRecord(vehicle: nat, fromX: int, fromZ: int, toX: int, toZ: int)

  type History = seq<MoveRecord>

  /** Every record names a vehicle of a list of `n` vehicles. */
  predicate RefsValid(h: History, n: nat) {
    forall k :: 0 <= k < |h| ==> h[k].vehicle < n
  }

  /** addMove: push one record on top. */
  function AddMove(h: History, vehicle: nat, fromX: int, fromZ: int, toX: int, toZ: int): (r: History)
    ensures |r| == |h| + 1
    ensures r[..|h|] == h
    ensures r[|h|] == MoveRecord(vehicle, fromX, fromZ, toX, toZ)
  {
    h + [MoveRecord(vehicle, fromX, fromZ, toX, toZ)]
  }

  /** The record popped (`null` when none), the remaining history and
      the vehicles after the popped vehicle was sent back. */
  datatype UndoResult = UndoResult(undone: Option<MoveRecord>, history: History, vehicles: seq<Vehicle>)

  /** undo: on an empty history nothing happens; otherwise pop the most
      recent record and send its vehicle back to the origin cell with
      `moveTo` (no bounds or collision check). */
  function Undo(h: History, vs: seq<Vehicle>): (r: UndoResult)
    requires RefsValid(h, |vs|)
    ensures |h| == 0 ==> r == UndoResult(None, h, vs)
    ensures |h| > 0 ==>
      var last := h[|h| - 1];
      && r.undone == Some(last)
      && r.history == h[..|h| - 1]
      && r.vehicles == vs[last.vehicle := MoveTo(vs[last.vehicle], last.fromX, last.fromZ)]
    ensures |r.vehicles| == |vs| && RefsValid(r.history, |r.vehicles|)
  {
    if |h| == 0 then UndoResult(None, h, vs)
    else
      var last := h[|h| - 1];
      UndoResult(Some(last), h[..|h| - 1], vs[last.vehicle := MoveTo(vs[last.vehicle], last.fromX, last.fromZ)])
  }

  /** canUndo. */
  function CanUndo(h: History): (ok: bool)
    ensures ok <==> h != []
    ensures forall vs: seq<Vehicle> {:trigger Undo(h, vs)} :: RefsValid(h, |vs|) ==> (ok <==> Undo(h, vs).undone.Some?)
  {
    |h| > 0
  }

  /** Undo does something exactly when canUndo says so. */
  lemma CanUndoIffUndoPops(h: History, vs: seq<Vehicle>)
    requires RefsValid(h, |vs|)
    ensures CanUndo(h) <==> Undo(h, vs).undone.Some?
    ensures !CanUndo(h) ==> Undo(h, vs).vehicles == vs
  {
  }

  /** clear. */
  function Clear(h: History): (r: History)
    ensures |r| == 0 && !CanUndo(r)
  {
    []
  }

  /** addMove then undo: the history is back to what it was and the record
      just added is the one returned. */
  lemma AddThenUndo(h: History, vs: seq<Vehicle>, vehicle: nat, fromX: int, fromZ: int, toX: int, toZ: int)
    requires RefsValid(h, |vs|) && vehicle < |vs|
    ensures RefsValid(AddMove(h, vehicle, fromX, fromZ, toX, toZ), |vs|)
    ensures Undo(AddMove(h, vehicle, fromX, fromZ, toX, toZ), vs).history == h
    ensures Undo(AddMove(h, vehicle, fromX, fromZ, toX, toZ), vs).undone
            == Some(MoveRecord(vehicle, fromX, fromZ, toX, toZ))
  {
  }

  /** Undo `k` times in a row. */
  function UndoTimes(h: History, vs: seq<Vehicle>, k: nat): (r: UndoResult)
    requires RefsValid(h, |vs|)
    ensures |r.vehicles| == |vs| && RefsValid(r.history, |r.vehicles|)
    ensures |r.history| == if k <= |h| then |h| - k else 0
    decreases k
  {
    if k == 0 then UndoResult(None, h, vs)
    else
      var r := Undo(h, vs);
      UndoTimes(r.history, r.vehicles, k - 1)
  }

  /** Last in, first out: undoing as many times as records were pushed
      removes exactly those records. */
  lemma {:induction false} UndoTimesUnwinds(h: History, rs: History, vs: seq<Vehicle>)
    requires RefsValid(h + rs, |vs|)
    ensures UndoTimes(h + rs, vs, |rs|).history == h
    decreases |rs|
  {
    if |rs| > 0 {
      var r := Undo(h + rs, vs);
      var rest := rs[..|rs| - 1];
      assert (h + rs)[..|h + rs| - 1] == h + rest;
      assert r.history == h + rest;
      UndoTimesUnwinds(h, rest, r.vehicles);
    } else {
      assert h + rs == h;
    }
  }
}
