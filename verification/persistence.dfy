/** The startup load and the auto-save of `App.tsx`. Local storage holds one
    slot; the JSON text in it is abstracted to what `JSON.parse` yields. */
module Persistence {
  import opened Wrappers
  import opened Types
  import opened EntryStore
  import opened Js

  /** The parsed object's two fields, each possibly absent (or `null`). */
  datatype Snapshot = Snapshot(entries: Option<seq<FoodEntry>>, goal: Option<real>)

  /** The storage slot: nothing (or the empty string, which is falsy), text
      that does not parse to an object, or a parsed object. */
  datatype Slot = Missing | Unparseable | Stored(snapshot: Snapshot)

  /** The auto-save effect: writes both fields of the current state. */
  function Save(s: State): (slot: Slot)
    ensures slot.Stored?
    ensures slot.snapshot.entries == Some(s.entries) && slot.snapshot.goal == Some(s.goal)
  {
    Stored(Snapshot(Some(s.entries), Some(s.goal)))
  }

  /** The load effect applied to the initial state: a missing or unparseable
      slot leaves the initial state; a parsed one takes `entries || []` and
      `goal || DEFAULT_GOAL`. */
  function Load(slot: Slot): (r: State)
    ensures !slot.Stored? ==> r == Initial
    ensures slot.Stored? ==> r.entries == slot.snapshot.entries.GetOr([])
    ensures slot.Stored? && Truthy(slot.snapshot.goal) ==> r.goal == slot.snapshot.goal.value
    ensures slot.Stored? && !Truthy(slot.snapshot.goal) ==> r.goal == DefaultGoal
    ensures r.goal != 0.0
  {
    match slot
    case Missing => Initial
    case Unparseable => Initial
    case Stored(snap) =>
      State(snap.entries.GetOr([]),
            if Truthy(snap.goal) then snap.goal.value else DefaultGoal)
  }

  /** Loading what auto-save wrote gives back the entries exactly, and the
      goal exactly unless it was 0, which comes back as the default. */
  lemma LoadSave(s: State)
    ensures Load(Save(s)).entries == s.entries
    ensures Load(Save(s)).goal == if s.goal == 0.0 then DefaultGoal else s.goal
  {
  }

  /** The round trip is exact precisely for states whose goal is not 0. */
  lemma LoadSaveExactIff(s: State)
    ensures Load(Save(s)) == s <==> s.goal != 0.0
  {
    LoadSave(s);
  }

  /** A loaded state survives another save and load unchanged. */
  lemma LoadIsStable(slot: Slot)
    ensures Load(Save(Load(slot))) == Load(slot)
  {
    LoadSaveExactIff(Load(slot));
  }
}
