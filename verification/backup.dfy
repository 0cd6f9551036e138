/** The JSON backup of `App.tsx`: `handleDownloadBackup` writes the whole
    state, `handleImportBackup` restores it. The file text is abstracted to
    what `JSON.parse` yields. */
module Backup {
  import opened Wrappers
  import opened Types
  import opened EntryStore
  import opened Js

  /** The parsed backup object. `entries` is `None` when the field is absent,
      falsy or not an array; `goal` is `None` when absent. */
  datatype BackupDoc = BackupDoc(entries: Option<seq<FoodEntry>>, goal: Option<real>, exportDate: Option<string>)

  /** The picked file: none chosen, text the handler cannot read, or a parsed
      value. `Unparseable` is text that fails to parse and also the text
      `null`: reading `entries` of `null` throws, and both land in the same
      catch. Any other parsed value is a `BackupDoc`; a number, a string or
      an array has no `entries` array, so it is `BackupDoc(None, None, None)`. */
  datatype Picked = NoFile | Unparseable | Parsed(doc: BackupDoc)

  /** What the user is told: restored, the format alert, or nothing. */
  datatype Outcome = Restored | InvalidFormat | Silent

  datatype ImportResult = ImportResult(state: State, outcome: Outcome)

  /** `handleDownloadBackup`: the entries, the goal and the export date. */
  function ExportBackup(s: State, exportDate: string): (doc: BackupDoc)
    ensures doc.entries == Some(s.entries) && doc.goal == Some(s.goal)
  {
    BackupDoc(Some(s.entries), Some(s.goal), Some(exportDate))
  }

  /** `handleImportBackup`. An entries array replaces the entries wholesale
      and a truthy goal replaces the goal; a parse failure or a `null`
      document raises the format alert; anything else, including a missing entries array, does nothing
      and tells nothing. */
  function ImportBackup(s: State, file: Picked): (r: ImportResult)
    ensures r.outcome != Restored ==> r.state == s
    ensures r.outcome == Restored <==> file.Parsed? && file.doc.entries.Some?
    ensures r.outcome == InvalidFormat <==> file.Unparseable?
    ensures r.outcome == Restored ==> r.state.entries == file.doc.entries.value
    ensures r.outcome == Restored ==>
      r.state.goal == (if Truthy(file.doc.goal) then file.doc.goal.value else s.goal)
  {
    match file
    case NoFile => ImportResult(s, Silent)
    case Unparseable => ImportResult(s, InvalidFormat)
    case Parsed(doc) =>
      match doc.entries
      case None => ImportResult(s, Silent)
      case Some(items) =>
        var goal := if Truthy(doc.goal) then doc.goal.value else s.goal;
        ImportResult(State(items, goal), Restored)
  }

  /** Importing an exported backup of `saved` over any current state restores
      `saved`'s entries, and its goal unless that goal is 0, in which case
      the current goal stays. */
  lemma ImportExported(current: State, saved: State, exportDate: string)
    ensures var r := ImportBackup(current, Parsed(ExportBackup(saved, exportDate)));
      && r.outcome == Restored
      && r.state.entries == saved.entries
      && r.state.goal == (if saved.goal != 0.0 then saved.goal else current.goal)
  {
  }

  /** The backup round trip is exact unless the saved goal is 0 and differs
      from the current one. */
  lemma ImportExportedExactIff(current: State, saved: State, exportDate: string)
    ensures ImportBackup(current, Parsed(ExportBackup(saved, exportDate))).state == saved
        <==> saved.goal != 0.0 || current.goal == 0.0
  {
    ImportExported(current, saved, exportDate);
  }
}
