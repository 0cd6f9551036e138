/** The form handlers of `App.tsx` that feed the entry store: the manual
    entry form and the AI "smart log", plus whole sessions of store actions. */
module Session {
  import opened Wrappers
  import opened Types
  import opened EntryStore

  /** The manual form's fields. Its category comes from a select whose
      options are the enumeration's values, so it is a `FoodCategory`. */
  datatype ManualForm = ManualForm(
    foodItem: string,
    category: FoodCategory,
    servingSize: real,
    unit: string,
    caloriesPerUnit: real)

  /** The form's initial and post-submit contents. */
  const BlankForm: ManualForm := ManualForm("", Other, 1.0, "serving", 0.0)

  /** What the form hands to `addEntry`. */
  function FormDraft(f: ManualForm): (d: Draft)
    ensures d.foodItem == f.foodItem && d.unit == f.unit
    ensures d.servingSize == f.servingSize && d.caloriesPerUnit == f.caloriesPerUnit
    ensures ParseCategory(d.category) == Some(f.category)
  {
    ParseCategoryName(f.category);
    Draft(f.foodItem, CategoryName(f.category), f.servingSize, f.unit, f.caloriesPerUnit)
  }

  /** The UI state the handlers read and write. */
  datatype Ui = Ui(store: State, form: ManualForm, smartInput: string)

  /** `handleManualAdd`: an empty food name is ignored; otherwise the form is
      added as one entry and reset to `BlankForm`. */
  function HandleManualAdd(u: Ui, id: string, timestamp: int): (r: Ui)
    ensures u.form.foodItem == "" ==> r == u
    ensures u.form.foodItem != "" ==>
      && r.store == AddEntry(u.store, FormDraft(u.form), id, timestamp)
      && r.form == BlankForm
      && r.smartInput == u.smartInput
  {
    if u.form.foodItem == "" then u
    else Ui(AddEntry(u.store, FormDraft(u.form), id, timestamp), BlankForm, u.smartInput)
  }

  /** A manual add changes the entry count by one exactly when the name is
      non-empty, and the entry it adds carries an enumeration category. */
  lemma ManualAddEffect(u: Ui, id: string, timestamp: int)
    ensures var r := HandleManualAdd(u, id, timestamp);
      |r.store.entries| == |u.store.entries| + (if u.form.foodItem == "" then 0 else 1)
    ensures u.form.foodItem != "" ==>
      var e := HandleManualAdd(u, id, timestamp).store.entries[0];
      && e.foodItem == u.form.foodItem
      && IsCategoryName(e.category)
      && e.id == id
  {
  }

  /** The characters JavaScript's `String.prototype.trim` strips: the
      ECMAScript WhiteSpace and LineTerminator code points. */
  predicate IsJsWhitespace(c: char) {
    || c == '\U{9}' || c == '\U{A}' || c == '\U{B}' || c == '\U{C}' || c == '\U{D}'
    || c == ' ' || c == '\U{A0}' || c == '\U{1680}'
    || ('\U{2000}' <= c <= '\U{200A}')
    || c == '\U{2028}' || c == '\U{2029}' || c == '\U{202F}' || c == '\U{205F}'
    || c == '\U{3000}' || c == '\U{FEFF}'
  }

  /** `!s.trim()`: the text is empty once trimmed. */
  predicate IsBlank(s: string) {
    forall i :: 0 <= i < |s| ==> IsJsWhitespace(s[i])
  }

  /** `handleSmartAdd` up to its `await`: a blank input is ignored, and
      otherwise the input text is what the estimator is asked about. */
  function SmartSubmit(u: Ui): (prompt: Option<string>)
    ensures prompt.None? <==> IsBlank(u.smartInput)
    ensures prompt.Some? ==> prompt.value == u.smartInput
  {
    if IsBlank(u.smartInput) then None else Some(u.smartInput)
  }

  /** `handleSmartAdd` after its `await`, applied to the UI as it is when the
      estimate arrives. `estimate` is a draft of any shape, or `None` when
      the call fails. A failure changes no state; a draft is prepended onto
      the store of that moment and the input of that moment is cleared,
      blank or not: nothing is tested after the `await`. */
  function SmartResolve(now: Ui, estimate: Option<Draft>, id: string, timestamp: int): (r: Ui)
    ensures estimate.None? ==> r == now
    ensures estimate.Some? ==>
      && r.store == AddEntry(now.store, estimate.value, id, timestamp)
      && r.smartInput == ""
      && r.form == now.form
  {
    match estimate
    case None => now
    case Some(d) => Ui(AddEntry(now.store, d, id, timestamp), now.form, "")
  }

  /** `handleSmartAdd` when nothing else happens while the estimate is
      pending: both halves see the same UI. */
  function HandleSmartAdd(u: Ui, estimate: Option<Draft>, id: string, timestamp: int): (r: Ui)
    ensures IsBlank(u.smartInput) || estimate.None? ==> r == u
    ensures !IsBlank(u.smartInput) && estimate.Some? ==>
      && r.store == AddEntry(u.store, estimate.value, id, timestamp)
      && r.smartInput == ""
      && r.form == u.form
  {
    if SmartSubmit(u).None? then u else SmartResolve(u, estimate, id, timestamp)
  }

  /** While an estimate is pending the textarea, the manual form and the
      store stay live. Whatever store actions run meanwhile are all kept:
      the estimate lands on top of them, the daily total grows by its
      rounded calories on top of theirs, the form is left as it then is,
      and whatever text was typed meanwhile is cleared. */
  lemma SmartAddAcrossPendingEdits(
    u: Ui, actions: seq<Action>, form: ManualForm, typed: string, d: Draft, id: string, timestamp: int)
    requires SmartSubmit(u).Some?
    ensures var later := Run(u.store, actions);
      var r := SmartResolve(Ui(later, form, typed), Some(d), id, timestamp);
      && r.store.entries == [NewEntry(d, id, timestamp)] + later.entries
      && r.store.goal == later.goal
      && DailyTotal(r.store.entries) == DailyTotal(later.entries) + DraftCalories(d)
      && r.form == form
      && r.smartInput == ""
  {
    var later := Run(u.store, actions);
    var r := SmartResolve(Ui(later, form, typed), Some(d), id, timestamp);
    assert r.store.entries == [r.store.entries[0]] + r.store.entries[1..];
    DailyTotalAfterAdd(later, d, id, timestamp);
  }

  /** A smart add may store a category outside the enumeration: nothing
      checks the estimator's answer. */
  lemma SmartAddKeepsAnyCategory(u: Ui, d: Draft, id: string, timestamp: int)
    requires !IsBlank(u.smartInput)
    ensures HandleSmartAdd(u, Some(d), id, timestamp).store.entries[0].category == d.category
  {
  }

  /** The store-level actions a session performs. */
  datatype Action =
    | Add(draft: Draft, id: string, timestamp: int)
    | Remove(id: string)
    | ChangeGoal(goal: real)

  function Step(s: State, a: Action): State {
    match a
    case Add(d, id, ts) => AddEntry(s, d, id, ts)
    case Remove(id) => RemoveEntry(s, id)
    case ChangeGoal(g) => SetGoal(s, g)
  }

  /** Applies the actions in order. */
  function Run(s: State, actions: seq<Action>): State
    decreases |actions|
  {
    if |actions| == 0 then s else Run(Step(s, actions[0]), actions[1..])
  }

  /** No session of adds, removes and goal changes can store an entry whose
      total disagrees with its rounded serving-times-rate product. */
  lemma {:induction false} RunPreservesTotals(s: State, actions: seq<Action>)
    requires TotalsConsistent(s.entries)
    ensures TotalsConsistent(Run(s, actions).entries)
    decreases |actions|
  {
    if |actions| > 0 {
      match actions[0] {
        case Add(d, id, ts) => StoreOperationsPreserveTotals(s, d, id, ts, id);
        case Remove(id) => StoreOperationsPreserveTotals(s, Draft("", "", 0.0, "", 0.0), "", 0, id);
        case ChangeGoal(g) =>
      }
      RunPreservesTotals(Step(s, actions[0]), actions[1..]);
    }
  }

  /** The calories a run of adds contributes. */
  function AddedCalories(actions: seq<Action>): int
    decreases |actions|
  {
    if |actions| == 0 then 0
    else (if actions[0].Add? then DraftCalories(actions[0].draft) else 0) + AddedCalories(actions[1..])
  }

  /** After any sequence of adds the daily total is the old total plus each
      added draft's rounded calories. */
  lemma {:induction false} RunOfAddsTotal(s: State, actions: seq<Action>)
    requires forall i :: 0 <= i < |actions| ==> actions[i].Add?
    ensures DailyTotal(Run(s, actions).entries) == DailyTotal(s.entries) + AddedCalories(actions)
    decreases |actions|
  {
    if |actions| > 0 {
      var a := actions[0];
      DailyTotalAfterAdd(s, a.draft, a.id, a.timestamp);
      RunOfAddsTotal(Step(s, a), actions[1..]);
    }
  }
}
