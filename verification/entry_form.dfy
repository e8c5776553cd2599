/**
 * The weight entry modal: its two text fields and loading flag, how they are
 * prefilled from the selected day's record, and the guards and outcomes of
 * its save and delete buttons.
 */
module EntryForm {
  import opened Optional
  import opened Dates
  import opened Records
  import Calendar

  /** The modal's state: the weight and memo texts and whether a request is in flight. */
  datatype Form = Form(weight: string, memo: string, loading: bool)

  /**
   * The prefill effect: with a record, the weight's text (`fmt` is
   * `Number#toString`) and the memo or ""; without one, both fields empty.
   * The loading flag is not touched.
   */
  function Prefill(form: Form, existing: Option<WeightRecord>, fmt: real -> string): (f: Form)
    ensures f.loading == form.loading
    ensures existing.None? ==> f.weight == "" && f.memo == ""
    ensures existing.Some? ==> f.weight == fmt(existing.value.weight)
    ensures existing.Some? && existing.value.memo.Some? ==> f.memo == existing.value.memo.value
    ensures existing.Some? && existing.value.memo.None? ==> f.memo == ""
  {
    match existing
    case None => Form("", "", form.loading)
    case Some(r) => Form(fmt(r.weight), if r.memo.Some? then r.memo.value else "", form.loading)
  }

  /** What `onSave` receives: the day, the parsed weight, and the memo or undefined. */
  datatype SaveCall = SaveCall(date: Date, weight: real, memo: Option<string>)

  /** How an awaited `onSave`/`onDelete` ends. */
  datatype Outcome = Resolved | Rejected

  /** What a button press did: the call it made, if any; whether the modal closed; the form afterwards. */
  datatype SaveEffect = SaveEffect(call: Option<SaveCall>, closed: bool, form: Form)
  datatype DeleteEffect = DeleteEffect(call: Option<Date>, closed: bool, form: Form)

  /** `memo || undefined`: an empty memo is sent as absent. */
  function MemoArgument(memo: string): (m: Option<string>)
    ensures m.None? <==> memo == ""
    ensures m.Some? ==> m.value == memo
  {
    if memo == "" then None else Some(memo)
  }

  /**
   * `handleSave`: without a day or with an empty weight it returns at once;
   * otherwise it calls `onSave` (`parse` is `parseFloat`), closes the modal
   * only when that call resolves, and clears the loading flag either way.
   */
  function HandleSave(form: Form, date: Option<Date>, parse: string -> real, outcome: Outcome): (e: SaveEffect)
    ensures e.call.None? <==> date.None? || form.weight == ""
    ensures e.call.None? ==> e.form == form && !e.closed
    ensures e.call.Some? ==> e.call.value == SaveCall(date.value, parse(form.weight), MemoArgument(form.memo))
    ensures e.call.Some? ==> e.form == Form(form.weight, form.memo, false)
    ensures e.closed <==> e.call.Some? && outcome.Resolved?
  {
    if date.None? || form.weight == "" then SaveEffect(None, false, form)
    else
      var call := SaveCall(date.value, parse(form.weight), MemoArgument(form.memo));
      SaveEffect(Some(call), outcome.Resolved?, Form(form.weight, form.memo, false))
  }

  /**
   * `handleDelete`: without a day or without an existing record it returns at
   * once; otherwise it calls `onDelete`, closes only when that resolves, and
   * clears the loading flag either way.
   */
  function HandleDelete(form: Form, date: Option<Date>, existing: Option<WeightRecord>, outcome: Outcome): (e: DeleteEffect)
    ensures e.call.None? <==> date.None? || existing.None?
    ensures e.call.None? ==> e.form == form && !e.closed
    ensures e.call.Some? ==> e.call.value == date.value && e.form == Form(form.weight, form.memo, false)
    ensures e.closed <==> e.call.Some? && outcome.Resolved?
  {
    if date.None? || existing.None? then DeleteEffect(None, false, form)
    else DeleteEffect(Some(date.value), outcome.Resolved?, Form(form.weight, form.memo, false))
  }

  /** The delete button is rendered only for a day that has a record. */
  predicate DeleteButtonShown(existing: Option<WeightRecord>)
  {
    existing.Some?
  }

  /** The save button: `disabled={isLoading || !weight}`. */
  predicate SaveEnabled(form: Form)
  {
    !form.loading && form.weight != ""
  }

  /** An enabled save button, pressed on a selected day, always reaches `onSave`. */
  lemma EnabledSaveCalls(form: Form, date: Date, parse: string -> real, outcome: Outcome)
    requires SaveEnabled(form)
    ensures HandleSave(form, Some(date), parse, outcome).call.Some?
  {
  }

  /** A shown delete button, pressed on a selected day, always reaches `onDelete`. */
  lemma ShownDeleteCalls(form: Form, date: Date, existing: Option<WeightRecord>, outcome: Outcome)
    requires DeleteButtonShown(existing)
    ensures HandleDelete(form, Some(date), existing, outcome).call == Some(date)
  {
  }

  /**
   * Saving a prefilled, untouched form sends the record back: its weight
   * (when `parseFloat` reads back what `toString` wrote) and its memo, a
   * missing or empty memo being sent as absent.
   */
  lemma PrefilledSaveSendsRecord(form: Form, r: WeightRecord, date: Date, fmt: real -> string, parse: string -> real, outcome: Outcome)
    requires fmt(r.weight) != "" && parse(fmt(r.weight)) == r.weight
    ensures var e := HandleSave(Prefill(form, Some(r), fmt), Some(date), parse, outcome);
      && e.call.Some?
      && e.call.value.weight == r.weight
      && (e.call.value.memo.Some? <==> r.memo.Some? && r.memo.value != "")
      && (e.call.value.memo.Some? ==> e.call.value.memo == r.memo)
  {
  }

  /** With no record, the prefilled form cannot be saved until a weight is typed, and offers no delete. */
  lemma BlankFormGuards(form: Form, date: Option<Date>, parse: string -> real, fmt: real -> string, outcome: Outcome)
    ensures var f := Prefill(form, None, fmt);
      && !SaveEnabled(f)
      && HandleSave(f, date, parse, outcome).call.None?
      && !DeleteButtonShown(None)
  {
  }

  /**
   * The modal wired to the calendar's save handler: the modal closes exactly
   * when the server accepted the record, and when it stays open the index is
   * as it was.
   */
  lemma SaveClosesOnlyOnSuccess(index: Calendar.Index, form: Form, date: Date, parse: string -> real, reply: Calendar.SaveReply)
    requires form.weight != ""
    ensures var t := Calendar.Save(index, date, reply);
      var e := HandleSave(form, Some(date), parse, if t.rethrows then Rejected else Resolved);
      && (e.closed <==> reply.SaveAccepted?)
      && (!e.closed ==> t.index == index)
      && !e.form.loading
  {
  }

  /** The same for delete: the modal closes exactly when the day was removed from the index. */
  lemma DeleteClosesOnlyOnSuccess(index: Calendar.Index, form: Form, date: Date, reply: Calendar.DeleteReply)
    requires date in index
    ensures var existing := Calendar.Select(index, date);
      var t := Calendar.Delete(index, date, reply);
      var e := HandleDelete(form, Some(date), existing, if t.rethrows then Rejected else Resolved);
      && (e.closed <==> date !in t.index)
      && (!e.closed ==> t.index == index)
  {
  }
}
