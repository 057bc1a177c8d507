/** `SalesList`: the in-place edit of a listed sale and the confirmed delete. */
module SalesList {
  import opened Results
  import opened Text
  import opened SaleRecords
  import opened SaleEntry
  import SaleForm

  datatype EditForm = EditForm(productName: string, quantity: string, value: string)

  const Cleared := EditForm("", "", "")

  /** `editingId` (null when no row is being edited) and `editForm`. */
  datatype ListState = ListState(editingId: Option<string>, form: EditForm)

  const Initial := ListState(None, Cleared)

  /** `startEdit(sale)`: the row's id becomes the one being edited, and the form gets
      its name, its quantity in decimal, and `valueText`, the text `valor.toString()`
      gives (number formatting is outside the model). */
  function StartEdit(st: ListState, sale: Sale, valueText: string): (r: ListState)
    ensures r.editingId == Some(sale.id)
    ensures r.form.productName == sale.productName && r.form.value == valueText
    ensures r.form.quantity != "" && DecimalValue(r.form.quantity) == sale.quantity
  {
    ListState(Some(sale.id), EditForm(sale.productName, IntToString(sale.quantity), valueText))
  }

  /** `cancelEdit`: nothing is being edited and the form is empty. */
  function CancelEdit(st: ListState): (r: ListState)
    ensures r.editingId.None? && r.form == Cleared
  {
    Initial
  }

  /** What a save leaves behind: the state, the `onUpdate` calls made (in order) and
      the error toast shown, if any. */
  datatype SaveOutcome = SaveOutcome(state: ListState, updates: seq<(string, SaleInput)>, rejection: Option<Rejection>)

  /** `saveEdit(id)`: the same checks as a new sale. A refused save changes nothing
      and stays in edit mode; an accepted one calls `onUpdate` once for `id` and leaves
      edit mode, keeping the form's texts. */
  function SaveEdit(st: ListState, id: string, quantity: int, value: real): (r: SaveOutcome)
    ensures |r.updates| <= 1
    ensures |r.updates| == 1 <==> r.rejection.None?
    ensures r.rejection.Some? ==> r.state == st
    ensures r.rejection.None? ==>
              && r.state == st.(editingId := None)
              && r.updates[0] == (id, SaleInput(Trim(st.form.productName), quantity, value))
  {
    match CheckSale(st.form.productName, st.form.quantity, st.form.value, quantity, value)
    case Rejected(why) => SaveOutcome(st, [], Some(why))
    case Accepted(input) => SaveOutcome(st.(editingId := None), [(id, input)], None)
  }

  /** Editing follows the same rules as entering a new sale: the same texts and numbers
      are refused for the same reason, or accepted with the same payload. */
  lemma SameRulesAsNewSale(st: ListState, id: string, quantity: int, value: real)
    ensures var form := SaleForm.FormState(st.form.productName, st.form.quantity, st.form.value);
            var saved := SaveEdit(st, id, quantity, value);
            var submitted := SaleForm.HandleSubmit(form, quantity, value);
            && saved.rejection == submitted.rejection
            && (saved.rejection.None? ==> saved.updates[0].1 == submitted.submitted[0])
  {
  }

  /** Opening a well-formed sale for edit and saving it untouched (the quantity read
      back from its decimal text, the price as it was) is accepted whenever its name is
      not blank, and writes the trimmed name. */
  lemma ResaveUnchanged(st: ListState, sale: Sale, valueText: string)
    requires WellFormed(sale) && !AllWhitespace(sale.productName) && valueText != ""
    ensures var editing := StartEdit(st, sale, valueText);
            var saved := SaveEdit(editing, sale.id, DecimalValue(editing.form.quantity), sale.value);
            && saved.rejection.None?
            && saved.updates == [(sale.id, SaleInput(Trim(sale.productName), sale.quantity, sale.value))]
            && saved.state.editingId.None?
  {
    TrimEmptyIff(sale.productName);
  }

  /** `handleDelete(id)`: `onDelete` is called with the id only when the user confirms. */
  function HandleDelete(id: string, confirmed: bool): (deleted: seq<string>)
    ensures |deleted| <= 1
    ensures confirmed <==> deleted == [id]
    ensures !confirmed <==> deleted == []
  {
    if confirmed then [id] else []
  }
}
