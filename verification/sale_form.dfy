/** `SaleForm`: the new-sale form and its `handleSubmit`. */
module SaleForm {
  import opened Results
  import opened Text
  import opened SaleEntry

  /** The three text fields as typed. */
  datatype FormState = FormState(productName: string, quantity: string, value: string)

  const Blank := FormState("", "", "")

  /** What a submit leaves behind: the fields, the payloads handed to `onSubmit` (in
      call order) and the error toast shown, if any. */
  datatype Outcome = Outcome(form: FormState, submitted: seq<SaleInput>, rejection: Option<Rejection>)

  /** `handleSubmit`: a refused submission keeps the fields and calls nothing; an
      accepted one calls `onSubmit` once with the trimmed name and the parsed numbers,
      then clears every field. */
  function HandleSubmit(form: FormState, quantity: int, value: real): (r: Outcome)
    ensures |r.submitted| <= 1
    ensures |r.submitted| == 1 <==> r.rejection.None?
    ensures r.rejection == Some(MissingField) <==> Missing(form.productName, form.quantity, form.value)
    ensures r.rejection == Some(NotPositive) <==>
              !Missing(form.productName, form.quantity, form.value) && (quantity <= 0 || value <= 0.0)
    ensures r.rejection.Some? ==> r.form == form
    ensures r.rejection.None? ==> r.form == Blank && r.submitted[0] == SaleInput(Trim(form.productName), quantity, value)
  {
    match CheckSale(form.productName, form.quantity, form.value, quantity, value)
    case Rejected(why) => Outcome(form, [], Some(why))
    case Accepted(input) => Outcome(Blank, [input], None)
  }

  /** An accepted sale has a trimmed, non-blank name, at least one unit and a positive
      price. */
  lemma SubmittedIsSound(form: FormState, quantity: int, value: real)
    ensures forall s :: s in HandleSubmit(form, quantity, value).submitted ==>
              && s.productName != "" && IsTrimmed(s.productName)
              && s.quantity >= 1 && s.value > 0.0
  {
    AcceptedIsSound(form.productName, form.quantity, form.value, quantity, value);
  }

  /** Pressing submit again straight after an accepted sale is refused: the cleared
      form cannot be submitted twice. */
  lemma NoDoubleSubmit(form: FormState, quantity: int, value: real, quantity': int, value': real)
    requires HandleSubmit(form, quantity, value).rejection.None?
    ensures HandleSubmit(HandleSubmit(form, quantity, value).form, quantity', value').rejection == Some(MissingField)
  {
    assert Trim("") == "" by { TrimEmptyIff(""); }
  }

  /** A refused submission can be repeated with the same result: nothing moves. */
  lemma RefusalIsStable(form: FormState, quantity: int, value: real)
    requires HandleSubmit(form, quantity, value).rejection.Some?
    ensures HandleSubmit(HandleSubmit(form, quantity, value).form, quantity, value) == HandleSubmit(form, quantity, value)
  {
  }
}
