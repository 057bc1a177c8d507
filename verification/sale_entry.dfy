/** The checks a typed-in sale goes through before it is handed on, shared by the
    new-sale form and the in-place edit of the sales list. The texts are what the user
    typed; the numbers are what `parseInt` and `parseFloat` made of them. */
module SaleEntry {
  import opened Text

  /** The payload handed to `onSubmit` / `onUpdate`. */
  datatype SaleInput = SaleInput(productName: string, quantity: int, value: real)

  /** Why a submission was refused: a required field is blank ("Preencha todos os
      campos"), or the quantity or the value is not above zero. */
  datatype Rejection = MissingField | NotPositive

  datatype Checked = Accepted(input: SaleInput) | Rejected(reason: Rejection)

  /** `!name.trim() || !quantity || !value`: the name is blank or a number field is
      empty. The number fields are not trimmed. */
  predicate Missing(nameText: string, quantityText: string, valueText: string)
  {
    Trim(nameText) == "" || quantityText == "" || valueText == ""
  }

  /** Both checks in order, then the payload with the trimmed name. */
  function CheckSale(nameText: string, quantityText: string, valueText: string, quantity: int, value: real): (r: Checked)
    ensures r == Rejected(MissingField) <==> Missing(nameText, quantityText, valueText)
    ensures r == Rejected(NotPositive) <==> !Missing(nameText, quantityText, valueText) && (quantity <= 0 || value <= 0.0)
    ensures r.Accepted? ==> && r.input.productName == Trim(nameText)
                            && r.input.quantity == quantity && r.input.value == value
  {
    if Missing(nameText, quantityText, valueText) then Rejected(MissingField)
    else if quantity <= 0 || value <= 0.0 then Rejected(NotPositive)
    else Accepted(SaleInput(Trim(nameText), quantity, value))
  }

  /** What is accepted is a sale the rest of the system can rely on: a trimmed,
      non-blank name, at least one unit and a positive price. */
  lemma AcceptedIsSound(nameText: string, quantityText: string, valueText: string, quantity: int, value: real)
    ensures var r := CheckSale(nameText, quantityText, valueText, quantity, value);
            r.Accepted? ==> && r.input.productName != "" && IsTrimmed(r.input.productName)
                            && r.input.quantity >= 1 && r.input.value > 0.0
  {
    TrimEmptyIff(nameText);
  }

  /** A name made only of whitespace is refused whatever the numbers say. */
  lemma BlankNameRefused(nameText: string, quantityText: string, valueText: string, quantity: int, value: real)
    requires AllWhitespace(nameText)
    ensures CheckSale(nameText, quantityText, valueText, quantity, value) == Rejected(MissingField)
  {
    TrimEmptyIff(nameText);
  }
}
