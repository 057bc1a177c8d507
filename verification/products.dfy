/** `Products`: the new-product form, the in-place product edit and the name search.
    The store calls (`addProduct`, `updateProduct`) are outside the model; what they
    report back, success or not, is an input. */
module Products {
  import opened Seqs
  import opened Results
  import opened Text

  datatype Product = Product(id: string, name: string, price: real, stock: int, barcode: Option<string>)

  /** The payload of `addProduct` / `updateProduct`. */
  datatype ProductInput = ProductInput(name: string, price: real, stock: int, barcode: Option<string>)

  /** The four text fields of a form. */
  datatype ProductForm = ProductForm(name: string, price: string, stock: string, barcode: string)

  const Blank := ProductForm("", "", "", "")

  /** `codigoBarras.trim() || null`: the trimmed barcode, or none when that is empty. */
  function BarcodeOf(text: string): (r: Option<string>)
    ensures r.None? <==> AllWhitespace(text)
    ensures r.Some? ==> r.value != "" && IsTrimmed(r.value) && SplitAt(text, TrimOffset(text), r.value)
  {
    TrimEmptyIff(text);
    if Trim(text) == "" then None else Some(Trim(text))
  }

  /** What a submit leaves behind: the fields, the payloads handed to the store, and
      whether the "Preencha nome e preço" toast was shown. */
  datatype SubmitOutcome = SubmitOutcome(form: ProductForm, submitted: seq<ProductInput>, refused: bool)

  /** `!nome.trim() || !preco`: the name is blank or the price field is empty. */
  predicate Incomplete(form: ProductForm)
  {
    Trim(form.name) == "" || form.price == ""
  }

  /** `handleSubmit`: refused when the trimmed name or the price field is empty.
      Otherwise one product goes to the store with the trimmed name, the parsed price,
      the parsed stock or 0 for an empty stock field, and the trimmed barcode or none;
      the fields are cleared only if the store reports success (`added`). */
  function HandleSubmit(form: ProductForm, price: real, stock: int, added: bool): (r: SubmitOutcome)
    ensures r.refused <==> Incomplete(form)
    ensures r.refused ==> r.submitted == [] && r.form == form
    ensures !r.refused ==> |r.submitted| == 1 && r.submitted[0] == Submitted(form, price, stock)
    ensures !r.refused && added ==> r.form == Blank
    ensures !r.refused && !added ==> r.form == form
  {
    if Incomplete(form) then
      SubmitOutcome(form, [], true)
    else
      SubmitOutcome(if added then Blank else form, [Submitted(form, price, stock)], false)
  }

  /** The product a non-refused form sends: the trimmed name, the parsed price, the
      parsed stock or 0 for an empty stock field, and the trimmed barcode or none. */
  function Submitted(form: ProductForm, price: real, stock: int): (p: ProductInput)
    ensures p.name == Trim(form.name) && p.price == price
    ensures form.stock == "" ==> p.stock == 0
    ensures form.stock != "" ==> p.stock == stock
    ensures p.barcode.None? <==> AllWhitespace(form.barcode)
  {
    ProductInput(Trim(form.name), price, if form.stock == "" then 0 else stock, BarcodeOf(form.barcode))
  }

  /** The form is refused exactly when the name is all whitespace or the price field
      is empty, and what it sends has a trimmed, non-blank name. */
  lemma SubmitRules(form: ProductForm, price: real, stock: int, added: bool)
    ensures var r := HandleSubmit(form, price, stock, added);
            && (r.refused <==> AllWhitespace(form.name) || form.price == "")
            && (!r.refused ==> r.submitted[0].name != "" && IsTrimmed(r.submitted[0].name))
  {
    TrimEmptyIff(form.name);
  }

  /** A blank stock field registers no stock, whatever the parse gave. */
  lemma BlankStockIsZero(form: ProductForm, price: real, stock: int, added: bool)
    requires form.stock == "" && !HandleSubmit(form, price, stock, added).refused
    ensures HandleSubmit(form, price, stock, added).submitted[0].stock == 0
  {
  }

  /** `editingId` and the four edit fields. */
  datatype EditState = EditState(editingId: Option<string>, form: ProductForm)

  /** `startEdit(p)`: the product's id becomes the one being edited; the fields get its
      name, `priceText` (what `String(preco)` gives; number formatting is outside the
      model), its stock in decimal, and its barcode or the empty text for none. */
  function StartEdit(st: EditState, p: Product, priceText: string): (r: EditState)
    ensures r.editingId == Some(p.id)
    ensures r.form.name == p.name && r.form.price == priceText
    ensures DecimalValue(r.form.stock) == p.stock
    ensures p.barcode.None? ==> r.form.barcode == ""
    ensures p.barcode.Some? ==> r.form.barcode == p.barcode.value
  {
    var barcode := match p.barcode case Some(b) => b case None => "";
    EditState(Some(p.id), ProductForm(p.name, priceText, IntToString(p.stock), barcode))
  }

  /** Leaving edit mode without saving. */
  function CancelEdit(st: EditState): (r: EditState)
    ensures r.editingId.None? && r.form == st.form
  {
    st.(editingId := None)
  }

  /** What a save leaves behind: the state and the `updateProduct` calls made. */
  datatype SaveOutcome = SaveOutcome(state: EditState, updates: seq<(string, ProductInput)>)

  /** `!editingId` is false: an id is set and it is not the empty text. */
  predicate Editing(st: EditState)
  {
    st.editingId.Some? && st.editingId.value != ""
  }

  /** `saveEdit`: with no id, or the empty one, nothing happens. Otherwise the edited
      product is sent with the trimmed name, the parsed price and stock and the trimmed
      barcode or none, without any check; edit mode ends only if the store reports
      success (`updated`). */
  function SaveEdit(st: EditState, price: real, stock: int, updated: bool): (r: SaveOutcome)
    ensures !Editing(st) ==> r.state == st && r.updates == []
    ensures Editing(st) ==>
              && r.updates == [(st.editingId.value, ProductInput(Trim(st.form.name), price, stock, BarcodeOf(st.form.barcode)))]
              && r.state.form == st.form
              && (r.state.editingId.None? <==> updated)
              && (!updated ==> r.state == st)
  {
    match st.editingId
    case None => SaveOutcome(st, [])
    case Some(id) =>
      if id == "" then SaveOutcome(st, [])
      else
        var input := ProductInput(Trim(st.form.name), price, stock, BarcodeOf(st.form.barcode));
        SaveOutcome(if updated then st.(editingId := None) else st, [(id, input)])
  }

  /** A product whose id is the empty text can be opened for edit but never saved:
      the save sends nothing and the form stays open. */
  lemma EmptyIdNeverSaved(st: EditState, p: Product, priceText: string, price: real, stock: int, updated: bool)
    requires p.id == ""
    ensures var editing := StartEdit(st, p, priceText);
            var r := SaveEdit(editing, price, stock, updated);
            r.updates == [] && r.state == editing && r.state.editingId == Some("")
  {
  }

  /** Unlike the product form, the edit sends a blank name or a non-positive price
      as it is. */
  lemma EditDoesNotValidate(st: EditState, price: real, stock: int, updated: bool)
    requires Editing(st) && AllWhitespace(st.form.name) && price <= 0.0
    ensures var r := SaveEdit(st, price, stock, updated);
            |r.updates| == 1 && r.updates[0].1.name == "" && r.updates[0].1.price == price
  {
    TrimEmptyIff(st.form.name);
  }

  predicate Matches(p: Product, search: string)
  {
    Contains(Lower(p.name), Lower(search))
  }

  /** The list shown: the products whose lower-cased name contains the lower-cased
      search, in their order. */
  function Filter(products: seq<Product>, search: string): (r: seq<Product>)
    ensures |r| <= |products|
    ensures forall p :: p in r <==> p in products && Matches(p, search)
    ensures forall p :: multiset(r)[p] == if Matches(p, search) then multiset(products)[p] else 0
    ensures SubsequenceOf(r, products)
  {
    KeepCounts(products, (p: Product) => Matches(p, search));
    Keep(products, (p: Product) => Matches(p, search))
  }

  /** Every text contains the empty text. */
  lemma ContainsEmpty(hay: string)
    ensures Contains(hay, "")
  {
    assert OccursAt(hay, "", 0);
  }

  /** An empty search shows every product, in order. */
  lemma EmptySearchKeepsAll(products: seq<Product>)
    ensures Filter(products, "") == products
  {
    assert Lower("") == "";
    forall p | p in products ensures Matches(p, "") {
      ContainsEmpty(Lower(p.name));
    }
    KeepAll(products, (p: Product) => Matches(p, ""));
  }

  /** The search ignores case: searching the lower-cased text finds the same products. */
  lemma SearchIgnoresCase(products: seq<Product>, search: string)
    ensures Filter(products, Lower(search)) == Filter(products, search)
  {
    LowerIdempotent(search);
    KeepAgree(products, (p: Product) => Matches(p, Lower(search)), (p: Product) => Matches(p, search));
  }

  /** A product is always found by its own name. */
  lemma FoundByOwnName(products: seq<Product>, p: Product)
    requires p in products
    ensures p in Filter(products, p.name)
  {
    assert OccursAt(Lower(p.name), Lower(p.name), 0);
  }
}
