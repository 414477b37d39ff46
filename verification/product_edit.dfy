/** The admin product edit form: loading a product into the form, the size,
    colour and image lists, the submit check and the update request it sends. */
module ProductEdit {
  import opened Common
  import opened Text
  import Seqs
  import Numbers
  import Catalog
  import Uploads

  /** The price field: the number loaded from the product, or the text typed
      since. */
  datatype PriceField = Loaded(amount: int) | Typed(text: string)

  /** `!formData.price`: 0 and "" are falsy; any other text, "0" included, is
      truthy. */
  predicate PriceTruthy(p: PriceField) {
    match p
    case Loaded(n) => n != 0
    case Typed(s) => s != ""
  }

  datatype Form = Form(name: string, brand: string, category: string, description: string, price: PriceField)

  /** The whole page state: the form, the three lists and the draft inputs. */
  datatype Editor = Editor(
    form: Form,
    sizes: seq<Catalog.SizeInput>,
    sizeDraft: string,
    stockDraft: string,
    colors: seq<Catalog.Color>,
    colorNameDraft: string,
    colorHexDraft: string,
    images: seq<string>)

  const DefaultHex := "#000000"

  /** The state before the product arrives. */
  const InitialEditor := Editor(Form("", "", "Men", "", Typed("")), [], "", "", [], "", DefaultHex, [])

  function StoredSize(s: Catalog.SizeStock): Catalog.SizeInput {
    Catalog.SizeInput(s.size, Catalog.Num(s.countInStock))
  }

  /** The count `parseInt` read, as the request carries it: NaN becomes `null`. */
  function CountOf(n: Option<int>): (c: Catalog.Count)
    ensures c.Null? <==> n.None?
    ensures n.Some? ==> c == Catalog.Num(n.value)
  {
    if n.Some? then Catalog.Num(n.value) else Catalog.Null
  }

  /** Filling the form from the fetched product; the drafts keep their values. */
  function Load(e: Editor, p: Catalog.Product): (r: Editor)
    ensures r.form == Form(p.name, p.brand, Catalog.CategoryName(p.category), p.description, Loaded(p.price))
    ensures |r.sizes| == |p.sizes|
    ensures forall i :: 0 <= i < |p.sizes| ==> r.sizes[i] == StoredSize(p.sizes[i])
    ensures r.colors == p.colors && r.images == p.images
  {
    e.(form := Form(p.name, p.brand, Catalog.CategoryName(p.category), p.description, Loaded(p.price)),
       sizes := seq(|p.sizes|, i requires 0 <= i < |p.sizes| => StoredSize(p.sizes[i])),
       colors := p.colors,
       images := p.images)
  }

  /** `handleAddSize`: with both drafts non-blank, appends the size with its
      count read by `parseInt` (NaN, sent as `null`, when no digit leads) and
      clears both drafts; otherwise nothing changes. */
  function AddSize(e: Editor): (r: Editor)
    ensures IsBlank(e.sizeDraft) || IsBlank(e.stockDraft) ==> r == e
    ensures !IsBlank(e.sizeDraft) && !IsBlank(e.stockDraft) ==>
      && r.sizes == e.sizes + [Catalog.SizeInput(e.sizeDraft, CountOf(Numbers.ParseInt(e.stockDraft)))]
      && r.sizeDraft == "" && r.stockDraft == ""
      && r.colors == e.colors && r.images == e.images && r.form == e.form
  {
    if !IsBlank(e.sizeDraft) && !IsBlank(e.stockDraft) then
      e.(sizes := e.sizes + [Catalog.SizeInput(e.sizeDraft, CountOf(Numbers.ParseInt(e.stockDraft)))],
         sizeDraft := "", stockDraft := "")
    else e
  }

  /** A count typed as digits is stored as that number. */
  lemma AddSizeReadsCount(e: Editor, n: nat)
    requires !IsBlank(e.sizeDraft) && e.stockDraft == Numbers.ShowNat(n)
    ensures AddSize(e).sizes[|e.sizes|] == Catalog.SizeInput(e.sizeDraft, Catalog.Num(n))
  {
    assert Numbers.ShowNat(n) + "" == Numbers.ShowNat(n);
    Numbers.ParseIntShow(n, "");
    assert e.stockDraft[0] == Numbers.ShowNat(n)[0];
    BlankIffAllSpace(e.stockDraft);
  }

  /** A count with no digit at all, such as ".5" which the number input
      accepts, is NaN: the size is kept in the list with a `null` count. */
  lemma AddSizeNaNCount(e: Editor)
    requires !IsBlank(e.sizeDraft) && !IsBlank(e.stockDraft)
    requires forall i :: 0 <= i < |e.stockDraft| ==> !IsDigit(e.stockDraft[i])
    ensures AddSize(e).sizes[|e.sizes|] == Catalog.SizeInput(e.sizeDraft, Catalog.Null)
  {
    Numbers.ParseIntNaN(e.stockDraft);
  }

  /** `handleAddColor`: with both drafts non-blank, appends the colour and
      resets the name to "" and the hex to black. */
  function AddColor(e: Editor): (r: Editor)
    ensures IsBlank(e.colorNameDraft) || IsBlank(e.colorHexDraft) ==> r == e
    ensures !IsBlank(e.colorNameDraft) && !IsBlank(e.colorHexDraft) ==>
      && r.colors == e.colors + [Catalog.Color(e.colorNameDraft, e.colorHexDraft)]
      && r.colorNameDraft == "" && r.colorHexDraft == DefaultHex
      && r.sizes == e.sizes && r.images == e.images && r.form == e.form
  {
    if !IsBlank(e.colorNameDraft) && !IsBlank(e.colorHexDraft) then
      e.(colors := e.colors + [Catalog.Color(e.colorNameDraft, e.colorHexDraft)],
         colorNameDraft := "", colorHexDraft := DefaultHex)
    else e
  }

  /** The remove buttons: `list.filter((_, i) => i !== index)`. */
  function RemoveSize(e: Editor, index: int): (r: Editor)
    ensures 0 <= index < |e.sizes| ==> r.sizes == e.sizes[..index] + e.sizes[index + 1..]
    ensures !(0 <= index < |e.sizes|) ==> r.sizes == e.sizes
    ensures r.colors == e.colors && r.images == e.images
  {
    e.(sizes := Seqs.RemoveAt(e.sizes, index))
  }

  function RemoveColor(e: Editor, index: int): (r: Editor)
    ensures 0 <= index < |e.colors| ==> r.colors == e.colors[..index] + e.colors[index + 1..]
    ensures !(0 <= index < |e.colors|) ==> r.colors == e.colors
    ensures r.sizes == e.sizes && r.images == e.images
  {
    e.(colors := Seqs.RemoveAt(e.colors, index))
  }

  function RemoveImage(e: Editor, index: int): (r: Editor)
    ensures 0 <= index < |e.images| ==> r.images == e.images[..index] + e.images[index + 1..]
    ensures !(0 <= index < |e.images|) ==> r.images == e.images
    ensures r.sizes == e.sizes && r.colors == e.colors
  {
    e.(images := Seqs.RemoveAt(e.images, index))
  }

  /** Adding a colour and removing it again restores the list. */
  lemma AddThenRemoveColor(e: Editor)
    requires !IsBlank(e.colorNameDraft) && !IsBlank(e.colorHexDraft)
    ensures RemoveColor(AddColor(e), |e.colors|).colors == e.colors
  {
    assert (e.colors + [Catalog.Color(e.colorNameDraft, e.colorHexDraft)])[..|e.colors|] == e.colors;
  }

  /** An upload that succeeds appends the returned paths after the current
      images; a failed one changes nothing. */
  function Uploaded(e: Editor, paths: Option<seq<string>>): (r: Editor)
    ensures paths.None? ==> r == e
    ensures paths.Some? ==> r.images == e.images + paths.value && r.images[..|e.images|] == e.images
  {
    if paths.Some? then e.(images := e.images + paths.value) else e
  }

  /** Against the upload route: a request of at most five accepted files
      appends one public path per file, in order, after the current images;
      any other request leaves the page as it was. */
  lemma UploadThenImages(e: Editor, files: seq<Uploads.UploadFile>)
    ensures |files| <= Uploads.MaxFiles && Uploads.AllAccepted(files) ==>
      var images := Uploaded(e, Uploads.UploadRequest(files)).images;
      && |images| == |e.images| + |files|
      && images[..|e.images|] == e.images
      && forall i :: 0 <= i < |files| ==> images[|e.images| + i] == Uploads.UploadPath(files[i].path)
    ensures !(|files| <= Uploads.MaxFiles && Uploads.AllAccepted(files)) ==>
      Uploaded(e, Uploads.UploadRequest(files)) == e
  {
  }

  /** The submit guard: every form field truthy and at least one size, colour
      and image. */
  predicate CanSubmit(e: Editor) {
    && e.form.name != "" && e.form.brand != "" && e.form.category != "" && e.form.description != ""
    && PriceTruthy(e.form.price)
    && |e.sizes| > 0 && |e.colors| > 0 && |e.images| > 0
  }

  /** `parseFloat(formData.price)`: a loaded number is itself; typed text is
      read by `parseFloat`, a parameter here, None for NaN (sent as null). */
  function PriceSent(p: PriceField, parseFloat: string -> Option<int>): Option<int> {
    match p
    case Loaded(n) => Some(n)
    case Typed(s) => parseFloat(s)
  }

  /** The update request: the form with the parsed price and the three
      lists. Nothing is sent when the guard fails. */
  function Payload(e: Editor, parseFloat: string -> Option<int>): (r: Option<Catalog.ProductInput>)
    ensures r.Some? <==> CanSubmit(e)
    ensures r.Some? ==>
      && r.value.name == e.form.name && r.value.brand == e.form.brand
      && r.value.category == e.form.category && r.value.description == e.form.description
      && r.value.price == PriceSent(e.form.price, parseFloat)
      && r.value.sizes == Some(e.sizes) && r.value.colors == Some(e.colors) && r.value.images == Some(e.images)
  {
    if CanSubmit(e) then
      Some(Catalog.ProductInput(e.form.name, e.form.brand, e.form.category, e.form.description,
                                PriceSent(e.form.price, parseFloat),
                                Some(e.images), Some(e.sizes), Some(e.colors)))
    else None
  }

  /** Against the product route: a size whose count was NaN makes the server
      refuse the edit; on a consistent store any other edit of a stored
      product with a known category and non-empty list entries is accepted,
      and an accepted edit stores what the form held. Because the guard
      demands truthy fields and non-empty lists, every field is overwritten;
      only a price that reads as 0 or NaN keeps the stored price. */
  lemma SubmittedEditIsStored(store: Catalog.ProductStore, id: Catalog.ProductId, e: Editor,
                              parseFloat: string -> Option<int>)
    requires CanSubmit(e)
    ensures var reply := Catalog.UpdateProduct(store, id, Payload(e, parseFloat).value);
            (exists i :: 0 <= i < |e.sizes| && e.sizes[i].countInStock.Null?) ==>
              reply.response.Error? && reply.store == store
    ensures Catalog.StoreInvariant(store) ==>
            (Catalog.UpdateProduct(store, id, Payload(e, parseFloat).value).response.Ok? <==>
              && id in store && Catalog.ParseCategory(e.form.category).Some?
              && (forall i :: 0 <= i < |e.images| ==> e.images[i] != "")
              && (forall i :: 0 <= i < |e.sizes| ==> e.sizes[i].size != "" && !e.sizes[i].countInStock.Null?)
              && (forall i :: 0 <= i < |e.colors| ==> e.colors[i].name != "" && e.colors[i].hex != ""))
    ensures var reply := Catalog.UpdateProduct(store, id, Payload(e, parseFloat).value);
            reply.response.Ok? ==>
              var p := reply.store[id];
              && p.name == e.form.name && p.brand == e.form.brand && p.description == e.form.description
              && Catalog.CategoryName(p.category) == e.form.category
              && p.images == e.images && p.colors == e.colors
              && p.sizes == Catalog.SizesWithDefaults(e.sizes)
              && p.price == Catalog.PriceOr(PriceSent(e.form.price, parseFloat), store[id].price)
  {
    if Catalog.StoreInvariant(store) {
      Catalog.UpdateSucceedsIff(store, id, Payload(e, parseFloat).value);
    }
  }

  /** Loading a stored product and saving it straight away leaves it as it
      was, when it has a size, a colour, an image and a non-zero price. */
  lemma LoadThenSubmitKeepsProduct(store: Catalog.ProductStore, id: Catalog.ProductId, e: Editor,
                                   parseFloat: string -> Option<int>)
    requires Catalog.StoreInvariant(store) && id in store
    requires var p := store[id]; |p.sizes| > 0 && |p.colors| > 0 && |p.images| > 0 && p.price != 0
    ensures CanSubmit(Load(e, store[id]))
    ensures Catalog.UpdateProduct(store, id, Payload(Load(e, store[id]), parseFloat).value) == Reply(store, Ok(200, store[id]))
  {
    var p := store[id];
    var l := Load(e, p);
    var input := Payload(l, parseFloat).value;
    Catalog.CategoryRoundTrip(p.category, "");
    assert Catalog.SizesWithDefaults(input.sizes.value) == p.sizes;
    assert Catalog.Merge(p, input, p.category) == p;
    assert store[id := p] == store;
  }
}
