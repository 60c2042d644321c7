/**
 * The product schema of models/Product.js: which documents the catalog may hold.
 *
 * A submitted document may leave any field out. Creating a product applies the
 * schema's setters and defaults (the name is trimmed, `stock` defaults to 0,
 * `createdAt` to the current time when they are absent) and then runs its validators (`required`
 * on every field, `min: 0` on `price` and `stock`). Prices are integers in the
 * smallest currency unit.
 */
module Products {
  import opened Wrappers

  datatype Product = Product(
    name: string,
    description: string,
    price: int,
    category: string,
    stock: int,
    createdAt: int)

  /** A document as submitted for creation: every field may be missing. */
  datatype ProductInput = ProductInput(
    name: Option<string>,
    description: Option<string>,
    price: Option<int>,
    category: Option<string>,
    stock: Option<int>,
    createdAt: Option<int>)

  /** The schema paths whose validators can fail. */
  datatype Field = Name | Description | Price | Category | Stock

  /** White space as JavaScript's `String.prototype.trim` understands it. */
  predicate IsSpace(ch: char) {
    || ch == '\t' || ch == '\n' || ch == '\U{B}' || ch == '\U{C}' || ch == '\r' || ch == ' '
    || ch == '\U{A0}' || ch == '\U{1680}' || ('\U{2000}' <= ch <= '\U{200A}')
    || ch == '\U{2028}' || ch == '\U{2029}' || ch == '\U{202F}' || ch == '\U{205F}'
    || ch == '\U{3000}' || ch == '\U{FEFF}'
  }

  /** Nothing but white space. */
  predicate AllSpace(s: string) {
    forall j :: 0 <= j < |s| ==> IsSpace(s[j])
  }

  /** No white space at either end. */
  predicate Trimmed(s: string) {
    |s| == 0 || (!IsSpace(s[0]) && !IsSpace(s[|s| - 1]))
  }

  /** Drops the leading white space: the result is what follows a run of white space. */
  function TrimStart(s: string): (r: string)
    ensures |r| <= |s| && r == s[|s| - |r|..]
    ensures AllSpace(s[..|s| - |r|])
    ensures |r| == 0 || !IsSpace(r[0])
  {
    if |s| > 0 && IsSpace(s[0]) then
      var r := TrimStart(s[1..]);
      assert s[..|s| - |r|] == [s[0]] + s[1..][..|s[1..]| - |r|];
      r
    else
      s
  }

  /** Drops the trailing white space: the result is what precedes a run of white space. */
  function TrimEnd(s: string): (r: string)
    ensures |r| <= |s| && r == s[..|r|]
    ensures AllSpace(s[|r|..])
    ensures |r| == 0 || !IsSpace(r[|r| - 1])
  {
    if |s| > 0 && IsSpace(s[|s| - 1]) then
      var r := TrimEnd(s[..|s| - 1]);
      assert s[|r|..] == s[..|s| - 1][|r|..] + [s[|s| - 1]];
      r
    else
      s
  }

  /** The `trim: true` setter on `name`. */
  function Trim(s: string): string {
    TrimEnd(TrimStart(s))
  }

  /** Trimming yields a string with no white space at either end. */
  lemma TrimIsTrimmed(s: string)
    ensures Trimmed(Trim(s))
  {
    var t := TrimStart(s);
    if |Trim(s)| > 0 {
      assert Trim(s)[0] == t[0];
    }
  }

  /** A string with no white space at either end is its own trim. */
  lemma {:induction false} TrimFixesTrimmed(s: string)
    requires Trimmed(s)
    ensures Trim(s) == s
  {
    assert TrimStart(s) == s;
    assert TrimEnd(s) == s;
  }

  /** Trimming a stored name again leaves it unchanged. */
  lemma TrimIdempotent(s: string)
    ensures Trim(Trim(s)) == Trim(s)
  {
    TrimIsTrimmed(s);
    TrimFixesTrimmed(Trim(s));
  }

  /** Mongoose's `required` check on a string path: present and not empty. */
  predicate RequiredString(s: Option<string>) {
    s.Some? && |s.value| > 0
  }

  /**
   * A document the catalog may hold: every required string present and non-empty,
   * the name trimmed, `price` and `stock` at least 0.
   */
  predicate Valid(p: Product) {
    && |p.name| > 0 && Trimmed(p.name)
    && |p.description| > 0
    && p.price >= 0
    && |p.category| > 0
    && p.stock >= 0
  }

  /** The `trim: true` setter applied to a submitted name. */
  function SetName(name: Option<string>): Option<string> {
    if name.Some? then Some(Trim(name.value)) else None
  }

  /** The stock after the `default: 0`. */
  function DefaultStock(stock: Option<int>): int {
    if stock.Some? then stock.value else 0
  }

  /**
   * The paths whose validator fails on a submitted document, given the name as the
   * setter left it and the other fields as submitted (the stock defaulted).
   */
  function Errors(name: Option<string>, input: ProductInput): (errors: set<Field>)
    ensures Name in errors <==> !RequiredString(name)
    ensures Description in errors <==> !RequiredString(input.description)
    ensures Price in errors <==> input.price.None? || input.price.value < 0
    ensures Category in errors <==> !RequiredString(input.category)
    ensures Stock in errors <==> DefaultStock(input.stock) < 0
  {
    var nameOk := RequiredString(name);
    var descriptionOk := RequiredString(input.description);
    var priceOk := input.price.Some? && input.price.value >= 0;
    var categoryOk := RequiredString(input.category);
    var stockOk := DefaultStock(input.stock) >= 0;
    (if nameOk then {} else {Name})
    + (if descriptionOk then {} else {Description})
    + (if priceOk then {} else {Price})
    + (if categoryOk then {} else {Category})
    + (if stockOk then {} else {Stock})
  }

  /**
   * Creating a product from a submitted document: apply the setters and defaults,
   * then validate; a failure reports every path whose validator failed.
   */
  function Create(input: ProductInput, now: int): (r: Result<Product, set<Field>>)
    ensures r.Ok? ==> Valid(r.value)
    ensures r.Ok? ==>
      && input.name.Some? && r.value.name == Trim(input.name.value)
      && input.description == Some(r.value.description)
      && input.price == Some(r.value.price)
      && input.category == Some(r.value.category)
      && r.value.stock == (if input.stock.Some? then input.stock.value else 0)
      && r.value.createdAt == (if input.createdAt.Some? then input.createdAt.value else now)
    ensures r.Err? ==> r.error != {}
    ensures r.Err? ==>
      && (Name in r.error <==> !RequiredString(SetName(input.name)))
      && (Description in r.error <==> !RequiredString(input.description))
      && (Price in r.error <==> input.price.None? || input.price.value < 0)
      && (Category in r.error <==> !RequiredString(input.category))
      && (Stock in r.error <==> input.stock.Some? && input.stock.value < 0)
  {
    var errors := Errors(SetName(input.name), input);
    if errors == {} then
      assert Name !in errors && Description !in errors && Price !in errors
             && Category !in errors && Stock !in errors;
      TrimIsTrimmed(input.name.value);
      var createdAt := if input.createdAt.Some? then input.createdAt.value else now;
      Ok(Product(Trim(input.name.value), input.description.value, input.price.value,
                 input.category.value, DefaultStock(input.stock), createdAt))
    else
      Err(errors)
  }

  /** A created product's name is stored trimmed: trimming it again changes nothing. */
  lemma CreatedNameIsTrimmed(input: ProductInput, now: int)
    requires Create(input, now).Ok?
    ensures Trim(Create(input, now).value.name) == Create(input, now).value.name
  {
    TrimIdempotent(input.name.value);
  }

  /**
   * Saving an updated document re-runs the validators: changing only the stock of
   * a valid product keeps it valid exactly when the new stock is at least 0.
   */
  lemma RestockValid(p: Product, stock: int)
    requires Valid(p)
    ensures Valid(p.(stock := stock)) <==> stock >= 0
  {
  }
}
