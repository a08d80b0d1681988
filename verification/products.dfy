/** The product handlers: `ProductList.post` in both revisions, and
    `Product.get`, `Product.put` and `Product.delete`. Create and get are
    given twice: as the handlers are written, and corrected (see the
    findings in the README). */
module Products {
  import opened Wrappers
  import opened Text
  import opened Tables
  import opened Store
  import opened Validators

  /** What differs between the two revisions of `ProductList.post`: the
      wording of the inline checks and of the duplicate-name refusal. */
  datatype Dialect = Dialect(messages: ProductMessages, duplicate: string)

  /** The inline checks of the views-package handler; the description checks
      reuse the category wording. */
  const ViewMessages := ProductMessages(
    "name cannot be an integer value", "name should not be empty",
    "price cannot be a negative or 0",
    "category cannot be an integer value", "category should not be empty",
    "category cannot be an integer value", "category should not be empty",
    "stock cannot be a negative or 0", "minimum cannot be a negative or 0")

  /** The inline checks of the older single-module handler. */
  const LegacyMessages := ProductMessages(
    "product name cannot be an integer value", "product name should not be empty",
    "product price cannot be a negative or 0",
    "product category cannot be an integer value", "product category should not be empty",
    "product category cannot be an integer value", "product category should not be empty",
    "product stock cannot be a negative or 0", "product minimum cannot be a negative or 0")

  const CurrentDialect := Dialect(ViewMessages, "product already exists")
  const LegacyDialect := Dialect(LegacyMessages, "product already exists, consider updating attributes")

  const AdminOnlyCreate := "only admin can add a product"
  const AdminOnlyChange := "only administrator can delete a product"
  const NoCategory := "category provided does not exist"
  const NoProduct := "product with id does not exist"
  const IdNotInteger := "product id must be integer"
  const NotInteger := "provided id is not an integer"
  const Updated := "product updated successfully"
  const Deleted := "product deleted successfully"

  /** The guards of a create, in the handler's order: the caller's role, the
      body checks, an existing product called `name`, a category called
      `category`. On success, the index of that category's row. */
  function Admit(d: Dialect, st: Store, caller: Caller, p: ProductInput, name: string, category: string)
    : (r: Result<nat, Reply>)
    ensures caller.role != Admin ==> r == Failure(Message(403, AdminOnlyCreate))
    ensures caller.role == Admin && ValidateProduct(d.messages, p).Some?
            ==> r == Failure(Message(400, ValidateProduct(d.messages, p).value))
    ensures caller.role == Admin && ProductAcceptable(p) && Contains(st.products, ProductName, name)
            ==> r == Failure(Message(400, d.duplicate))
    ensures caller.role == Admin && ProductAcceptable(p) && !Contains(st.products, ProductName, name)
            && !Contains(st.categories, CategoryName, category)
            ==> r == Failure(Message(400, NoCategory))
    ensures r.Success? <==>
              (caller.role == Admin && ProductAcceptable(p)
               && !Contains(st.products, ProductName, name)
               && Contains(st.categories, CategoryName, category))
    ensures r.Success? ==> r.value < |st.categories| && st.categories[r.value].name == category
  {
    IndexOfFinds(st.products, ProductName, name);
    IndexOfFinds(st.categories, CategoryName, category);
    if caller.role != Admin then Failure(Message(403, AdminOnlyCreate))
    else match ValidateProduct(d.messages, p)
      case Some(m) => Failure(Message(400, m))
      case None =>
        if IndexOf(st.products, ProductName, name).Some? then Failure(Message(400, d.duplicate))
        else match IndexOf(st.categories, CategoryName, category)
          case None => Failure(Message(400, NoCategory))
          case Some(c) => Success(c)
  }

  /** The row `CREATE_PRODUCT` adds. */
  function NewProduct(st: Store, p: ProductInput, name: string, categoryId: nat): Product {
    Product(st.nextProduct, name, p.price, p.stock, p.minStock, p.description, categoryId)
  }

  function Insert(st: Store, row: Product): Store {
    st.(products := st.products + [row], nextProduct := st.nextProduct + 1)
  }

  /** `ProductList.post` as it should behave: the name and the category are
      normalised (`lower().strip()`) before the lookups and the insert, as
      category create normalises the names it stores and sale create the
      names it looks up, and the answer carries the category's name. */
  function Create(d: Dialect, st: Store, caller: Caller, p: ProductInput): (r: Response)
    ensures caller.role != Admin ==> r == Response(Message(403, AdminOnlyCreate), st)
    ensures caller.role == Admin && ValidateProduct(d.messages, p).Some?
            ==> r == Response(Message(400, ValidateProduct(d.messages, p).value), st)
    ensures caller.role == Admin && ProductAcceptable(p) && Contains(st.products, ProductName, Normalize(p.name))
            ==> r == Response(Message(400, d.duplicate), st)
    ensures r.reply.ProductCreated? <==>
              (caller.role == Admin && ProductAcceptable(p)
               && !Contains(st.products, ProductName, Normalize(p.name))
               && Contains(st.categories, CategoryName, Normalize(p.category)))
    ensures !r.reply.ProductCreated? ==> r.store == st
    ensures r.reply.ProductCreated? ==>
              (exists c :: 0 <= c < |st.categories| && st.categories[c].name == Normalize(p.category)
                           && r.store == Insert(st, NewProduct(st, p, Normalize(p.name), st.categories[c].id)))
              && r.reply.product == ProductView(st.nextProduct, Normalize(p.name), p.price, p.description,
                                                Normalize(p.category), p.stock, p.minStock)
  {
    match Admit(d, st, caller, p, Normalize(p.name), Normalize(p.category))
    case Failure(reply) => Response(reply, st)
    case Success(c) =>
      var row := NewProduct(st, p, Normalize(p.name), st.categories[c].id);
      Response(ProductCreated(ViewOf(row, st.categories[c].name)), Insert(st, row))
  }

  /** `ProductList.post` as written, in either revision: the name and the
      category are looked up and stored exactly as sent, and after the insert
      the handler looks the new row's category up by `result[6]`, which in
      `CREATE_PRODUCT`'s returned columns is `date_created`; that lookup
      fails and the request ends in an uncaught exception after the row is
      stored. So it never answers 201. */
  function CreateAsWritten(d: Dialect, st: Store, caller: Caller, p: ProductInput): (r: Response)
    ensures caller.role != Admin ==> r == Response(Message(403, AdminOnlyCreate), st)
    ensures !r.reply.ProductCreated?
    ensures r.reply == ServerError <==>
              (caller.role == Admin && ProductAcceptable(p)
               && !Contains(st.products, ProductName, p.name)
               && Contains(st.categories, CategoryName, p.category))
    ensures r.reply != ServerError ==> r.store == st
    ensures r.reply == ServerError ==>
              exists c :: 0 <= c < |st.categories| && st.categories[c].name == p.category
                          && r.store == Insert(st, NewProduct(st, p, p.name, st.categories[c].id))
  {
    match Admit(d, st, caller, p, p.name, p.category)
    case Failure(reply) => Response(reply, st)
    case Success(c) => Response(ServerError, Insert(st, NewProduct(st, p, p.name, st.categories[c].id)))
  }

  /** The client's view of the product row with id `n`, whose category is
      looked up by the row's category id. */
  function GetById(st: Store, n: nat): (r: Reply)
    ensures !Contains(st.products, ProductId, n) ==> r == Message(404, NoProduct)
    ensures r.ProductFound? ==> r.product.id == n
    ensures r.ProductFound? ==>
              exists i, c :: 0 <= i < |st.products| && 0 <= c < |st.categories|
                             && st.products[i].id == n && st.categories[c].id == st.products[i].categoryId
                             && r.product == ViewOf(st.products[i], st.categories[c].name)
    ensures Valid(st) && Contains(st.products, ProductId, n) ==> r.ProductFound?
  {
    IndexOfFinds(st.products, ProductId, n);
    match IndexOf(st.products, ProductId, n)
    case None => Message(404, NoProduct)
    case Some(i) =>
      IndexOfFinds(st.categories, CategoryId, st.products[i].categoryId);
      match IndexOf(st.categories, CategoryId, st.products[i].categoryId)
      case None => ServerError
      case Some(c) => ProductFound(ViewOf(st.products[i], st.categories[c].name))
  }

  /** `Product.get` as it should behave: the category is found through the
      product's category id. */
  function Get(st: Store, id: string): (r: Reply)
    ensures !IsDigits(id) ==> r == Message(400, IdNotInteger)
    ensures IsDigits(id) ==> r == GetById(st, DigitsValue(id))
  {
    match ParseId(id)
    case None => Message(400, IdNotInteger)
    case Some(n) => GetById(st, n)
  }

  /** `Product.get` as written: `GET_PRODUCT` selects every column, so
      `result[6]` is `date_created` and the category lookup by it fails with
      an uncaught exception for every product that exists. */
  function GetAsWritten(st: Store, id: string): (r: Reply)
    ensures !IsDigits(id) ==> r == Message(400, IdNotInteger)
    ensures IsDigits(id) && !Contains(st.products, ProductId, DigitsValue(id)) ==> r == Message(404, NoProduct)
    ensures IsDigits(id) && Contains(st.products, ProductId, DigitsValue(id)) ==> r == ServerError
  {
    match ParseId(id)
    case None => Message(400, IdNotInteger)
    case Some(n) =>
      IndexOfFinds(st.products, ProductId, n);
      if IndexOf(st.products, ProductId, n).None? then Message(404, NoProduct) else ServerError
  }

  /** `Product.put`: admin only, then a digit id, then the category named by
      the body (looked up before the product), then the product; the six
      fields are overwritten without any check on their values. */
  function Update(st: Store, caller: Caller, id: string, p: ProductInput): (r: Response)
    ensures caller.role != Admin ==> r == Response(Message(403, AdminOnlyChange), st)
    ensures caller.role == Admin && !IsDigits(id) ==> r == Response(Message(400, NotInteger), st)
    ensures caller.role == Admin && IsDigits(id) && !Contains(st.categories, CategoryName, p.category)
            ==> r == Response(Message(404, NoCategory), st)
    ensures caller.role == Admin && IsDigits(id) && Contains(st.categories, CategoryName, p.category)
            && !Contains(st.products, ProductId, DigitsValue(id))
            ==> r == Response(Message(404, NoProduct), st)
    ensures r.reply == Message(200, Updated) <==>
              caller.role == Admin && IsDigits(id) && Contains(st.categories, CategoryName, p.category)
              && Contains(st.products, ProductId, DigitsValue(id))
    ensures r.reply != Message(200, Updated) ==> r.store == st
    ensures r.reply == Message(200, Updated) ==>
              exists i, c :: 0 <= i < |st.products| && 0 <= c < |st.categories|
                             && st.products[i].id == DigitsValue(id) && st.categories[c].name == p.category
                             && r.store == st.(products := st.products[i := NewProduct(st, p, p.name, st.categories[c].id)
                                                                             .(id := st.products[i].id)])
  {
    IndexOfFinds(st.categories, CategoryName, p.category);
    if caller.role != Admin then Response(Message(403, AdminOnlyChange), st)
    else match ParseId(id)
      case None => Response(Message(400, NotInteger), st)
      case Some(n) =>
        IndexOfFinds(st.products, ProductId, n);
        match IndexOf(st.categories, CategoryName, p.category)
        case None => Response(Message(404, NoCategory), st)
        case Some(c) =>
          match IndexOf(st.products, ProductId, n)
          case None => Response(Message(404, NoProduct), st)
          case Some(i) =>
            var row := NewProduct(st, p, p.name, st.categories[c].id).(id := st.products[i].id);
            Response(Message(200, Updated), st.(products := st.products[i := row]))
  }

  /** `Product.delete`: admin only, then a digit id, then the product must
      exist; `DELETE_PRODUCT` removes that one row. */
  function Delete(st: Store, caller: Caller, id: string): (r: Response)
    ensures caller.role != Admin ==> r == Response(Message(403, AdminOnlyChange), st)
    ensures caller.role == Admin && !IsDigits(id) ==> r == Response(Message(400, NotInteger), st)
    ensures caller.role == Admin && IsDigits(id) && !Contains(st.products, ProductId, DigitsValue(id))
            ==> r == Response(Message(404, NoProduct), st)
    ensures r.reply == Message(200, Deleted) <==>
              caller.role == Admin && IsDigits(id) && Contains(st.products, ProductId, DigitsValue(id))
    ensures r.reply != Message(200, Deleted) ==> r.store == st
    ensures r.reply == Message(200, Deleted) ==>
              exists i :: 0 <= i < |st.products| && st.products[i].id == DigitsValue(id)
                          && r.store == st.(products := RemoveAt(st.products, i))
  {
    if caller.role != Admin then Response(Message(403, AdminOnlyChange), st)
    else match ParseId(id)
      case None => Response(Message(400, NotInteger), st)
      case Some(n) =>
        IndexOfFinds(st.products, ProductId, n);
        match IndexOf(st.products, ProductId, n)
        case None => Response(Message(404, NoProduct), st)
        case Some(i) => Response(Message(200, Deleted), st.(products := RemoveAt(st.products, i)))
  }

  /** Replacing the products table by one that is well keyed under the same
      counter and whose categories exist keeps the database invariant. */
  lemma ProductsKeepValid(st: Store, ps: seq<Product>)
    requires Valid(st)
    requires KeysIncreasing(ps, ProductId) && KeysBelow(ps, ProductId, st.nextProduct)
    requires forall i :: 0 <= i < |ps| ==> Contains(st.categories, CategoryId, ps[i].categoryId)
    ensures Valid(st.(products := ps))
  {
  }

  /** Adding a row with the next SERIAL id and an existing category keeps
      the database invariant. */
  lemma InsertKeepsValid(st: Store, row: Product)
    requires Valid(st)
    requires row.id == st.nextProduct
    requires Contains(st.categories, CategoryId, row.categoryId)
    ensures Valid(Insert(st, row))
  {
    AppendKeeps(st.products, ProductId, st.nextProduct, row);
    var ps := st.products + [row];
    forall i | 0 <= i < |ps|
      ensures Contains(st.categories, CategoryId, ps[i].categoryId)
    {
      if i < |st.products| { assert ps[i] == st.products[i]; }
    }
    ProductsKeepValid(st.(nextProduct := st.nextProduct + 1), ps);
  }

  lemma CreateKeepsValid(d: Dialect, st: Store, caller: Caller, p: ProductInput)
    requires Valid(st)
    ensures Valid(Create(d, st, caller, p).store)
    ensures Valid(CreateAsWritten(d, st, caller, p).store)
  {
    var a := Admit(d, st, caller, p, Normalize(p.name), Normalize(p.category));
    if a.Success? {
      InsertKeepsValid(st, NewProduct(st, p, Normalize(p.name), st.categories[a.value].id));
    }
    var b := Admit(d, st, caller, p, p.name, p.category);
    if b.Success? {
      InsertKeepsValid(st, NewProduct(st, p, p.name, st.categories[b.value].id));
    }
  }

  /** A row added with the next SERIAL id is found by that id, with the name
      of its category. */
  lemma InsertThenGet(st: Store, row: Product, c: nat)
    requires KeysBelow(st.products, ProductId, st.nextProduct)
    requires KeysIncreasing(st.categories, CategoryId)
    requires row.id == st.nextProduct
    requires c < |st.categories| && st.categories[c].id == row.categoryId
    ensures GetById(Insert(st, row), row.id) == ProductFound(ViewOf(row, st.categories[c].name))
  {
    IndexOfAppend(st.products, row, ProductId, st.nextProduct);
    IndexOfKey(st.categories, CategoryId, c);
    assert Insert(st, row).products[|st.products|] == row;
  }

  /** A created product, fetched by the id in its answer, reads back as the
      product the answer showed. */
  lemma {:induction false} CreateThenGet(d: Dialect, st: Store, caller: Caller, p: ProductInput)
    requires Valid(st)
    requires Create(d, st, caller, p).reply.ProductCreated?
    ensures Get(Create(d, st, caller, p).store, Decimal(Create(d, st, caller, p).reply.product.id))
            == ProductFound(Create(d, st, caller, p).reply.product)
  {
    var c := Admit(d, st, caller, p, Normalize(p.name), Normalize(p.category)).value;
    var row := NewProduct(st, p, Normalize(p.name), st.categories[c].id);
    assert Create(d, st, caller, p) == Response(ProductCreated(ViewOf(row, st.categories[c].name)), Insert(st, row));
    DecimalRoundTrip(st.nextProduct);
    InsertThenGet(st, row, c);
  }

  lemma UpdateKeepsValid(st: Store, caller: Caller, id: string, p: ProductInput)
    requires Valid(st)
    ensures Valid(Update(st, caller, id, p).store)
  {
    var r := Update(st, caller, id, p);
    if r.reply == Message(200, Updated) {
      var i := IndexOf(st.products, ProductId, DigitsValue(id)).value;
      var c := IndexOf(st.categories, CategoryName, p.category).value;
      var ps := r.store.products;
      assert ps == st.products[i := NewProduct(st, p, p.name, st.categories[c].id).(id := st.products[i].id)];
      SameKeysKeep(st.products, ps, ProductId, st.nextProduct);
      assert Contains(st.categories, CategoryId, st.categories[c].id);
      assert forall j :: 0 <= j < |st.products| && j != i ==> ps[j] == st.products[j];
      ProductsKeepValid(st, ps);
    }
  }

  /** After an update the product reads back with the six new values and the
      updated category's name. */
  lemma {:induction false} UpdateThenGet(st: Store, caller: Caller, id: string, p: ProductInput)
    requires Valid(st)
    requires Update(st, caller, id, p).reply == Message(200, Updated)
    ensures Get(Update(st, caller, id, p).store, id)
            == ProductFound(ProductView(DigitsValue(id), p.name, p.price, p.description, p.category, p.stock, p.minStock))
  {
    var r := Update(st, caller, id, p);
    var n := DigitsValue(id);
    var i := IndexOf(st.products, ProductId, n).value;
    var c := IndexOf(st.categories, CategoryName, p.category).value;
    IndexOfSameColumn(st.products, r.store.products, ProductId, n);
    IndexOfKey(st.categories, CategoryId, c);
    assert r.store.products[i].categoryId == st.categories[c].id;
  }

  lemma DeleteKeepsValid(st: Store, caller: Caller, id: string)
    requires Valid(st)
    ensures Valid(Delete(st, caller, id).store)
  {
    var r := Delete(st, caller, id);
    if r.reply == Message(200, Deleted) {
      var i := IndexOf(st.products, ProductId, DigitsValue(id)).value;
      assert r.store == st.(products := RemoveAt(st.products, i));
      RemoveProductKeepsValid(st, i);
    }
  }

  /** Removing any one product row keeps the database invariant. */
  lemma RemoveProductKeepsValid(st: Store, i: nat)
    requires Valid(st) && i < |st.products|
    ensures Valid(st.(products := RemoveAt(st.products, i)))
  {
    var ps := RemoveAt(st.products, i);
    RemoveKeeps(st.products, ProductId, st.nextProduct, i);
    RemoveAtRows(st.products, i);
    forall j | 0 <= j < |ps|
      ensures Contains(st.categories, CategoryId, ps[j].categoryId)
    {
      var j' :| 0 <= j' < |st.products| && st.products[j'] == ps[j];
    }
    ProductsKeepValid(st, ps);
  }

  /** A deleted product is gone, and every other product is still there. */
  lemma {:induction false} DeleteThenGet(st: Store, caller: Caller, id: string)
    requires Valid(st)
    requires Delete(st, caller, id).reply == Message(200, Deleted)
    ensures Get(Delete(st, caller, id).store, id) == Message(404, NoProduct)
    ensures forall x :: x in st.products && x.id != DigitsValue(id) <==> x in Delete(st, caller, id).store.products
  {
    var r := Delete(st, caller, id);
    var n := DigitsValue(id);
    var i := IndexOf(st.products, ProductId, n).value;
    var rest := RemoveAt(st.products, i);
    RemoveAtRows(st.products, i);
    forall j | 0 <= j < |rest|
      ensures rest[j].id != n
    {
      if j < i { assert rest[j] == st.products[j]; } else { assert rest[j] == st.products[j + 1]; }
    }
    forall x | x in st.products && x.id != n
      ensures x in rest
    {
      var j :| 0 <= j < |st.products| && st.products[j] == x;
    }
  }
}
