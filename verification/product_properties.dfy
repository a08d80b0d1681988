/** Properties of product creation that involve the sale handler, and the
    sample product of the repository's tests run through both the handler
    as written and the corrected one. */
module ProductProperties {
  import opened Wrappers
  import opened Text
  import opened Tables
  import opened Store
  import opened Validators
  import opened Products
  import Categories
  import opened Sales
  import opened SaleProperties

  /** A created product is what a sale of any spelling of its name that
      normalises the same way finds. */
  lemma CreatedIsSellable(d: Dialect, st: Store, caller: Caller, p: ProductInput, e: CartEntry)
    requires Create(d, st, caller, p).reply.ProductCreated?
    requires Normalize(e.name) == Normalize(p.name)
    ensures IndexOf(Create(d, st, caller, p).store.products, ProductName, LineName(Current, e)) == Some(|st.products|)
  {
    var c := Admit(d, st, caller, p, Normalize(p.name), Normalize(p.category)).value;
    var row := NewProduct(st, p, Normalize(p.name), st.categories[c].id);
    IndexOfFinds(st.products, ProductName, Normalize(p.name));
    IndexOfAppend(st.products, row, ProductName, Normalize(p.name));
  }

  /** Once a product exists, creating another whose name normalises to the
      same is refused as a duplicate, whatever its other fields. */
  lemma CreateTwiceRefused(d: Dialect, st: Store, caller: Caller, p: ProductInput, q: ProductInput)
    requires Create(d, st, caller, p).reply.ProductCreated?
    requires ProductAcceptable(q)
    requires Normalize(q.name) == Normalize(p.name)
    ensures var s := Create(d, st, caller, p).store;
            Create(d, s, caller, q) == Response(Message(400, d.duplicate), s)
  {
    var c := Admit(d, st, caller, p, Normalize(p.name), Normalize(p.category)).value;
    var row := NewProduct(st, p, Normalize(p.name), st.categories[c].id);
    var s := Insert(st, row);
    assert s.products[|st.products|] == row;
    assert Contains(s.products, ProductName, Normalize(q.name));
  }

  /** A store with the tests' furniture category and an administrator. */
  const Furnished := Store(
    [Category(1, "furniture", "this is the furniture category")],
    [], [User(1, "admin", "pass", Admin)], [], [], 2, 1, 2, 1, 1)

  const AdminCaller := Caller(1, Admin)

  /** The tests' first product body. */
  const TableInput := ProductInput("Table", 10000, "a cool table", "Furniture", 100, 10)

  lemma TableInputAcceptable(p: ProductInput)
    requires p.name == "Table" && p.description == "a cool table"
    requires p.category == "Furniture" || p.category == "furniture"
    requires p.price >= 0 && p.stock >= 0 && p.minStock >= 0
    ensures ProductAcceptable(p)
  {
    assert !IsSpace(p.name[0]) && !IsAsciiDigit(p.name[0]);
    assert !IsSpace(p.description[0]) && !IsAsciiDigit(p.description[0]);
    assert !IsSpace(p.category[0]) && !IsAsciiDigit(p.category[0]);
  }

  /** The corrected create of a body whose normalised name is new and whose
      normalised category is row `c`. */
  lemma CreateWith(d: Dialect, st: Store, caller: Caller, p: ProductInput, name: string, category: string, c: nat)
    requires caller.role == Admin && ProductAcceptable(p)
    requires Normalize(p.name) == name && Normalize(p.category) == category
    requires IndexOf(st.products, ProductName, name) == None
    requires IndexOf(st.categories, CategoryName, category) == Some(c)
    ensures Create(d, st, caller, p)
            == Response(ProductCreated(ViewOf(NewProduct(st, p, name, st.categories[c].id), category)),
                        Insert(st, NewProduct(st, p, name, st.categories[c].id)))
  {
  }

  /** The handler as written, for a body whose name is new and whose
      category is row `c`, both as sent. */
  lemma CreateAsWrittenWith(d: Dialect, st: Store, caller: Caller, p: ProductInput, c: nat)
    requires caller.role == Admin && ProductAcceptable(p)
    requires IndexOf(st.products, ProductName, p.name) == None
    requires IndexOf(st.categories, CategoryName, p.category) == Some(c)
    ensures CreateAsWritten(d, st, caller, p)
            == Response(ServerError, Insert(st, NewProduct(st, p, p.name, st.categories[c].id)))
  {
  }

  /** The product row and the answer the tests expect for their sample. */
  const TableRow := Product(1, "table", 10000, 100, 10, "a cool table", 1)
  const TableView := ProductView(1, "table", 10000, "a cool table", "furniture", 100, 10)

  /** The corrected create stores the tests' sample as `table` in category
      `furniture` and answers with exactly the fields the tests expect. */
  lemma SampleProductCreated(d: Dialect)
    ensures Create(d, Furnished, AdminCaller, TableInput)
            == Response(ProductCreated(TableView), Furnished.(products := [TableRow], nextProduct := 2))
  {
    SampleLookups();
    CreateWith(d, Furnished, AdminCaller, TableInput, "table", "furniture", 0);
    assert NewProduct(Furnished, TableInput, "table", 1) == TableRow;
  }

  /** What the corrected create looks up for the tests' sample. */
  lemma SampleLookups()
    ensures ProductAcceptable(TableInput)
    ensures Normalize(TableInput.name) == "table" && Normalize(TableInput.category) == "furniture"
    ensures IndexOf(Furnished.categories, CategoryName, "furniture") == Some(0)
  {
    TableInputAcceptable(TableInput);
    TableName();
    Categories.FurnitureName();
  }

  /** As written, the same request is refused: the category is looked up as
      sent, `Furniture`, and the stored name is `furniture`. */
  lemma AsWrittenRefusesCapitalised(d: Dialect)
    ensures CreateAsWritten(d, Furnished, AdminCaller, TableInput)
            == Response(Message(400, NoCategory), Furnished)
  {
    TableInputAcceptable(TableInput);
    assert "furniture"[0] != "Furniture"[0];
    assert !Contains(Furnished.categories, CategoryName, "Furniture");
  }

  /** The row the handler as written stores for `Table`: its name as sent. */
  const CapitalTableRow := Product(1, "Table", 10000, 100, 10, "a cool table", 1)

  /** As written, a product sent as `Table` under the stored category name is
      stored as `Table`, and the handler then fails. */
  lemma AsWrittenStoresCapitalised(d: Dialect)
    ensures CreateAsWritten(d, Furnished, AdminCaller, TableInput.(category := "furniture"))
            == Response(ServerError, Furnished.(products := [CapitalTableRow], nextProduct := 2))
  {
    var p := TableInput.(category := "furniture");
    TableInputAcceptable(p);
    assert IndexOf(Furnished.categories, CategoryName, "furniture") == Some(0);
    CreateAsWrittenWith(d, Furnished, AdminCaller, p, 0);
  }

  /** The current sale handler looks `Table` up as `table`, which that
      catalog lacks: the product stored as written cannot be sold. */
  lemma CapitalisedUnsellable()
    ensures SellLine(Current, [CapitalTableRow], CartEntry("Table", 2)) == Failure(SaleRejected(NoSuchProduct("table")))
  {
    TableName();
    assert !IsDigits("table") by { assert !IsAsciiDigit("table"[0]); }
    SellLineNormal([CapitalTableRow], CartEntry("Table", 2), "table");
    CapitalisedNotFound();
  }

  lemma CapitalisedNotFound()
    ensures Sell([CapitalTableRow], "table", 2) == Failure(SaleRejected(NoSuchProduct("table")))
  {
    assert "Table"[0] != "table"[0];
    assert IndexOf([CapitalTableRow], ProductName, "table") == None;
  }
}
