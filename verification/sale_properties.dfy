/** What the sale handlers guarantee across calls: the store invariant, the
    create-then-read round trip, the all-or-nothing corrected create, and
    the behaviour on the repository's sample carts. */
module SaleProperties {
  import opened Wrappers
  import opened Text
  import opened Tables
  import opened Store
  import opened Sales

  /** New sale items get consecutive ids from the next SERIAL value. */
  lemma NewItemsKeep(items: seq<SaleItem>, lines: seq<Line>, saleId: nat, next: nat)
    requires KeysIncreasing(items, SaleItemId) && KeysBelow(items, SaleItemId, next)
    ensures var all := items + ItemsFor(lines, saleId, next);
            KeysIncreasing(all, SaleItemId) && KeysBelow(all, SaleItemId, next + |lines|)
  {
    var all := items + ItemsFor(lines, saleId, next);
    forall i, j | 0 <= i < j < |all|
      ensures SaleItemId(all[i]) < SaleItemId(all[j])
    {
      if j >= |items| {
        assert all[j] == ItemsFor(lines, saleId, next)[j - |items|];
      }
    }
  }

  /** Whatever the loop did to stock, settling it keeps the store valid,
      provided a recorded sale names a stored user or no one. */
  lemma SettleKeepsValid(st: Store, f: Fold, attendant: Option<nat>)
    requires Valid(st) && OnlyStockChanged(st.products, f.products)
    requires f.failure.None? && attendant.Some? ==> Contains(st.users, UserId, attendant.value)
    ensures Valid(Settle(st, f, attendant).store)
  {
    var r := Settle(st, f, attendant);
    assert forall i :: 0 <= i < |st.products| ==> ProductId(st.products[i]) == ProductId(f.products[i]);
    SameKeysKeep(st.products, f.products, ProductId, st.nextProduct);
    assert forall i :: 0 <= i < |f.products| ==> f.products[i].categoryId == st.products[i].categoryId;
    if f.failure.None? {
      var sale := r.reply.sale;
      AppendKeeps(st.sales, SaleId, st.nextSale, sale);
      NewItemsKeep(st.saleItems, f.lines, sale.id, st.nextSaleItem);
      var sales := st.sales + [sale];
      var items := st.saleItems + ItemsFor(f.lines, sale.id, st.nextSaleItem);
      forall i | 0 <= i < |items|
        ensures Contains(sales, SaleId, items[i].saleId)
      {
        if i < |st.saleItems| {
          var j :| 0 <= j < |st.sales| && SaleId(st.sales[j]) == st.saleItems[i].saleId;
          assert sales[j] == st.sales[j];
        } else {
          assert items[i] == ItemsFor(f.lines, sale.id, st.nextSaleItem)[i - |st.saleItems|];
          assert sales[|st.sales|] == sale;
        }
      }
      forall i | 0 <= i < |sales| && sales[i].attendantId.Some?
        ensures Contains(st.users, UserId, sales[i].attendantId.value)
      {
        if i < |st.sales| {
          assert sales[i] == st.sales[i];
        }
      }
    }
  }

  /** Both revisions of the create handler keep the store invariant, on
      every path, including the ones that keep partial stock writes. The
      caller is a stored user, as the handler's token lookup ensures. */
  lemma CreateSaleKeepsValid(st: Store, caller: Caller, cart: seq<CartEntry>)
    requires Valid(st) && Contains(st.users, UserId, caller.id)
    ensures Valid(CreateSale(st, caller, cart).store)
    ensures Valid(CreateSaleAtomic(st, caller, cart).store)
  {
    if caller.role == Attendant {
      SettleKeepsValid(st, SellCart(Current, st.products, cart), Some(caller.id));
    }
  }

  lemma LegacyCreateSaleKeepsValid(st: Store, caller: Caller, cart: map<string, CartEntry>)
    requires Valid(st) && Contains(st.users, UserId, caller.id)
    ensures Valid(LegacyCreateSale(st, caller, cart).store)
    ensures Valid(LegacyCreateSaleIntended(st, caller, cart).store)
  {
    if caller.role == Attendant {
      var f := SellCart(Legacy, st.products, KeyedPrefix(cart, 1));
      SettleKeepsValid(st, f, Some(caller.id));
      SettleKeepsValid(st, f.(failure := Some(ServerError)), None);
    }
  }

  /** The attendant key is why the create lemmas ask for a stored caller: an
      empty cart sold by attendant 7 in an empty database records a sale
      naming a user that does not exist. */
  lemma StrangerSaleInvalid()
    ensures var r := CreateSale(Empty, Caller(7, Attendant), []);
            r.reply.SaleCreated? && !Valid(r.store)
  {
    var r := CreateSale(Empty, Caller(7, Attendant), []);
    assert r.store.sales[0].attendantId == Some(7);
    assert r.store.users == [];
  }

  /** A sale appended with the next SERIAL id is found by that id. */
  lemma FindNewSale(sales: seq<Sale>, sale: Sale)
    requires KeysBelow(sales, SaleId, sale.id)
    ensures IndexOf(sales + [sale], SaleId, sale.id) == Some(|sales|)
  {
    IndexOfAppend(sales, sale, SaleId, sale.id);
  }

  /** The items of a new sale are exactly the ones inserted with it. */
  lemma NewSaleLines(st: Store, lines: seq<Line>)
    requires Valid(st)
    ensures LinesOfSale(st.saleItems + ItemsFor(lines, st.nextSale, st.nextSaleItem), st.nextSale) == lines
  {
    var items := ItemsFor(lines, st.nextSale, st.nextSaleItem);
    LinesOfSaleAppend(st.saleItems, items, st.nextSale);
    forall i | 0 <= i < |st.saleItems|
      ensures st.saleItems[i].saleId != st.nextSale
    {
      var j :| 0 <= j < |st.sales| && SaleId(st.sales[j]) == st.saleItems[i].saleId;
    }
    LinesOfOtherItems(st.saleItems, st.nextSale);
    LinesOfNewItems(lines, st.nextSale, st.nextSaleItem);
  }

  /** Reading back a sale just created returns its header and, numbered
      from 1 in cart order, exactly the lines the loop sold. */
  lemma SaleRoundTrip(st: Store, caller: Caller, cart: seq<CartEntry>)
    requires Valid(st)
    requires CreateSale(st, caller, cart).reply.SaleCreated?
    ensures var r := CreateSale(st, caller, cart);
            GetSale(r.store, Decimal(r.reply.sale.id))
              == SaleFound(r.reply.sale, Numbered(SellCart(Current, st.products, cart).lines))
  {
    var r := CreateSale(st, caller, cart);
    var f := SellCart(Current, st.products, cart);
    var sale := r.reply.sale;
    assert r.store.sales == st.sales + [sale];
    assert r.store.saleItems == st.saleItems + ItemsFor(f.lines, st.nextSale, st.nextSaleItem);
    DecimalRoundTrip(sale.id);
    FindNewSale(st.sales, sale);
    NewSaleLines(st, f.lines);
    assert (st.sales + [sale])[|st.sales|] == sale;
  }

  /** The corrected create is all or nothing: either the sale is recorded
      with every line's stock taken, or the store is exactly as before. */
  lemma AtomicAllOrNothing(st: Store, caller: Caller, cart: seq<CartEntry>)
    ensures var r := CreateSaleAtomic(st, caller, cart);
            || r.store == st
            || (&& r.reply.SaleCreated?
                && forall j :: 0 <= j < |st.products| ==>
                     r.store.products[j].stock == st.products[j].stock - Demand(Current, st.products, cart, j))
  {
    var r := CreateSaleAtomic(st, caller, cart);
    if r.reply.SaleCreated? {
      StockAfterSale(Current, st.products, cart);
    }
  }

  /** The catalog of the sample data, as the name-normalising category and
      sale handlers see it. */
  const Catalog := [
    Product(1, "table", 10000, 100, 10, "a cool table", 1),
    Product(2, "television", 30000, 200, 20, "a cool television", 2)]

  const Stocked := Store(
    [Category(1, "furniture", "this is the furniture category"),
     Category(2, "electronics", "this is the electronics category")],
    Catalog, [User(1, "attendant", "pass", Attendant)], [], [], 3, 3, 2, 1, 1)

  lemma TableName()
    ensures Normalize("Table") == "table" && Normalize("table") == "table"
  {
    TableCapitalised();
    TableLower();
  }

  lemma TableLower()
    ensures Normalize("table") == "table"
  {
    assert forall i :: 0 <= i < |"table"| ==> !IsUpper("table"[i]);
    assert !IsSpace("table"[0]) && !IsSpace("table"[|"table"| - 1]);
    NormalFixed("table");
  }

  lemma TableCapitalised()
    ensures Normalize("Table") == "table"
  {
    assert forall i :: 0 <= i < |"able"| ==> !IsUpper("able"[i]);
    assert "Table" == ['T'] + "able";
    assert LowerChar('T') == 't' && ['t'] + "able" == "table";
    NormalCapitalised('T', "able");
  }

  lemma TelevisionName()
    ensures Normalize("Television") == "television" && Normalize("television") == "television"
  {
    TelevisionCapitalised();
    TelevisionLower();
  }

  lemma TelevisionLower()
    ensures Normalize("television") == "television"
  {
    assert forall i :: 0 <= i < |"television"| ==> !IsUpper("television"[i]);
    assert !IsSpace("television"[0]) && !IsSpace("television"[|"television"| - 1]);
    NormalFixed("television");
  }

  lemma TelevisionCapitalised()
    ensures Normalize("Television") == "television"
  {
    assert forall i :: 0 <= i < |"elevision"| ==> !IsUpper("elevision"[i]);
    assert "Television" == ['T'] + "elevision";
    assert LowerChar('T') == 't' && ['t'] + "elevision" == "television";
    NormalCapitalised('T', "elevision");
  }

  /** The catalog after two tables are sold from it. */
  const TwoTablesSold := Catalog[0 := Catalog[0].(stock := 98)]

  lemma SellTwoTables()
    ensures SellLine(Current, Catalog, CartEntry("Table", 2)) == Success(Sold(TwoTablesSold, Line("table", 10000, 2, 20000)))
    ensures SellLine(Current, Catalog, CartEntry("table", 2)) == Success(Sold(TwoTablesSold, Line("table", 10000, 2, 20000)))
  {
    TableName();
    assert !IsDigits("table") by { assert !IsAsciiDigit("table"[0]); }
    SellLineNormal(Catalog, CartEntry("Table", 2), "table");
    SellLineNormal(Catalog, CartEntry("table", 2), "table");
    SellTwoTablesAsNamed();
  }

  lemma SellTwoTablesAsNamed()
    ensures Sell(Catalog, "table", 2) == Success(Sold(TwoTablesSold, Line("table", 10000, 2, 20000)))
  {
    assert IndexOf(Catalog, ProductName, "table") == Some(0);
  }

  lemma FindTelevision()
    ensures IndexOf(TwoTablesSold, ProductName, "television") == Some(1)
  {
    assert ProductName(TwoTablesSold[0]) != "television";
    assert ProductName(TwoTablesSold[1]) == "television";
  }

  lemma SellTelevisions(count: int)
    requires count >= 1
    ensures SellLine(Current, TwoTablesSold, CartEntry("Television", count))
         == SellLine(Current, TwoTablesSold, CartEntry("television", count))
         == Sell(TwoTablesSold, "television", count)
  {
    TelevisionName();
    assert !IsDigits("television") by { assert !IsAsciiDigit("television"[0]); }
    SellLineNormal(TwoTablesSold, CartEntry("Television", count), "television");
    SellLineNormal(TwoTablesSold, CartEntry("television", count), "television");
  }

  lemma SellTenTelevisions()
    ensures SellLine(Current, TwoTablesSold, CartEntry("Television", 10))
         == Success(Sold(TwoTablesSold[1 := TwoTablesSold[1].(stock := 190)], Line("television", 30000, 10, 300000)))
  {
    SellTelevisions(10);
    FindTelevision();
  }

  lemma RefuseThousandTelevisions()
    ensures SellLine(Current, TwoTablesSold, CartEntry("television", 1000))
         == Failure(SaleRejected(BelowFloor("television")))
  {
    SellTelevisions(1000);
    FindTelevision();
  }

  /** The catalog after the sample sale. */
  const SampleSold := TwoTablesSold[1 := TwoTablesSold[1].(stock := 190)]

  /** The loop over a one-line cart that sells. */
  lemma SellOnly(products: seq<Product>, e: CartEntry, sold: Sold)
    requires SellLine(Current, products, e) == Success(sold)
    ensures SellCart(Current, products, [e]) == Fold(sold.products, [sold.line], None)
  {
    SellCartStep(Current, sold.products, []);
    SellCartCons(Current, products, e, [], sold);
    assert [e] + [] == [e];
  }

  /** The loop over a two-line cart whose lines both sell. */
  lemma SellPair(a: seq<Product>, e1: CartEntry, e2: CartEntry, s1: Sold, s2: Sold)
    requires SellLine(Current, a, e1) == Success(s1)
    requires SellLine(Current, s1.products, e2) == Success(s2)
    ensures SellCart(Current, a, [e1, e2]) == Fold(s2.products, [s1.line, s2.line], None)
  {
    SellOnly(s1.products, e2, s2);
    SellCartCons(Current, a, e1, [e2], s1);
    assert [e1] + [e2] == [e1, e2];
  }

  lemma SampleCart()
    ensures SellCart(Current, Catalog, [CartEntry("Table", 2), CartEntry("Television", 10)])
         == Fold(SampleSold, [Line("table", 10000, 2, 20000), Line("television", 30000, 10, 300000)], None)
  {
    var e1 := CartEntry("Table", 2);
    var e2 := CartEntry("Television", 10);
    var l1 := Line("table", 10000, 2, 20000);
    var l2 := Line("television", 30000, 10, 300000);
    SellTwoTables();
    SellTenTelevisions();
    SellPair(Catalog, e1, e2, Sold(TwoTablesSold, l1), Sold(SampleSold, l2));
  }

  /** The sample sale: two tables and ten televisions, 12 items for 320000,
      leaving 98 tables and 190 televisions. */
  lemma SampleSale()
    ensures var r := CreateSale(Stocked, Caller(1, Attendant), [CartEntry("Table", 2), CartEntry("Television", 10)]);
            && r.reply == SaleCreated(Sale(1, 12, 320000, Some(1)))
            && r.store.products[0].stock == 98
            && r.store.products[1].stock == 190
  {
    SampleCart();
    var lines := [Line("table", 10000, 2, 20000), Line("television", 30000, 10, 300000)];
    assert ItemsOf(lines) == 12 && TotalOf(lines) == 320000;
  }

  /** The loop over a two-line cart whose second line is refused. */
  lemma SellThenRefuse(a: seq<Product>, e1: CartEntry, e2: CartEntry, s1: Sold, reply: Reply)
    requires SellLine(Current, a, e1) == Success(s1)
    requires SellLine(Current, s1.products, e2) == Failure(reply)
    ensures SellCart(Current, a, [e1, e2]) == Fold(s1.products, [s1.line], Some(reply))
  {
    SellCartStop(Current, s1.products, e2, [], reply);
    SellCartCons(Current, a, e1, [e2], s1);
    assert [e1] + [e2] == [e1, e2];
  }

  lemma PartialCart()
    ensures SellCart(Current, Catalog, [CartEntry("table", 2), CartEntry("television", 1000)])
         == Fold(TwoTablesSold, [Line("table", 10000, 2, 20000)], Some(SaleRejected(BelowFloor("television"))))
  {
    var e1 := CartEntry("table", 2);
    var e2 := CartEntry("television", 1000);
    var refused := SaleRejected(BelowFloor("television"));
    SellTwoTables();
    RefuseThousandTelevisions();
    SellThenRefuse(Catalog, e1, e2, Sold(TwoTablesSold, Line("table", 10000, 2, 20000)), refused);
  }

  /** Not atomic, concretely: the second line of this cart asks for more
      than the stock above the floor, the sale is refused, and yet the two
      tables of the first line are gone from stock. */
  lemma PartialSaleKeepsStock()
    ensures var r := CreateSale(Stocked, Caller(1, Attendant), [CartEntry("table", 2), CartEntry("television", 1000)]);
            && r.reply == SaleRejected(BelowFloor("television"))
            && r.store.products[0].stock == 98
            && r.store.sales == []
  {
    PartialCart();
  }

  /** The corrected create refuses the same cart and keeps every table. */
  lemma AtomicRefusalKeepsStock()
    ensures var r := CreateSaleAtomic(Stocked, Caller(1, Attendant), [CartEntry("table", 2), CartEntry("television", 1000)]);
            && r.reply == SaleRejected(BelowFloor("television"))
            && r.store == Stocked
  {
    PartialSaleKeepsStock();
  }

  /** The older loop over the one-line cart `{"1": table x count}`: the name
      is taken as sent and the count is never checked. */
  lemma LegacyTableCart(count: int)
    requires 100 - count >= 10
    ensures var cart := map["1" := CartEntry("table", count)];
            && KeyedPrefix(cart, 1) == [CartEntry("table", count)]
            && |cart| == 1
            && SellCart(Legacy, Catalog, KeyedPrefix(cart, 1))
               == Fold(Catalog[0 := Catalog[0].(stock := 100 - count)], [Line("table", 10000, count, 10000 * count)], None)
  {
    var cart := map["1" := CartEntry("table", count)];
    assert Decimal(1) == "1";
    assert KeyedPrefix(cart, 2) == [];
    var entries := KeyedPrefix(cart, 1);
    assert entries == [CartEntry("table", count)];
    assert IndexOf(Catalog, ProductName, "table") == Some(0);
    var l := Line("table", 10000, count, 10000 * count);
    var p1 := Catalog[0 := Catalog[0].(stock := 100 - count)];
    assert SellLine(Legacy, Catalog, entries[0]) == Success(Sold(p1, l));
    SellCartStep(Legacy, Catalog, entries);
    SellCartStep(Legacy, p1, entries[1..]);
  }

  /** The older handler never checks the count: a negative count passes the
      floor check and raises the stock, and then the header insert fails. */
  lemma LegacyNegativeCountRaisesStock()
    ensures var r := LegacyCreateSale(Stocked, Caller(1, Attendant), map["1" := CartEntry("table", -5)]);
            && r.reply == ServerError
            && r.store.products[0].stock == 105
            && r.store.sales == []
  {
    LegacyTableCart(-5);
  }

  /** With the header insert corrected, the same cart records a sale of -5
      items for -50000. */
  lemma LegacyIntendedNegativeSale()
    ensures var r := LegacyCreateSaleIntended(Stocked, Caller(1, Attendant), map["1" := CartEntry("table", -5)]);
            && r.reply == SaleCreated(Sale(1, -5, -50000, Some(1)))
            && r.store.products[0].stock == 105
  {
    LegacyTableCart(-5);
    assert ItemsOf([Line("table", 10000, -5, -50000)]) == -5;
    assert TotalOf([Line("table", 10000, -5, -50000)]) == -50000;
  }

  /** As written, the older handler records no sale even for a plain cart:
      the two tables leave stock and the answer is a 500. */
  lemma LegacyInsertFails()
    ensures LegacyCreateSale(Stocked, Caller(1, Attendant), map["1" := CartEntry("table", 2)])
         == Response(ServerError, Stocked.(products := TwoTablesSold))
  {
    LegacyTableCart(2);
  }

  /** With the header insert corrected, the same cart records a sale of 2
      items for 20000 by attendant 1. */
  lemma LegacyIntendedRecords()
    ensures var r := LegacyCreateSaleIntended(Stocked, Caller(1, Attendant), map["1" := CartEntry("table", 2)]);
            && r.reply == SaleCreated(Sale(1, 2, 20000, Some(1)))
            && r.store.products == TwoTablesSold
  {
    LegacyTableCart(2);
    assert ItemsOf([Line("table", 10000, 2, 20000)]) == 2;
    assert TotalOf([Line("table", 10000, 2, 20000)]) == 20000;
  }

  /** The current handler refuses the same count before any lookup, and
      leaves the store untouched. */
  lemma CurrentRefusesNegativeCount()
    ensures CreateSale(Stocked, Caller(1, Attendant), [CartEntry("table", -5)])
         == Response(Message(400, "product count cannot be negative"), Stocked)
  {
    var cart := [CartEntry("table", -5)];
    TableName();
    assert !IsDigits("table") by { assert !IsAsciiDigit("table"[0]); }
    assert SellLine(Current, Catalog, cart[0]) == Failure(Message(400, "product count cannot be negative"));
    SellCartStep(Current, Catalog, cart);
    assert Stocked.(products := Catalog) == Stocked;
  }
}
