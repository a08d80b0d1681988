/** Sale creation and the sale read paths. Both revisions of the create
    handler are a left fold over the cart that, line by line, looks the
    product up by name, refuses the line when the sale would take its stock
    below the minimum, and WRITES the decremented stock at once; only when
    every line passed are the sale header and its line items inserted. A
    failing line therefore leaves the earlier lines' stock writes in place. */
module Sales {
  import opened Wrappers
  import opened Text
  import opened Tables
  import opened Store
  import opened Validators

  /** One `{name, count}` entry of a cart. */
  datatype CartEntry = CartEntry(name: string, count: int)

  /** `Current` is views/sale_views.py, which normalises and validates each
      line; `Legacy` is the older views.py, which does neither. */
  datatype Revision = Current | Legacy

  /** The catalog after one sold line, and that line. */
  datatype Sold = Sold(products: seq<Product>, line: Line)

  /** The catalog after the fold, the lines sold, and the reply of the line
      that stopped the fold, if one did. */
  datatype Fold = Fold(products: seq<Product>, lines: seq<Line>, failure: Option<Reply>)

  /** `b` is `a` with at most the stock column changed. */
  ghost predicate OnlyStockChanged(a: seq<Product>, b: seq<Product>) {
    |a| == |b| && forall i :: 0 <= i < |a| ==> b[i] == a[i].(stock := b[i].stock)
  }

  lemma OnlyStockChangedTrans(a: seq<Product>, b: seq<Product>, c: seq<Product>)
    requires OnlyStockChanged(a, b) && OnlyStockChanged(b, c)
    ensures OnlyStockChanged(a, c)
  {
  }

  /** The line `name` x `count` sells from `products`: the first product of
      that name, its current price, and the cost price x count. */
  ghost predicate LineFor(products: seq<Product>, name: string, count: int, line: Line) {
    match IndexOf(products, ProductName, name)
    case None => false
    case Some(k) => line == Line(name, products[k].price, count, products[k].price * count)
  }

  /** The refusal reason for a name the catalog does not hold. */
  function NoSuchProduct(name: string): string {
    "product named " + name + " does not exist"
  }

  /** The refusal reason for a line that would take stock below its floor. */
  function BelowFloor(name: string): string {
    "cannot sell past minimum stock for " + name
  }

  /** Lookup, stock-floor check and stock write for one line, shared by both
      revisions. */
  function Sell(products: seq<Product>, name: string, count: int): (r: Result<Sold, Reply>)
    ensures IndexOf(products, ProductName, name).None?
            ==> r == Failure(SaleRejected(NoSuchProduct(name)))
    ensures IndexOf(products, ProductName, name).Some? ==>
              var k := IndexOf(products, ProductName, name).value;
              && (r.Success? <==> products[k].stock - count >= products[k].minStock)
              && (r.Failure? ==> r.error == SaleRejected(BelowFloor(name)))
              && (r.Success? ==> |r.value.products| == |products|
                                 && r.value.products[k].stock == products[k].stock - count
                                 && forall j :: 0 <= j < |products| && j != k ==> r.value.products[j] == products[j])
    ensures r.Success? ==> OnlyStockChanged(products, r.value.products)
                           && LineFor(products, name, count, r.value.line)
  {
    match IndexOf(products, ProductName, name)
    case None => Failure(SaleRejected(NoSuchProduct(name)))
    case Some(k) =>
      var p := products[k];
      if p.stock - count < p.minStock then
        Failure(SaleRejected(BelowFloor(name)))
      else
        Success(Sold(products[k := p.(stock := p.stock - count)],
                     Line(name, p.price, count, p.price * count)))
  }

  /** The product name a revision looks up for a cart entry. */
  function LineName(rev: Revision, e: CartEntry): string {
    match rev
    case Current => Normalize(e.name)
    case Legacy => e.name
  }

  /** One iteration of the create loop. */
  function SellLine(rev: Revision, products: seq<Product>, e: CartEntry): (r: Result<Sold, Reply>)
    ensures rev == Current && ValidateSaleItem(Normalize(e.name), e.count).Some?
            ==> r == Failure(Message(400, ValidateSaleItem(Normalize(e.name), e.count).value))
    ensures rev == Legacy || ValidateSaleItem(Normalize(e.name), e.count).None?
            ==> r == Sell(products, LineName(rev, e), e.count)
    ensures r.Failure? ==> r.error.Message? || r.error.SaleRejected?
  {
    match rev
    case Legacy => Sell(products, e.name, e.count)
    case Current =>
      var name := Normalize(e.name);
      match ValidateSaleItem(name, e.count)
      case Some(m) => Failure(Message(400, m))
      case None => Sell(products, name, e.count)
  }

  /** In the current revision, a valid line whose name normalises to `name`
      sells exactly as `name` does. */
  lemma SellLineNormal(products: seq<Product>, e: CartEntry, name: string)
    requires Normalize(e.name) == name && !IsDigits(name) && e.count >= 1
    ensures SellLine(Current, products, e) == Sell(products, name, e.count)
  {
  }

  /** The create loop run over the first `k` lines of the cart. */
  function SellFirst(rev: Revision, products: seq<Product>, cart: seq<CartEntry>, k: nat): (f: Fold)
    requires k <= |cart|
    ensures OnlyStockChanged(products, f.products)
    ensures f.failure.None? ==> |f.lines| == k
    ensures f.failure.Some? ==> f.failure.value.Message? || f.failure.value.SaleRejected?
    decreases k
  {
    if k == 0 then Fold(products, [], None)
    else match SellLine(rev, products, cart[0])
      case Failure(reply) => Fold(products, [], Some(reply))
      case Success(sold) =>
        var rest := SellFirst(rev, sold.products, cart[1..], k - 1);
        OnlyStockChangedTrans(products, sold.products, rest.products);
        Fold(rest.products, [sold.line] + rest.lines, rest.failure)
  }

  /** The create loop over the whole cart. */
  function SellCart(rev: Revision, products: seq<Product>, cart: seq<CartEntry>): (f: Fold)
    ensures OnlyStockChanged(products, f.products)
    ensures f.failure.None? ==> |f.lines| == |cart|
    ensures f.failure.Some? ==> f.failure.value.Message? || f.failure.value.SaleRejected?
  {
    SellFirst(rev, products, cart, |cart|)
  }

  /** One unfolding of the loop: an empty cart sells nothing; otherwise the
      first line either stops the loop or is followed by the rest of the
      cart run on the catalog it left. */
  lemma SellCartStep(rev: Revision, products: seq<Product>, cart: seq<CartEntry>)
    ensures |cart| == 0 ==> SellCart(rev, products, cart) == Fold(products, [], None)
    ensures |cart| > 0 && SellLine(rev, products, cart[0]).Failure?
            ==> SellCart(rev, products, cart) == Fold(products, [], Some(SellLine(rev, products, cart[0]).error))
    ensures |cart| > 0 && SellLine(rev, products, cart[0]).Success? ==>
              var sold := SellLine(rev, products, cart[0]).value;
              var rest := SellCart(rev, sold.products, cart[1..]);
              SellCart(rev, products, cart) == Fold(rest.products, [sold.line] + rest.lines, rest.failure)
  {
  }

  /** One unfolding of the loop over the first `k` lines when the first sells. */
  lemma SellFirstStep(rev: Revision, products: seq<Product>, cart: seq<CartEntry>, k: nat, sold: Sold)
    requires 0 < k <= |cart|
    requires SellLine(rev, products, cart[0]) == Success(sold)
    ensures var rest := SellFirst(rev, sold.products, cart[1..], k - 1);
            SellFirst(rev, products, cart, k) == Fold(rest.products, [sold.line] + rest.lines, rest.failure)
  {
  }

  /** A cart that goes through sold its first line and then the rest, from
      the catalog the first line left. */
  lemma SellCartHead(rev: Revision, products: seq<Product>, cart: seq<CartEntry>)
    requires |cart| > 0 && SellCart(rev, products, cart).failure.None?
    ensures SellLine(rev, products, cart[0]).Success?
    ensures var sold := SellLine(rev, products, cart[0]).value;
            var rest := SellCart(rev, sold.products, cart[1..]);
            && rest.failure.None?
            && SellCart(rev, products, cart).products == rest.products
  {
    SellCartStep(rev, products, cart);
  }

  /** The loop on a cart `[e] + rest` whose first line sells. */
  lemma SellCartCons(rev: Revision, products: seq<Product>, e: CartEntry, rest: seq<CartEntry>, sold: Sold)
    requires SellLine(rev, products, e) == Success(sold)
    ensures var tail := SellCart(rev, sold.products, rest);
            SellCart(rev, products, [e] + rest) == Fold(tail.products, [sold.line] + tail.lines, tail.failure)
  {
    SellCartStep(rev, products, [e] + rest);
    assert ([e] + rest)[1..] == rest;
  }

  /** The loop on a cart `[e] + rest` whose first line is refused. */
  lemma SellCartStop(rev: Revision, products: seq<Product>, e: CartEntry, rest: seq<CartEntry>, reply: Reply)
    requires SellLine(rev, products, e) == Failure(reply)
    ensures SellCart(rev, products, [e] + rest) == Fold(products, [], Some(reply))
  {
    SellCartStep(rev, products, [e] + rest);
  }

  /** Tables that differ only in stock resolve every name alike and price it alike. */
  lemma SameCatalog(a: seq<Product>, b: seq<Product>, name: string, count: int, line: Line)
    requires OnlyStockChanged(a, b)
    ensures IndexOf(a, ProductName, name) == IndexOf(b, ProductName, name)
    ensures LineFor(a, name, count, line) <==> LineFor(b, name, count, line)
  {
    assert forall i :: 0 <= i < |a| ==> ProductName(a[i]) == ProductName(b[i]);
    IndexOfSameColumn(a, b, ProductName, name);
  }

  /** A line that sells is priced from the catalog it was sold from. */
  lemma SoldLine(rev: Revision, products: seq<Product>, e: CartEntry)
    requires SellLine(rev, products, e).Success?
    ensures LineFor(products, LineName(rev, e), e.count, SellLine(rev, products, e).value.line)
  {
  }

  /** `lines` are, one for one, the lines `cart` sells from `products`. */
  ghost predicate LinesFor(rev: Revision, products: seq<Product>, cart: seq<CartEntry>, lines: seq<Line>)
    decreases |cart|
  {
    && |cart| == |lines|
    && (|cart| > 0 ==> LineFor(products, LineName(rev, cart[0]), cart[0].count, lines[0])
                       && LinesFor(rev, products, cart[1..], lines[1..]))
  }

  lemma {:induction false} LinesForSameCatalog(rev: Revision, a: seq<Product>, b: seq<Product>, cart: seq<CartEntry>, lines: seq<Line>)
    requires OnlyStockChanged(a, b) && LinesFor(rev, b, cart, lines)
    ensures LinesFor(rev, a, cart, lines)
    decreases |cart|
  {
    if |cart| > 0 {
      SameCatalog(a, b, LineName(rev, cart[0]), cart[0].count, lines[0]);
      LinesForSameCatalog(rev, a, b, cart[1..], lines[1..]);
    }
  }

  lemma {:induction false} LinesForAt(rev: Revision, products: seq<Product>, cart: seq<CartEntry>, lines: seq<Line>, i: nat)
    requires LinesFor(rev, products, cart, lines) && i < |cart|
    ensures LineFor(products, LineName(rev, cart[i]), cart[i].count, lines[i])
    decreases i
  {
    var e, l := cart[i], lines[i];
    if i > 0 {
      var cs, ls := cart[1..], lines[1..];
      assert LinesFor(rev, products, cs, ls);
      LinesForAt(rev, products, cs, ls, i - 1);
      assert cs[i - 1] == e && ls[i - 1] == l;
    }
  }

  /** A cart that goes through yields, in cart order, one line per entry:
      the looked-up name, the price of that product in the catalog as it
      was before the sale, the count, and price x count. */
  lemma {:induction false} SoldLines(rev: Revision, products: seq<Product>, cart: seq<CartEntry>)
    requires SellCart(rev, products, cart).failure.None?
    ensures LinesFor(rev, products, cart, SellCart(rev, products, cart).lines)
    decreases |cart|
  {
    if |cart| > 0 {
      SellCartStep(rev, products, cart);
      var sold := SellLine(rev, products, cart[0]).value;
      var rest := SellCart(rev, sold.products, cart[1..]);
      SoldLines(rev, sold.products, cart[1..]);
      SoldLine(rev, products, cart[0]);
      LinesForSameCatalog(rev, products, sold.products, cart[1..], rest.lines);
      assert ([sold.line] + rest.lines)[1..] == rest.lines;
    }
  }

  /** How many units of the catalog row `j` a cart asks for. */
  function Demand(rev: Revision, products: seq<Product>, cart: seq<CartEntry>, j: nat): int
    decreases |cart|
  {
    if |cart| == 0 then 0
    else (if IndexOf(products, ProductName, LineName(rev, cart[0])) == Some(j) then cart[0].count else 0)
         + Demand(rev, products, cart[1..], j)
  }

  lemma {:induction false} DemandSameCatalog(rev: Revision, a: seq<Product>, b: seq<Product>, cart: seq<CartEntry>, j: nat)
    requires OnlyStockChanged(a, b)
    ensures Demand(rev, a, cart, j) == Demand(rev, b, cart, j)
    decreases |cart|
  {
    if |cart| > 0 {
      SameCatalog(a, b, LineName(rev, cart[0]), 0, Line([], 0, 0, 0));
      DemandSameCatalog(rev, a, b, cart[1..], j);
    }
  }

  /** A cart that goes through lowers each product's stock by exactly the
      units the cart asks of it, and touches no other column. */
  lemma {:induction false} StockAfterSale(rev: Revision, products: seq<Product>, cart: seq<CartEntry>)
    requires SellCart(rev, products, cart).failure.None?
    ensures var f := SellCart(rev, products, cart);
            forall j :: 0 <= j < |products| ==> f.products[j].stock == products[j].stock - Demand(rev, products, cart, j)
    decreases |cart|
  {
    if |cart| > 0 {
      SellCartStep(rev, products, cart);
      var f := SellCart(rev, products, cart);
      var sold := SellLine(rev, products, cart[0]).value;
      StockAfterSale(rev, sold.products, cart[1..]);
      forall j | 0 <= j < |products|
        ensures f.products[j].stock == products[j].stock - Demand(rev, products, cart, j)
      {
        DemandSameCatalog(rev, products, sold.products, cart[1..], j);
      }
    }
  }

  /** Units in a list of lines. */
  function ItemsOf(lines: seq<Line>): int
    decreases |lines|
  {
    if |lines| == 0 then 0 else lines[0].quantity + ItemsOf(lines[1..])
  }

  /** Cost of a list of lines. */
  function TotalOf(lines: seq<Line>): int
    decreases |lines|
  {
    if |lines| == 0 then 0 else lines[0].cost + TotalOf(lines[1..])
  }

  /** Units a cart asks for. */
  function CartItems(cart: seq<CartEntry>): int
    decreases |cart|
  {
    if |cart| == 0 then 0 else cart[0].count + CartItems(cart[1..])
  }

  /** The price of the first product called `name`, 0 if there is none. */
  function PriceOf(products: seq<Product>, name: string): int {
    match IndexOf(products, ProductName, name)
    case None => 0
    case Some(k) => products[k].price
  }

  /** What a cart costs at the catalog's prices. */
  function CartTotal(rev: Revision, products: seq<Product>, cart: seq<CartEntry>): int
    decreases |cart|
  {
    if |cart| == 0 then 0
    else PriceOf(products, LineName(rev, cart[0])) * cart[0].count + CartTotal(rev, products, cart[1..])
  }

  /** The sale header's `items` is the sum of the counts and its `total` the
      sum of price x count, prices taken from the catalog before the sale. */
  lemma {:induction false} SaleTotals(rev: Revision, products: seq<Product>, cart: seq<CartEntry>)
    requires SellCart(rev, products, cart).failure.None?
    ensures ItemsOf(SellCart(rev, products, cart).lines) == CartItems(cart)
    ensures TotalOf(SellCart(rev, products, cart).lines) == CartTotal(rev, products, cart)
    decreases |cart|
  {
    if |cart| > 0 {
      SellCartStep(rev, products, cart);
      var f := SellCart(rev, products, cart);
      var sold := SellLine(rev, products, cart[0]).value;
      var rest := SellCart(rev, sold.products, cart[1..]);
      SaleTotals(rev, sold.products, cart[1..]);
      assert f.lines[1..] == rest.lines;
      CartTotalSameCatalog(rev, products, sold.products, cart[1..]);
    }
  }

  lemma {:induction false} CartTotalSameCatalog(rev: Revision, a: seq<Product>, b: seq<Product>, cart: seq<CartEntry>)
    requires OnlyStockChanged(a, b)
    ensures CartTotal(rev, a, cart) == CartTotal(rev, b, cart)
    decreases |cart|
  {
    if |cart| > 0 {
      SameCatalog(a, b, LineName(rev, cart[0]), 0, Line([], 0, 0, 0));
      CartTotalSameCatalog(rev, a, b, cart[1..]);
    }
  }

  /** Not atomic: when line k of the cart fails, the catalog is left exactly
      as the first k lines made it (their stock writes stay), and the reply
      is line k's. */
  lemma {:induction false} FailureKeepsEarlierWrites(rev: Revision, products: seq<Product>, cart: seq<CartEntry>)
    requires SellCart(rev, products, cart).failure.Some?
    ensures var f := SellCart(rev, products, cart);
            exists k :: 0 <= k < |cart|
              && SellFirst(rev, products, cart, k).failure.None?
              && SellFirst(rev, products, cart, k).products == f.products
              && SellLine(rev, f.products, cart[k]) == Failure(f.failure.value)
    decreases |cart|
  {
    var f := SellCart(rev, products, cart);
    SellCartStep(rev, products, cart);
    var first := SellLine(rev, products, cart[0]);
    if first.Failure? {
      assert SellFirst(rev, products, cart, 0).products == f.products;
    } else {
      var sold := first.value;
      var tail := cart[1..];
      var g := SellCart(rev, sold.products, tail);
      FailureKeepsEarlierWrites(rev, sold.products, tail);
      var k :| 0 <= k < |tail|
               && SellFirst(rev, sold.products, tail, k).failure.None?
               && SellFirst(rev, sold.products, tail, k).products == g.products
               && SellLine(rev, g.products, tail[k]) == Failure(g.failure.value);
      assert tail[k] == cart[k + 1];
      assert f.products == g.products && f.failure == g.failure;
      SellFirstShift(rev, products, cart, sold, k);
    }
  }

  /** The first `k + 1` lines of a cart whose first line sold leave what the
      first `k` lines of the rest leave, from the catalog the first line left. */
  lemma SellFirstShift(rev: Revision, products: seq<Product>, cart: seq<CartEntry>, sold: Sold, k: nat)
    requires k + 1 <= |cart|
    requires SellLine(rev, products, cart[0]) == Success(sold)
    ensures SellFirst(rev, products, cart, k + 1).failure == SellFirst(rev, sold.products, cart[1..], k).failure
    ensures SellFirst(rev, products, cart, k + 1).products == SellFirst(rev, sold.products, cart[1..], k).products
  {
    SellFirstStep(rev, products, cart, k + 1, sold);
  }

  /** The loop over no lines sells nothing. */
  lemma SellFirstZero(rev: Revision, products: seq<Product>, cart: seq<CartEntry>)
    ensures SellFirst(rev, products, cart, 0) == Fold(products, [], None)
  {
  }

  /** A cart that goes through sells each line k from the catalog the lines
      before it left. */
  lemma {:induction false} PassingCartSellsEveryLine(rev: Revision, products: seq<Product>, cart: seq<CartEntry>)
    requires SellCart(rev, products, cart).failure.None?
    ensures forall k :: 0 <= k < |cart| ==> SellLine(rev, SellFirst(rev, products, cart, k).products, cart[k]).Success?
    decreases |cart|
  {
    if |cart| > 0 {
      SellCartHead(rev, products, cart);
      var sold := SellLine(rev, products, cart[0]).value;
      var tail := cart[1..];
      PassingCartSellsEveryLine(rev, sold.products, tail);
      forall k | 0 <= k < |cart|
        ensures SellLine(rev, SellFirst(rev, products, cart, k).products, cart[k]).Success?
      {
        if k == 0 {
          SellFirstZero(rev, products, cart);
        } else {
          SellFirstStep(rev, products, cart, k, sold);
          assert tail[k - 1] == cart[k];
        }
      }
    }
  }

  /** A cart goes through exactly when each line k sells from the catalog
      the lines before it left. */
  lemma EveryLinePasses(rev: Revision, products: seq<Product>, cart: seq<CartEntry>)
    ensures SellCart(rev, products, cart).failure.None?
            <==> forall k :: 0 <= k < |cart| ==> SellLine(rev, SellFirst(rev, products, cart, k).products, cart[k]).Success?
  {
    if SellCart(rev, products, cart).failure.None? {
      PassingCartSellsEveryLine(rev, products, cart);
    } else {
      FailureKeepsEarlierWrites(rev, products, cart);
    }
  }

  /** In the current revision every sold line has a count of at least 1, so a
      sale that goes through never raises a product's stock. */
  lemma CurrentNeverRaisesStock(products: seq<Product>, cart: seq<CartEntry>)
    requires SellCart(Current, products, cart).failure.None?
    ensures forall j :: 0 <= j < |products| ==> SellCart(Current, products, cart).products[j].stock <= products[j].stock
    ensures forall i :: 0 <= i < |cart| ==> cart[i].count >= 1
  {
    CurrentCountsPositive(products, cart);
    CurrentStockBound(products, cart);
  }

  lemma {:induction false} CurrentCountsPositive(products: seq<Product>, cart: seq<CartEntry>)
    requires SellCart(Current, products, cart).failure.None?
    ensures forall i :: 0 <= i < |cart| ==> cart[i].count >= 1
    decreases |cart|
  {
    if |cart| > 0 {
      var next := CurrentHead(products, cart);
      CurrentCountsPositive(next, cart[1..]);
      forall i | 1 <= i < |cart|
        ensures cart[i].count >= 1
      {
        assert cart[i] == cart[1..][i - 1];
      }
    }
  }

  lemma {:induction false} CurrentStockBound(products: seq<Product>, cart: seq<CartEntry>)
    requires SellCart(Current, products, cart).failure.None?
    ensures forall j :: 0 <= j < |products| ==> SellCart(Current, products, cart).products[j].stock <= products[j].stock
    decreases |cart|
  {
    if |cart| > 0 {
      var next := CurrentHead(products, cart);
      CurrentStockBound(next, cart[1..]);
    }
  }

  /** The first line of a cart the current revision sells: it has at least
      one unit, and the rest of the cart then sells from the catalog `next`
      it left, whose stocks are no higher. */
  lemma CurrentHead(products: seq<Product>, cart: seq<CartEntry>) returns (next: seq<Product>)
    requires |cart| > 0 && SellCart(Current, products, cart).failure.None?
    ensures cart[0].count >= 1
    ensures SellCart(Current, next, cart[1..]).failure.None?
    ensures SellCart(Current, products, cart).products == SellCart(Current, next, cart[1..]).products
    ensures |next| == |products|
    ensures forall j :: 0 <= j < |products| ==> next[j].stock <= products[j].stock
  {
    SellCartHead(Current, products, cart);
    var e := cart[0];
    var sold := SellLine(Current, products, e).value;
    SoldCountPositive(products, e);
    SellNeverRaises(products, Normalize(e.name), e.count, sold);
    next := sold.products;
  }

  /** A line the current revision sells has a count of at least one, and
      was sold under its normalised name. */
  lemma SoldCountPositive(products: seq<Product>, e: CartEntry)
    requires SellLine(Current, products, e).Success?
    ensures e.count >= 1
    ensures SellLine(Current, products, e) == Sell(products, Normalize(e.name), e.count)
  {
  }

  /** A line of at least one unit raises no stock. */
  lemma SellNeverRaises(products: seq<Product>, name: string, count: int, sold: Sold)
    requires count >= 1 && Sell(products, name, count) == Success(sold)
    ensures forall j :: 0 <= j < |products| ==> sold.products[j].stock <= products[j].stock
  {
  }

  /** The sale_record_items rows of a sale, item ids counting up from `first`. */
  function ItemsFor(lines: seq<Line>, saleId: nat, first: nat): (r: seq<SaleItem>)
    ensures |r| == |lines|
    ensures forall i :: 0 <= i < |r| ==> r[i] == SaleItem(first + i, lines[i], saleId)
  {
    seq(|lines|, i requires 0 <= i < |lines| => SaleItem(first + i, lines[i], saleId))
  }

  /** After the loop: keep the stock writes, and on success insert one
      sale header and one item per line. */
  function Settle(st: Store, f: Fold, attendant: Option<nat>): (r: Response)
    ensures f.failure.Some? ==> r == Response(f.failure.value, st.(products := f.products))
    ensures f.failure.None? ==>
              var sale := Sale(st.nextSale, ItemsOf(f.lines), TotalOf(f.lines), attendant);
              && r.reply == SaleCreated(sale)
              && r.store.products == f.products
              && r.store.categories == st.categories && r.store.users == st.users
              && r.store.sales == st.sales + [sale]
              && r.store.saleItems == st.saleItems + ItemsFor(f.lines, st.nextSale, st.nextSaleItem)
              && r.store.nextSale == st.nextSale + 1
              && r.store.nextSaleItem == st.nextSaleItem + |f.lines|
              && r.store.nextCategory == st.nextCategory && r.store.nextProduct == st.nextProduct
              && r.store.nextUser == st.nextUser
  {
    if f.failure.Some? then Response(f.failure.value, st.(products := f.products))
    else
      var sale := Sale(st.nextSale, ItemsOf(f.lines), TotalOf(f.lines), attendant);
      var items := ItemsFor(f.lines, sale.id, st.nextSaleItem);
      Response(SaleCreated(sale),
               st.(products := f.products,
                   sales := st.sales + [sale],
                   saleItems := st.saleItems + items,
                   nextSale := st.nextSale + 1,
                   nextSaleItem := st.nextSaleItem + |items|))
  }

  const NotAttendant := "only attendants can create a sale record"

  /** `SaleRecords.post` of views/sale_views.py. */
  function CreateSale(st: Store, caller: Caller, cart: seq<CartEntry>): (r: Response)
    ensures caller.role != Attendant ==> r == Response(Message(403, NotAttendant), st)
    ensures r.store.categories == st.categories && r.store.users == st.users
    ensures OnlyStockChanged(st.products, r.store.products)
    ensures !r.reply.SaleCreated? ==> r.store.sales == st.sales && r.store.saleItems == st.saleItems
    ensures caller.role == Attendant ==>
              var f := SellCart(Current, st.products, cart);
              && (r.reply.SaleCreated? <==> f.failure.None?)
              && (f.failure.Some? ==> r == Response(f.failure.value, st.(products := f.products)))
              && r.store.products == f.products
    ensures r.reply.SaleCreated? ==>
              && caller.role == Attendant
              && r.reply.sale.id == st.nextSale
              && r.reply.sale.attendantId == Some(caller.id)
              && r.reply.sale.items == CartItems(cart)
              && r.reply.sale.total == CartTotal(Current, st.products, cart)
              && r.store.sales == st.sales + [r.reply.sale]
  {
    if caller.role != Attendant then Response(Message(403, NotAttendant), st)
    else
      var f := SellCart(Current, st.products, cart);
      if f.failure.None? then
        SaleTotals(Current, st.products, cart);
        Settle(st, f, Some(caller.id))
      else Settle(st, f, Some(caller.id))
  }

  /** A sale that goes through stores one item per cart entry, in cart order,
      after the existing items: each tied to the new sale and carrying the
      normalised name, the count, and the pre-sale catalog price. */
  lemma CreatedItems(st: Store, caller: Caller, cart: seq<CartEntry>)
    requires CreateSale(st, caller, cart).reply.SaleCreated?
    ensures var r := CreateSale(st, caller, cart);
            && |r.store.saleItems| == |st.saleItems| + |cart|
            && r.store.saleItems[..|st.saleItems|] == st.saleItems
            && forall i :: 0 <= i < |cart| ==>
                 var item := r.store.saleItems[|st.saleItems| + i];
                 && item.id == st.nextSaleItem + i
                 && item.saleId == st.nextSale
                 && LineFor(st.products, Normalize(cart[i].name), cart[i].count, item.line)
  {
    var f := SellCart(Current, st.products, cart);
    SoldLines(Current, st.products, cart);
    var items := ItemsFor(f.lines, st.nextSale, st.nextSaleItem);
    assert (st.saleItems + items)[..|st.saleItems|] == st.saleItems;
    forall i | 0 <= i < |cart|
      ensures LineFor(st.products, Normalize(cart[i].name), cart[i].count, f.lines[i])
    {
      LinesForAt(Current, st.products, cart, f.lines, i);
    }
  }

  /** What the all-or-nothing create refuses line k with, if anything. The
      line is validated and looked up as the handler does, but since nothing
      is written until the whole cart has passed, its floor is checked
      against the stock less what the lines before it ask of that product. */
  function LineRefusal(products: seq<Product>, cart: seq<CartEntry>, k: nat): Option<Reply>
    requires k < |cart|
  {
    var e := cart[k];
    var name := Normalize(e.name);
    match ValidateSaleItem(name, e.count)
    case Some(m) => Some(Message(400, m))
    case None =>
      match IndexOf(products, ProductName, name)
      case None => Some(SaleRejected(NoSuchProduct(name)))
      case Some(j) =>
        if products[j].stock - Demand(Current, products, cart[..k], j) - e.count < products[j].minStock
        then Some(SaleRejected(BelowFloor(name)))
        else None
  }

  /** The first line from k on that the all-or-nothing create refuses. */
  function FirstRefusal(products: seq<Product>, cart: seq<CartEntry>, k: nat): Option<Reply>
    requires k <= |cart|
    decreases |cart| - k
  {
    if k == |cart| then None
    else match LineRefusal(products, cart, k)
      case Some(reply) => Some(reply)
      case None => FirstRefusal(products, cart, k + 1)
  }

  /** The catalog with each product's stock lowered by what the cart asks of it. */
  function Withdraw(products: seq<Product>, cart: seq<CartEntry>): seq<Product> {
    seq(|products|, j requires 0 <= j < |products| =>
      products[j].(stock := products[j].stock - Demand(Current, products, cart, j)))
  }

  /** Each cart entry as a line priced from the catalog. */
  function PricedLines(products: seq<Product>, cart: seq<CartEntry>): seq<Line> {
    seq(|cart|, i requires 0 <= i < |cart| =>
      var name := Normalize(cart[i].name);
      Line(name, PriceOf(products, name), cart[i].count, PriceOf(products, name) * cart[i].count))
  }

  /** The store after the all-or-nothing create records a cart: every stock
      lowered once by its demand, then the header and one item per entry. */
  function AtomicSale(st: Store, attendant: nat, cart: seq<CartEntry>): Response {
    var sale := Sale(st.nextSale, CartItems(cart), CartTotal(Current, st.products, cart), Some(attendant));
    Response(SaleCreated(sale),
             st.(products := Withdraw(st.products, cart),
                 sales := st.sales + [sale],
                 saleItems := st.saleItems + ItemsFor(PricedLines(st.products, cart), sale.id, st.nextSaleItem),
                 nextSale := st.nextSale + 1,
                 nextSaleItem := st.nextSaleItem + |cart|))
  }

  /** The all-or-nothing create the handler evidently intends, defined on
      its own: check every line against the untouched catalog, and write
      only when all of them pass. It answers as the handler does, records
      the same sale, and leaves a refused cart's store as it found it. */
  function CreateSaleAtomic(st: Store, caller: Caller, cart: seq<CartEntry>): (r: Response)
    ensures r.reply == CreateSale(st, caller, cart).reply
    ensures r.reply.SaleCreated? ==> r.store == CreateSale(st, caller, cart).store
    ensures !r.reply.SaleCreated? ==> r.store == st
  {
    if caller.role != Attendant then Response(Message(403, NotAttendant), st)
    else
      AtomicRefusalAgrees(st.products, cart);
      match FirstRefusal(st.products, cart, 0)
      case Some(reply) => Response(reply, st)
      case None =>
        AtomicSettles(st, caller.id, cart);
        AtomicSale(st, caller.id, cart)
  }

  /** With nothing sold before it, line 0 is refused exactly as the loop refuses it. */
  lemma LineRefusalHead(products: seq<Product>, cart: seq<CartEntry>)
    requires |cart| > 0
    ensures var s := SellLine(Current, products, cart[0]);
            LineRefusal(products, cart, 0) == if s.Failure? then Some(s.error) else None
  {
    assert cart[..0] == [];
  }

  /** Line k of a cart whose first line sold is judged as line k - 1 of the
      rest, against the catalog the first line left. */
  lemma LineRefusalShift(products: seq<Product>, cart: seq<CartEntry>, sold: Sold, k: nat)
    requires 0 < k < |cart|
    requires SellLine(Current, products, cart[0]) == Success(sold)
    ensures LineRefusal(products, cart, k) == LineRefusal(sold.products, cart[1..], k - 1)
  {
    var tail := cart[1..];
    var e := cart[k];
    var name := Normalize(e.name);
    var name0 := Normalize(cart[0].name);
    assert tail[k - 1] == e;
    assert cart[..k][1..] == tail[..k - 1];
    SoldCountPositive(products, cart[0]);
    SellLowers(products, name0, cart[0].count, sold);
    SameCatalog(products, sold.products, name, 0, Line([], 0, 0, 0));
    match IndexOf(products, ProductName, name)
    case None =>
    case Some(j) =>
      DemandSameCatalog(Current, products, sold.products, tail[..k - 1], j);
      assert sold.products[j].stock - Demand(Current, sold.products, tail[..k - 1], j)
             == products[j].stock - Demand(Current, products, cart[..k], j);
  }

  /** A line that sells lowers its product's stock by its count and leaves
      every other row alone. */
  lemma SellLowers(products: seq<Product>, name: string, count: int, sold: Sold)
    requires Sell(products, name, count) == Success(sold)
    ensures OnlyStockChanged(products, sold.products)
    ensures forall j :: 0 <= j < |products| ==>
              sold.products[j].stock
              == products[j].stock - (if IndexOf(products, ProductName, name) == Some(j) then count else 0)
  {
  }

  lemma {:induction false} FirstRefusalShift(products: seq<Product>, cart: seq<CartEntry>, sold: Sold, k: nat)
    requires 0 < k <= |cart|
    requires SellLine(Current, products, cart[0]) == Success(sold)
    ensures FirstRefusal(products, cart, k) == FirstRefusal(sold.products, cart[1..], k - 1)
    decreases |cart| - k
  {
    if k < |cart| {
      LineRefusalShift(products, cart, sold, k);
      FirstRefusalShift(products, cart, sold, k + 1);
    }
  }

  /** The all-or-nothing create refuses a cart exactly when the handler's
      loop does, and with the same reply. */
  lemma {:induction false} AtomicRefusalAgrees(products: seq<Product>, cart: seq<CartEntry>)
    ensures FirstRefusal(products, cart, 0) == SellCart(Current, products, cart).failure
    decreases |cart|
  {
    SellCartStep(Current, products, cart);
    if |cart| > 0 {
      LineRefusalHead(products, cart);
      match SellLine(Current, products, cart[0])
      case Failure(err) =>
        assert FirstRefusal(products, cart, 0) == Some(err);
      case Success(sold) =>
        assert FirstRefusal(products, cart, 0) == FirstRefusal(products, cart, 1);
        FirstRefusalShift(products, cart, sold, 1);
        AtomicRefusalAgrees(sold.products, cart[1..]);
    }
  }

  /** When the loop sells the whole cart, it leaves the catalog that
      `Withdraw` computes. */
  lemma WithdrawAgrees(products: seq<Product>, cart: seq<CartEntry>)
    requires SellCart(Current, products, cart).failure.None?
    ensures SellCart(Current, products, cart).products == Withdraw(products, cart)
  {
    var f := SellCart(Current, products, cart);
    var w := Withdraw(products, cart);
    StockAfterSale(Current, products, cart);
    forall j | 0 <= j < |products|
      ensures f.products[j] == w[j]
    {
      assert f.products[j] == products[j].(stock := f.products[j].stock);
    }
  }

  /** When the loop sells the whole cart, its lines are `PricedLines`. */
  lemma PricedLinesAgree(products: seq<Product>, cart: seq<CartEntry>)
    requires SellCart(Current, products, cart).failure.None?
    ensures SellCart(Current, products, cart).lines == PricedLines(products, cart)
  {
    var f := SellCart(Current, products, cart);
    SoldLines(Current, products, cart);
    forall i | 0 <= i < |cart|
      ensures f.lines[i] == PricedLines(products, cart)[i]
    {
      LinesForAt(Current, products, cart, f.lines, i);
    }
  }

  /** When the loop sells the whole cart, settling it stores what the
      all-or-nothing create stores. */
  lemma AtomicSettles(st: Store, attendant: nat, cart: seq<CartEntry>)
    requires SellCart(Current, st.products, cart).failure.None?
    ensures Settle(st, SellCart(Current, st.products, cart), Some(attendant)) == AtomicSale(st, attendant, cart)
  {
    WithdrawAgrees(st.products, cart);
    PricedLinesAgree(st.products, cart);
    SaleTotals(Current, st.products, cart);
  }

  /** The older cart: a dictionary keyed "1", "2", ... The entries for
      "i", "i+1", ... up to the first missing key or the dictionary's size. */
  function KeyedPrefix(cart: map<string, CartEntry>, i: nat): (r: seq<CartEntry>)
    requires i >= 1
    ensures i + |r| <= |cart| + 1 || |r| == 0
    ensures forall k :: i <= k < i + |r| ==> Decimal(k) in cart && r[k - i] == cart[Decimal(k)]
    ensures i + |r| <= |cart| ==> Decimal(i + |r|) !in cart
    decreases |cart| + 1 - i
  {
    if i > |cart| || Decimal(i) !in cart then []
    else [cart[Decimal(i)]] + KeyedPrefix(cart, i + 1)
  }

  /** A prefix as long as the dictionary means every key "1".."n" is present. */
  lemma FullPrefix(cart: map<string, CartEntry>)
    requires |KeyedPrefix(cart, 1)| == |cart|
    ensures forall i :: 1 <= i <= |cart| ==> Decimal(i) in cart
  {
    var entries := KeyedPrefix(cart, 1);
    forall i | 1 <= i <= |cart| ensures Decimal(i) in cart {
      assert entries[i - 1] == cart[Decimal(i)];
    }
  }

  /** `SaleRecords.post` of views.py as written: iterates `items[str(i + 1)]`
      for i below the dictionary's size (a missing key raises KeyError, a
      500, after the earlier lines' stock writes), takes names as given and
      never checks the count. When every line passes it inserts the header
      with two values, items and total, into `CREATE_SALE`, which has three
      placeholders; that insert fails, so the answer is a 500 after every
      stock write, and no sale is ever recorded. */
  function LegacyCreateSale(st: Store, caller: Caller, cart: map<string, CartEntry>): (r: Response)
    ensures caller.role != Attendant ==> r == Response(Message(403, NotAttendant), st)
    ensures !r.reply.SaleCreated?
    ensures r.store.categories == st.categories && r.store.users == st.users
    ensures r.store.sales == st.sales && r.store.saleItems == st.saleItems
    ensures OnlyStockChanged(st.products, r.store.products)
    ensures caller.role == Attendant ==>
              var f := SellCart(Legacy, st.products, KeyedPrefix(cart, 1));
              && r.store == st.(products := f.products)
              && (f.failure.Some? ==> r.reply == f.failure.value)
              && (f.failure.None? ==> r.reply == ServerError)
  {
    if caller.role != Attendant then Response(Message(403, NotAttendant), st)
    else
      var f := SellCart(Legacy, st.products, KeyedPrefix(cart, 1));
      if f.failure.Some? then Settle(st, f, None)
      else Response(ServerError, st.(products := f.products))
  }

  /** The older handler as evidently intended: the header is inserted with
      the attendant's id as its third value, as views/sale_views.py does. A
      sale is then recorded exactly when every key "1".."n" is present and
      every line passes. */
  function LegacyCreateSaleIntended(st: Store, caller: Caller, cart: map<string, CartEntry>): (r: Response)
    ensures caller.role != Attendant ==> r == Response(Message(403, NotAttendant), st)
    ensures r.store.categories == st.categories && r.store.users == st.users
    ensures OnlyStockChanged(st.products, r.store.products)
    ensures !r.reply.SaleCreated? ==> r.store.sales == st.sales && r.store.saleItems == st.saleItems
    ensures caller.role == Attendant ==>
              var entries := KeyedPrefix(cart, 1);
              var f := SellCart(Legacy, st.products, entries);
              && (r.reply.SaleCreated? <==> f.failure.None? && |entries| == |cart|)
              && (f.failure.Some? ==> r == Response(f.failure.value, st.(products := f.products)))
              && (f.failure.None? && |entries| < |cart| ==> r == Response(ServerError, st.(products := f.products)))
              && r.store.products == f.products
    ensures r.reply.SaleCreated? ==>
              && r.store.sales == st.sales + [r.reply.sale]
              && (forall i :: 1 <= i <= |cart| ==> Decimal(i) in cart)
              && r.reply.sale.id == st.nextSale
              && r.reply.sale.attendantId == Some(caller.id)
              && r.reply.sale.items == CartItems(KeyedPrefix(cart, 1))
              && r.reply.sale.total == CartTotal(Legacy, st.products, KeyedPrefix(cart, 1))
  {
    if caller.role != Attendant then Response(Message(403, NotAttendant), st)
    else
      var entries := KeyedPrefix(cart, 1);
      var f := SellCart(Legacy, st.products, entries);
      if f.failure.Some? then Settle(st, f, Some(caller.id))
      else if |entries| < |cart| then Response(ServerError, st.(products := f.products))
      else
        SaleTotals(Legacy, st.products, entries);
        FullPrefix(cart);
        Settle(st, f, Some(caller.id))
  }

  /** The handler as written and as intended agree, except that where the
      intended one records a sale the one as written answers 500 with the
      same stock writes and records nothing. */
  lemma LegacyAsWrittenNeverRecords(st: Store, caller: Caller, cart: map<string, CartEntry>)
    ensures var intended := LegacyCreateSaleIntended(st, caller, cart);
            LegacyCreateSale(st, caller, cart)
            == if intended.reply.SaleCreated? then Response(ServerError, st.(products := intended.store.products))
               else intended
  {
  }

  /** The lines of the items of sale `saleId`, in item id order (`GET_SALE_ITEMS`). */
  function LinesOfSale(items: seq<SaleItem>, saleId: nat): seq<Line>
    decreases |items|
  {
    if |items| == 0 then []
    else (if items[0].saleId == saleId then [items[0].line] else []) + LinesOfSale(items[1..], saleId)
  }

  lemma {:induction false} LinesOfSaleAppend(a: seq<SaleItem>, b: seq<SaleItem>, saleId: nat)
    ensures LinesOfSale(a + b, saleId) == LinesOfSale(a, saleId) + LinesOfSale(b, saleId)
    decreases |a|
  {
    if |a| > 0 {
      assert (a + b)[1..] == a[1..] + b;
      LinesOfSaleAppend(a[1..], b, saleId);
    } else {
      assert a + b == b;
    }
  }

  lemma {:induction false} LinesOfNewItems(lines: seq<Line>, saleId: nat, first: nat)
    ensures LinesOfSale(ItemsFor(lines, saleId, first), saleId) == lines
    decreases |lines|
  {
    if |lines| > 0 {
      assert ItemsFor(lines, saleId, first)[1..] == ItemsFor(lines[1..], saleId, first + 1);
      LinesOfNewItems(lines[1..], saleId, first + 1);
    }
  }

  lemma {:induction false} LinesOfOtherItems(items: seq<SaleItem>, saleId: nat)
    requires forall i :: 0 <= i < |items| ==> items[i].saleId != saleId
    ensures LinesOfSale(items, saleId) == []
    decreases |items|
  {
    if |items| > 0 {
      LinesOfOtherItems(items[1..], saleId);
    }
  }

  /** `SaleRecord.get`: a non-digit id is refused (400), an unknown one is
      not found (404), otherwise the header and its lines numbered 1..n. */
  function GetSale(st: Store, id: string): (r: Reply)
    ensures !IsDigits(id) ==> r == Message(400, "provided id is not an integer")
    ensures IsDigits(id) && !Contains(st.sales, SaleId, DigitsValue(id))
            ==> r == Message(404, "sale with given id does not exist")
    ensures IsDigits(id) && Contains(st.sales, SaleId, DigitsValue(id)) ==> r.SaleFound?
    ensures r.SaleFound? ==> r.sale in st.sales && r.sale.id == DigitsValue(id)
                             && r.lines == Numbered(LinesOfSale(st.saleItems, r.sale.id))
  {
    match ParseId(id)
    case None => Message(400, "provided id is not an integer")
    case Some(n) =>
      match IndexOf(st.sales, SaleId, n)
      case None => Message(404, "sale with given id does not exist")
      case Some(k) => SaleFound(st.sales[k], Numbered(LinesOfSale(st.saleItems, st.sales[k].id)))
  }

  /** `SaleRecords.get`: every header numbered 1..n in id order, or 404. */
  function ListSales(st: Store): (r: Reply)
    ensures |st.sales| == 0 <==> r == Message(404, "no sales added yet")
    ensures |st.sales| > 0 ==> r == SalesListed(Numbered(st.sales))
    ensures r.SalesListed? ==> forall n :: n in r.sales <==> 1 <= n <= |st.sales|
    ensures r.SalesListed? ==> forall n :: 1 <= n <= |st.sales| ==> r.sales[n] == st.sales[n - 1]
  {
    if |st.sales| == 0 then Message(404, "no sales added yet") else SalesListed(Numbered(st.sales))
  }
}
