/** The store's five tables (users, categories, products, sale_records,
    sale_record_items of the database schema), the caller of a request, and
    the replies a handler returns. Every handler of the other modules is a
    step `(store, input) -> Response(reply, store')`. */
module Store {
  import opened Wrappers
  import opened Text
  import opened Tables

  datatype Category = Category(id: nat, name: string, description: string)

  datatype Product = Product(
    id: nat,
    name: string,
    price: int,
    stock: int,
    minStock: int,
    description: string,
    categoryId: nat)

  /** A user row; `role` is free text in the table (the database does not
      restrict it, registration does). */
  datatype User = User(id: nat, name: string, password: string, role: string)

  /** One sold cart line: the product name and price as they were at sale
      time, the quantity, and the line cost. */
  datatype Line = Line(name: string, price: int, quantity: int, cost: int)

  /** A sale header. The attendant column may be null in the schema; every
      sale the handlers record names the caller. */
  datatype Sale = Sale(id: nat, items: int, total: int, attendantId: Option<nat>)

  datatype SaleItem = SaleItem(id: nat, line: Line, saleId: nat)

  /** The tables, in id order, and the next value of each SERIAL id. */
  datatype Store = Store(
    categories: seq<Category>,
    products: seq<Product>,
    users: seq<User>,
    sales: seq<Sale>,
    saleItems: seq<SaleItem>,
    nextCategory: nat,
    nextProduct: nat,
    nextUser: nat,
    nextSale: nat,
    nextSaleItem: nat)

  /** A freshly created database: empty tables, SERIAL ids starting at 1. */
  const Empty := Store([], [], [], [], [], 1, 1, 1, 1, 1)

  /** The authenticated user a request runs for: its row id and stored role. */
  datatype Caller = Caller(id: nat, role: string)

  const Admin := "admin"
  const Attendant := "attendant"

  /** The product fields of a create or update request body. */
  datatype ProductInput = ProductInput(
    name: string,
    price: int,
    description: string,
    category: string,
    stock: int,
    minStock: int)

  /** A product as returned to the client, with its category's name. */
  datatype ProductView = ProductView(
    id: nat,
    name: string,
    price: int,
    description: string,
    category: string,
    stock: int,
    minStock: int)

  /** A user as returned to the client: never the password. */
  datatype UserView = UserView(id: nat, username: string, role: string)

  /** The JSON body and status code of a handler's answer. */
  datatype Reply =
    | Message(code: nat, message: string)
    | ServerError
    | SaleRejected(reason: string)
    | SaleCreated(sale: Sale)
    | SaleFound(sale: Sale, lines: map<nat, Line>)
    | SalesListed(sales: map<nat, Sale>)
    | ProductCreated(product: ProductView)
    | ProductFound(product: ProductView)
    | CategoryCreated(category: Category)
    | CategoryFound(category: Category)
    | CategoriesListed(categories: map<nat, Category>)
    | UserCreated(user: UserView)
    | UserFound(user: UserView)
    | LoggedIn(identity: string)
  {
    /** The HTTP status code: 500 stands for an uncaught Python exception. */
    function Status(): nat {
      match this
      case Message(code, _) => code
      case ServerError => 500
      case SaleRejected(_) => 400
      case SaleCreated(_) => 201
      case ProductCreated(_) => 201
      case CategoryCreated(_) => 201
      case UserCreated(_) => 201
      case _ => 200
    }
  }

  /** The `message` field that accompanies a `SaleRejected` reason. */
  const SaleRejectedMessage := "failed to create sale record"

  datatype Response = Response(reply: Reply, store: Store)

  function CategoryId(c: Category): nat { c.id }
  function CategoryName(c: Category): string { c.name }
  function ProductId(p: Product): nat { p.id }
  function ProductName(p: Product): string { p.name }
  function ProductCategoryId(p: Product): nat { p.categoryId }
  function UserId(u: User): nat { u.id }
  function UserName(u: User): string { u.name }
  function SaleId(s: Sale): nat { s.id }
  function SaleItemId(i: SaleItem): nat { i.id }

  /** The path parameter test of the `get`/`put`/`delete` handlers: `isdigit`,
      then the database compares it with the integer id column. */
  function ParseId(s: string): (r: Option<nat>)
    ensures r.Some? <==> IsDigits(s)
  {
    if IsDigits(s) then Some(DigitsValue(s)) else None
  }

  /** The URL of a row with id `n` names it again. */
  lemma ParseDecimal(n: nat)
    ensures ParseId(Decimal(n)) == Some(n)
  {
    DecimalRoundTrip(n);
  }

  /** What the database guarantees between requests: SERIAL ids increase
      along each table and stay below the next value, user names are unique
      (registration refuses a taken name and nothing renames users), and the
      foreign keys products.category, sale_record_items.sale_id and
      sale_records.attendant_id resolve (a null attendant refers to nothing). */
  ghost predicate Valid(st: Store) {
    && KeysIncreasing(st.categories, CategoryId) && KeysBelow(st.categories, CategoryId, st.nextCategory)
    && KeysIncreasing(st.products, ProductId) && KeysBelow(st.products, ProductId, st.nextProduct)
    && KeysIncreasing(st.users, UserId) && KeysBelow(st.users, UserId, st.nextUser)
    && KeysIncreasing(st.sales, SaleId) && KeysBelow(st.sales, SaleId, st.nextSale)
    && KeysIncreasing(st.saleItems, SaleItemId) && KeysBelow(st.saleItems, SaleItemId, st.nextSaleItem)
    && (forall i, j :: 0 <= i < j < |st.users| ==> st.users[i].name != st.users[j].name)
    && (forall i :: 0 <= i < |st.products| ==> Contains(st.categories, CategoryId, st.products[i].categoryId))
    && (forall i :: 0 <= i < |st.saleItems| ==> Contains(st.sales, SaleId, st.saleItems[i].saleId))
    && (forall i :: 0 <= i < |st.sales| && st.sales[i].attendantId.Some? ==>
          Contains(st.users, UserId, st.sales[i].attendantId.value))
  }

  lemma EmptyValid()
    ensures Valid(Empty)
  {
  }

  /** The client's view of a product row, given the name of its category. */
  function ViewOf(p: Product, category: string): ProductView {
    ProductView(p.id, p.name, p.price, p.description, category, p.stock, p.minStock)
  }
}
