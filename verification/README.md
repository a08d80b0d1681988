# Store manager backend: a Dafny model of its request handlers

This project models the request handlers of a small store-manager web API. The API has:

- a catalog of products grouped in categories;
- users who are either an administrator or a shop attendant;
- sale records, each with its line items.

Each handler is modelled as a pure step function. It takes the five database tables and the request, and returns the HTTP reply together with the tables afterwards.

**Tables.** Every table is a sequence of rows in id (insertion) order. `Store` carries the next value of each `SERIAL` id. A lookup by name or id finds the first matching row.

**Caller.** The authenticated caller is an input: its user id and its stored role.

**Invariant.** `Store.Valid` is what the database keeps between requests:

- ids increase along each table and stay below their counter;
- user names are unique;
- every product's category exists;
- every sale item's sale exists;
- every sale's attendant, when the column is not null, is a stored user.

**The parts modelled.**

- **Sale creation**, in both revisions. The current revision is `views/sale_views.py`; the older single-module revision is `views.py`. Both are a left fold over the cart. For each line the handler:
  - looks the product up by name;
  - refuses the line when the sale would take its stock below the minimum;
  - writes the decremented stock at once.

  Only when every line passes are the sale header and its items inserted. A failing line therefore leaves the earlier lines' stock writes in place. The older revision's header insert passes two values to a statement with three placeholders, so as written it never records a sale. Both the handler as written and the evidently intended one are modelled.
- **Reading sales**: one sale with its numbered lines, or the list of all sales.
- **The `CustomValidator` chains.** Each returns the message of the first failing check.
- **Product handlers**: create (both revisions), get, update and delete.
- **Category handlers**: create, get, list, update and delete.
- **User handlers**: registration and login (both revisions are the same code), get and delete.

**Text functions.** Python's `isdigit`, `isspace`, `lower` and `strip` are modelled on ASCII characters (module `Text`).

**Modules.**

| module | file | contents |
|---|---|---|
| `Wrappers` | `wrappers.dfy` | `Option` and `Result` |
| `Text` | `text.dfy` | the string tests, `Normalize` (`lower().strip()`), and decimal ids |
| `Tables` | `tables.dfy` | generic row lookup, well-keyed tables, row removal, and the numbered listings |
| `Store` | `store.dfy` | rows, requests, replies, and the invariant |
| `Validators` | `validators.dfy` | the first-failure chains |
| `Sales` | `sales.dfy` | the two create handlers, and sale reads |
| `SaleProperties` | `sale_properties.dfy` | the invariant, the read-back, and the sample sale |
| `Products` | `products.dfy` | the product handlers |
| `ProductProperties` | `product_properties.dfy` | product creation against the sale lookup, and the sample product |
| `Categories` | `categories.dfy` | the category handlers |
| `Users` | `users.dfy` | the user handlers |

All paths below are relative to the repository root. `views/` stands for `storemanager/api/v2/views/`.

## Model

| member | source | states |
|---|---|---|
| Text.NameChecksPass | storemanager/api/v2/utils/validators.py:39-42 | The two text checks (first `isdigit`, then empty or whitespace) both pass exactly when the string has a non-space character and a non-digit character. |
| Text.LowerShape | storemanager/api/v2/views/category_views.py:135 | `lower()` leaves no upper-case letter, keeps every other character, and maps each capital to its lower-case partner. |
| Text.StripLeft | storemanager/api/v2/views/category_views.py:135 | What is left is a suffix of the input, with no leading whitespace, and everything dropped is whitespace. |
| Text.StripRight | storemanager/api/v2/views/category_views.py:135 | What is left is a prefix of the input, with no trailing whitespace, and everything dropped is whitespace. |
| Text.NormalizeIdempotent | storemanager/api/v2/views/category_views.py:135-139 | Normalising a stored normalised name changes nothing, so the exact-match lookups of stored names agree with normalised input. |
| Text.NormalizeShape | storemanager/api/v2/views/sale_views.py:190 | A normalised name has no outer whitespace and no upper-case letter. |
| Text.NormalCapitalised | tests/v2/test_views.py:135-148 | A capitalised word such as `Furniture` normalises to its lower-case spelling. |
| Text.DecimalRoundTrip | storemanager/api/v2/views/product_views.py:43-44 | Reading back the decimal form of an id gives the id: the URL of a row names that row. |
| Text.DecimalInjective | storemanager/api/v2/views/product_views.py:43-44 | Distinct ids have distinct decimal forms. |
| Store.ParseId | storemanager/api/v2/utils/custom_checks.py:21-24 | An id path parameter is accepted exactly when it is all digits. |
| Store.ParseDecimal | storemanager/api/v2/views/sale_views.py:66-67 | The decimal form of an id passes the digit check and denotes that id. |
| Store.EmptyValid | storemanager/api/v2/database/queries.py:6-53 | A fresh database (empty tables, ids starting at 1) satisfies the invariant. |
| Tables.IndexOf | storemanager/api/v2/database/queries.py:103-106 | A lookup finds the first row whose column equals the key, or reports that no row has it. |
| Tables.IndexOfAppend | storemanager/api/v2/database/queries.py:94-97 | Inserting a row keeps every lookup that already succeeded, and a failed lookup then finds the new row exactly when it carries the key. |
| Tables.IndexOfKey | storemanager/api/v2/database/queries.py:99-101 | In a table with increasing ids, looking up a row's id finds that very row. |
| Tables.AppendKeeps | storemanager/api/v2/database/queries.py:23-25 | A row inserted with the next `SERIAL` value keeps the ids increasing and below the counter. |
| Tables.RemoveAt | storemanager/api/v2/database/queries.py:108-110 | A delete by id keeps, in order, every row except the deleted one. |
| Tables.RemoveAtRows | storemanager/api/v2/database/queries.py:108-110 | After a delete, every other row is still present and no new row appears. |
| Tables.RemoveKeeps | storemanager/api/v2/database/queries.py:108-110 | A delete keeps the table well keyed. |
| Tables.Numbered | storemanager/api/v2/views/category_views.py:114-119 | A listing maps exactly the keys 1..n, and key i is the i-th row in id order. |
| Validators.FirstFailure | storemanager/api/v2/utils/validators.py:37-66 | A chain passes exactly when no check fails; otherwise its message is that of some failing check. |
| Validators.FirstFailureAt | storemanager/api/v2/utils/validators.py:37-66 | When the checks before k pass and check k fails, the chain answers with check k's message: the first failure wins. |
| Validators.ValidateSaleItem | storemanager/api/v2/utils/validators.py:78-86 | A cart line passes exactly when its name is not all digits and its count is at least 1. Each of a digit-only name, a negative count and a zero count has its own message, and they are checked in that order. |
| Validators.ValidateCategory | storemanager/api/v2/utils/validators.py:69-75 | A category passes exactly when its name has text and a non-digit, and its description is not all digits. The messages come in source order, and an empty description passes. |
| Validators.ValidateRegister | storemanager/api/v2/utils/validators.py:7-22 | Username, then password, then role, with the first failure's message. A digit-only username gets "username cannot be an integer value" and an otherwise blank one "please provide a username"; the role is judged the same way after the password. The chain passes exactly when the username and role have text and a non-digit and the password has text. |
| Validators.ValidateLogin | storemanager/api/v2/utils/validators.py:25-34 | Username, then password. A digit-only username gets "username cannot be an integer value" and an otherwise blank one "please provide a username"; a blank password after a good username gets "please provide a password". The chain passes exactly when the username has text and a non-digit and the password has text. |
| Validators.ValidateProduct | storemanager/api/v2/views/product_views.py:251-285 | The chain gives the same answer as the handler's own if-chain, which checks name, price, description, category, stock and minimum stock in that order and answers with the first failure's message. It passes exactly when the three texts have text and a non-digit and the three quantities are not negative. |
| Validators.ProductChainAgrees | storemanager/api/v2/views/product_views.py:251-285 | The validator list read by the first-failure rule answers exactly as the handler's sequence of `if` statements does, for every body. |
| Validators.ValidateProductDetails | storemanager/api/v2/utils/validators.py:37-66 | `validate_product_details` passes exactly for acceptable product bodies. |
| Validators.ZeroQuantitiesPass | storemanager/api/v2/utils/validators.py:45-46 | Zero price, stock and minimum stock pass, and only a negative value is refused, despite the "negative or 0" wording. |
| Validators.DigitsAreNotBlank | storemanager/api/v2/utils/validators.py:39-42 | A digit-only field is never blank, so it always gets the "integer value" message and never the "empty" one. |
| Sales.Sell | storemanager/api/v2/views/sale_views.py:195-211 | An absent name is refused, naming the product. A line is refused exactly when `stock - count < min_stock`, so ending at the minimum is allowed. A passing line lowers that product's stock by the count, changes no other field or product, and is priced from the catalog. |
| Sales.SellLine | storemanager/api/v2/views/sale_views.py:187-193 | The current revision normalises the name and refuses an invalid line with the validator's message before any lookup. The older revision looks the name up as sent, with no count check. |
| Sales.SellCart | storemanager/api/v2/views/sale_views.py:186-221 | The loop changes at most the stock column, and a cart that goes through yields one line per entry. |
| Sales.SellCartStep | storemanager/api/v2/views/sale_views.py:186-221 | An empty cart sells nothing. A refused first line stops the loop with the catalog as it was. Otherwise the loop continues from the catalog that line left. |
| Sales.SoldLines | storemanager/api/v2/views/sale_views.py:202-218 | A cart that goes through yields, in cart order, for each entry the line of its name, price, count and price x count. |
| Sales.StockAfterSale | storemanager/api/v2/views/sale_views.py:209-211 | After a sale, every product's stock is its old stock minus the units the cart asked of it. |
| Sales.SaleTotals | storemanager/api/v2/views/sale_views.py:220-221 | The header's `items` is the sum of the counts and its `total` is the sum of price x count at the catalog's prices. |
| Sales.FailureKeepsEarlierWrites | storemanager/api/v2/views/sale_views.py:186-211 | When line k is refused, the catalog is exactly the one left by lines before k: their stock writes survive. |
| Sales.PassingCartSellsEveryLine | storemanager/api/v2/views/sale_views.py:186-211 | When the cart goes through, every line k sells from the catalog that the lines before k left. |
| Sales.EveryLinePasses | storemanager/api/v2/views/sale_views.py:186-211 | A cart goes through exactly when every line k sells from the catalog that the lines before k left. |
| Sales.CurrentNeverRaisesStock | storemanager/api/v2/views/sale_views.py:192-193 | In the current revision every sold count is at least 1, so a sale never raises any stock. |
| Sales.CurrentHead | storemanager/api/v2/views/sale_views.py:186-209 | The first line of a cart the current revision sells has at least one unit; the rest of the cart then sells from the catalog that line left, with no stock higher than before, and ends where the whole cart ends. |
| Sales.Settle | storemanager/api/v2/views/sale_views.py:223-239 | A failed loop keeps only its stock writes. A successful one appends one header with the next id and the totals, then one item per line with consecutive ids tied to that header, and changes nothing else. |
| Sales.CreateSale | storemanager/api/v2/views/sale_views.py:176-243 | Only an attendant may sell (403 and no change otherwise). For an attendant, a sale is created exactly when the loop passes every line. A refused cart answers with the refusing line's reply and keeps exactly the loop's stock writes, adding no header or item. Categories and users are never touched, and only stock changes in the catalog. A created sale has the next id, the caller as attendant, and the cart's items and total. |
| Sales.CreatedItems | storemanager/api/v2/views/sale_views.py:232-239 | A created sale adds exactly one item per cart entry, in cart order, after the existing items. Each item carries the normalised name, the pre-sale price, the count and the cost, tied to the new sale. |
| Sales.CreateSaleAtomic | storemanager/api/v2/views/sale_views.py:186-221 | The all-or-nothing create is defined on its own: each line is checked against its stock less what the earlier lines ask, and the stock is written once. It gives the handler's reply for every cart, stores exactly the handler's store when the sale is created, and leaves the store untouched when the cart is refused. |
| Sales.AtomicRefusalAgrees | storemanager/api/v2/views/sale_views.py:186-207 | Checking each line against the untouched stock less the earlier lines' demand refuses a cart exactly when the handler's loop does, with the same reply. |
| Sales.WithdrawAgrees | storemanager/api/v2/views/sale_views.py:209-211 | When the cart goes through, the loop's catalog is the old one with each stock lowered once by the cart's demand for it. |
| Sales.PricedLinesAgree | storemanager/api/v2/views/sale_views.py:202-218 | When the cart goes through, the loop's lines are the cart's entries priced from the old catalog. |
| Sales.AtomicSettles | storemanager/api/v2/views/sale_views.py:223-239 | When the cart goes through, the handler's store after the sale is the all-or-nothing create's store. |
| Sales.KeyedPrefix | storemanager/api/v2/views.py:448-450 | The older cart is a dictionary keyed "1", "2", ...; the entries are read in key order up to the first missing key. |
| Sales.FullPrefix | storemanager/api/v2/views.py:448-450 | Reading as many entries as the dictionary holds means every key "1".."n" is present. |
| Sales.LegacyCreateSale | storemanager/api/v2/views.py:437-491 | As written, only an attendant may go further (403 otherwise), and no sale is ever recorded. The answer is the refusing line's reply, or a 500 when a key is missing or when the two-value header insert fails after every line passed. Either way the store keeps exactly the loop's stock writes. |
| Sales.LegacyCreateSaleIntended | storemanager/api/v2/views.py:437-491 | With the attendant's id passed as the header's third value, a sale is recorded exactly when every key "1".."n" is present and every line passes. It carries the next id, the caller as attendant, and the count and cost sums of the un-normalised cart. A refusal keeps the loop's stock writes and answers with the refusing line's reply, or 500 for a missing key. |
| Sales.LegacyAsWrittenNeverRecords | storemanager/api/v2/views.py:477 | For every request the handler as written answers as the intended one does, except that where the intended one records a sale it answers 500, with the same stock writes and no sale. |
| Sales.LinesOfSaleAppend | storemanager/api/v2/database/queries.py:152-156 | The item lines of a sale in a concatenated table are those of each part, in order. |
| Sales.LinesOfNewItems | storemanager/api/v2/database/queries.py:147-156 | The items inserted for a sale read back as exactly its lines. |
| Sales.GetSale | storemanager/api/v2/views/sale_views.py:66-91 | A non-digit id gets 400 and an unknown id gets 404. A digit id of a stored sale is always found, and the answer is that stored header with its item lines numbered 1..n in insertion order. |
| Sales.ListSales | storemanager/api/v2/views/sale_views.py:116-129 | An empty table, and only an empty table, gets 404 "no sales added yet". Any other table answers with every header, numbered 1..n in id order. |
| SaleProperties.SettleKeepsValid | storemanager/api/v2/database/queries.py:35-53 | Whatever the loop did to stock, settling it keeps the store invariant when a recorded sale names a stored user or no one. That includes the item-to-sale and sale-to-attendant foreign keys. |
| SaleProperties.StrangerSaleInvalid | storemanager/api/v2/database/queries.py:41 | A sale recorded for a caller who is not a stored user (attendant 7 in an empty database) breaks the invariant, as the attendant foreign key refuses it. So the stored-user condition on the create lemmas is needed. |
| SaleProperties.CreateSaleKeepsValid | storemanager/api/v2/views/sale_views.py:176-243 | For a caller who is a stored user (the handler resolves its token to a user row), the current create and its corrected form both keep the store invariant, including that the new sale's attendant exists. |
| SaleProperties.LegacyCreateSaleKeepsValid | storemanager/api/v2/views.py:437-491 | For a caller who is a stored user, the older create, as written and as intended, keeps the store invariant, including that the new sale's attendant exists. |
| SaleProperties.NewSaleLines | storemanager/api/v2/database/queries.py:152-156 | In a valid store, the items of the next sale id are exactly the ones inserted with it. |
| SaleProperties.SaleRoundTrip | storemanager/api/v2/views/sale_views.py:66-91 | Reading back a sale just created by its id returns its header and, numbered from 1 in cart order, exactly the lines the create loop sold. |
| SaleProperties.AtomicAllOrNothing | storemanager/api/v2/views/sale_views.py:186-239 | The corrected create either records the sale or leaves the store unchanged. |
| SaleProperties.SampleSale | tests/v2/test_views.py:665-673 | The sample cart (two tables and ten televisions) gives 12 items for 320000, sold by the caller, and lowers the stocks to 98 and 190. |
| SaleProperties.RefuseThousandTelevisions | storemanager/api/v2/views/sale_views.py:204-207 | A count that would take stock below the minimum is refused with the minimum-stock reason. |
| SaleProperties.PartialSaleKeepsStock | storemanager/api/v2/views/sale_views.py:186-221 | A cart whose second line is refused is refused with the minimum-stock reason, yet leaves 98 of the 100 tables in stock and no sale recorded. |
| SaleProperties.AtomicRefusalKeepsStock | storemanager/api/v2/views/sale_views.py:186-221 | The corrected create refuses the same cart and keeps every table. |
| SaleProperties.LegacyNegativeCountRaisesStock | storemanager/api/v2/views.py:457-465 | The older handler takes a count of -5 without a check and raises the table's stock from 100 to 105. The header insert then fails, so the answer is 500 and no sale is recorded. |
| SaleProperties.LegacyIntendedNegativeSale | storemanager/api/v2/views.py:457-477 | With the header insert corrected, the same cart records a sale of -5 items for -50000 and leaves 105 tables. |
| SaleProperties.LegacyInsertFails | storemanager/api/v2/views.py:477 | As written, an attendant's cart of two tables lowers the stock to 98 and then answers 500, with no sale recorded. |
| SaleProperties.LegacyIntendedRecords | storemanager/api/v2/views.py:437-491 | With the header insert corrected, the same cart records a sale of 2 items for 20000 by attendant 1, leaving 98 tables. |
| SaleProperties.CurrentRefusesNegativeCount | storemanager/api/v2/utils/validators.py:82-84 | The current handler refuses the same count with "product count cannot be negative" and leaves the store unchanged. |
| Products.Admit | storemanager/api/v2/views/product_views.py:240-294 | The create guards in the handler's order: admin role (403), validation (400), duplicate name (400), then an existing category (400). They pass exactly when all hold, and yield the category's row. |
| Products.Create | storemanager/api/v2/views/product_views.py:240-319 | The corrected create, with name and category normalised. It succeeds exactly for an admin, an acceptable body, a new name and an existing category. On success it appends the row with the next id and answers with its fields and category name; otherwise it leaves the store unchanged with the guard's message. |
| Products.CreateAsWritten | storemanager/api/v2/views/product_views.py:287-314 | As written, names are matched as sent, and the answer reads the category from the `date_created` column. A request that passes every guard stores its row and then fails (500); every other request leaves the store unchanged. |
| Products.GetById | storemanager/api/v2/views/product_views.py:44-61 | An absent id gets 404. In a valid store a present id is found, with its fields and its category's name. |
| Products.Get | storemanager/api/v2/views/product_views.py:43-63 | The corrected get: a non-digit id gets 400 "product id must be integer"; otherwise the product of that id. As written, the handler answers 500 for every existing product (Products.GetAsWritten). |
| Products.GetAsWritten | storemanager/api/v2/views/product_views.py:43-63 | As written: 400 for a non-digit id, 404 for an absent one, and a failure (500) for every product that exists. |
| Products.Update | storemanager/api/v2/views/product_views.py:91-122 | Admin only (403), then a digit id (400), then the category (404, checked before the product), then the product (404). On success the six fields are overwritten with no validation, and the id and every other row are kept. |
| Products.Delete | storemanager/api/v2/views/product_views.py:125-141 | Admin only (403), a digit id (400), an existing product (404). On success only that row is removed. |
| Products.CreateKeepsValid | storemanager/api/v2/views/product_views.py:291-303 | Both creates keep the store invariant: the new row has the next id and an existing category. |
| Products.CreateThenGet | storemanager/api/v2/views/product_views.py:43-61 | A created product, fetched by the id in its answer, reads back as that answer. |
| Products.UpdateKeepsValid | storemanager/api/v2/views/product_views.py:103-117 | An update keeps the store invariant: the new category exists and the id is unchanged. |
| Products.UpdateThenGet | storemanager/api/v2/views/product_views.py:109-118 | After an update, the product reads back with the six new values under its old id. |
| Products.DeleteKeepsValid | storemanager/api/v2/views/product_views.py:129-137 | A delete keeps the store invariant. |
| Products.RemoveProductKeepsValid | storemanager/api/v2/database/queries.py:108-110 | Removing any one product row keeps the store invariant: ids still increase and every remaining product's category exists. |
| Products.DeleteThenGet | storemanager/api/v2/views/product_views.py:129-137 | A deleted product then gets 404, and every other product is still there. |
| ProductProperties.CreatedIsSellable | storemanager/api/v2/views/sale_views.py:190-196 | Every spelling of a created product's name that normalises the same way finds the new row in the sale handler's lookup. |
| ProductProperties.CreateTwiceRefused | storemanager/api/v2/views/product_views.py:287-290 | Creating a second product whose name normalises the same way is refused as a duplicate, whatever its other fields. |
| ProductProperties.SampleProductCreated | tests/v2/test_views.py:262-279 | The corrected create stores the tests' `Table` in `Furniture` as `table` in `furniture`, and answers with exactly the fields the tests expect. |
| ProductProperties.AsWrittenRefusesCapitalised | storemanager/api/v2/views/product_views.py:291-294 | As written, the same request is refused with "category provided does not exist", because the category is looked up as sent. |
| ProductProperties.AsWrittenStoresCapitalised | storemanager/api/v2/views/product_views.py:298-314 | As written, `Table` under the stored category name is stored as `Table`, and the handler then fails. |
| ProductProperties.CapitalisedUnsellable | storemanager/api/v2/views/sale_views.py:190-200 | The sale handler looks `Table` up as `table`, so a product stored as `Table` cannot be sold. |
| Categories.Locate | storemanager/api/v2/views/category_views.py:48-52 | A non-digit id gets 400 and an absent id gets 404. Success happens exactly when the category exists, and yields its row. |
| Categories.GetCategory | storemanager/api/v2/views/category_views.py:46-59 | Admin only (401), then a digit id (400), then existence (404). A category is found exactly when all three hold, and it is the stored row with that id. |
| Categories.UpdateCategory | storemanager/api/v2/views/category_views.py:65-81 | Admin only (401), a digit id (400), existence (404). On success that row gets the normalised name and the new description, with no uniqueness check. |
| Categories.DeleteCategory | storemanager/api/v2/views/category_views.py:88-100 | Admin only (401), a digit id (400), existence (404), then 200. The row is removed unless a product still refers to it, in which case the foreign key keeps it. |
| Categories.ListCategories | storemanager/api/v2/views/category_views.py:110-123 | Admin only (401). An empty table gets 404. Otherwise every category is numbered 1..n in id order. |
| Categories.CreateCategory | storemanager/api/v2/views/category_views.py:130-150 | Admin only (401). The name is normalised, then validated, then checked for uniqueness. A created category has the next id, the normalised name and the description, and is appended; otherwise nothing changes. |
| Categories.CreateCategoryKeepsValid | storemanager/api/v2/views/category_views.py:142-147 | Creating a category keeps the store invariant. |
| Categories.UpdateCategoryKeepsValid | storemanager/api/v2/views/category_views.py:77-81 | Updating a category keeps the store invariant. |
| Categories.DeleteCategoryKeepsValid | storemanager/api/v2/database/queries.py:32 | Deleting a category keeps the store invariant, because a category that a product refers to is not removed. |
| Categories.CreateThenGetCategory | storemanager/api/v2/views/category_views.py:50-59 | A created category, fetched by the id in its answer, reads back as that answer. |
| Categories.CreatedNameNormal | storemanager/api/v2/views/category_views.py:135-143 | A stored category name is its own normal form. |
| Categories.CreateCategoryTwiceRefused | storemanager/api/v2/views/category_views.py:138-141 | After a create, any name that normalises the same way is refused with "category already exists". |
| Categories.UpdateThenGetCategory | storemanager/api/v2/views/category_views.py:69-81 | After an update, the category reads back with the normalised new name and the new description under its id. |
| Categories.DeleteThenGetCategory | storemanager/api/v2/views/category_views.py:93-100 | A deleted category that no product refers to then gets 404; one still referred to reads back unchanged. |
| Categories.FurnitureStoredLowerCase | tests/v2/test_views.py:135-148 | Posting `Furniture` into a fresh store creates category 1 named `furniture`. |
| Categories.FurnitureTwiceRefused | tests/v2/test_views.py:151-160 | Posting it a second time is refused with "category already exists". |
| Users.Register | storemanager/api/v2/views/user_views.py:153-189 | Username, password and role must each have text, each with its own message in that order. The role must then be `admin` or `attendant`, and the username unused. A created user is appended with the next id, and the answer shows id, name and role but never the password. |
| Users.Login | storemanager/api/v2/views/user_views.py:227-251 | The username and password rules come first, then an unknown user gets 404. In a valid store, login succeeds exactly when the stored password matches; an existing user with another password gets 400. |
| Users.GetUser | storemanager/api/v2/views/user_views.py:32-43 | A non-digit id gets 400 and an absent id gets 404. A user is found exactly when it exists, and the reply has no password. |
| Users.DeleteUser | storemanager/api/v2/views/user_views.py:70-82 | As written: admin only (403), a digit id (400), then 200 for every digit id. The store is never changed. |
| Users.DeleteUserChecked | storemanager/api/v2/views/user_views.py:70-82 | The corrected delete answers 404 for an absent user. Otherwise it answers 200 and removes the row, unless a sale names the user as its attendant. |
| Users.RegisterKeepsValid | storemanager/api/v2/views/user_views.py:176-187 | Registration keeps the store invariant, including unique user names. |
| Users.RegisterThenLogin | tests/v2/test_auth.py:20-39 | After registering, logging in with the same password succeeds. |
| Users.RegisterThenWrongPassword | storemanager/api/v2/views/user_views.py:250-251 | After registering, logging in with another password gets 400 "wrong username or password, Try Again". |
| Users.RegisterTwiceRefused | tests/v2/test_auth.py:42-46 | A second registration of the same name gets 400 "User already exists" and changes nothing. |
| Users.RegisterThenGet | storemanager/api/v2/views/user_views.py:32-41 | A registered user, fetched by the id in the answer, reads back with that name and role. |
| Users.DeleteAbsentUser | tests/v2/test_views.py:102-110 | In a valid store holding only the administrator who calls, the handler as written answers 200 "user deleted successfully" for user 6 and changes nothing. The corrected delete answers 404, which is what the tests expect. |
| Users.DeleteUserCheckedKeepsValid | storemanager/api/v2/database/queries.py:173-175 | The corrected delete keeps the store invariant. In particular, every sale's attendant is still a stored user, because a user a sale names is never removed. |
| Users.RemoveKeepsAttendants | storemanager/api/v2/database/queries.py:41 | Removing a user that no sale names leaves every sale's attendant a stored user. |
| Users.DeleteThenGetUser | storemanager/api/v2/views/user_views.py:32-36 | A user removed by the corrected delete then gets 404, and every other user is still there. |

## Left out

- Authentication is not modelled: JSON Web Tokens, the revoked-token table, and resolving the token's identity to a user row. The caller's id and stored role are inputs.
  - `category_views.py` imports `check_user_identity`, which `check_role.py` does not define. As written, that import fails, so the module does not load and no category handler runs. The model assumes the evidently intended role check: the caller's stored role.
- Database access is not modelled: connections, the query helper, and the model classes' save and delete wrappers. Each statement takes effect at once on the in-memory tables.
  - `models/abstract_model.py`, `models/product.py` and `utils/custom_checks.py` import `execute_query` from `database/database.py`, which does not define it. As written, those imports fail, so the models, and with them every v2 handler module, do not load. The model assumes the evidently intended helper: it runs the statement, and when the database refuses it, it reports the error and returns nothing, as `SaleRecordModelItem.save` does (`models/sale_record.py` lines 46-56).
  - `SaleRecordModelItem.save` swallows errors; the model assumes every item insert succeeds.
  - When a category, or in the corrected user delete a user, is still referred to, the foreign key refuses the delete. Under the assumed helper that refusal reaches the handler as an ignored empty result, so the handler answers 200 and the store is unchanged (`Categories.DeleteCategory`, `Users.DeleteUserChecked`). A helper that let the error propagate would answer 500 instead.
- When several rows share a looked-up name, `fetchone` may return any of them; the model takes the earliest.
  - Only user names are kept unique by the invariant.
  - Category names can collide through `Category.put`.
- Not modelled: `date_created` columns, date formatting, Flask routing, Swagger text, and JSON-schema enforcement. Request bodies are assumed well-typed.
  - `Users.Register`, `Users.Login`: the registration and login schemas (`schemas.py`) declare every field a string. A numeric username, password or role is refused with a schema 400 before the handler runs. The handlers' `isinstance(..., (int, float))` checks therefore never fire and are left out; the model's fields are strings.
- `Sales.CreateSale`: the current revision's request schema requires `products` to be a list of `{name, count}` objects. The tests' sample data sends a dictionary keyed "1", "2", which the schema check refuses with 400 before the handler runs. The model takes the cart as a list, so that refusal is outside it.
- String functions are modelled on ASCII only. Unicode digits and whitespace, and non-ASCII case mapping, are out.
- Integers are unbounded. The `INTEGER` columns' 32-bit range, and the errors on overflowing it, are not modelled.
- Strings are unbounded. The column limits in storemanager/api/v2/database/queries.py (lines 9-11, 18 and 26) are not modelled: 50 characters for user, category and product names, 10 for the role and 60 for the password. The database refuses an insert or update of a longer value; the model stores strings of any length.
- The following are not part of this model:
  - the list endpoints for products (`ProductList.get`) and users (`UserList.get`);
  - logout and the admin bootstrap (`check_admin_exists`);
  - the legacy revision's product, category and user read/update/delete handlers, which duplicate the `views/` package.
- Concurrent requests, and races on stock between them, are out.

## Findings

| source | as written | input that shows it | evidently intended | confidence | as-written member | corrected member |
|---|---|---|---|---|---|---|
| storemanager/api/v2/views/sale_views.py:186-221 | Each line's stock is written before the later lines are checked, so a refused line leaves the earlier decrements in place with no sale recorded. | A cart of 2 `table` then 1000 `television`: the tables leave stock and no sale exists. | A refused sale changes nothing. | not executed | SaleProperties.PartialSaleKeepsStock | Sales.CreateSaleAtomic |
| storemanager/api/v2/views/user_views.py:70-82 | The lookup's result is compared with `{}`, which a row or `None` never equals, and no delete statement is issued. So every digit id answers 200 and nothing is removed. | An admin deleting user 6 from a store that holds only that admin gets 200; the tests expect 404. | 404 for an absent user; otherwise the user is removed. | not executed | Users.DeleteAbsentUser | Users.DeleteUserChecked |
| storemanager/api/v2/views/product_views.py:287-298 | Product create matches and stores name and category exactly as sent. The category handler stores normalised names, and the sale handler looks up normalised names. | `Table` in `Furniture` is refused for a category the tests created as `Furniture` (stored `furniture`). Sent under `furniture`, it is stored as `Table`, which no sale can find. | Normalise both, as categories and sales do; the tests expect `table` in `furniture`. | not executed | ProductProperties.CapitalisedUnsellable | ProductProperties.SampleProductCreated |
| storemanager/api/v2/views/product_views.py:56-58 | The category is fetched by `result[6]`, which is the `date_created` column of both `CREATE_PRODUCT` and `GET_PRODUCT`, so reading the category name fails. | Any successful create or any get of an existing product. | Fetch the category by the `category` column and answer with its name. | not executed | Products.GetAsWritten | Products.CreateThenGet |
| storemanager/api/v2/views.py:457-465 | The older sale handler never checks the count: a negative count passes the floor check and raises stock. | A cart `{"1": table x -5}` raises the table's stock from 100 to 105; the header insert then fails (next row), so the answer is 500. With that insert corrected, -5 items are recorded (SaleProperties.LegacyIntendedNegativeSale). | A count of at least 1, as the current revision's validator requires. | not executed | SaleProperties.LegacyNegativeCountRaisesStock | SaleProperties.CurrentRefusesNegativeCount |
| storemanager/api/v2/views.py:477 | The older sale handler inserts the header with two values, items and total. The `CREATE_SALE` statement it imports has three placeholders (items, total, attendant id), so the insert fails after every line's stock write. `execute_query` is not part of this model; whether it raises or returns nothing, so that `result[0]` fails, the answer is a 500. | An attendant's cart `{"1": table x 2}`: the stock drops from 100 to 98, the answer is 500, and no sale exists. | Pass the attendant's id as the third value, as the current revision does. | not executed | SaleProperties.LegacyInsertFails | Sales.LegacyCreateSaleIntended |
