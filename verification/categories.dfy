/** The category handlers `Categories.get`, `Categories.post`,
    `Category.get`, `Category.put` and `Category.delete`. Every one of them is
    for administrators only and answers anyone else with 401. */
module Categories {
  import opened Wrappers
  import opened Text
  import opened Tables
  import opened Store
  import opened Validators

  const ViewOnly := "only an admin can view categories"
  const UpdateOnly := "only an admin can update a category"
  const DeleteOnly := "only an admin can delete a category"
  const AddOnly := "only an admin can add a category"
  const NotInteger := "provided id is not an integer"
  const Missing := "category with id does not exist"
  const NoneYet := "no categories added yet"
  const Duplicate := "category already exists"
  const Updated := "category updated successfully"
  const Deleted := "category deleted successfully"

  /** The guards the single-category handlers share after the role check: a
      digit id, then a row with that id. On success, the row's index. */
  function Locate(st: Store, id: string): (r: Result<nat, Reply>)
    ensures !IsDigits(id) ==> r == Failure(Message(400, NotInteger))
    ensures IsDigits(id) && !Contains(st.categories, CategoryId, DigitsValue(id)) ==> r == Failure(Message(404, Missing))
    ensures r.Success? <==> IsDigits(id) && Contains(st.categories, CategoryId, DigitsValue(id))
    ensures r.Success? ==> r.value < |st.categories| && st.categories[r.value].id == DigitsValue(id)
  {
    match ParseId(id)
    case None => Failure(Message(400, NotInteger))
    case Some(n) =>
      IndexOfFinds(st.categories, CategoryId, n);
      match IndexOf(st.categories, CategoryId, n)
      case None => Failure(Message(404, Missing))
      case Some(i) => Success(i)
  }

  /** `Category.get`. */
  function GetCategory(st: Store, caller: Caller, id: string): (r: Reply)
    ensures caller.role != Admin ==> r == Message(401, ViewOnly)
    ensures caller.role == Admin && !IsDigits(id) ==> r == Message(400, NotInteger)
    ensures caller.role == Admin && IsDigits(id) && !Contains(st.categories, CategoryId, DigitsValue(id))
            ==> r == Message(404, Missing)
    ensures r.CategoryFound? <==> caller.role == Admin && IsDigits(id) && Contains(st.categories, CategoryId, DigitsValue(id))
    ensures r.CategoryFound? ==> r.category in st.categories && r.category.id == DigitsValue(id)
  {
    if caller.role != Admin then Message(401, ViewOnly)
    else match Locate(st, id)
      case Failure(reply) => reply
      case Success(i) => CategoryFound(st.categories[i])
  }

  /** `Category.put`: the name is normalised, and name and description are
      overwritten without validation and without a uniqueness check. */
  function UpdateCategory(st: Store, caller: Caller, id: string, name: string, description: string): (r: Response)
    ensures caller.role != Admin ==> r == Response(Message(401, UpdateOnly), st)
    ensures caller.role == Admin && !IsDigits(id) ==> r == Response(Message(400, NotInteger), st)
    ensures caller.role == Admin && IsDigits(id) && !Contains(st.categories, CategoryId, DigitsValue(id))
            ==> r == Response(Message(404, Missing), st)
    ensures r.reply == Message(200, Updated) <==>
              caller.role == Admin && IsDigits(id) && Contains(st.categories, CategoryId, DigitsValue(id))
    ensures r.reply != Message(200, Updated) ==> r.store == st
    ensures r.reply == Message(200, Updated) ==>
              exists i :: 0 <= i < |st.categories| && st.categories[i].id == DigitsValue(id)
                          && r.store == st.(categories := st.categories[i := Category(DigitsValue(id), Normalize(name), description)])
  {
    if caller.role != Admin then Response(Message(401, UpdateOnly), st)
    else match Locate(st, id)
      case Failure(reply) => Response(reply, st)
      case Success(i) =>
        var row := Category(st.categories[i].id, Normalize(name), description);
        Response(Message(200, Updated), st.(categories := st.categories[i := row]))
  }

  /** A product still points at category `n`. */
  ghost predicate Referenced(st: Store, n: nat) {
    Contains(st.products, ProductCategoryId, n)
  }

  /** `Category.delete`. The database refuses to delete a category a product
      still refers to (the products table's foreign key); the handler does
      not look at the statement's outcome and answers 200 either way. */
  function DeleteCategory(st: Store, caller: Caller, id: string): (r: Response)
    ensures caller.role != Admin ==> r == Response(Message(401, DeleteOnly), st)
    ensures caller.role == Admin && !IsDigits(id) ==> r == Response(Message(400, NotInteger), st)
    ensures caller.role == Admin && IsDigits(id) && !Contains(st.categories, CategoryId, DigitsValue(id))
            ==> r == Response(Message(404, Missing), st)
    ensures r.reply == Message(200, Deleted) <==>
              caller.role == Admin && IsDigits(id) && Contains(st.categories, CategoryId, DigitsValue(id))
    ensures r.reply != Message(200, Deleted) || Referenced(st, DigitsValue(id)) ==> r.store == st
    ensures r.reply == Message(200, Deleted) && !Referenced(st, DigitsValue(id)) ==>
              exists i :: 0 <= i < |st.categories| && st.categories[i].id == DigitsValue(id)
                          && r.store == st.(categories := RemoveAt(st.categories, i))
  {
    if caller.role != Admin then Response(Message(401, DeleteOnly), st)
    else match Locate(st, id)
      case Failure(reply) => Response(reply, st)
      case Success(i) =>
        IndexOfFinds(st.products, ProductCategoryId, st.categories[i].id);
        if IndexOf(st.products, ProductCategoryId, st.categories[i].id).Some? then Response(Message(200, Deleted), st)
        else Response(Message(200, Deleted), st.(categories := RemoveAt(st.categories, i)))
  }

  /** `Categories.get`: every category, numbered from 1 in id order. */
  function ListCategories(st: Store, caller: Caller): (r: Reply)
    ensures caller.role != Admin ==> r == Message(401, ViewOnly)
    ensures caller.role == Admin && |st.categories| == 0 ==> r == Message(404, NoneYet)
    ensures r.CategoriesListed? <==> caller.role == Admin && |st.categories| > 0
    ensures r.CategoriesListed? ==>
              (forall k :: k in r.categories <==> 1 <= k <= |st.categories|)
              && forall k :: 1 <= k <= |st.categories| ==> r.categories[k] == st.categories[k - 1]
  {
    if caller.role != Admin then Message(401, ViewOnly)
    else if |st.categories| == 0 then Message(404, NoneYet)
    else CategoriesListed(Numbered(st.categories))
  }

  /** `Categories.post`: the name is normalised first, then validated, then
      checked against the stored names, then stored. */
  function CreateCategory(st: Store, caller: Caller, name: string, description: string): (r: Response)
    ensures caller.role != Admin ==> r == Response(Message(401, AddOnly), st)
    ensures caller.role == Admin && ValidateCategory(Normalize(name), description).Some?
            ==> r == Response(Message(400, ValidateCategory(Normalize(name), description).value), st)
    ensures caller.role == Admin && ValidateCategory(Normalize(name), description).None?
            && Contains(st.categories, CategoryName, Normalize(name))
            ==> r == Response(Message(400, Duplicate), st)
    ensures r.reply.CategoryCreated? <==>
              (caller.role == Admin && ValidateCategory(Normalize(name), description).None?
               && !Contains(st.categories, CategoryName, Normalize(name)))
    ensures !r.reply.CategoryCreated? ==> r.store == st
    ensures r.reply.CategoryCreated? ==>
              && r.reply.category == Category(st.nextCategory, Normalize(name), description)
              && r.store == st.(categories := st.categories + [r.reply.category], nextCategory := st.nextCategory + 1)
  {
    var c := Normalize(name);
    IndexOfFinds(st.categories, CategoryName, c);
    if caller.role != Admin then Response(Message(401, AddOnly), st)
    else match ValidateCategory(c, description)
      case Some(m) => Response(Message(400, m), st)
      case None =>
        if IndexOf(st.categories, CategoryName, c).Some? then Response(Message(400, Duplicate), st)
        else
          var row := Category(st.nextCategory, c, description);
          Response(CategoryCreated(row), st.(categories := st.categories + [row], nextCategory := st.nextCategory + 1))
  }

  /** Replacing the categories table by one that is well keyed under the
      same counter and still holds every id a product refers to keeps the
      database invariant. */
  lemma CategoriesKeepValid(st: Store, cs: seq<Category>, next: nat)
    requires Valid(st)
    requires next >= st.nextCategory
    requires KeysIncreasing(cs, CategoryId) && KeysBelow(cs, CategoryId, next)
    requires forall i :: 0 <= i < |st.products| ==> Contains(cs, CategoryId, st.products[i].categoryId)
    ensures Valid(st.(categories := cs, nextCategory := next))
  {
  }

  lemma CreateCategoryKeepsValid(st: Store, caller: Caller, name: string, description: string)
    requires Valid(st)
    ensures Valid(CreateCategory(st, caller, name, description).store)
  {
    var r := CreateCategory(st, caller, name, description);
    if r.reply.CategoryCreated? {
      var cs := r.store.categories;
      AppendKeeps(st.categories, CategoryId, st.nextCategory, r.reply.category);
      forall i | 0 <= i < |st.products|
        ensures Contains(cs, CategoryId, st.products[i].categoryId)
      {
        var j :| 0 <= j < |st.categories| && st.categories[j].id == st.products[i].categoryId;
        assert cs[j] == st.categories[j];
      }
      CategoriesKeepValid(st, cs, st.nextCategory + 1);
    }
  }

  lemma UpdateCategoryKeepsValid(st: Store, caller: Caller, id: string, name: string, description: string)
    requires Valid(st)
    ensures Valid(UpdateCategory(st, caller, id, name, description).store)
  {
    var r := UpdateCategory(st, caller, id, name, description);
    if r.reply == Message(200, Updated) {
      var i := Locate(st, id).value;
      var cs := r.store.categories;
      assert cs == st.categories[i := Category(st.categories[i].id, Normalize(name), description)];
      SameKeysKeep(st.categories, cs, CategoryId, st.nextCategory);
      forall k | 0 <= k < |st.products|
        ensures Contains(cs, CategoryId, st.products[k].categoryId)
      {
        var j :| 0 <= j < |st.categories| && st.categories[j].id == st.products[k].categoryId;
        assert cs[j].id == st.categories[j].id;
      }
      CategoriesKeepValid(st, cs, st.nextCategory);
    }
  }

  /** The foreign key refusal is what keeps the invariant: a category is
      only removed when no product refers to it. */
  lemma DeleteCategoryKeepsValid(st: Store, caller: Caller, id: string)
    requires Valid(st)
    ensures Valid(DeleteCategory(st, caller, id).store)
  {
    var r := DeleteCategory(st, caller, id);
    if r.reply == Message(200, Deleted) && !Referenced(st, DigitsValue(id)) {
      var i := Locate(st, id).value;
      var cs := r.store.categories;
      assert cs == RemoveAt(st.categories, i);
      RemoveKeeps(st.categories, CategoryId, st.nextCategory, i);
      forall k | 0 <= k < |st.products|
        ensures Contains(cs, CategoryId, st.products[k].categoryId)
      {
        assert ProductCategoryId(st.products[k]) != st.categories[i].id;
        var j :| 0 <= j < |st.categories| && st.categories[j].id == st.products[k].categoryId;
        if j < i { assert cs[j] == st.categories[j]; } else { assert cs[j - 1] == st.categories[j]; }
      }
      CategoriesKeepValid(st, cs, st.nextCategory);
    }
  }

  /** A created category, fetched by the id in its answer, reads back as the
      answer's category. */
  lemma {:induction false} CreateThenGetCategory(st: Store, caller: Caller, name: string, description: string)
    requires Valid(st)
    requires CreateCategory(st, caller, name, description).reply.CategoryCreated?
    ensures var r := CreateCategory(st, caller, name, description);
            GetCategory(r.store, caller, Decimal(r.reply.category.id)) == CategoryFound(r.reply.category)
  {
    var r := CreateCategory(st, caller, name, description);
    var row := r.reply.category;
    DecimalRoundTrip(row.id);
    assert forall j :: 0 <= j < |st.categories| ==> CategoryId(st.categories[j]) != row.id;
    IndexOfAppend(st.categories, row, CategoryId, row.id);
    assert r.store.categories[|st.categories|] == row;
  }

  /** The stored name is in normal form, so the exact-match lookups of the
      product handlers find it when given the normalised spelling. */
  lemma CreatedNameNormal(st: Store, caller: Caller, name: string, description: string)
    requires CreateCategory(st, caller, name, description).reply.CategoryCreated?
    ensures var c := CreateCategory(st, caller, name, description).reply.category;
            Normalize(c.name) == c.name && c.name == Normalize(name)
  {
    NormalizeIdempotent(name);
  }

  /** After a create, any name that normalises the same way is refused as a
      duplicate. */
  lemma CreateCategoryTwiceRefused(st: Store, caller: Caller, name: string, description: string,
                                   other: string, otherDescription: string)
    requires CreateCategory(st, caller, name, description).reply.CategoryCreated?
    requires Normalize(other) == Normalize(name)
    requires !IsDigits(otherDescription)
    ensures var s := CreateCategory(st, caller, name, description).store;
            CreateCategory(s, caller, other, otherDescription) == Response(Message(400, Duplicate), s)
  {
    var r := CreateCategory(st, caller, name, description);
    assert r.store.categories[|st.categories|] == r.reply.category;
    assert Contains(r.store.categories, CategoryName, Normalize(other));
  }

  /** After an update the category reads back with the normalised new name
      and the new description. */
  lemma {:induction false} UpdateThenGetCategory(st: Store, caller: Caller, id: string, name: string, description: string)
    requires Valid(st)
    requires UpdateCategory(st, caller, id, name, description).reply == Message(200, Updated)
    ensures GetCategory(UpdateCategory(st, caller, id, name, description).store, caller, id)
            == CategoryFound(Category(DigitsValue(id), Normalize(name), description))
  {
    var r := UpdateCategory(st, caller, id, name, description);
    IndexOfSameColumn(st.categories, r.store.categories, CategoryId, DigitsValue(id));
  }

  /** A deleted category no product refers to is gone afterwards; one still
      referred to is still there, although the answer was the same. */
  lemma {:induction false} DeleteThenGetCategory(st: Store, caller: Caller, id: string)
    requires Valid(st)
    requires DeleteCategory(st, caller, id).reply == Message(200, Deleted)
    ensures !Referenced(st, DigitsValue(id))
            ==> GetCategory(DeleteCategory(st, caller, id).store, caller, id) == Message(404, Missing)
    ensures Referenced(st, DigitsValue(id))
            ==> GetCategory(DeleteCategory(st, caller, id).store, caller, id) == GetCategory(st, caller, id)
  {
    if !Referenced(st, DigitsValue(id)) {
      var n := DigitsValue(id);
      var i := Locate(st, id).value;
      var rest := RemoveAt(st.categories, i);
      forall j | 0 <= j < |rest|
        ensures rest[j].id != n
      {
        if j < i { assert rest[j] == st.categories[j]; } else { assert rest[j] == st.categories[j + 1]; }
      }
    }
  }

  lemma FurnitureName()
    ensures Normalize("Furniture") == "furniture"
  {
    assert forall i :: 0 <= i < |"urniture"| ==> !IsUpper("urniture"[i]);
    assert "Furniture" == ['F'] + "urniture";
    assert LowerChar('F') == 'f' && ['f'] + "urniture" == "furniture";
    NormalCapitalised('F', "urniture");
  }

  const FurnitureDescription := "this is the furniture category"

  lemma FurnitureAcceptable()
    ensures ValidateCategory(Normalize("Furniture"), FurnitureDescription) == None
  {
    FurnitureName();
    assert !IsSpace("furniture"[0]) && !IsAsciiDigit("furniture"[0]);
    assert !IsAsciiDigit(FurnitureDescription[0]);
  }

  /** The tests' first category: posted as `Furniture` into a fresh
      database, it is stored and answered as `furniture` with id 1. */
  lemma FurnitureStoredLowerCase(caller: Caller)
    requires caller.role == Admin
    ensures CreateCategory(Empty, caller, "Furniture", FurnitureDescription).reply
            == CategoryCreated(Category(1, "furniture", FurnitureDescription))
  {
    FurnitureName();
    FurnitureAcceptable();
  }

  /** Posting the tests' first category a second time is refused. */
  lemma FurnitureTwiceRefused(caller: Caller)
    requires caller.role == Admin
    ensures var s := CreateCategory(Empty, caller, "Furniture", FurnitureDescription).store;
            CreateCategory(s, caller, "Furniture", FurnitureDescription) == Response(Message(400, Duplicate), s)
  {
    FurnitureAcceptable();
    assert !IsAsciiDigit(FurnitureDescription[0]);
    CreateCategoryTwiceRefused(Empty, caller, "Furniture", FurnitureDescription, "Furniture", FurnitureDescription);
  }
}
