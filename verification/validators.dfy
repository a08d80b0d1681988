/** The request-body validators (`CustomValidator` and the product checks
    the views inline): each is a chain of checks of which the first that
    fails decides the 400 message. `None` means every check passed. */
module Validators {
  import opened Wrappers
  import opened Text
  import opened Store

  /** One `if <condition>: abort(400, <message>)` of a chain. */
  datatype Check = Check(fails: bool, message: string)

  /** The message of the first failing check, if any. */
  function FirstFailure(checks: seq<Check>): (r: Option<string>)
    ensures r.None? <==> forall i :: 0 <= i < |checks| ==> !checks[i].fails
    ensures r.Some? ==> exists k :: 0 <= k < |checks| && checks[k].fails && r.value == checks[k].message
                                     && forall j :: 0 <= j < k ==> !checks[j].fails
    decreases |checks|
  {
    if |checks| == 0 then None
    else if checks[0].fails then Some(checks[0].message)
    else
      var r := FirstFailure(checks[1..]);
      if r.Some? then
        var k :| 0 <= k < |checks[1..]| && checks[1..][k].fails && r.value == checks[1..][k].message
                 && forall j :: 0 <= j < k ==> !checks[1..][j].fails;
        assert checks[k + 1].fails && forall j :: 0 <= j < k + 1 ==> !checks[j].fails;
        r
      else r
  }

  /** Of a chain whose checks before `k` pass and whose check `k` fails, the
      answer is check `k`'s message. */
  lemma FirstFailureAt(checks: seq<Check>, k: nat)
    requires k < |checks| && checks[k].fails
    requires forall j :: 0 <= j < k ==> !checks[j].fails
    ensures FirstFailure(checks) == Some(checks[k].message)
  {
    var r := FirstFailure(checks);
    var k' :| 0 <= k' < |checks| && checks[k'].fails && r.value == checks[k'].message
              && forall j :: 0 <= j < k' ==> !checks[j].fails;
    assert k' == k;
  }

  /** The text field checks `isdigit` then `not s or s.isspace()`. */
  function TextChecks(s: string, digitsMessage: string, emptyMessage: string): seq<Check> {
    [Check(IsDigits(s), digitsMessage), Check(IsBlank(s), emptyMessage)]
  }

  /** `validate_sale_items`: a digit-only name, then a negative count, then
      a zero count is refused; an empty name is not. */
  function ValidateSaleItem(name: string, count: int): (r: Option<string>)
    ensures r.None? <==> !IsDigits(name) && count >= 1
    ensures IsDigits(name) ==> r == Some("name cannot be an integer value")
    ensures !IsDigits(name) && count < 0 ==> r == Some("product count cannot be negative")
    ensures !IsDigits(name) && count == 0 ==> r == Some("product count must be 1 and above")
  {
    var checks := [
      Check(IsDigits(name), "name cannot be an integer value"),
      Check(count < 0, "product count cannot be negative"),
      Check(count == 0, "product count must be 1 and above")];
    assert |checks| == 3 && checks[0].fails == IsDigits(name);
    assert checks[1].fails == (count < 0) && checks[2].fails == (count == 0);
    FirstFailure(checks)
  }

  /** `validate_category_details`: the name must have text and not be all
      digits; the description may be empty but not all digits. */
  function ValidateCategory(name: string, description: string): (r: Option<string>)
    ensures r.None? <==> HasText(name) && HasNonDigit(name) && !IsDigits(description)
    ensures IsDigits(name) ==> r == Some("name cannot be an integer value")
    ensures !IsDigits(name) && !HasText(name) ==> r == Some("please provide a category name")
    ensures HasText(name) && HasNonDigit(name) && IsDigits(description)
            ==> r == Some("description cannot be an integer value")
  {
    NameChecksPass(name);
    BlankIsNoText(name);
    var checks :=
      TextChecks(name, "name cannot be an integer value", "please provide a category name")
      + [Check(IsDigits(description), "description cannot be an integer value")];
    assert |checks| == 3;
    assert checks[0] == Check(IsDigits(name), "name cannot be an integer value");
    assert checks[1] == Check(IsBlank(name), "please provide a category name");
    assert checks[2] == Check(IsDigits(description), "description cannot be an integer value");
    FirstFailure(checks)
  }

  /** `validate_register_details`: username, then password, then role; the
      role may be any text that is not all digits. */
  function ValidateRegister(username: string, password: string, role: string): (r: Option<string>)
    ensures r.None? <==> HasText(username) && HasNonDigit(username) && HasText(password)
                         && HasText(role) && HasNonDigit(role)
    ensures IsDigits(username) ==> r == Some("username cannot be an integer value")
    ensures !IsDigits(username) && !HasText(username) ==> r == Some("please provide a username")
    ensures HasText(username) && HasNonDigit(username) && !HasText(password)
            ==> r == Some("please provide a password")
    ensures HasText(username) && HasNonDigit(username) && HasText(password) && IsDigits(role)
            ==> r == Some("user role cannot be an integer value")
    ensures HasText(username) && HasNonDigit(username) && HasText(password)
            && !IsDigits(role) && !HasText(role)
            ==> r == Some("user role required, should not be empty")
  {
    NameChecksPass(username);
    NameChecksPass(role);
    BlankIsNoText(username);
    BlankIsNoText(password);
    BlankIsNoText(role);
    var checks :=
      TextChecks(username, "username cannot be an integer value", "please provide a username")
      + [Check(IsBlank(password), "please provide a password")]
      + TextChecks(role, "user role cannot be an integer value", "user role required, should not be empty");
    assert |checks| == 5;
    assert checks[0] == Check(IsDigits(username), "username cannot be an integer value");
    assert checks[1] == Check(IsBlank(username), "please provide a username");
    assert checks[2] == Check(IsBlank(password), "please provide a password");
    assert checks[3] == Check(IsDigits(role), "user role cannot be an integer value");
    assert checks[4] == Check(IsBlank(role), "user role required, should not be empty");
    FirstFailure(checks)
  }

  /** `validate_login_details`: the username and password rules of
      registration. */
  function ValidateLogin(username: string, password: string): (r: Option<string>)
    ensures r.None? <==> HasText(username) && HasNonDigit(username) && HasText(password)
    ensures IsDigits(username) ==> r == Some("username cannot be an integer value")
    ensures !IsDigits(username) && !HasText(username) ==> r == Some("please provide a username")
    ensures HasText(username) && HasNonDigit(username) && !HasText(password)
            ==> r == Some("please provide a password")
  {
    NameChecksPass(username);
    BlankIsNoText(username);
    BlankIsNoText(password);
    var checks :=
      TextChecks(username, "username cannot be an integer value", "please provide a username")
      + [Check(IsBlank(password), "please provide a password")];
    assert |checks| == 3;
    assert checks[0] == Check(IsDigits(username), "username cannot be an integer value");
    assert checks[1] == Check(IsBlank(username), "please provide a username");
    assert checks[2] == Check(IsBlank(password), "please provide a password");
    FirstFailure(checks)
  }

  /** The messages of one revision of the product checks. */
  datatype ProductMessages = ProductMessages(
    nameDigits: string, nameEmpty: string,
    priceNegative: string,
    descriptionDigits: string, descriptionEmpty: string,
    categoryDigits: string, categoryEmpty: string,
    stockNegative: string, minStockNegative: string)

  /** The messages of `validate_product_details`. */
  const DetailsMessages := ProductMessages(
    "name cannot be an integer value", "name should not be empty",
    "price cannot be a negative or 0",
    "description cannot be an integer value", "description should not be empty",
    "category cannot be an integer value", "category should not be empty",
    "stock cannot be a negative or 0", "minimum cannot be a negative or 0")

  /** Name, price, description, category, stock, minimum stock, in that order. */
  function ProductChecks(m: ProductMessages, p: ProductInput): seq<Check> {
    [Check(IsDigits(p.name), m.nameDigits), Check(IsBlank(p.name), m.nameEmpty),
     Check(p.price < 0, m.priceNegative),
     Check(IsDigits(p.description), m.descriptionDigits),
     Check(IsBlank(p.description), m.descriptionEmpty),
     Check(IsDigits(p.category), m.categoryDigits),
     Check(IsBlank(p.category), m.categoryEmpty),
     Check(p.stock < 0, m.stockNegative), Check(p.minStock < 0, m.minStockNegative)]
  }

  /** A product body every check accepts: three texts that are neither empty,
      blank nor all digits, and three numbers that are not negative (zero
      passes, whatever the messages say). */
  ghost predicate ProductAcceptable(p: ProductInput) {
    && HasText(p.name) && HasNonDigit(p.name)
    && p.price >= 0
    && HasText(p.description) && HasNonDigit(p.description)
    && HasText(p.category) && HasNonDigit(p.category)
    && p.stock >= 0 && p.minStock >= 0
  }

  /** The product checks as the handlers write them: one `if` per check, in
      order, the first that fires deciding the message. */
  function ProductIfChain(m: ProductMessages, p: ProductInput): Option<string> {
    if IsDigits(p.name) then Some(m.nameDigits)
    else if IsBlank(p.name) then Some(m.nameEmpty)
    else if p.price < 0 then Some(m.priceNegative)
    else if IsDigits(p.description) then Some(m.descriptionDigits)
    else if IsBlank(p.description) then Some(m.descriptionEmpty)
    else if IsDigits(p.category) then Some(m.categoryDigits)
    else if IsBlank(p.category) then Some(m.categoryEmpty)
    else if p.stock < 0 then Some(m.stockNegative)
    else if p.minStock < 0 then Some(m.minStockNegative)
    else None
  }

  /** The chain of checks answers as the sequence of `if`s does. */
  lemma ProductChainAgrees(m: ProductMessages, p: ProductInput)
    ensures FirstFailure(ProductChecks(m, p)) == ProductIfChain(m, p)
  {
    var c := ProductChecks(m, p);
    FirstFailureSteps(c);
  }

  /** A chain of nine checks, unrolled. */
  lemma FirstFailureSteps(c: seq<Check>)
    requires |c| == 9
    ensures FirstFailure(c)
         == if c[0].fails then Some(c[0].message)
            else if c[1].fails then Some(c[1].message)
            else if c[2].fails then Some(c[2].message)
            else if c[3].fails then Some(c[3].message)
            else if c[4].fails then Some(c[4].message)
            else if c[5].fails then Some(c[5].message)
            else if c[6].fails then Some(c[6].message)
            else if c[7].fails then Some(c[7].message)
            else if c[8].fails then Some(c[8].message)
            else None
  {
    var k := 0;
    while k < 9 && !c[k].fails
      invariant 0 <= k <= 9
      invariant forall j :: 0 <= j < k ==> !c[j].fails
    {
      k := k + 1;
    }
    if k < 9 {
      FirstFailureAt(c, k);
    }
  }

  /** The product chain under a given set of messages: it accepts exactly the
      acceptable bodies, and otherwise answers as the handler's `if`s do. */
  function ValidateProduct(m: ProductMessages, p: ProductInput): (r: Option<string>)
    ensures r.None? <==> ProductAcceptable(p)
    ensures r == ProductIfChain(m, p)
  {
    ProductChainAgrees(m, p);
    NameChecksPass(p.name);
    NameChecksPass(p.description);
    NameChecksPass(p.category);
    FirstFailure(ProductChecks(m, p))
  }

  /** `validate_product_details`. */
  function ValidateProductDetails(p: ProductInput): (r: Option<string>)
    ensures r.None? <==> ProductAcceptable(p)
  {
    ValidateProduct(DetailsMessages, p)
  }

  /** Zero price, stock and minimum stock pass despite the "negative or 0"
      wording; any negative one is refused. */
  lemma ZeroQuantitiesPass(m: ProductMessages, p: ProductInput)
    requires HasText(p.name) && HasNonDigit(p.name)
    requires HasText(p.description) && HasNonDigit(p.description)
    requires HasText(p.category) && HasNonDigit(p.category)
    ensures ValidateProduct(m, p.(price := 0, stock := 0, minStock := 0)) == None
    ensures p.price < 0 || p.stock < 0 || p.minStock < 0 ==> ValidateProduct(m, p).Some?
  {
  }

  /** A digit-only text field gets the "integer value" message and an empty or
      whitespace one the "empty" message: the two never overlap. */
  lemma DigitsAreNotBlank(s: string)
    ensures IsDigits(s) ==> !IsBlank(s)
  {
    if IsDigits(s) {
      assert !IsSpace(s[0]);
    }
  }
}
