/** The user handlers: registration and login (the same code in both
    revisions), `User.get`, and `User.delete` as written and corrected. */
module Users {
  import opened Wrappers
  import opened Text
  import opened Tables
  import opened Store

  const NameRequired := "username required should not be empty"
  const PasswordRequired := "password is required, should not be empty"
  const RoleRequired := "user role required, should not be empty"
  const BadRole := "user role must be either admin or attendant"
  const Taken := "User already exists"
  const Unknown := "user does not exist"
  const WrongPassword := "wrong username or password, Try Again"
  const IdNotInteger := "user id must be integer"
  const Missing := "user with id does not exist"
  const AdminOnly := "only admin can delete a User"
  const Deleted := "user deleted successfully"

  /** `UserRegistration.post`: username, password and role must not be
      blank, the role must be one of the two the application knows, and the
      username must be unused. The answer shows the new row without its
      password. */
  function Register(st: Store, username: string, password: string, role: string): (r: Response)
    ensures IsBlank(username) ==> r == Response(Message(400, NameRequired), st)
    ensures !IsBlank(username) && IsBlank(password) ==> r == Response(Message(400, PasswordRequired), st)
    ensures !IsBlank(username) && !IsBlank(password) && IsBlank(role) ==> r == Response(Message(400, RoleRequired), st)
    ensures !IsBlank(username) && !IsBlank(password) && !IsBlank(role) && role != Admin && role != Attendant
            ==> r == Response(Message(400, BadRole), st)
    ensures !IsBlank(username) && !IsBlank(password) && (role == Admin || role == Attendant)
            && Contains(st.users, UserName, username)
            ==> r == Response(Message(400, Taken), st)
    ensures r.reply.UserCreated? <==>
              (!IsBlank(username) && !IsBlank(password) && (role == Admin || role == Attendant)
               && !Contains(st.users, UserName, username))
    ensures !r.reply.UserCreated? ==> r.store == st
    ensures r.reply.UserCreated? ==>
              && r.reply.user == UserView(st.nextUser, username, role)
              && r.store == st.(users := st.users + [User(st.nextUser, username, password, role)],
                                nextUser := st.nextUser + 1)
  {
    IndexOfFinds(st.users, UserName, username);
    assert !IsSpace(Admin[0]) && !IsSpace(Attendant[0]);
    if IsBlank(username) then Response(Message(400, NameRequired), st)
    else if IsBlank(password) then Response(Message(400, PasswordRequired), st)
    else if IsBlank(role) then Response(Message(400, RoleRequired), st)
    else if role != Admin && role != Attendant then Response(Message(400, BadRole), st)
    else if IndexOf(st.users, UserName, username).Some? then Response(Message(400, Taken), st)
    else
      var row := User(st.nextUser, username, password, role);
      Response(UserCreated(UserView(row.id, row.name, row.role)),
               st.(users := st.users + [row], nextUser := st.nextUser + 1))
  }

  /** A user called `username` whose password is `password`. */
  ghost predicate HasAccount(st: Store, username: string, password: string) {
    exists i :: 0 <= i < |st.users| && st.users[i].name == username && st.users[i].password == password
  }

  /** `UserLogin.post`: the stored password of the named user must equal the
      one supplied. Logging in issues a token for the username, which the
      model represents by the username itself. */
  function Login(st: Store, username: string, password: string): (r: Reply)
    ensures IsBlank(username) ==> r == Message(400, NameRequired)
    ensures !IsBlank(username) && IsBlank(password) ==> r == Message(400, PasswordRequired)
    ensures !IsBlank(username) && !IsBlank(password) && !Contains(st.users, UserName, username)
            ==> r == Message(404, Unknown)
    ensures r.LoggedIn? ==> r.identity == username && HasAccount(st, username, password)
    ensures Valid(st) && !IsBlank(username) && !IsBlank(password) && HasAccount(st, username, password)
            ==> r == LoggedIn(username)
    ensures Valid(st) && !IsBlank(username) && !IsBlank(password) && Contains(st.users, UserName, username)
            && !HasAccount(st, username, password)
            ==> r == Message(400, WrongPassword)
  {
    IndexOfFinds(st.users, UserName, username);
    if IsBlank(username) then Message(400, NameRequired)
    else if IsBlank(password) then Message(400, PasswordRequired)
    else match IndexOf(st.users, UserName, username)
      case None => Message(404, Unknown)
      case Some(i) => if st.users[i].password == password then LoggedIn(username) else Message(400, WrongPassword)
  }

  /** `User.get`: no role check; the answer never shows the password. */
  function GetUser(st: Store, id: string): (r: Reply)
    ensures !IsDigits(id) ==> r == Message(400, IdNotInteger)
    ensures IsDigits(id) && !Contains(st.users, UserId, DigitsValue(id)) ==> r == Message(404, Missing)
    ensures r.UserFound? <==> IsDigits(id) && Contains(st.users, UserId, DigitsValue(id))
    ensures r.UserFound? ==> exists i :: 0 <= i < |st.users| && st.users[i].id == DigitsValue(id)
                                         && r.user == UserView(st.users[i].id, st.users[i].name, st.users[i].role)
  {
    match ParseId(id)
    case None => Message(400, IdNotInteger)
    case Some(n) =>
      IndexOfFinds(st.users, UserId, n);
      match IndexOf(st.users, UserId, n)
      case None => Message(404, Missing)
      case Some(i) => UserFound(UserView(st.users[i].id, st.users[i].name, st.users[i].role))
  }

  /** `User.delete` as written: the lookup's result is compared with an
      empty dictionary, which a row or `None` never equals, and no delete
      statement is issued; so every digit id answers 200 and nothing changes. */
  function DeleteUser(st: Store, caller: Caller, id: string): (r: Response)
    ensures r.store == st
    ensures caller.role != Admin ==> r.reply == Message(403, AdminOnly)
    ensures caller.role == Admin && !IsDigits(id) ==> r.reply == Message(400, IdNotInteger)
    ensures caller.role == Admin && IsDigits(id) ==> r.reply == Message(200, Deleted)
  {
    if caller.role != Admin then Response(Message(403, AdminOnly), st)
    else if !IsDigits(id) then Response(Message(400, IdNotInteger), st)
    else Response(Message(200, Deleted), st)
  }

  function AttendantOf(s: Sale): Option<nat> { s.attendantId }

  /** A sale names user `n` as its attendant. */
  ghost predicate Attends(st: Store, n: nat) {
    Contains(st.sales, AttendantOf, Some(n))
  }

  /** `User.delete` as evidently intended: an absent id answers 404, and
      the row is removed with `DELETE_USER` unless a sale names the user as
      its attendant (the sale table's foreign key refuses the statement). */
  function DeleteUserChecked(st: Store, caller: Caller, id: string): (r: Response)
    ensures caller.role != Admin ==> r == Response(Message(403, AdminOnly), st)
    ensures caller.role == Admin && !IsDigits(id) ==> r == Response(Message(400, IdNotInteger), st)
    ensures caller.role == Admin && IsDigits(id) && !Contains(st.users, UserId, DigitsValue(id))
            ==> r == Response(Message(404, Missing), st)
    ensures r.reply == Message(200, Deleted) <==>
              caller.role == Admin && IsDigits(id) && Contains(st.users, UserId, DigitsValue(id))
    ensures r.reply != Message(200, Deleted) || Attends(st, DigitsValue(id)) ==> r.store == st
    ensures r.reply == Message(200, Deleted) && !Attends(st, DigitsValue(id)) ==>
              exists i :: 0 <= i < |st.users| && st.users[i].id == DigitsValue(id)
                          && r.store == st.(users := RemoveAt(st.users, i))
  {
    if caller.role != Admin then Response(Message(403, AdminOnly), st)
    else match ParseId(id)
      case None => Response(Message(400, IdNotInteger), st)
      case Some(n) =>
        IndexOfFinds(st.users, UserId, n);
        IndexOfFinds(st.sales, AttendantOf, Some(n));
        match IndexOf(st.users, UserId, n)
        case None => Response(Message(404, Missing), st)
        case Some(i) =>
          if IndexOf(st.sales, AttendantOf, Some(n)).Some? then Response(Message(200, Deleted), st)
          else Response(Message(200, Deleted), st.(users := RemoveAt(st.users, i)))
  }

  /** Replacing the users table by one that is well keyed under a counter at
      least as large, has unique names and still holds every sale's
      attendant keeps the database invariant. */
  lemma UsersKeepValid(st: Store, us: seq<User>, next: nat)
    requires Valid(st)
    requires next >= st.nextUser
    requires KeysIncreasing(us, UserId) && KeysBelow(us, UserId, next)
    requires forall i, j :: 0 <= i < j < |us| ==> us[i].name != us[j].name
    requires forall i :: 0 <= i < |st.sales| && st.sales[i].attendantId.Some? ==>
               Contains(us, UserId, st.sales[i].attendantId.value)
    ensures Valid(st.(users := us, nextUser := next))
  {
  }

  lemma RegisterKeepsValid(st: Store, username: string, password: string, role: string)
    requires Valid(st)
    ensures Valid(Register(st, username, password, role).store)
  {
    var r := Register(st, username, password, role);
    if r.reply.UserCreated? {
      var row := User(st.nextUser, username, password, role);
      var us := st.users + [row];
      AppendKeeps(st.users, UserId, st.nextUser, row);
      forall i, j | 0 <= i < j < |us|
        ensures us[i].name != us[j].name
      {
        if j == |st.users| {
          assert UserName(st.users[i]) != username;
        } else {
          assert us[i] == st.users[i] && us[j] == st.users[j];
        }
      }
      forall i | 0 <= i < |st.sales| && st.sales[i].attendantId.Some?
        ensures Contains(us, UserId, st.sales[i].attendantId.value)
      {
        var k :| 0 <= k < |st.users| && UserId(st.users[k]) == st.sales[i].attendantId.value;
        assert us[k] == st.users[k];
      }
      UsersKeepValid(st, us, st.nextUser + 1);
    }
  }

  /** Registering and then logging in with the same password succeeds. */
  lemma RegisterThenLogin(st: Store, username: string, password: string, role: string)
    requires Register(st, username, password, role).reply.UserCreated?
    ensures Login(Register(st, username, password, role).store, username, password) == LoggedIn(username)
  {
    var row := User(st.nextUser, username, password, role);
    IndexOfFinds(st.users, UserName, username);
    IndexOfAppend(st.users, row, UserName, username);
  }

  /** Logging in as a newly registered user with another password is
      refused with 400. */
  lemma RegisterThenWrongPassword(st: Store, username: string, password: string, role: string, other: string)
    requires Register(st, username, password, role).reply.UserCreated?
    requires !IsBlank(other) && other != password
    ensures Login(Register(st, username, password, role).store, username, other) == Message(400, WrongPassword)
  {
    var row := User(st.nextUser, username, password, role);
    IndexOfFinds(st.users, UserName, username);
    IndexOfAppend(st.users, row, UserName, username);
  }

  /** A username can be registered once: a second registration, whatever
      its password and role, is refused and changes nothing. */
  lemma RegisterTwiceRefused(st: Store, username: string, password: string, role: string,
                             otherPassword: string, otherRole: string)
    requires Register(st, username, password, role).reply.UserCreated?
    requires !IsBlank(otherPassword) && (otherRole == Admin || otherRole == Attendant)
    ensures var s := Register(st, username, password, role).store;
            Register(s, username, otherPassword, otherRole) == Response(Message(400, Taken), s)
  {
    var s := Register(st, username, password, role).store;
    assert s.users[|st.users|].name == username;
  }

  /** A registered user, fetched by the id in the answer, reads back as the
      answer's user. */
  lemma {:induction false} RegisterThenGet(st: Store, username: string, password: string, role: string)
    requires Valid(st)
    requires Register(st, username, password, role).reply.UserCreated?
    ensures var r := Register(st, username, password, role);
            GetUser(r.store, Decimal(r.reply.user.id)) == UserFound(r.reply.user)
  {
    var r := Register(st, username, password, role);
    var row := User(st.nextUser, username, password, role);
    DecimalRoundTrip(st.nextUser);
    assert forall j :: 0 <= j < |st.users| ==> UserId(st.users[j]) != st.nextUser;
    IndexOfAppend(st.users, row, UserId, st.nextUser);
    assert r.store.users[|st.users|] == row;
  }

  /** A database holding only the administrator the tests log in as. */
  const AdminOnlyStore := Store([], [], [User(1, "admin", "pass", Admin)], [], [], 1, 1, 2, 1, 1)

  /** The handler as written answers an administrator's delete of an absent
      user with 200, where the repository's tests expect 404 (user 6 of a
      database holding only the administrator); the corrected handler
      answers 404. */
  lemma DeleteAbsentUser()
    ensures Valid(AdminOnlyStore)
    ensures DeleteUser(AdminOnlyStore, Caller(1, Admin), "6") == Response(Message(200, Deleted), AdminOnlyStore)
    ensures DeleteUserChecked(AdminOnlyStore, Caller(1, Admin), "6") == Response(Message(404, Missing), AdminOnlyStore)
  {
    assert !Contains(AdminOnlyStore.users, UserId, 6) by {
      assert AdminOnlyStore.users[0].id == 1;
    }
    assert IsDigits("6") by { assert IsAsciiDigit("6"[0]); }
  }

  /** Removing a user keeps the user names unique. */
  lemma RemoveKeepsNamesUnique(users: seq<User>, i: nat)
    requires i < |users|
    requires forall a, b :: 0 <= a < b < |users| ==> users[a].name != users[b].name
    ensures var us := RemoveAt(users, i);
            forall a, b :: 0 <= a < b < |us| ==> us[a].name != us[b].name
  {
    var us := RemoveAt(users, i);
    forall a, b | 0 <= a < b < |us|
      ensures us[a].name != us[b].name
    {
      var a' := if a < i then a else a + 1;
      var b' := if b < i then b else b + 1;
      assert us[a] == users[a'] && us[b] == users[b'];
    }
  }

  /** Removing a user that no sale names keeps every sale's attendant. */
  lemma RemoveKeepsAttendants(st: Store, i: nat)
    requires Valid(st) && i < |st.users| && !Attends(st, st.users[i].id)
    ensures forall s :: 0 <= s < |st.sales| && st.sales[s].attendantId.Some? ==>
              Contains(RemoveAt(st.users, i), UserId, st.sales[s].attendantId.value)
  {
    var us := RemoveAt(st.users, i);
    RemoveAtRows(st.users, i);
    forall s | 0 <= s < |st.sales| && st.sales[s].attendantId.Some?
      ensures Contains(us, UserId, st.sales[s].attendantId.value)
    {
      var m := st.sales[s].attendantId.value;
      assert AttendantOf(st.sales[s]) == Some(m);
      var k :| 0 <= k < |st.users| && UserId(st.users[k]) == m;
      assert k != i;
      assert st.users[k] in us;
      var k' :| 0 <= k' < |us| && us[k'] == st.users[k];
      assert UserId(us[k']) == m;
    }
  }

  lemma DeleteUserCheckedKeepsValid(st: Store, caller: Caller, id: string)
    requires Valid(st)
    ensures Valid(DeleteUserChecked(st, caller, id).store)
  {
    var r := DeleteUserChecked(st, caller, id);
    if r.reply == Message(200, Deleted) && !Attends(st, DigitsValue(id)) {
      var i := IndexOf(st.users, UserId, DigitsValue(id)).value;
      var us := r.store.users;
      assert us == RemoveAt(st.users, i);
      RemoveKeeps(st.users, UserId, st.nextUser, i);
      RemoveKeepsNamesUnique(st.users, i);
      RemoveKeepsAttendants(st, i);
      UsersKeepValid(st, us, st.nextUser);
    }
  }

  /** After the corrected delete succeeds on a user no sale names, the user
      is gone and every other user is still there. */
  lemma {:induction false} DeleteThenGetUser(st: Store, caller: Caller, id: string)
    requires Valid(st)
    requires DeleteUserChecked(st, caller, id).reply == Message(200, Deleted)
    requires !Attends(st, DigitsValue(id))
    ensures GetUser(DeleteUserChecked(st, caller, id).store, id) == Message(404, Missing)
    ensures forall u :: u in st.users && u.id != DigitsValue(id) <==> u in DeleteUserChecked(st, caller, id).store.users
  {
    var n := DigitsValue(id);
    var i := IndexOf(st.users, UserId, n).value;
    var rest := RemoveAt(st.users, i);
    RemoveAtRows(st.users, i);
    forall j | 0 <= j < |rest|
      ensures rest[j].id != n
    {
      if j < i { assert rest[j] == st.users[j]; } else { assert rest[j] == st.users[j + 1]; }
    }
    forall u | u in st.users && u.id != n
      ensures u in rest
    {
      var j :| 0 <= j < |st.users| && st.users[j] == u;
    }
  }
}
