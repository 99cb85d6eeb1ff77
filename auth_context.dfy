/**
 * The sign-in state: the users table, the signed-in user, the user id kept in
 * the browser's local storage, and the decisions of login, logout and the
 * restore at start-up.
 *
 * A lookup with maybeSingle gives no row, one row, or an error when more than
 * one row matches; a store failure is the flag `fetchOk`, `updateOk` or
 * `loadOk`. Passwords are compared as plain strings, as the table stores them.
 */
module AuthContext {
  import opened Wrappers

  /** A users row; a null password means the account has not been claimed yet. */
  datatype User = User(id: string, email: string, password: Option<string>)

  /** The session: the table, the signed-in user, the stored id, and whether a load is pending. */
  datatype AuthState = AuthState(
    users: seq<User>,
    user: Option<User>,
    storedUserId: Option<string>,
    loading: bool)

  /** What login returns to the form. */
  datatype LoginResult = LoginResult(success: bool, error: Option<string>)

  /** The outcome of a maybeSingle query. */
  datatype Lookup = NoRow | OneRow(row: User) | QueryError

  const UserNotFound := "User not found"
  const InvalidPassword := "Invalid password"
  const LoginFailed := "Login failed"

  /** Ids are the table's primary key. */
  predicate UniqueIds(users: seq<User>) {
    forall i, j :: 0 <= i < |users| && 0 <= j < |users| && users[i].id == users[j].id ==> i == j
  }

  /** The two columns the provider filters the users table on. */
  datatype Column = IdColumn | EmailColumn

  function ColumnValue(u: User, c: Column): string {
    match c
    case IdColumn => u.id
    case EmailColumn => u.email
  }

  /** select('*').eq(column, value): the rows holding the value in that column, in table order. */
  function RowsWhere(users: seq<User>, c: Column, value: string): (rows: seq<User>)
    ensures forall r :: r in rows ==> r in users && ColumnValue(r, c) == value
    ensures forall r :: r in users && ColumnValue(r, c) == value ==> r in rows
  {
    if users == [] then []
    else (if ColumnValue(users[0], c) == value then [users[0]] else []) + RowsWhere(users[1..], c, value)
  }

  /** RowsWhere keeps each matching row as often as the table holds it, and no other row. */
  lemma {:induction false} RowsWhereCount(users: seq<User>, c: Column, value: string)
    ensures forall r :: multiset(RowsWhere(users, c, value))[r] ==
                        if ColumnValue(r, c) == value then multiset(users)[r] else 0
    decreases |users|
  {
    if users != [] {
      RowsWhereCount(users[1..], c, value);
      assert users == [users[0]] + users[1..];
    }
  }

  /** Two rows holding the value make maybeSingle fail, even when they are equal rows. */
  lemma TwoMatchesFail(users: seq<User>, c: Column, value: string, i: int, j: int, ok: bool)
    requires 0 <= i < j < |users|
    requires ColumnValue(users[i], c) == value && ColumnValue(users[j], c) == value
    ensures MaybeSingle(RowsWhere(users, c, value), ok) == QueryError
  {
    var rows := RowsWhere(users, c, value);
    var x, y := users[i], users[j];
    assert x in rows && y in rows;
    if x == y {
      assert multiset(users)[x] >= 2 by {
        assert users == users[..j] + users[j..];
        assert x in users[..j] && x in users[j..];
      }
      assert multiset(rows)[x] >= 2 by {
        RowsWhereCount(users, c, value);
      }
    }
    assert |rows| >= 2;
  }

  /** maybeSingle over the matching rows, or the store's error. */
  function MaybeSingle(rows: seq<User>, ok: bool): (r: Lookup)
    ensures r.OneRow? <==> ok && |rows| == 1
    ensures r.OneRow? ==> r.row == rows[0]
    ensures r == NoRow <==> ok && rows == []
  {
    if !ok || |rows| > 1 then QueryError
    else if rows == [] then NoRow
    else OneRow(rows[0])
  }

  /** update({ password }).eq('id', id): every row with that id gets the password. */
  function SetPasswordById(users: seq<User>, id: string, password: string): (r: seq<User>)
    ensures |r| == |users|
    ensures forall i :: 0 <= i < |users| ==>
              r[i] == if users[i].id == id then users[i].(password := Some(password)) else users[i]
  {
    if users == [] then []
    else [if users[0].id == id then users[0].(password := Some(password)) else users[0]] +
         SetPasswordById(users[1..], id, password)
  }

  /**
   * login: look the email up; an unknown email fails with "User not found"; an
   * unclaimed account takes the password given and signs in; a matching
   * password signs in; any other password fails with "Invalid password"; a
   * store error fails with "Login failed" and changes nothing.
   */
  function Login(st: AuthState, email: string, password: string, fetchOk: bool, updateOk: bool)
    : (r: (AuthState, LoginResult))
    ensures r.1.success <==> r.1.error.None?
    ensures !r.1.success ==> r.0 == st
    ensures r.0.loading == st.loading
  {
    var rows := RowsWhere(st.users, EmailColumn, email);
    match MaybeSingle(rows, fetchOk)
    case QueryError => (st, LoginResult(false, Some(LoginFailed)))
    case NoRow => (st, LoginResult(false, Some(UserNotFound)))
    case OneRow(existing) =>
      if existing.password.None? then
        if !updateOk then (st, LoginResult(false, Some(LoginFailed)))
        else
          var updated := existing.(password := Some(password));
          (st.(users := SetPasswordById(st.users, existing.id, password),
               user := Some(updated),
               storedUserId := Some(existing.id)),
           LoginResult(true, None))
      else if existing.password == Some(password) then
        (st.(user := Some(existing), storedUserId := Some(existing.id)), LoginResult(true, None))
      else (st, LoginResult(false, Some(InvalidPassword)))
  }

  /** logout: no user, and no stored id. */
  function Logout(st: AuthState): (st': AuthState)
    ensures st'.user.None? && st'.storedUserId.None?
    ensures st'.users == st.users && st'.loading == st.loading
  {
    st.(user := None, storedUserId := None)
  }

  /** A stored id counts only when it is a non-empty string (the source tests its truthiness). */
  predicate HasStoredId(stored: Option<string>)
    ensures HasStoredId(stored) <==> stored != None && stored != Some("")
  {
    stored.Some? && stored.value != ""
  }

  /**
   * The start-up effect: with a stored id, load that user (keeping the
   * current user when the lookup fails or finds nothing); loading ends in
   * every case.
   */
  function Restore(st: AuthState, loadOk: bool): (r: AuthState)
    ensures !r.loading && r.users == st.users && r.storedUserId == st.storedUserId
    ensures r.user != st.user ==>
              HasStoredId(st.storedUserId) && r.user.Some? && r.user.value in st.users &&
              r.user.value.id == st.storedUserId.value
  {
    if !HasStoredId(st.storedUserId) then st.(loading := false)
    else
      match MaybeSingle(RowsWhere(st.users, IdColumn, st.storedUserId.value), loadOk)
      case OneRow(row) => st.(user := Some(row), loading := false)
      case _ => st.(loading := false)
  }

  // ---------------------------------------------------------------------
  // Lemmas

  /** An email with no row fails with "User not found" and leaves everything as it was. */
  lemma UnknownEmailFails(st: AuthState, email: string, password: string, updateOk: bool)
    requires forall u :: u in st.users ==> u.email != email
    ensures Login(st, email, password, true, updateOk) == (st, LoginResult(false, Some(UserNotFound)))
  {
    NoRowsWhere(st.users, EmailColumn, email);
  }

  /**
   * The first login of an unclaimed account stores the password on that
   * account, signs it in with the password, records its id, and succeeds.
   */
  lemma FirstLoginClaimsPassword(st: AuthState, email: string, password: string, u: User)
    requires RowsWhere(st.users, EmailColumn, email) == [u] && u.password.None?
    ensures var (st', res) := Login(st, email, password, true, true);
            res == LoginResult(true, None) &&
            st'.user == Some(u.(password := Some(password))) &&
            st'.storedUserId == Some(u.id) &&
            st'.users == SetPasswordById(st.users, u.id, password) &&
            st'.loading == st.loading
  {
  }

  /** A password that matches signs the account in and changes no row. */
  lemma MatchingPasswordSignsIn(st: AuthState, email: string, password: string, u: User, updateOk: bool)
    requires RowsWhere(st.users, EmailColumn, email) == [u] && u.password == Some(password)
    ensures Login(st, email, password, true, updateOk) ==
            (st.(user := Some(u), storedUserId := Some(u.id)), LoginResult(true, None))
  {
  }

  /** A password that does not match fails with "Invalid password" and changes nothing. */
  lemma WrongPasswordFails(st: AuthState, email: string, password: string, u: User, updateOk: bool)
    requires RowsWhere(st.users, EmailColumn, email) == [u] && u.password.Some? && u.password != Some(password)
    ensures Login(st, email, password, true, updateOk) == (st, LoginResult(false, Some(InvalidPassword)))
  {
  }

  /** A failed lookup, a lookup matching several rows, or a failed claim gives "Login failed" and changes nothing. */
  lemma StoreErrorFails(st: AuthState, email: string, password: string, fetchOk: bool, updateOk: bool)
    requires !fetchOk || |RowsWhere(st.users, EmailColumn, email)| > 1 ||
             (|RowsWhere(st.users, EmailColumn, email)| == 1 && RowsWhere(st.users, EmailColumn, email)[0].password.None? && !updateOk)
    ensures Login(st, email, password, fetchOk, updateOk) == (st, LoginResult(false, Some(LoginFailed)))
  {
  }

  /** Login signs in exactly when it reports success, and never touches the loading flag. */
  lemma LoginSessionMatchesResult(st: AuthState, email: string, password: string, fetchOk: bool, updateOk: bool)
    ensures var (st', res) := Login(st, email, password, fetchOk, updateOk);
            (res.success <==> res.error.None?) &&
            (res.success ==> st'.user.Some? && st'.user.value.email == email &&
                             st'.user.value.password == Some(password) &&
                             st'.storedUserId == Some(st'.user.value.id)) &&
            (!res.success ==> st' == st) &&
            st'.loading == st.loading
  {
    var rows := RowsWhere(st.users, EmailColumn, email);
    if fetchOk && |rows| == 1 {
      assert rows[0] in rows;
    }
  }

  /** Setting a password by id and then selecting by email is selecting first and then setting. */
  lemma {:induction false} RowsWithEmailOfSetPassword(users: seq<User>, id: string, email: string, password: string)
    ensures RowsWhere(SetPasswordById(users, id, password), EmailColumn, email) ==
            SetPasswordById(RowsWhere(users, EmailColumn, email), id, password)
    decreases |users|
  {
    if users != [] {
      var r := SetPasswordById(users, id, password);
      assert r[1..] == SetPasswordById(users[1..], id, password);
      RowsWithEmailOfSetPassword(users[1..], id, email, password);
      var head := if users[0].email == email then [users[0]] else [];
      var rest := RowsWhere(users[1..], EmailColumn, email);
      SetPasswordAppend(head, rest, id, password);
    }
  }

  lemma {:induction false} SetPasswordAppend(a: seq<User>, b: seq<User>, id: string, password: string)
    ensures SetPasswordById(a + b, id, password) == SetPasswordById(a, id, password) + SetPasswordById(b, id, password)
  {
    var l := SetPasswordById(a + b, id, password);
    var r := SetPasswordById(a, id, password) + SetPasswordById(b, id, password);
    assert |l| == |r|;
    forall i | 0 <= i < |l| ensures l[i] == r[i] {
      if i >= |a| {
        assert (a + b)[i] == b[i - |a|];
      }
    }
  }

  /**
   * After a first login claims an account, signing in again with the same
   * password succeeds, and with any other password fails.
   */
  lemma ClaimThenSignInAgain(st: AuthState, email: string, password: string, other: string, u: User)
    requires RowsWhere(st.users, EmailColumn, email) == [u] && u.password.None?
    requires other != password
    ensures var st1 := Login(st, email, password, true, true).0;
            Login(st1, email, password, true, true).1 == LoginResult(true, None) &&
            Login(st1, email, other, true, true) == (st1, LoginResult(false, Some(InvalidPassword)))
  {
    var st1 := Login(st, email, password, true, true).0;
    RowsWithEmailOfSetPassword(st.users, u.id, email, password);
    assert RowsWhere(st1.users, EmailColumn, email) == SetPasswordById([u], u.id, password);
    assert SetPasswordById([u], u.id, password)[0] == u.(password := Some(password));
  }

  /**
   * Login never changes a password that is already set, nor any id or email:
   * only the signing-in account's missing password can be filled in.
   */
  lemma LoginKeepsClaimedPasswords(st: AuthState, email: string, password: string, fetchOk: bool, updateOk: bool)
    requires UniqueIds(st.users)
    ensures var users' := Login(st, email, password, fetchOk, updateOk).0.users;
            |users'| == |st.users| && UniqueIds(users') &&
            forall i :: 0 <= i < |st.users| ==>
              users'[i].id == st.users[i].id && users'[i].email == st.users[i].email &&
              (st.users[i].password.Some? ==> users'[i] == st.users[i])
  {
    var rows := RowsWhere(st.users, EmailColumn, email);
    if fetchOk && |rows| == 1 && rows[0].password.None? && updateOk {
      var u := rows[0];
      var users' := SetPasswordById(st.users, u.id, password);
      assert Login(st, email, password, fetchOk, updateOk).0.users == users' by {
        assert MaybeSingle(rows, fetchOk) == OneRow(u);
      }
      assert u in rows;
      var k :| 0 <= k < |st.users| && st.users[k] == u;
      SetPasswordKeepsClaimed(st.users, k, password);
    } else {
      assert Login(st, email, password, fetchOk, updateOk).0.users == st.users;
    }
  }

  /** Setting the password of an unclaimed row, found by its unique id, touches that row alone. */
  lemma SetPasswordKeepsClaimed(users: seq<User>, k: int, password: string)
    requires UniqueIds(users) && 0 <= k < |users| && users[k].password.None?
    ensures var users' := SetPasswordById(users, users[k].id, password);
            |users'| == |users| && UniqueIds(users') &&
            forall i :: 0 <= i < |users| ==>
              users'[i].id == users[i].id && users'[i].email == users[i].email &&
              (users[i].password.Some? ==> users'[i] == users[i])
  {
    var users' := SetPasswordById(users, users[k].id, password);
    forall i | 0 <= i < |users| && users[i].password.Some?
      ensures users'[i] == users[i]
    {
      assert i != k;
    }
  }

  /** With no stored id, start-up only ends the loading state. */
  lemma RestoreWithoutStoredId(st: AuthState, loadOk: bool)
    requires !HasStoredId(st.storedUserId)
    ensures Restore(st, loadOk) == st.(loading := false)
  {
  }

  /** With a stored id of an existing user, start-up signs that user in. */
  lemma RestoreStoredUser(st: AuthState, u: User)
    requires UniqueIds(st.users) && u in st.users
    requires st.storedUserId == Some(u.id) && u.id != ""
    ensures Restore(st, true) == st.(user := Some(u), loading := false)
  {
    RowsWithOwnId(st.users, u);
  }

  /** With unique ids, looking a row up by its id finds that row alone. */
  lemma {:induction false} RowsWithOwnId(users: seq<User>, u: User)
    requires UniqueIds(users) && u in users
    ensures RowsWhere(users, IdColumn, u.id) == [u]
  {
    var rest := users[1..];
    assert UniqueIds(rest) by {
      forall i, j | 0 <= i < |rest| && 0 <= j < |rest| && rest[i].id == rest[j].id ensures i == j {
        assert users[i + 1] == rest[i] && users[j + 1] == rest[j];
      }
    }
    if users[0] == u {
      forall r | r in rest ensures r.id != u.id {
        var k :| 0 <= k < |rest| && rest[k] == r;
        assert users[k + 1] == r;
      }
      NoRowsWhere(rest, IdColumn, u.id);
    } else {
      var k :| 0 <= k < |users| && users[k] == u;
      assert k != 0;
      assert users[0].id != u.id;
      assert rest[k - 1] == u;
      RowsWithOwnId(rest, u);
    }
  }

  /** A value that no row holds in the column selects no row. */
  lemma {:induction false} NoRowsWhere(users: seq<User>, c: Column, value: string)
    requires forall u :: u in users ==> ColumnValue(u, c) != value
    ensures RowsWhere(users, c, value) == []
  {
    if users != [] {
      assert users[0] in users;
      NoRowsWhere(users[1..], c, value);
    }
  }


  /** Logging out after any login leaves no user and no stored id, with the table as the login left it. */
  lemma LogoutAfterLogin(st: AuthState, email: string, password: string, fetchOk: bool, updateOk: bool)
    ensures var st1 := Login(st, email, password, fetchOk, updateOk).0;
            Logout(st1) == st1.(user := None, storedUserId := None)
  {
  }

  // ---------------------------------------------------------------------
  // The provider component

  class AuthProvider {
    var users: seq<User>
    var user: Option<User>
    var storedUserId: Option<string>
    var loading: bool

    function State(): AuthState
      reads this
    {
      AuthState(users, user, storedUserId, loading)
    }

    /** Mounting: no user yet, loading until the stored id has been looked at. */
    constructor (users: seq<User>, storedUserId: Option<string>)
      ensures State() == AuthState(users, None, storedUserId, true)
    {
      this.users := users;
      user := None;
      this.storedUserId := storedUserId;
      loading := true;
    }

    /** The mount effect, with loadUser when an id is stored. */
    method RestoreSession(loadOk: bool)
      modifies this
      ensures State() == Restore(old(State()), loadOk)
    {
      if storedUserId.Some? && storedUserId.value != "" {
        var found := MaybeSingle(RowsWhere(users, IdColumn, storedUserId.value), loadOk);
        if found.OneRow? {
          user := Some(found.row);
        }
      }
      loading := false;
    }

    method DoLogin(email: string, password: string, fetchOk: bool, updateOk: bool) returns (result: LoginResult)
      modifies this
      ensures (State(), result) == Login(old(State()), email, password, fetchOk, updateOk)
    {
      var existing := MaybeSingle(RowsWhere(users, EmailColumn, email), fetchOk);
      if existing.QueryError? {
        return LoginResult(false, Some(LoginFailed));
      }
      if existing.NoRow? {
        return LoginResult(false, Some(UserNotFound));
      }
      var row := existing.row;
      if row.password.None? {
        if !updateOk {
          return LoginResult(false, Some(LoginFailed));
        }
        users := SetPasswordById(users, row.id, password);
        user := Some(row.(password := Some(password)));
        storedUserId := Some(row.id);
        return LoginResult(true, None);
      }
      if row.password == Some(password) {
        user := Some(row);
        storedUserId := Some(row.id);
        return LoginResult(true, None);
      }
      return LoginResult(false, Some(InvalidPassword));
    }

    method DoLogout()
      modifies this
      ensures State() == Logout(old(State()))
    {
      user := None;
      storedUserId := None;
    }
  }
}
