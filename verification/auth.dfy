/**
 * The identity store of `context/auth-context.tsx`: a persisted list of
 * accounts, a persisted session ("rentpal_user") and the in-memory session
 * the React context exposes. Every operation reads the account list afresh
 * from storage, so the list has no in-memory copy.
 */
module Auth {
  import opened Wrappers

  /** A stored account; the password is kept and compared as plain text. */
  datatype Account = Account(id: string, name: string, password: string)

  /** The public part of an account, which is what a session holds. */
  datatype User = User(id: string, name: string)

  /**
   * `users` is the persisted account list, `savedUser` the persisted session
   * and `user` the session held by the running context.
   */
  datatype AuthState = AuthState(users: seq<Account>, savedUser: Option<User>, user: Option<User>)

  /** The boolean an operation returns, together with the state after it. */
  datatype AuthResult = AuthResult(success: bool, state: AuthState)

  /** Both credentials match exactly (case-sensitive string equality). */
  predicate Matches(a: Account, name: string, password: string)
  {
    a.name == name && a.password == password
  }

  /** Some stored account already carries `name`. */
  function NameTaken(users: seq<Account>, name: string): (taken: bool)
    ensures taken <==> exists i :: 0 <= i < |users| && users[i].name == name
  {
    if |users| == 0 then false
    else if users[0].name == name then true
    else
      var rest := NameTaken(users[1..], name);
      assert forall i :: 0 < i < |users| ==> users[i] == users[1..][i - 1];
      rest
  }

  /** The position `users.find` stops at: the first account matching both credentials. */
  function FindCredentials(users: seq<Account>, name: string, password: string): (r: Option<nat>)
    ensures r.Some? ==> r.value < |users| && Matches(users[r.value], name, password)
    ensures r.Some? ==> forall j :: 0 <= j < r.value ==> !Matches(users[j], name, password)
    ensures r.None? <==> forall j :: 0 <= j < |users| ==> !Matches(users[j], name, password)
  {
    if |users| == 0 then None
    else if Matches(users[0], name, password) then Some(0)
    else
      match FindCredentials(users[1..], name, password)
      case None =>
        assert forall j :: 0 < j < |users| ==> users[j] == users[1..][j - 1];
        None
      case Some(k) =>
        assert forall j :: 0 < j <= k ==> users[j] == users[1..][j - 1];
        Some(k + 1)
  }

  /** Opens a session: the in-memory and the persisted copy are written together. */
  function SignIn(st: AuthState, u: User): AuthState
  {
    st.(savedUser := Some(u), user := Some(u))
  }

  /** The mount effect: a persisted session, if any, is restored without checking it. */
  function Start(users: seq<Account>, savedUser: Option<User>): (st: AuthState)
    ensures st.users == users && st.savedUser == savedUser
    ensures InSync(st)
  {
    var initial := AuthState(users, savedUser, None);
    match savedUser
    case Some(u) => initial.(user := Some(u))
    case None => initial
  }

  /** `login(name, password)`. */
  function Login(st: AuthState, name: string, password: string): (r: AuthResult)
    ensures r.state.users == st.users
    ensures r.success <==> exists i :: 0 <= i < |st.users| && Matches(st.users[i], name, password)
    ensures r.success ==>
      exists i :: 0 <= i < |st.users| && Matches(st.users[i], name, password)
        && (forall j :: 0 <= j < i ==> !Matches(st.users[j], name, password))
        && r.state.user == Some(User(st.users[i].id, name))
        && r.state.savedUser == r.state.user
    ensures !r.success ==> r.state == st
  {
    match FindCredentials(st.users, name, password)
    case None => AuthResult(false, st)
    case Some(i) =>
      var found := st.users[i];
      AuthResult(true, SignIn(st, User(found.id, found.name)))
  }

  /** `register(name, password)`; `freshId` stands for `crypto.randomUUID()`. */
  function Register(st: AuthState, name: string, password: string, freshId: string): (r: AuthResult)
    ensures r.success <==> forall i :: 0 <= i < |st.users| ==> st.users[i].name != name
    ensures !r.success ==> r.state == st
    ensures r.success ==> |r.state.users| == |st.users| + 1
    ensures r.success ==> r.state.users[..|st.users|] == st.users
    ensures r.success ==> r.state.users[|st.users|] == Account(freshId, name, password)
    ensures r.success ==> r.state.user == Some(User(freshId, name)) && r.state.savedUser == r.state.user
  {
    if NameTaken(st.users, name) then AuthResult(false, st)
    else
      var newUser := Account(freshId, name, password);
      var st' := st.(users := st.users + [newUser]);
      AuthResult(true, SignIn(st', User(newUser.id, newUser.name)))
  }

  /** `logout()`. */
  function Logout(st: AuthState): (r: AuthState)
    ensures r.users == st.users
    ensures r.user.None? && r.savedUser.None?
  {
    st.(savedUser := None, user := None)
  }

  /** The session the context holds is the one a reload would restore. */
  predicate InSync(st: AuthState)
  {
    st.savedUser == st.user
  }

  predicate NamesDistinct(users: seq<Account>)
  {
    forall i, j :: 0 <= i < j < |users| ==> users[i].name != users[j].name
  }

  predicate IdsDistinct(users: seq<Account>)
  {
    forall i, j :: 0 <= i < j < |users| ==> users[i].id != users[j].id
  }

  predicate IdUnused(users: seq<Account>, id: string)
  {
    forall i :: 0 <= i < |users| ==> users[i].id != id
  }

  /** The session names an existing account by its id and name. */
  predicate Known(users: seq<Account>, u: User)
  {
    exists i :: 0 <= i < |users| && users[i].id == u.id && users[i].name == u.name
  }

  /** The store's invariant. */
  predicate Valid(st: AuthState)
  {
    && NamesDistinct(st.users)
    && IdsDistinct(st.users)
    && InSync(st)
    && (st.user.Some? ==> Known(st.users, st.user.value))
  }

  lemma RegisterPreservesValid(st: AuthState, name: string, password: string, freshId: string)
    requires Valid(st)
    requires IdUnused(st.users, freshId)
    ensures Valid(Register(st, name, password, freshId).state)
  {
  }

  lemma LoginPreservesValid(st: AuthState, name: string, password: string)
    requires Valid(st)
    ensures Valid(Login(st, name, password).state)
  {
  }

  /** Logging out twice is the same as logging out once. */
  lemma LogoutIdempotent(st: AuthState)
    ensures Logout(Logout(st)) == Logout(st)
  {
  }

  lemma LogoutPreservesValid(st: AuthState)
    requires Valid(st)
    ensures Valid(Logout(st))
  {
  }

  /** With distinct names the account a login selects is the only one that matches. */
  lemma LoginSelectsUniqueAccount(st: AuthState, name: string, password: string, i: nat)
    requires NamesDistinct(st.users)
    requires i < |st.users| && Matches(st.users[i], name, password)
    ensures Login(st, name, password).success
    ensures Login(st, name, password).state.user == Some(User(st.users[i].id, name))
  {
  }

  /** A restored session is trusted as stored, even one naming no account. */
  lemma StartTrustsSavedUser(users: seq<Account>, u: User)
    requires !Known(users, u)
    ensures Start(users, Some(u)).user == Some(u)
    ensures !Valid(Start(users, Some(u)))
  {
  }

  /** Reloading the page restores exactly the session that was open, so the invariant survives it. */
  lemma StartPreservesValid(st: AuthState)
    requires Valid(st)
    ensures Start(st.users, st.savedUser) == st
    ensures Valid(Start(st.users, st.savedUser))
  {
  }

  /** One step of a session with the identity store. */
  datatype Command =
    | DoRegister(name: string, password: string, freshId: string)
    | DoLogin(name: string, password: string)
    | DoLogout
    | DoReload

  function Step(st: AuthState, c: Command): AuthState
  {
    match c
    case DoRegister(n, p, id) => Register(st, n, p, id).state
    case DoLogin(n, p) => Login(st, n, p).state
    case DoLogout => Logout(st)
    case DoReload => Start(st.users, st.savedUser)
  }

  function Run(st: AuthState, cs: seq<Command>): AuthState
    decreases |cs|
  {
    if |cs| == 0 then st else Run(Step(st, cs[0]), cs[1..])
  }

  /** Every id a registration in `cs` draws is unused at the moment it is drawn. */
  predicate FreshAlong(st: AuthState, cs: seq<Command>)
    decreases |cs|
  {
    if |cs| == 0 then true
    else
      && (cs[0].DoRegister? ==> IdUnused(st.users, cs[0].freshId))
      && FreshAlong(Step(st, cs[0]), cs[1..])
  }

  /** The invariant holds after any sequence of operations and reloads whose generated ids are fresh. */
  lemma {:induction false} RunPreservesValid(st: AuthState, cs: seq<Command>)
    requires Valid(st)
    requires FreshAlong(st, cs)
    ensures Valid(Run(st, cs))
    decreases |cs|
  {
    if |cs| > 0 {
      match cs[0] {
        case DoRegister(n, p, id) => RegisterPreservesValid(st, n, p, id);
        case DoLogin(n, p) => LoginPreservesValid(st, n, p);
        case DoLogout => LogoutPreservesValid(st);
        case DoReload => StartPreservesValid(st);
      }
      RunPreservesValid(Step(st, cs[0]), cs[1..]);
    }
  }

  /** No operation removes or alters a stored account. */
  lemma {:induction false} RunOnlyAppendsUsers(st: AuthState, cs: seq<Command>)
    ensures |st.users| <= |Run(st, cs).users|
    ensures Run(st, cs).users[..|st.users|] == st.users
    decreases |cs|
  {
    if |cs| > 0 {
      var st' := Step(st, cs[0]);
      assert |st.users| <= |st'.users| && st'.users[..|st.users|] == st.users;
      RunOnlyAppendsUsers(st', cs[1..]);
      var us := Run(st', cs[1..]).users;
      assert us[..|st.users|] == us[..|st'.users|][..|st.users|];
    }
  }

  /** Once a name is registered, every later registration of that name fails. */
  lemma NameRegisteredOnce(st: AuthState, name: string, password: string, freshId: string,
                           cs: seq<Command>, password': string, freshId': string)
    requires Register(st, name, password, freshId).success
    ensures !Register(Run(Register(st, name, password, freshId).state, cs), name, password', freshId').success
  {
    var st1 := Register(st, name, password, freshId).state;
    RunOnlyAppendsUsers(st1, cs);
    var us := Run(st1, cs).users;
    assert us[|st.users|] == us[..|st1.users|][|st.users|];
    assert us[|st.users|].name == name;
  }

}
