/**
 * The form handlers of `app/login/page.tsx`: they check the fields before
 * calling into the identity store.
 */
module LoginPage {
  import opened Auth

  datatype LoginForm = LoginForm(name: string, password: string)
  datatype RegisterForm = RegisterForm(name: string, password: string, confirmPassword: string)

  datatype LoginOutcome = LoginMissingInformation | LoginFailed | LoginSucceeded
  datatype RegisterOutcome = RegisterMissingInformation | PasswordsDontMatch | NameAlreadyTaken | Registered

  datatype LoginReply = LoginReply(outcome: LoginOutcome, state: AuthState)
  datatype RegisterReply = RegisterReply(outcome: RegisterOutcome, state: AuthState)

  /** `handleLoginSubmit`. */
  function HandleLoginSubmit(st: AuthState, form: LoginForm): (r: LoginReply)
    ensures r.outcome == LoginMissingInformation <==> form.name == "" || form.password == ""
    ensures r.outcome == LoginMissingInformation ==> r.state == st
    ensures r.outcome != LoginMissingInformation ==>
      var called := Login(st, form.name, form.password);
      && r.state == called.state
      && (r.outcome == LoginSucceeded <==> called.success)
  {
    if form.name == "" || form.password == "" then LoginReply(LoginMissingInformation, st)
    else
      var called := Login(st, form.name, form.password);
      LoginReply(if called.success then LoginSucceeded else LoginFailed, called.state)
  }

  /** `handleRegisterSubmit`; `freshId` is the id the store would draw. */
  function HandleRegisterSubmit(st: AuthState, form: RegisterForm, freshId: string): (r: RegisterReply)
    ensures r.outcome == RegisterMissingInformation <==> form.name == "" || form.password == ""
    ensures r.outcome == PasswordsDontMatch <==>
      form.name != "" && form.password != "" && form.password != form.confirmPassword
    ensures r.outcome in {RegisterMissingInformation, PasswordsDontMatch} ==> r.state == st
    ensures r.outcome !in {RegisterMissingInformation, PasswordsDontMatch} ==>
      var called := Register(st, form.name, form.password, freshId);
      && r.state == called.state
      && (r.outcome == Registered <==> called.success)
  {
    if form.name == "" || form.password == "" then RegisterReply(RegisterMissingInformation, st)
    else if form.password != form.confirmPassword then RegisterReply(PasswordsDontMatch, st)
    else
      var called := Register(st, form.name, form.password, freshId);
      RegisterReply(if called.success then Registered else NameAlreadyTaken, called.state)
  }

  /** The store only ever receives a registration whose password was typed twice alike. */
  lemma RegisteredPasswordConfirmed(st: AuthState, form: RegisterForm, freshId: string)
    requires HandleRegisterSubmit(st, form, freshId).outcome == Registered
    ensures form.name != "" && form.password == form.confirmPassword && form.password != ""
    ensures var us := HandleRegisterSubmit(st, form, freshId).state.users;
      us[|us| - 1] == Account(freshId, form.name, form.confirmPassword)
  {
  }

}
