/** `AuthProvider`: the session `{accessToken, user}` kept in persisted state
    under the key "auth", with a loading flag and an error message. */
module Auth {
  import opened Common
  import opened PersistedState

  datatype User = User(id: int, email: string, name: string)

  /** The persisted `auth` object. */
  datatype Session = Session(accessToken: Option<string>, user: Option<User>)

  /** What is stored under "auth": a session, or JSON `null`. */
  type AuthValue = Option<Session>

  const AuthKey: string := "auth"

  const SignedOut: Session := Session(None, None)

  /** The body the login and register endpoints answer with. */
  datatype Reply = Reply(ok: bool, user: Option<User>, accessToken: Option<string>, error: Option<string>)

  /** The outcome of `authService.login`/`register`: the body (or a missing
      one), or a thrown error. */
  type Outcome = Attempt<Option<Reply>>

  /** What `login`/`register` do for their caller: return the body, or
      rethrow the error. */
  datatype Result = Returned(data: Reply) | Rethrown(err: Thrown)

  /** The endpoint called, with what it carries. */
  datatype Call = LoginCall(email: string, password: string)
                | RegisterCall(email: string, password: string, name: string)

  /** `getErrMsg(err)`: the server's error, else the error's message, else
      "An error occurred". The message is never empty. */
  function GetErrMsg(e: Thrown): (r: string)
    ensures r != []
    ensures r == ErrorMessage(e, "An error occurred")
  {
    ErrorMessage(e, "An error occurred")
  }

  /** `data?.ok && user`: the reply signs the user in. */
  predicate Accepted(o: Outcome) {
    o.Done? && o.value.Some? && o.value.value.ok && o.value.value.user.Some?
  }

  /** The error `login`/`register` end with when the reply is not accepted:
      the thrown error itself, or `new Error(data?.error || fallback)`. */
  function Failure(o: Outcome, fallback: string): (e: Thrown)
    requires !Accepted(o) && fallback != []
    ensures o.Threw? ==> e == o.err
    ensures o.Done? ==>
      GetErrMsg(e) == if o.value.Some? && Present(o.value.value.error) then o.value.value.error.value else fallback
  {
    match o
    case Threw(err) => err
    case Done(data) =>
      var msg := if data.Some? && Present(data.value.error) then data.value.error.value else fallback;
      Thrown(None, Some(msg))
  }

  class Provider {
    const persisted: Persisted<AuthValue>
    var isLoading: bool
    var error: Option<string>

    ghost predicate Valid()
      reads this
    {
      persisted.key == AuthKey
    }

    /** `isAuthenticated: !!auth?.user` */
    function IsAuthenticated(): bool
      reads this, persisted
    {
      persisted.state.Some? && persisted.state.value.user.Some?
    }

    /** `accessToken: auth?.accessToken ?? null` */
    function AccessToken(): Option<string>
      reads this, persisted
    {
      if persisted.state.Some? then persisted.state.value.accessToken else None
    }

    /** A fresh provider, signed out, before the load effect ran. */
    constructor (store: map<string, Stored<AuthValue>>)
      ensures Valid() && fresh(persisted)
      ensures persisted.state == Some(SignedOut) && persisted.store == store
      ensures !isLoading && error == None
      ensures !IsAuthenticated() && AccessToken() == None
    {
      persisted := new Persisted(AuthKey, Some(SignedOut), store);
      isLoading := false;
      error := None;
    }

    /** The body shared by `login` and `register`. An accepted reply sets the
        session to the reply's user and token and is returned; anything else
        leaves the session and the store, sets `error` to the failure's
        message, and rethrows. `isLoading` ends false. */
    method Authenticate(o: Outcome, fallback: string, writeOk: bool) returns (result: Result)
      requires Valid() && fallback != []
      modifies this, persisted
      ensures Valid() && !isLoading
      ensures Accepted(o) ==>
        result == Returned(o.value.value) && error == None &&
        persisted.state == Some(Session(o.value.value.accessToken, o.value.value.user)) &&
        (writeOk ==> persisted.store == old(persisted.store)[AuthKey := Json(persisted.state)]) &&
        (!writeOk ==> persisted.store == old(persisted.store)) &&
        IsAuthenticated() && AccessToken() == o.value.value.accessToken
      ensures !Accepted(o) ==>
        result == Rethrown(Failure(o, fallback)) && error == Some(GetErrMsg(Failure(o, fallback))) &&
        persisted.state == old(persisted.state) && persisted.store == old(persisted.store)
    {
      error := None;
      isLoading := true;
      if Accepted(o) {
        var data := o.value.value;
        persisted.SetPersisted(Value(Some(Session(data.accessToken, data.user))), writeOk);
        result := Returned(data);
      } else {
        var err := Failure(o, fallback);
        error := Some(GetErrMsg(err));
        result := Rethrown(err);
      }
      isLoading := false;
    }

    /** `login(email, password)`, with the fallback message "Login failed". */
    method Login(email: string, password: string, o: Outcome, writeOk: bool) returns (call: Call, result: Result)
      requires Valid()
      modifies this, persisted
      ensures Valid() && !isLoading && call == LoginCall(email, password)
      ensures Accepted(o) ==>
        result == Returned(o.value.value) && error == None &&
        persisted.state == Some(Session(o.value.value.accessToken, o.value.value.user)) &&
        (writeOk ==> persisted.store == old(persisted.store)[AuthKey := Json(persisted.state)]) &&
        (!writeOk ==> persisted.store == old(persisted.store)) &&
        IsAuthenticated() && AccessToken() == o.value.value.accessToken
      ensures !Accepted(o) ==>
        result == Rethrown(Failure(o, "Login failed")) &&
        error == Some(GetErrMsg(Failure(o, "Login failed"))) &&
        persisted.state == old(persisted.state) && persisted.store == old(persisted.store)
    {
      call := LoginCall(email, password);
      result := Authenticate(o, "Login failed", writeOk);
    }

    /** `register(email, password, name)`, with the fallback message
        "Registration failed". */
    method Register(email: string, password: string, name: string, o: Outcome, writeOk: bool)
      returns (call: Call, result: Result)
      requires Valid()
      modifies this, persisted
      ensures Valid() && !isLoading && call == RegisterCall(email, password, name)
      ensures Accepted(o) ==>
        result == Returned(o.value.value) && error == None &&
        persisted.state == Some(Session(o.value.value.accessToken, o.value.value.user)) &&
        (writeOk ==> persisted.store == old(persisted.store)[AuthKey := Json(persisted.state)]) &&
        (!writeOk ==> persisted.store == old(persisted.store)) &&
        IsAuthenticated() && AccessToken() == o.value.value.accessToken
      ensures !Accepted(o) ==>
        result == Rethrown(Failure(o, "Registration failed")) &&
        error == Some(GetErrMsg(Failure(o, "Registration failed"))) &&
        persisted.state == old(persisted.state) && persisted.store == old(persisted.store)
    {
      call := RegisterCall(email, password, name);
      result := Authenticate(o, "Registration failed", writeOk);
    }

    /** `logout`: the session becomes signed out; `error` and `isLoading`
        are untouched. */
    method Logout(writeOk: bool)
      requires Valid()
      modifies persisted
      ensures Valid() && persisted.state == Some(SignedOut)
      ensures !IsAuthenticated() && AccessToken() == None
      ensures writeOk ==> persisted.store == old(persisted.store)[AuthKey := Json(Some(SignedOut))]
      ensures !writeOk ==> persisted.store == old(persisted.store)
    {
      persisted.SetPersisted(Value(Some(SignedOut)), writeOk);
    }

    /** `clearError` */
    method ClearError()
      modifies this
      ensures error == None && isLoading == old(isLoading)
    {
      error := None;
    }
  }

  /** After a stored sign-in, a restarted app that loads the store is signed
      in as the same user with the same token; after a stored sign-out it is
      signed out. */
  lemma SessionSurvivesRestart(store: map<string, Stored<AuthValue>>, s: Session)
    ensures Loaded(store[AuthKey := Json(Some(s))], AuthKey, Some(SignedOut)) == Some(s)
  {
    LoadAfterWrite(store, AuthKey, Some(s), Some(SignedOut));
  }
}
