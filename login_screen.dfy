/** The sign-in form: per-field error messages and the gate in front of
    `login`. */
module LoginScreen {
  import opened Common
  import opened Strings
  import Email
  import Auth

  /** `email` field: blank after trimming, or failing the e-mail pattern
      (which is tested on the text as typed, not trimmed). */
  function EmailError(email: string): (r: Option<string>)
    ensures r == None <==> !AllSpace(email) && Email.Matches(email)
    ensures r == Some("Email is required") <==> AllSpace(email)
    ensures r == Some("Please enter a valid email") <==> !AllSpace(email) && !Email.Matches(email)
  {
    TrimSpec(email);
    Email.TestIff(email);
    if Trim(email) == [] then Some("Email is required")
    else if !Email.Test(email) then Some("Please enter a valid email")
    else None
  }

  /** `password` field: empty, or shorter than 4 characters. */
  function PasswordError(password: string): (r: Option<string>)
    ensures r == None <==> |password| >= 4
    ensures r == Some("Password is required") <==> password == []
    ensures r == Some("Password must be at least 4 characters") <==> 0 < |password| < 4
  {
    if password == [] then Some("Password is required")
    else if |password| < 4 then Some("Password must be at least 4 characters")
    else None
  }

  /** Adds `key: message` to the error object when there is a message. */
  function With(errors: map<string, string>, key: string, e: Option<string>): (r: map<string, string>)
    ensures e.None? ==> r == errors
    ensures e.Some? ==> r == errors[key := e.value]
  {
    if e.Some? then errors[key := e.value] else errors
  }

  /** `validate`: the email and password errors are computed independently;
      the form is valid exactly when the error object is empty. */
  function Validate(email: string, password: string): (errors: map<string, string>)
    ensures errors.Keys <= {"email", "password"}
    ensures "email" in errors <==> EmailError(email).Some?
    ensures "email" in errors ==> errors["email"] == EmailError(email).value
    ensures "password" in errors <==> |password| < 4
    ensures "password" in errors ==> errors["password"] == PasswordError(password).value
    ensures errors == map[] <==> !AllSpace(email) && Email.Matches(email) && |password| >= 4
  {
    var errors := With(With(map[], "email", EmailError(email)), "password", PasswordError(password));
    assert "email" in errors || "password" in errors ==> errors != map[];
    errors
  }

  /** `handleLogin`: the provider's error is always cleared; `login` runs
      only on a valid form. */
  method HandleLogin(p: Auth.Provider, email: string, password: string, o: Auth.Outcome, writeOk: bool)
    returns (errors: map<string, string>, call: Option<Auth.Call>)
    requires p.Valid()
    modifies p, p.persisted
    ensures p.Valid()
    ensures errors == Validate(email, password)
    ensures errors != map[] ==>
      call == None && p.error == None && p.isLoading == old(p.isLoading) &&
      p.persisted.state == old(p.persisted.state) && p.persisted.store == old(p.persisted.store)
    ensures errors == map[] ==> call == Some(Auth.LoginCall(email, password)) && !p.isLoading
    ensures errors == map[] && Auth.Accepted(o) ==>
      p.IsAuthenticated() && p.error == None &&
      p.persisted.state == Some(Auth.Session(o.value.value.accessToken, o.value.value.user))
    ensures errors == map[] && !Auth.Accepted(o) ==>
      p.error == Some(Auth.GetErrMsg(Auth.Failure(o, "Login failed"))) &&
      p.persisted.state == old(p.persisted.state) && p.persisted.store == old(p.persisted.store)
  {
    p.ClearError();
    errors := Validate(email, password);
    if errors != map[] {
      call := None;
      return;
    }
    var c, _ := p.Login(email, password, o, writeOk);
    call := Some(c);
  }
}
