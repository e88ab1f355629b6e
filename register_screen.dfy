/** The sign-up form: the sign-in rules for email and password, plus a
    required name and a matching confirmation. */
module RegisterScreen {
  import opened Common
  import opened Strings
  import opened LoginScreen
  import Email
  import Auth

  /** `validate` of the sign-up form. */
  function Validate(name: string, email: string, password: string, confirm: string): (errors: map<string, string>)
    ensures errors.Keys <= {"name", "email", "password", "confirmPassword"}
    ensures "name" in errors <==> AllSpace(name)
    ensures "name" in errors ==> errors["name"] == "Name is required"
    ensures "email" in errors <==> EmailError(email).Some?
    ensures "email" in errors ==> errors["email"] == EmailError(email).value
    ensures "password" in errors <==> |password| < 4
    ensures "password" in errors ==> errors["password"] == PasswordError(password).value
    ensures "confirmPassword" in errors <==> password != confirm
    ensures "confirmPassword" in errors ==> errors["confirmPassword"] == "Passwords do not match"
    ensures errors == map[] <==>
      !AllSpace(name) && !AllSpace(email) && Email.Matches(email) && |password| >= 4 && password == confirm
  {
    TrimSpec(name);
    var nameError := if Trim(name) == [] then Some("Name is required") else None;
    var mismatch := if password != confirm then Some("Passwords do not match") else None;
    var errors := With(With(With(With(map[], "name", nameError), "email", EmailError(email)),
                            "password", PasswordError(password)), "confirmPassword", mismatch);
    assert "name" in errors || "email" in errors || "password" in errors || "confirmPassword" in errors
      ==> errors != map[];
    errors
  }

  /** Sign-in validity is the sign-up rules without the name and the
      confirmation: a filled sign-up form is valid exactly when the same
      email and password would pass the sign-in form. */
  lemma SameRulesAsLogin(name: string, email: string, password: string)
    requires !AllSpace(name)
    ensures Validate(name, email, password, password) == LoginScreen.Validate(email, password)
  {
    var r := Validate(name, email, password, password);
    var l := LoginScreen.Validate(email, password);
    assert r.Keys == l.Keys;
  }

  /** `handleRegister`: the provider's error is always cleared; `register`
      runs only on a valid form. */
  method HandleRegister(p: Auth.Provider, name: string, email: string, password: string, confirm: string,
                        o: Auth.Outcome, writeOk: bool)
    returns (errors: map<string, string>, call: Option<Auth.Call>)
    requires p.Valid()
    modifies p, p.persisted
    ensures p.Valid()
    ensures errors == Validate(name, email, password, confirm)
    ensures errors != map[] ==>
      call == None && p.error == None && p.isLoading == old(p.isLoading) &&
      p.persisted.state == old(p.persisted.state) && p.persisted.store == old(p.persisted.store)
    ensures errors == map[] ==> call == Some(Auth.RegisterCall(email, password, name)) && !p.isLoading
    ensures errors == map[] && Auth.Accepted(o) ==>
      p.IsAuthenticated() && p.error == None &&
      p.persisted.state == Some(Auth.Session(o.value.value.accessToken, o.value.value.user))
    ensures errors == map[] && !Auth.Accepted(o) ==>
      p.error == Some(Auth.GetErrMsg(Auth.Failure(o, "Registration failed"))) &&
      p.persisted.state == old(p.persisted.state) && p.persisted.store == old(p.persisted.store)
  {
    p.ClearError();
    errors := Validate(name, email, password, confirm);
    if errors != map[] {
      call := None;
      return;
    }
    var c, _ := p.Register(email, password, name, o, writeOk);
    call := Some(c);
  }
}
