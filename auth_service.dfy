/** The client authentication service (services/authService.ts) in its
    mock-backend configuration: form validation gates every call to the
    backend, and `demoLogin` checks a fixed table of demo accounts. */
module AuthService {

  import opened Wrappers
  import opened Text
  import opened Backend
  import opened AuthValidation

  /** The messages of `errors`, in order. */
  function Messages(errors: seq<ValidationError>): (r: seq<string>)
    ensures |r| == |errors| && forall k :: 0 <= k < |r| ==> r[k] == errors[k].message
  {
    if errors == [] then [] else [errors[0].message] + Messages(errors[1..])
  }

  /** `validation.errors.map(e => e.message).join(', ')`. */
  function GateMessage(errors: seq<ValidationError>): string {
    Join(Messages(errors), ", ")
  }

  /** `login(credentials)`: failed validation rejects with the joined
      messages before the backend is asked; otherwise the backend's `login`
      decides. */
  method Login(backend: MockBackend, email: string, password: string, stamp: string)
    returns (r: Result<AuthResponse>)
    modifies backend`currentUser
    ensures ValidateEmail(email).Some? || ValidatePassword(password).Some? ==>
      r == Err(GateMessage(Present([ValidateEmail(email), ValidatePassword(password)]))) &&
      backend.currentUser == old(backend.currentUser)
    ensures ValidateEmail(email).None? && ValidatePassword(password).None? ==>
      (r.Ok? <==> exists u :: u in backend.users && u.email == email && u.password == password)
    ensures ValidateEmail(email).None? && ValidatePassword(password).None? && r.Err? ==>
      r.message == "Invalid email or password" && backend.currentUser == old(backend.currentUser)
    ensures ValidateEmail(email).None? && ValidatePassword(password).None? && r.Ok? ==>
      backend.currentUser.Some? && FirstMatch(backend.users, email, password, backend.currentUser.value) &&
      r.value == AuthResponse(MockToken(backend.currentUser.value.id, stamp), Public(backend.currentUser.value))
  {
    var validation := ValidateLoginCredentials(email, password);
    if !validation.isValid {
      return Err(GateMessage(validation.errors));
    }
    r := backend.Login(email, password, stamp);
  }

  /** Every check of the registration form passes. */
  predicate RegistrationPasses(name: string, email: string, password: string, confirm: string) {
    ValidateName(name).None? && ValidateEmail(email).None? && ValidatePassword(password).None? &&
    ValidateConfirmPassword(password, confirm).None?
  }

  /** `register(userData)`: failed validation rejects with the joined
      messages; otherwise the backend registers the name, email and password,
      never the confirmation. */
  method Register(backend: MockBackend, name: string, email: string, password: string, confirm: string,
                  newId: string, stamp: string) returns (r: Result<AuthResponse>)
    modifies backend`users, backend`currentUser
    ensures var errors := Present([ValidateName(name), ValidateEmail(email), ValidatePassword(password),
                                   ValidateConfirmPassword(password, confirm)]);
      errors != [] ==>
        r == Err(GateMessage(errors)) &&
        backend.users == old(backend.users) && backend.currentUser == old(backend.currentUser)
    ensures RegistrationPasses(name, email, password, confirm) ==>
      if EmailTaken(old(backend.users), email) then
        r == Err("Email already exists") &&
        backend.users == old(backend.users) && backend.currentUser == old(backend.currentUser)
      else
        var u := UserRecord(newId, name, email, "user", password);
        backend.users == old(backend.users) + [u] && backend.currentUser == Some(u) &&
        r == Ok(AuthResponse(MockToken(newId, stamp), Public(u)))
    ensures r.Ok? ==> confirm == password
  {
    var validation := ValidateRegistrationData(name, email, password, confirm);
    assert validation.isValid == RegistrationPasses(name, email, password, confirm);
    if validation.isValid {
      r := backend.Register(name, email, password, newId, stamp);
    } else {
      r := Err(GateMessage(validation.errors));
    }
  }

  /** The demo accounts, keyed by email. */
  function DemoUsers(): map<string, UserRecord> {
    map[
      "admin@dataroom.com" := UserRecord("1", "Admin User", "admin@dataroom.com", "admin", "admin123"),
      "user@dataroom.com" := UserRecord("2", "Regular User", "user@dataroom.com", "user", "user123"),
      "viewer@dataroom.com" := UserRecord("3", "Viewer User", "viewer@dataroom.com", "viewer", "viewer123")
    ]
  }

  /** `demo_token_${id}_${Date.now()}`, the clock reading given as `stamp`. */
  function DemoToken(id: string, stamp: string): string {
    "demo_token_" + id + "_" + stamp
  }

  /** `demoLogin`: succeeds exactly for a demo email with its own password,
      returning a demo token and the account without its password. */
  function DemoLogin(email: string, password: string, stamp: string): (r: Result<AuthResponse>)
    ensures r.Ok? <==> email in DemoUsers() && DemoUsers()[email].password == password
    ensures r.Err? ==> r.message == "Invalid email or password"
    ensures r.Ok? ==> (r.value.token == DemoToken(DemoUsers()[email].id, stamp) &&
      r.value.user == PublicUser(DemoUsers()[email].id, DemoUsers()[email].name, email, DemoUsers()[email].role))
  {
    if email !in DemoUsers() || DemoUsers()[email].password != password then Err("Invalid email or password")
    else
      var u := DemoUsers()[email];
      Ok(AuthResponse(DemoToken(u.id, stamp), Public(u)))
  }

  /** The demo table holds exactly the backend's seeded users, so demo login
      accepts the same email and password pairs as a fresh backend. */
  lemma DemoMatchesSeed(email: string, password: string, stamp: string)
    ensures DemoLogin(email, password, stamp).Ok? <==>
      exists u :: u in SeedUsers() && u.email == email && u.password == password
  {
    var s := SeedUsers();
    assert s[0] == DemoUsers()["admin@dataroom.com"];
    assert s[1] == DemoUsers()["user@dataroom.com"];
    assert s[2] == DemoUsers()["viewer@dataroom.com"];
    if exists u :: u in s && u.email == email && u.password == password {
      var u :| u in s && u.email == email && u.password == password;
      assert u == s[0] || u == s[1] || u == s[2];
    }
  }

  /** An address on the demo domain with a plain, non-empty local part
      passes the email check. */
  lemma DemoDomainEmail(local: string)
    requires local != [] && AllPlain(local) && |local| <= 200
    ensures ValidateEmail(local + "@dataroom.com").None?
  {
    var e := local + "@dataroom.com";
    var at := |local|;
    var domain := e[at..];
    assert e[..at] == local && domain == "@dataroom.com";
    assert e[at + 1..at + 9] == domain[1..9] == "dataroom";
    assert e[at + 10..] == domain[10..] == "com";
    assert e[at] == '@' && e[at + 9] == '.';
    assert EmailPattern(e);
    EmailPatternShape(e);
  }

  /** A password of six to 128 characters on one line, starting with a letter
      and ending with a digit, passes the password check. */
  lemma LetterToDigitPassword(p: string)
    requires 6 <= |p| <= 128 && IsLetter(p[0]) && IsDigit(p[|p| - 1])
    requires forall k :: 0 <= k < |p| ==> !IsLineBreak(p[k])
    ensures ValidatePassword(p).None?
  {
    assert NoBreakBetween(p, 0, |p| - 1);
  }

  /** The three seeded addresses pass the email check. */
  lemma SeedEmailValid(e: string)
    requires e == "admin@dataroom.com" || e == "user@dataroom.com" || e == "viewer@dataroom.com"
    ensures ValidateEmail(e).None?
  {
    if e == "admin@dataroom.com" {
      assert AllPlain("admin") && e == "admin" + "@dataroom.com";
      DemoDomainEmail("admin");
    } else if e == "user@dataroom.com" {
      assert AllPlain("user") && e == "user" + "@dataroom.com";
      DemoDomainEmail("user");
    } else {
      assert AllPlain("viewer") && e == "viewer" + "@dataroom.com";
      DemoDomainEmail("viewer");
    }
  }

  /** The three seeded passwords pass the password check. */
  lemma SeedPasswordValid(p: string)
    requires p == "admin123" || p == "user123" || p == "viewer123"
    ensures ValidatePassword(p).None?
  {
    LetterToDigitPassword("admin123");
    LetterToDigitPassword("user123");
    LetterToDigitPassword("viewer123");
  }

  /** Credentials the login form lets through to the backend. */
  predicate PassesLoginForm(u: UserRecord) {
    ValidateEmail(u.email).None? && ValidatePassword(u.password).None?
  }

  /** The seeded credentials pass the login form's validation, so the gate
      does not lock the seeded accounts out. */
  lemma SeedCredentialsValid(u: UserRecord)
    requires u in SeedUsers()
    ensures PassesLoginForm(u)
  {
    var s := SeedUsers();
    assert u == s[0] || u == s[1] || u == s[2];
    assert u.password == "admin123" || u.password == "user123" || u.password == "viewer123";
    assert u.email == "admin@dataroom.com" || u.email == "user@dataroom.com" || u.email == "viewer@dataroom.com";
    SeedPasswordValid(u.password);
    SeedEmailValid(u.email);
  }
}
