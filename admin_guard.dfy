/** The password gate in front of the admin pages
    (src/components/AdminGuard.tsx). The build mode and the configured
    password are parameters; the session store is a map the guard reads and
    writes; the redirect home in production is recorded as a flag. */
module AdminGuard {
  import opened Wrappers

  const AuthKey := "admin_auth"

  /** `VITE_ADMIN_PASSWORD || 'admin123'`. */
  function ExpectedPassword(configured: Option<string>): (p: string)
    ensures configured.Some? && configured.value != "" ==> p == configured.value
    ensures configured.None? || configured.value == "" ==> p == "admin123"
  {
    if configured.Some? && configured.value != "" then configured.value else "admin123"
  }

  datatype View = Nothing | LoginForm(error: string) | Children

  /** What the guard renders. */
  function ViewOf(production: bool, authenticated: bool, error: string): (v: View)
    ensures production ==> v == Nothing
    ensures !production ==> (v == Children <==> authenticated)
    ensures !production && !authenticated ==> v == LoginForm(error)
  {
    if production then Nothing
    else if !authenticated then LoginForm(error)
    else Children
  }

  class Guard {
    var isAuthenticated: bool
    var password: string
    var error: string
    var session: map<string, string>
    var redirectedHome: bool

    /** Authentication always has the session flag behind it. */
    predicate Valid()
      reads this
    {
      isAuthenticated ==> AuthKey in session && session[AuthKey] == "true"
    }

    constructor(session: map<string, string>)
      ensures Valid()
      ensures !isAuthenticated && password == "" && error == "" && !redirectedHome
      ensures this.session == session
    {
      isAuthenticated := false;
      password := "";
      error := "";
      this.session := session;
      redirectedHome := false;
    }

    function Render(production: bool): View
      reads this
    {
      ViewOf(production, isAuthenticated, error)
    }

    /** The two mount effects: a stored flag of exactly "true" restores
      authentication, and a production build is sent home. */
    method Mount(production: bool)
      requires Valid()
      modifies this
      ensures Valid()
      ensures isAuthenticated == (old(isAuthenticated) || (AuthKey in session && session[AuthKey] == "true"))
      ensures redirectedHome == (old(redirectedHome) || production)
      ensures password == old(password) && error == old(error) && session == old(session)
    {
      if AuthKey in session && session[AuthKey] == "true" {
        isAuthenticated := true;
      }
      if production {
        redirectedHome := true;
      }
    }

    /** The password field's `onChange`. */
    method Type(text: string)
      requires Valid()
      modifies this
      ensures Valid()
      ensures password == text
      ensures isAuthenticated == old(isAuthenticated) && error == old(error) && session == old(session)
      ensures redirectedHome == old(redirectedHome)
    {
      password := text;
    }

    /** `handleSubmit`: the right password authenticates, stores the flag
      and clears the error; a wrong one shows the error and clears the
      field, leaving authentication as it was. */
    method Submit(configured: Option<string>)
      requires Valid()
      modifies this
      ensures Valid()
      ensures old(password) == ExpectedPassword(configured) ==>
                isAuthenticated && session == old(session)[AuthKey := "true"] && error == ""
                && password == old(password)
      ensures old(password) != ExpectedPassword(configured) ==>
                error == "Incorrect password" && password == ""
                && isAuthenticated == old(isAuthenticated) && session == old(session)
      ensures redirectedHome == old(redirectedHome)
    {
      var expected := ExpectedPassword(configured);
      if password == expected {
        isAuthenticated := true;
        session := session[AuthKey := "true"];
        error := "";
      } else {
        error := "Incorrect password";
        password := "";
      }
    }
  }

  /** Without a configured password, typing "admin123" opens the admin
      pages of a development build; in production nothing is shown. */
  method DefaultPasswordOpens() returns (dev: View, prod: View)
    ensures dev == Children && prod == Nothing
  {
    var g := new Guard(map[]);
    g.Mount(false);
    g.Type("admin123");
    g.Submit(None);
    dev := g.Render(false);
    prod := g.Render(true);
  }

  /** A wrong password leaves the login form up with the error shown. */
  method WrongPasswordRefused(configured: Option<string>, attempt: string) returns (v: View, cleared: bool)
    requires attempt != ExpectedPassword(configured)
    ensures v == LoginForm("Incorrect password") && cleared
  {
    var g := new Guard(map[]);
    g.Mount(false);
    g.Type(attempt);
    g.Submit(configured);
    v := g.Render(false);
    cleared := g.password == "";
  }
}
