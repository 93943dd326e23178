/**
 * The in-memory account store and login flags of the app's entry page.
 * Every field is an entry of the browser session's state that may still be
 * absent, hence `Option`.
 */
module Accounts {
  import opened Wrappers
  import opened Profiles

  datatype Account = Account(password: string, profile: Profile)

  /** The one account every new session starts with. */
  function InitialUsers(): map<string, Account>
  {
    map["test@example.com" := Account("password123", Empty)]
  }

  /** The login test: the email is registered and its stored password is exactly the one entered. */
  predicate CredentialsMatch(users: map<string, Account>, email: string, password: string)
  {
    email in users && users[email].password == password
  }

  /** The demo account accepts its own password and no other. */
  lemma DemoAccount(password: string)
    ensures CredentialsMatch(InitialUsers(), "test@example.com", password) <==> password == "password123"
    ensures forall e :: e != "test@example.com" ==> !CredentialsMatch(InitialUsers(), e, password)
  {
  }

  /** Registering a new email lets exactly that email log in with its password, and changes no other login. */
  lemma SignupThenLogin(users: map<string, Account>, email: string, password: string)
    requires email !in users
    ensures CredentialsMatch(users[email := Account(password, Empty)], email, password)
    ensures forall e, p :: e != email ==>
      CredentialsMatch(users[email := Account(password, Empty)], e, p) == CredentialsMatch(users, e, p)
  {
  }

  class Session {
    var authenticated: Option<bool>
    var users: Option<map<string, Account>>
    var page: Option<string>
    var username: Option<string>

    /** A signed-in session always names a registered user, so the pages may look its profile up. */
    ghost predicate Valid()
      reads this
    {
      authenticated == Some(true) ==> users.Some? && username.Some? && username.value in users.value
    }

    predicate Initialised()
      reads this
    {
      authenticated.Some? && users.Some? && page.Some?
    }

    /** A fresh browser session: nothing stored yet. */
    constructor ()
      ensures Valid()
      ensures authenticated == None && users == None && page == None && username == None
    {
      authenticated, users, page, username := None, None, None, None;
    }

    /** Runs on every page load and only fills in entries that are still absent. */
    method Initialise()
      requires Valid()
      modifies this
      ensures Valid() && Initialised()
      ensures authenticated == (if old(authenticated).None? then Some(false) else old(authenticated))
      ensures users == (if old(users).None? then Some(InitialUsers()) else old(users))
      ensures page == (if old(page).None? then Some("dashboard") else old(page))
      ensures username == old(username)
      ensures old(Initialised()) ==> unchanged(this)
    {
      if authenticated.None? {
        authenticated := Some(false);
      }
      if users.None? {
        users := Some(InitialUsers());
      }
      if page.None? {
        page := Some("dashboard");
      }
    }

    /** The Login button: succeeds exactly when the credentials match, and then signs the user in. */
    method Login(email: string, password: string) returns (ok: bool)
      requires Valid() && Initialised()
      modifies this
      ensures Valid() && Initialised()
      ensures ok == CredentialsMatch(old(users.value), email, password)
      ensures users == old(users) && page == old(page)
      ensures ok ==> authenticated == Some(true) && username == Some(email)
      ensures !ok ==> authenticated == old(authenticated) && username == old(username)
    {
      var store := users.value;
      ok := email in store && store[email].password == password;
      if ok {
        authenticated := Some(true);
        username := Some(email);
      }
    }

    /** The Signup button: refuses a registered email, otherwise registers it with an empty profile and signs in. */
    method Signup(email: string, password: string) returns (ok: bool)
      requires Valid() && Initialised()
      modifies this
      ensures Valid() && Initialised()
      ensures ok == (email !in old(users.value))
      ensures page == old(page)
      ensures ok ==> users == Some(old(users.value)[email := Account(password, Empty)])
      ensures ok ==> authenticated == Some(true) && username == Some(email)
      ensures !ok ==> users == old(users) && authenticated == old(authenticated) && username == old(username)
    {
      var store := users.value;
      if email in store {
        ok := false;
      } else {
        users := Some(store[email := Account(password, Empty)]);
        authenticated := Some(true);
        username := Some(email);
        ok := true;
      }
    }

    /** The Logout button. */
    method Logout()
      requires Valid()
      modifies this
      ensures Valid()
      ensures authenticated == Some(false) && username == Some("Guest")
      ensures users == old(users) && page == old(page)
    {
      authenticated := Some(false);
      username := Some("Guest");
    }
  }
}
