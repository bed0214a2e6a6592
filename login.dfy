/**
 * controller/LoginController.java: the login screen. Both inputs are trimmed;
 * an accepted login fills the session, and a rejected one shows one of two
 * labels, chosen by a second, case-insensitive lookup of the username.
 */
module LoginScreen {
  import opened Wrappers
  import opened JavaLang
  import opened Exceptions
  import opened Session
  import opened UserRepository

  const EmptyInputMessage: string := "Username and Password cannot be empty."
  const UsernameNotFound: string := "Username not found."
  const IncorrectPassword: string := "Incorrect password."

  /** What authenticateUser returns for the repository's users file. */
  function AuthResult(usersFile: Option<seq<string>>, username: string, password: string, verify: (string, string) -> bool)
    : (r: Result<Option<Login>, Exception>)
    ensures usersFile.None? ==> r == Err(RepositoryAccessException)
  {
    if usersFile.None? then Err(RepositoryAccessException)
    else Authenticate(Records(usersFile.value), username, password, verify)
  }

  /** What findByUsername returns for the repository's users file. */
  function LookupResult(usersFile: Option<seq<string>>, username: string): (r: Result<Option<Login>, Exception>)
    ensures usersFile.None? ==> r == Err(RepositoryAccessException)
  {
    if usersFile.None? then Err(RepositoryAccessException)
    else FindByName(Records(usersFile.value), username)
  }

  /** The label showLoginError makes visible. */
  datatype ErrorLabel = WrongUsername | WrongPassword

  /** showLoginError's choice: the username label when the lookup finds nobody, otherwise the password label. */
  function ErrorLabelFor(recs: seq<UserRecord>, username: string): (r: Result<ErrorLabel, Exception>)
    ensures r.Err? <==> FindByName(recs, username).Err?
    ensures r == Ok(WrongUsername) <==> FindByName(recs, username) == Ok(None)
  {
    match FindByName(recs, username)
    case Err(e) => Err(e)
    case Ok(None) => Ok(WrongUsername)
    case Ok(Some(_)) => Ok(WrongPassword)
  }

  /**
   * On a well-formed file, "Username not found." is shown exactly when no
   * stored username equals the entered one ignoring case.
   */
  lemma WrongUsernameIffNoSuchUser(recs: seq<UserRecord>, username: string)
    requires WellFormed(recs)
    ensures ErrorLabelFor(recs, username) == Ok(WrongUsername) <==>
      forall j :: 0 <= j < |recs| ==> !EqualsIgnoreCase(recs[j].username, username)
    ensures ErrorLabelFor(recs, username).Ok?
  {
    FindFirstMatchIgnoringCase(recs, username);
  }

  /**
   * On a well-formed file, a user whose name was entered in exactly the stored
   * spelling is never told that the username does not exist.
   */
  lemma ExactUsernameNeverUnknown(recs: seq<UserRecord>, username: string)
    requires WellFormed(recs)
    requires FirstExact(recs, username).Some?
    ensures ErrorLabelFor(recs, username) == Ok(WrongPassword)
  {
    var k := FirstExact(recs, username).value;
    EqualsIgnoreCaseIsEquivalence(recs[k].username, username, username);
    assert EqualsIgnoreCase(recs[k].username, username);
    FindFirstMatchIgnoringCase(recs, username);
  }

  /**
   * Authentication compares usernames case-sensitively but the error lookup
   * does not: on a well-formed file, a username that only matches in another
   * letter case is rejected whatever the password, and the screen then reports
   * "Incorrect password.".
   */
  lemma CaseVariantReportsWrongPassword(recs: seq<UserRecord>, username: string, password: string,
                                        verify: (string, string) -> bool)
    requires WellFormed(recs)
    requires FirstExact(recs, username).None? && FirstIgnoringCase(recs, username).Some?
    ensures Authenticate(recs, username, password, verify) == Ok(None)
    ensures ErrorLabelFor(recs, username) == Ok(WrongPassword)
  {
    AuthenticateFirstMatchDecides(recs, username, password, verify);
    FindFirstMatchIgnoringCase(recs, username);
  }

  /** What a click on the login button ends in. */
  datatype LoginOutcome =
    | EmptyInput                 // the alert "Username and Password cannot be empty."
    | LoggedIn                   // the session is filled and the dashboard opens
    | Rejected(which: ErrorLabel)  // one error label is shown
    | Failed(error: Exception)   // an exception left the handler

  class LoginController {
    const users: UserRepository
    const session: SessionManager
    var wrongUsernameVisible: bool
    var wrongUsernameText: string
    var wrongPasswordVisible: bool
    var wrongPasswordText: string

    constructor (users: UserRepository, session: SessionManager)
      ensures this.users == users && this.session == session
      ensures !wrongUsernameVisible && !wrongPasswordVisible && wrongUsernameText == [] && wrongPasswordText == []
    {
      this.users := users;
      this.session := session;
      wrongUsernameVisible, wrongPasswordVisible := false, false;
      wrongUsernameText, wrongPasswordText := [], [];
    }

    /**
     * showLoginError: both labels are hidden, then exactly one is shown with
     * its text; an exception from the lookup leaves both hidden.
     */
    method ShowLoginError(username: string) returns (shown: Result<ErrorLabel, Exception>)
      modifies this
      ensures users.usersFile.None? ==> shown == Err(RepositoryAccessException)
      ensures users.usersFile.Some? ==> shown == ErrorLabelFor(Records(users.usersFile.value), username)
      ensures wrongUsernameVisible <==> shown == Ok(WrongUsername)
      ensures wrongPasswordVisible <==> shown == Ok(WrongPassword)
      ensures wrongUsernameText == (if shown == Ok(WrongUsername) then UsernameNotFound else old(wrongUsernameText))
      ensures wrongPasswordText == (if shown == Ok(WrongPassword) then IncorrectPassword else old(wrongPasswordText))
    {
      wrongUsernameVisible := false;
      wrongPasswordVisible := false;
      var found := users.FindByUsername(username);
      if found.Err? {
        return Err(found.error);
      }
      if found.value.None? {
        wrongUsernameText := UsernameNotFound;
        wrongUsernameVisible := true;
        shown := Ok(WrongUsername);
      } else {
        wrongPasswordText := IncorrectPassword;
        wrongPasswordVisible := true;
        shown := Ok(WrongPassword);
      }
    }

    /**
     * handleLogin: empty trimmed input is refused before the repository is
     * asked; an accepted login stores the user's id and admin flag in the
     * session; a rejected one shows the error label for the trimmed username.
     */
    method HandleLogin(usernameText: string, passwordText: string, verify: (string, string) -> bool)
      returns (r: LoginOutcome)
      modifies this, session
      ensures var username := Trim(usernameText); var password := Trim(passwordText);
        (username == [] || password == [] ==>
          r == EmptyInput && unchanged(this) && unchanged(session))
        && (username != [] && password != [] ==>
              var auth := AuthResult(users.usersFile, username, password, verify);
              (auth.Err? ==> r == Failed(auth.error) && unchanged(this) && unchanged(session))
              && (auth.Ok? && auth.value.Some? ==>
                    r == LoggedIn && unchanged(this)
                    && session.loggedInUserId == Some(auth.value.value.0) && session.isAdmin == auth.value.value.1)
              && (auth == Ok(None) ==>
                    unchanged(session)
                    && var lookup := LookupResult(users.usersFile, username);
                       (lookup.Err? ==> r == Failed(lookup.error) && !wrongUsernameVisible && !wrongPasswordVisible)
                       && (lookup == Ok(None) ==>
                             (r == Rejected(WrongUsername) && wrongUsernameVisible
                              && wrongUsernameText == UsernameNotFound && !wrongPasswordVisible))
                       && (lookup.Ok? && lookup.value.Some? ==>
                             (r == Rejected(WrongPassword) && wrongPasswordVisible
                              && wrongPasswordText == IncorrectPassword && !wrongUsernameVisible))))
      ensures session.IsUserLoggedIn() <==> (if r == LoggedIn then true else old(session.IsUserLoggedIn()))
    {
      var username := Trim(usernameText);
      var password := Trim(passwordText);
      if username == [] || password == [] {
        return EmptyInput;
      }
      var authenticated := users.AuthenticateUser(username, password, verify);
      if authenticated.Err? {
        return Failed(authenticated.error);
      }
      if authenticated.value.Some? {
        var userId := authenticated.value.value.0;
        var isAdmin := authenticated.value.value.1;
        session.Login(Some(userId), isAdmin);
        return LoggedIn;
      }
      var shown := ShowLoginError(username);
      if shown.Err? {
        return Failed(shown.error);
      }
      r := Rejected(shown.value);
    }
  }
}
