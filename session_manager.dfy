/**
 * session/SessionManager.java: the logged-in user id (a nullable Long) and the
 * admin flag. Java keeps them in static fields; the model keeps them in the
 * one SessionManager object that every repository and controller shares.
 */
module Session {
  import opened Wrappers
  import opened JavaLang

  class SessionManager {
    var loggedInUserId: Option<Long>
    var isAdmin: bool

    /** The state at class load: nobody logged in, not an admin. */
    constructor ()
      ensures loggedInUserId == None && !isAdmin
      ensures !IsUserLoggedIn()
    {
      loggedInUserId := None;
      isAdmin := false;
    }

    /** login: stores exactly the given id (which may be null) and admin flag. */
    method Login(userId: Option<Long>, isAdminStatus: bool)
      modifies this
      ensures loggedInUserId == userId && isAdmin == isAdminStatus
      ensures IsUserLoggedIn() <==> userId.Some?
    {
      loggedInUserId := userId;
      isAdmin := isAdminStatus;
    }

    /** logout: back to the initial state. */
    method Logout()
      modifies this
      ensures loggedInUserId == None && !isAdmin
      ensures !IsUserLoggedIn()
    {
      loggedInUserId := None;
      isAdmin := false;
    }

    /** isUserLoggedIn: the stored id is non-null. */
    predicate IsUserLoggedIn()
      reads this
    {
      loggedInUserId.Some?
    }
  }
}
