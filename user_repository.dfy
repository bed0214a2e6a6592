/**
 * repository/UserRepository.java: the users text file, read as lines that
 * form records of four (id, username, password hash, role), and the USERS
 * table that `save` fills without duplicating a username.
 *
 * The file is given as its lines, or None when reading it fails with an
 * IOException. BCrypt's check of a password against a stored hash is a
 * parameter.
 */
module UserRepository {
  import opened Wrappers
  import opened JavaLang
  import opened Exceptions

  /** enums.UserRole. */
  datatype UserRole = ADMIN | REGULAR_USER

  /** `UserRole.valueOf`: an exact constant name, or None where Java throws IllegalArgumentException. */
  function RoleValueOf(name: string): (r: Option<UserRole>)
    ensures r == Some(ADMIN) <==> name == "ADMIN"
    ensures r == Some(REGULAR_USER) <==> name == "REGULAR_USER"
  {
    if name == "ADMIN" then Some(ADMIN)
    else if name == "REGULAR_USER" then Some(REGULAR_USER)
    else None
  }

  /** Lines per user record. */
  const RowsPerUser: nat := 4

  /** One record of the users file: its four lines, uninterpreted. */
  datatype UserRecord = UserRecord(idLine: string, username: string, storedHash: string, roleLine: string)

  /** The records the scanning loops visit: whole groups of four lines; a shorter tail is never visited. */
  function Records(lines: seq<string>): (r: seq<UserRecord>)
    ensures |r| == |lines| / RowsPerUser
    ensures forall k :: 0 <= k < |r| ==> r[k] == UserRecord(lines[4 * k], lines[4 * k + 1], lines[4 * k + 2], lines[4 * k + 3])
  {
    seq(|lines| / RowsPerUser, k requires 0 <= k < |lines| / RowsPerUser =>
      UserRecord(lines[4 * k], lines[4 * k + 1], lines[4 * k + 2], lines[4 * k + 3]))
  }

  /** Lines after the last whole record change nothing. */
  lemma IncompleteTailIgnored(lines: seq<string>, tail: seq<string>)
    requires |lines| % RowsPerUser == 0 && |tail| < RowsPerUser
    ensures Records(lines + tail) == Records(lines)
  {
    var whole, part := Records(lines + tail), Records(lines);
    assert |whole| == |part|;
    forall k | 0 <= k < |part|
      ensures whole[k] == part[k]
    {
      assert 4 * k + 3 < |lines|;
    }
  }

  /** The (id, isAdmin) pair both lookups return. */
  type Login = (Long, bool)

  /** A record whose username already matched: BCrypt decides, then the role line is read. */
  function Verified(id: Long, rec: UserRecord, password: string, verify: (string, string) -> bool)
    : (r: Result<Option<Login>, Exception>)
    ensures !verify(password, rec.storedHash) ==> r == Ok(None)
    ensures verify(password, rec.storedHash) && RoleValueOf(rec.roleLine).None? ==> r == Err(IllegalArgumentException)
    ensures verify(password, rec.storedHash) && RoleValueOf(rec.roleLine).Some? ==>
      r == Ok(Some((id, rec.roleLine == "ADMIN")))
  {
    if verify(password, rec.storedHash) then
      match RoleValueOf(rec.roleLine)
      case None => Err(IllegalArgumentException)
      case Some(role) => Ok(Some((id, role == ADMIN)))
    else Ok(None)
  }

  /**
   * authenticateUser over the records in order: every visited id line is parsed
   * first; the first record whose username is equal (case-sensitively) decides
   * the outcome, and no record after it is visited.
   */
  function Authenticate(recs: seq<UserRecord>, username: string, password: string, verify: (string, string) -> bool)
    : Result<Option<Login>, Exception>
  {
    if recs == [] then Ok(None)
    else
      match ParseLong(recs[0].idLine)
      case None => Err(NumberFormatException)
      case Some(id) =>
        if recs[0].username == username then Verified(id, recs[0], password, verify)
        else Authenticate(recs[1..], username, password, verify)
  }

  /**
   * findByUsername over the records in order: every visited record has its id
   * and its role parsed before the comparison, and the first username equal
   * ignoring case gives the result.
   */
  function FindByName(recs: seq<UserRecord>, username: string): Result<Option<Login>, Exception>
  {
    if recs == [] then Ok(None)
    else
      match ParseLong(recs[0].idLine)
      case None => Err(NumberFormatException)
      case Some(id) =>
        match RoleValueOf(recs[0].roleLine)
        case None => Err(IllegalArgumentException)
        case Some(role) =>
          if EqualsIgnoreCase(recs[0].username, username) then Ok(Some((id, role == ADMIN)))
          else FindByName(recs[1..], username)
  }

  /** Every record has an id line that parses and a role line that names a role. */
  predicate WellFormed(recs: seq<UserRecord>)
  {
    forall k :: 0 <= k < |recs| ==> ParseLong(recs[k].idLine).Some? && RoleValueOf(recs[k].roleLine).Some?
  }

  /** The index of the first record with exactly this username. */
  function FirstExact(recs: seq<UserRecord>, username: string): (r: Option<nat>)
    ensures r.Some? ==> r.value < |recs| && recs[r.value].username == username
    ensures r.Some? ==> forall j :: 0 <= j < r.value ==> recs[j].username != username
    ensures r.None? <==> forall j :: 0 <= j < |recs| ==> recs[j].username != username
  {
    if recs == [] then None
    else if recs[0].username == username then Some(0)
    else match FirstExact(recs[1..], username)
      case None => None
      case Some(i) => Some(i + 1)
  }

  /** The index of the first record whose username equals this one ignoring case. */
  function FirstIgnoringCase(recs: seq<UserRecord>, username: string): (r: Option<nat>)
    ensures r.Some? ==> r.value < |recs| && EqualsIgnoreCase(recs[r.value].username, username)
    ensures r.Some? ==> forall j :: 0 <= j < r.value ==> !EqualsIgnoreCase(recs[j].username, username)
    ensures r.None? <==> forall j :: 0 <= j < |recs| ==> !EqualsIgnoreCase(recs[j].username, username)
  {
    if recs == [] then None
    else if EqualsIgnoreCase(recs[0].username, username) then Some(0)
    else match FirstIgnoringCase(recs[1..], username)
      case None => None
      case Some(i) => Some(i + 1)
  }

  /**
   * On a well-formed file, authentication is decided by the first record with
   * exactly that username: its password check and role give the result, a
   * failed check gives null even if a later record would pass, and no such
   * record gives null.
   */
  lemma {:induction false} AuthenticateFirstMatchDecides(recs: seq<UserRecord>, username: string, password: string,
                                                         verify: (string, string) -> bool)
    requires WellFormed(recs)
    ensures FirstExact(recs, username).None? ==> Authenticate(recs, username, password, verify) == Ok(None)
    ensures FirstExact(recs, username).Some? ==>
      var k := FirstExact(recs, username).value;
      Authenticate(recs, username, password, verify) == Verified(ParseLong(recs[k].idLine).value, recs[k], password, verify)
  {
    if recs != [] {
      assert WellFormed(recs[1..]) by {
        forall k | 0 <= k < |recs[1..]|
          ensures ParseLong(recs[1..][k].idLine).Some? && RoleValueOf(recs[1..][k].roleLine).Some?
        {
          assert recs[1..][k] == recs[k + 1];
        }
      }
      assert ParseLong(recs[0].idLine).Some?;
      AuthenticateFirstMatchDecides(recs[1..], username, password, verify);
    }
  }

  /**
   * On a well-formed file, findByUsername returns the id and admin flag of the
   * first record whose username equals the given one ignoring case, and null
   * when there is none.
   */
  lemma {:induction false} FindFirstMatchIgnoringCase(recs: seq<UserRecord>, username: string)
    requires WellFormed(recs)
    ensures FirstIgnoringCase(recs, username).None? ==> FindByName(recs, username) == Ok(None)
    ensures FirstIgnoringCase(recs, username).Some? ==>
      var k := FirstIgnoringCase(recs, username).value;
      FindByName(recs, username) == Ok(Some((ParseLong(recs[k].idLine).value, recs[k].roleLine == "ADMIN")))
  {
    if recs != [] {
      assert WellFormed(recs[1..]) by {
        forall k | 0 <= k < |recs[1..]|
          ensures ParseLong(recs[1..][k].idLine).Some? && RoleValueOf(recs[1..][k].roleLine).Some?
        {
          assert recs[1..][k] == recs[k + 1];
        }
      }
      assert ParseLong(recs[0].idLine).Some? && RoleValueOf(recs[0].roleLine).Some?;
      FindFirstMatchIgnoringCase(recs[1..], username);
    }
  }

  /** The scan of authenticateUser stops at a malformed id line only if it gets that far. */
  lemma {:induction false} AuthenticateFailsOnVisitedIdLine(recs: seq<UserRecord>, username: string, password: string,
                                                            verify: (string, string) -> bool)
    ensures Authenticate(recs, username, password, verify) == Err(NumberFormatException) ==>
      exists k :: 0 <= k < |recs| && ParseLong(recs[k].idLine).None?
        && forall j :: 0 <= j < k ==> recs[j].username != username
  {
    if recs != [] && ParseLong(recs[0].idLine).Some? && recs[0].username != username {
      AuthenticateFailsOnVisitedIdLine(recs[1..], username, password, verify);
      if Authenticate(recs, username, password, verify) == Err(NumberFormatException) {
        var k :| 0 <= k < |recs[1..]| && ParseLong(recs[1..][k].idLine).None?
          && forall j :: 0 <= j < k ==> recs[1..][j].username != username;
        assert ParseLong(recs[k + 1].idLine).None?;
        forall j | 0 <= j < k + 1
          ensures recs[j].username != username
        {
          if j > 0 {
            assert recs[j] == recs[1..][j - 1];
          }
        }
      }
    }
  }

  /** A row of the USERS table; the role column holds "ADMIN" or "REGULAR_USER". */
  datatype UserRow = UserRow(id: Long, username: string, hashedPassword: string, role: string)

  /** model.User: a user with its id, username, password hash and admin flag. */
  datatype User = User(id: Long, username: string, hashedPassword: string, isAdmin: bool)

  /** The role text `save` stores for the admin flag. */
  function RoleColumn(isAdmin: bool): (role: string)
    ensures RoleValueOf(role) == Some(if isAdmin then ADMIN else REGULAR_USER)
  {
    if isAdmin then "ADMIN" else "REGULAR_USER"
  }

  /** `SELECT id FROM USERS WHERE username = ?` has a row. */
  predicate UsernameTaken(rows: seq<UserRow>, username: string)
  {
    exists i :: 0 <= i < |rows| && rows[i].username == username
  }

  /** The table after a successful `save(user)`: unchanged if the username is taken, else one row more at the end. */
  function SavedUsers(rows: seq<UserRow>, user: User): (r: seq<UserRow>)
    ensures UsernameTaken(rows, user.username) ==> r == rows
    ensures !UsernameTaken(rows, user.username) ==>
      r == rows + [UserRow(user.id, user.username, user.hashedPassword, RoleColumn(user.isAdmin))]
  {
    if UsernameTaken(rows, user.username) then rows
    else rows + [UserRow(user.id, user.username, user.hashedPassword, RoleColumn(user.isAdmin))]
  }

  /** No two rows share a username. */
  predicate UniqueUsernames(rows: seq<UserRow>)
  {
    forall i, j :: 0 <= i < j < |rows| ==> rows[i].username != rows[j].username
  }

  /** `save` keeps usernames unique, whatever users are saved, and a saved username is then taken. */
  lemma SaveKeepsUsernamesUnique(rows: seq<UserRow>, user: User)
    requires UniqueUsernames(rows)
    ensures UniqueUsernames(SavedUsers(rows, user))
    ensures UsernameTaken(SavedUsers(rows, user), user.username)
  {
    var r := SavedUsers(rows, user);
    if !UsernameTaken(rows, user.username) {
      assert r[|rows|].username == user.username;
      forall i, j | 0 <= i < j < |r|
        ensures r[i].username != r[j].username
      {
        if j == |rows| {
          assert r[i] == rows[i];
        }
      }
    }
  }

  /** The role a saved user is stored under reads back as the same admin flag. */
  lemma SavedRoleReadsBack(rows: seq<UserRow>, user: User)
    requires !UsernameTaken(rows, user.username)
    ensures var row := SavedUsers(rows, user)[|rows|];
      RoleValueOf(row.role).Some? && (RoleValueOf(row.role).value == ADMIN <==> user.isAdmin)
  {
  }

  class UserRepository {
    /** dat/users.txt as its lines, or None when reading it throws an IOException. */
    const usersFile: Option<seq<string>>
    /** The USERS table. */
    var users: seq<UserRow>

    constructor (usersFile: Option<seq<string>>, users: seq<UserRow>)
      ensures this.usersFile == usersFile && this.users == users
    {
      this.usersFile := usersFile;
      this.users := users;
    }

    /**
     * authenticateUser: a record-by-record scan with early returns; an unreadable
     * file becomes RepositoryAccessException.
     */
    method AuthenticateUser(username: string, password: string, verify: (string, string) -> bool)
      returns (r: Result<Option<Login>, Exception>)
      ensures usersFile.None? ==> r == Err(RepositoryAccessException)
      ensures usersFile.Some? ==> r == Authenticate(Records(usersFile.value), username, password, verify)
    {
      if usersFile.None? {
        return Err(RepositoryAccessException);
      }
      var fileRows := usersFile.value;
      ghost var recs := Records(fileRows);
      var recordNumber := 0;
      while recordNumber < |fileRows| / RowsPerUser
        invariant 0 <= recordNumber <= |recs|
        invariant Authenticate(recs[recordNumber..], username, password, verify)
          == Authenticate(recs, username, password, verify)
      {
        var id := ParseLong(fileRows[recordNumber * RowsPerUser]);
        if id.None? {
          return Err(NumberFormatException);
        }
        var storedUsername := fileRows[recordNumber * RowsPerUser + 1];
        var storedHash := fileRows[recordNumber * RowsPerUser + 2];
        var roleString := fileRows[recordNumber * RowsPerUser + 3];
        assert recs[recordNumber..][0] == recs[recordNumber];
        if storedUsername == username {
          if verify(password, storedHash) {
            var role := RoleValueOf(roleString);
            if role.None? {
              return Err(IllegalArgumentException);
            }
            return Ok(Some((id.value, role.value == ADMIN)));
          } else {
            return Ok(None);
          }
        }
        assert recs[recordNumber..][1..] == recs[recordNumber + 1..];
        recordNumber := recordNumber + 1;
      }
      r := Ok(None);
    }

    /** findByUsername: the same scan with the role parsed up front and a case-insensitive comparison. */
    method FindByUsername(username: string) returns (r: Result<Option<Login>, Exception>)
      ensures usersFile.None? ==> r == Err(RepositoryAccessException)
      ensures usersFile.Some? ==> r == FindByName(Records(usersFile.value), username)
    {
      if usersFile.None? {
        return Err(RepositoryAccessException);
      }
      var fileRows := usersFile.value;
      ghost var recs := Records(fileRows);
      var recordNumber := 0;
      while recordNumber < |fileRows| / RowsPerUser
        invariant 0 <= recordNumber <= |recs|
        invariant FindByName(recs[recordNumber..], username) == FindByName(recs, username)
      {
        var id := ParseLong(fileRows[recordNumber * RowsPerUser]);
        if id.None? {
          return Err(NumberFormatException);
        }
        var storedUsername := fileRows[recordNumber * RowsPerUser + 1];
        var role := RoleValueOf(fileRows[recordNumber * RowsPerUser + 3]);
        if role.None? {
          return Err(IllegalArgumentException);
        }
        var isAdmin := role.value == ADMIN;
        assert recs[recordNumber..][0] == recs[recordNumber];
        if EqualsIgnoreCase(storedUsername, username) {
          return Ok(Some((id.value, isAdmin)));
        }
        assert recs[recordNumber..][1..] == recs[recordNumber + 1..];
        recordNumber := recordNumber + 1;
      }
      r := Ok(None);
    }

    /**
     * save: nothing is inserted when the username is already stored; otherwise
     * one row with the user's id, username, hash and role text. A failing
     * statement becomes RepositoryAccessException.
     */
    method Save(user: User, executeFails: bool) returns (thrown: Option<Exception>)
      modifies this`users
      ensures UsernameTaken(old(users), user.username) ==> thrown == None && users == old(users)
      ensures !UsernameTaken(old(users), user.username) && executeFails ==>
        thrown == Some(RepositoryAccessException) && users == old(users)
      ensures !executeFails ==> thrown == None && users == SavedUsers(old(users), user)
    {
      if UsernameTaken(users, user.username) {
        return None;
      }
      if executeFails {
        return Some(RepositoryAccessException);
      }
      users := users + [UserRow(user.id, user.username, user.hashedPassword, RoleColumn(user.isAdmin))];
      thrown := None;
    }
  }
}
