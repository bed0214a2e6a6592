/**
 * repository/ClientDatabaseRepository.java: the CLIENTS table, held as its rows
 * in storage order, and the audit entry that saving one client produces.
 *
 * The SQL engine is not modelled: a lookup is the first row with the key, the
 * keys of inserted rows come from the identity column (a parameter here), and
 * whether `executeBatch` fails is a parameter too.
 */
module ClientRepository {
  import opened Wrappers
  import opened JavaLang
  import opened Exceptions
  import opened Streams
  import opened Clients
  import opened AuditLogs
  import opened AuditLogStore
  import opened DateFormat
  import opened Session

  /** `SELECT ... FROM CLIENTS WHERE id = ?`: the first stored client with that id, or EmptyRepositoryResultException. */
  function FindClientById(rows: seq<Client>, id: Long): (r: Result<Client, Exception>)
    ensures r.Err? <==> forall i :: 0 <= i < |rows| ==> rows[i].id != id
    ensures r.Err? ==> r.error == EmptyRepositoryResultException
    ensures r.Ok? ==> r.value in rows && r.value.id == id
  {
    match FirstIndex(rows, (c: Client) => c.id == id)
    case Some(i) => Ok(rows[i])
    case None => Err(EmptyRepositoryResultException)
  }

  /** The rows an executed batch adds: each entity under the key generated for it. */
  function InsertedClients(entities: seq<Client>, keys: seq<Long>): (r: seq<Client>)
    requires |keys| == |entities|
    ensures |r| == |entities|
    ensures forall i :: 0 <= i < |r| ==> r[i] == entities[i].(id := keys[i])
  {
    seq(|entities|, i requires 0 <= i < |entities| => entities[i].(id := keys[i]))
  }

  class ClientDatabaseRepository {
    /** The CLIENTS table in storage order. */
    var rows: seq<Client>
    /** The audit file and the session, both static in Java. */
    const audit: AuditLogRepository
    const session: SessionManager

    constructor (rows: seq<Client>, audit: AuditLogRepository, session: SessionManager)
      ensures this.rows == rows && this.audit == audit && this.session == session
    {
      this.rows := rows;
      this.audit := audit;
      this.session := session;
    }

    /** findById. */
    function FindById(id: Long): Result<Client, Exception>
      reads this
    {
      FindClientById(rows, id)
    }

    /**
     * save(List): one INSERT per entity in a single batch. An `executeBatch`
     * failure and an empty batch both end in RepositoryAccessException, and
     * then nothing is stored.
     */
    method SaveAll(entities: seq<Client>, keys: seq<Long>, executeFails: bool) returns (thrown: Option<Exception>)
      requires |keys| == |entities|
      modifies this`rows
      ensures executeFails ==> thrown == Some(RepositoryAccessException) && rows == old(rows)
      ensures !executeFails && entities == [] ==> thrown == Some(RepositoryAccessException) && rows == old(rows)
      ensures !executeFails && entities != [] ==> thrown == None && rows == old(rows) + InsertedClients(entities, keys)
    {
      var batch: seq<Client> := [];
      var i := 0;
      while i < |entities|
        invariant 0 <= i <= |entities|
        invariant batch == InsertedClients(entities[..i], keys[..i])
      {
        batch := batch + [entities[i].(id := keys[i])];
        i := i + 1;
      }
      assert entities[..i] == entities && keys[..i] == keys;
      if executeFails {
        return Some(RepositoryAccessException);
      }
      if |batch| == 0 {
        return Some(RepositoryAccessException);
      }
      rows := rows + batch;
      thrown := None;
    }

    /** getNextAuditLogId: read the audit file under its flag and take the next id. */
    method GetNextAuditLogId() returns (r: Result<Long, Exception>)
      requires !audit.loggedInProgress
      modifies audit`loggedInProgress
      ensures !audit.loggedInProgress
      ensures r == NextIdFrom(ReadInternal(audit.file))
    {
      var logs := audit.ReadAuditLogs();
      if logs.Err? {
        return Err(logs.error);
      }
      r := Ok(NextAuditLogId(logs.value));
    }

    /**
     * save(T): the batch save of exactly this one client; only once it has
     * returned, the ADD entry for "Client" with old value "N/A" and the client's
     * name as new value, handed to `logChange` on the audit file.
     */
    method Save(entity: Client, key: Long, executeFails: bool, outcome: WriteOutcome, now: LocalDateTime)
      returns (r: Result<AuditLog, Exception>)
      requires !audit.loggedInProgress
      modifies this`rows, audit
      ensures !audit.loggedInProgress
      ensures executeFails ==> r == Err(RepositoryAccessException) && rows == old(rows)
      ensures !executeFails ==> rows == old(rows) + [entity.(id := key)]
      ensures !executeFails ==> r == EntryFor(old(audit.file), session.loggedInUserId, session.isAdmin,
        ActionAdd, EntityClient, NotApplicable, ClientToString(entity), AuditTimestamp(now))
      ensures r.Ok? ==> audit.file == Appended(old(audit.file), r.value, outcome)
      ensures r.Err? ==> audit.file == old(audit.file)
    {
      var thrown := SaveAll([entity], [key], executeFails);
      if thrown.Some? {
        return Err(thrown.value);
      }
      var nextId := GetNextAuditLogId();
      if nextId.Err? {
        return Err(nextId.error);
      }
      var entry := AuditLog(nextId.value, session.loggedInUserId, RoleTag(session.isAdmin),
        ActionAdd, EntityClient, NotApplicable, ClientToString(entity), AuditTimestamp(now));
      // The background thread's logChange, run to completion before the caller goes on;
      // what it throws stays in that thread.
      var lost := audit.LogChange(entry, outcome);
      r := Ok(entry);
    }
  }
}
