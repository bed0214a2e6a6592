/**
 * repository/ProposalDatabaseRepository.java: the PROPOSALS table, held as its
 * rows in storage order, and the audit entries that saving, editing, deleting
 * and re-stating a proposal produce, including the change description that an
 * edit records.
 *
 * As for clients, the SQL engine is not modelled: a lookup is the first row
 * with the key, the keys of inserted rows and an `executeBatch` failure are
 * parameters.
 */
module ProposalRepository {
  import opened Wrappers
  import opened JavaLang
  import opened Exceptions
  import opened Streams
  import opened Clients
  import opened Proposals
  import opened AuditLogs
  import opened AuditLogStore
  import opened DateFormat
  import opened Session
  import opened ClientRepository

  /** A stored row. Its status column always holds a constant name, so a row has a status. */
  datatype ProposalRow = ProposalRow(
    id: Long,
    title: string,
    description: string,
    status: ProposalStatus,
    clientId: Long,
    userId: Long)

  /** extractProposalFromResultSet: the proposal a row is read back as. */
  function RowProposal(row: ProposalRow): ProposalData
  {
    ProposalData(row.id, row.title, row.description, Some(row.status), row.clientId, row.userId)
  }

  /** `toString()` of the proposal read back from a row. */
  function RowText(row: ProposalRow): string
  {
    StatusText(RowProposal(row).status)
  }

  /** `SELECT ... FROM proposals WHERE id = ?`: the first stored row with that id, or EmptyRepositoryResultException. */
  function FindProposalById(rows: seq<ProposalRow>, id: Long): (r: Result<ProposalRow, Exception>)
    ensures r.Err? <==> forall i :: 0 <= i < |rows| ==> rows[i].id != id
    ensures r.Err? ==> r.error == EmptyRepositoryResultException
    ensures r.Ok? ==> r.value in rows && r.value.id == id
  {
    match FirstIndex(rows, (row: ProposalRow) => row.id == id)
    case Some(i) => Ok(rows[i])
    case None => Err(EmptyRepositoryResultException)
  }

  predicate AllHaveStatus(entities: seq<ProposalData>)
  {
    forall i :: 0 <= i < |entities| ==> entities[i].status.Some?
  }

  /** The row an INSERT stores for a proposal: the proposal's own id is not a column of the INSERT. */
  function RowFor(p: ProposalData, key: Long): ProposalRow
    requires p.status.Some?
  {
    ProposalRow(key, p.title, p.description, p.status.value, p.clientId, p.userId)
  }

  /** The rows an executed batch adds: each entity under the key generated for it. */
  function InsertedProposals(entities: seq<ProposalData>, keys: seq<Long>): (r: seq<ProposalRow>)
    requires |keys| == |entities| && AllHaveStatus(entities)
    ensures |r| == |entities|
    ensures forall i :: 0 <= i < |r| ==> r[i] == RowFor(entities[i], keys[i])
  {
    seq(|entities|, i requires 0 <= i < |entities| => RowFor(entities[i], keys[i]))
  }

  /** `UPDATE proposals SET title = ?, description = ?, client_id = ? WHERE id = ?`. */
  function WithEdits(rows: seq<ProposalRow>, id: Long, title: string, description: string, clientId: Long)
    : (r: seq<ProposalRow>)
    ensures |r| == |rows|
    ensures forall i :: 0 <= i < |rows| && rows[i].id == id ==>
      r[i] == rows[i].(title := title, description := description, clientId := clientId)
    ensures forall i :: 0 <= i < |rows| && rows[i].id != id ==> r[i] == rows[i]
  {
    seq(|rows|, i requires 0 <= i < |rows| =>
      if rows[i].id == id then rows[i].(title := title, description := description, clientId := clientId)
      else rows[i])
  }

  /** `UPDATE proposals SET status = ? WHERE id = ?`. */
  function WithStatus(rows: seq<ProposalRow>, id: Long, status: ProposalStatus): (r: seq<ProposalRow>)
    ensures |r| == |rows|
    ensures forall i :: 0 <= i < |rows| && rows[i].id == id ==> r[i] == rows[i].(status := status)
    ensures forall i :: 0 <= i < |rows| && rows[i].id != id ==> r[i] == rows[i]
  {
    seq(|rows|, i requires 0 <= i < |rows| => if rows[i].id == id then rows[i].(status := status) else rows[i])
  }

  /** `DELETE FROM proposals WHERE id = ?`: every other row stays, in order. */
  function WithoutId(rows: seq<ProposalRow>, id: Long): seq<ProposalRow>
  {
    Filter(rows, (row: ProposalRow) => row.id != id)
  }

  /** Once deleted, a proposal is no longer found, and every row with another id is kept in order. */
  lemma DeleteRemovesOnlyThatId(rows: seq<ProposalRow>, id: Long)
    ensures FindProposalById(WithoutId(rows, id), id).Err?
    ensures IsSubsequence(WithoutId(rows, id), rows)
    ensures forall row :: row in rows && row.id != id ==> row in WithoutId(rows, id)
  {
    var rest := WithoutId(rows, id);
    forall i | 0 <= i < |rest|
      ensures rest[i].id != id
    {
      assert rest[i] in rest;
    }
    FilterIsSubsequence(rows, (row: ProposalRow) => row.id != id);
  }

  /** After a status update, the lookup finds the same row as before, now with the new status. */
  lemma FindAfterStatusUpdate(rows: seq<ProposalRow>, id: Long, status: ProposalStatus)
    requires FindProposalById(rows, id).Ok?
    ensures FindProposalById(WithStatus(rows, id, status), id) == Ok(FindProposalById(rows, id).value.(status := status))
  {
    var updated := WithStatus(rows, id, status);
    var p := (row: ProposalRow) => row.id == id;
    FirstIndexAgree(rows, p, updated, p);
  }

  // ---------------------------------------------------------------------------
  // The change description of `update`

  /** One changed field: its text before and after the edit. */
  datatype FieldChange = FieldChange(before: string, after: string)

  function Befores(cs: seq<FieldChange>): (r: seq<string>)
    ensures |r| == |cs|
  {
    if cs == [] then [] else Befores(cs[..|cs| - 1]) + [cs[|cs| - 1].before]
  }

  function Afters(cs: seq<FieldChange>): (r: seq<string>)
    ensures |r| == |cs|
  {
    if cs == [] then [] else Afters(cs[..|cs| - 1]) + [cs[|cs| - 1].after]
  }

  /** What a StringBuilder holds after `append("'").append(x).append("', ")` for each item. */
  function QuotedList(items: seq<string>): string
  {
    if items == [] then "" else QuotedList(items[..|items| - 1]) + "'" + items[|items| - 1] + "', "
  }

  /** The items, each in single quotes, separated by ", ". */
  function JoinQuoted(items: seq<string>): (s: string)
    requires items != []
    ensures |s| >= 2 && s[0] == '\'' && s[|s| - 1] == '\''
  {
    if |items| == 1 then "'" + items[0] + "'"
    else JoinQuoted(items[..|items| - 1]) + ", '" + items[|items| - 1] + "'"
  }

  /** Cutting the last two characters off the builder's text leaves the items joined, with no trailing separator. */
  lemma {:induction false} QuotedListStrip(items: seq<string>)
    requires items != []
    ensures QuotedList(items) == JoinQuoted(items) + ", "
    decreases |items|
  {
    var last := items[|items| - 1];
    if |items| == 1 {
      assert items[..0] == [];
    } else {
      var front := items[..|items| - 1];
      QuotedListStrip(front);
      assert QuotedList(items) == JoinQuoted(front) + ", " + "'" + last + "', ";
    }
  }

  /** The fields an edit changed, in the order title, description, client; a changed client by its name. */
  function ChangedFields(oldRow: ProposalRow, p: ProposalData, clients: seq<Client>): Result<seq<FieldChange>, Exception>
  {
    var withTitle := if oldRow.title != p.title then [FieldChange(oldRow.title, p.title)] else [];
    var withDescription :=
      if oldRow.description != p.description then withTitle + [FieldChange(oldRow.description, p.description)]
      else withTitle;
    if oldRow.clientId == p.clientId then Ok(withDescription)
    else
      var before := FindClientById(clients, oldRow.clientId);
      var after := FindClientById(clients, p.clientId);
      if before.Err? || after.Err? then Err(RepositoryAccessException)
      else Ok(withDescription + [FieldChange(before.value.name, after.value.name)])
  }

  /**
   * The old and new texts `update` records: no texts when nothing changed,
   * RepositoryAccessException when a changed client cannot be looked up.
   */
  function UpdateDiff(oldRow: ProposalRow, p: ProposalData, clients: seq<Client>): Result<Option<(string, string)>, Exception>
  {
    match ChangedFields(oldRow, p, clients)
    case Err(e) => Err(e)
    case Ok(cs) => if cs == [] then Ok(None) else Ok(Some((JoinQuoted(Befores(cs)), JoinQuoted(Afters(cs)))))
  }

  /** An edit records nothing exactly when title, description and client are all unchanged. */
  lemma UpdateDiffNoneIffUnchanged(oldRow: ProposalRow, p: ProposalData, clients: seq<Client>)
    ensures UpdateDiff(oldRow, p, clients) == Ok(None)
      <==> oldRow.title == p.title && oldRow.description == p.description && oldRow.clientId == p.clientId
  {
  }

  /** The only failure is a changed client whose old or new id is not in the table. */
  lemma UpdateDiffFailsOnlyOnClientLookup(oldRow: ProposalRow, p: ProposalData, clients: seq<Client>)
    ensures UpdateDiff(oldRow, p, clients).Err?
      <==> (oldRow.clientId != p.clientId
        && (FindClientById(clients, oldRow.clientId).Err? || FindClientById(clients, p.clientId).Err?))
    ensures UpdateDiff(oldRow, p, clients).Err? ==> UpdateDiff(oldRow, p, clients).error == RepositoryAccessException
  {
  }

  /** When everything changed, both texts list title, description and client name in that order. */
  lemma UpdateDiffAllFields(oldRow: ProposalRow, p: ProposalData, clients: seq<Client>, oldName: string, newName: string)
    requires oldRow.title != p.title && oldRow.description != p.description && oldRow.clientId != p.clientId
    requires FindClientById(clients, oldRow.clientId).Ok? && FindClientById(clients, oldRow.clientId).value.name == oldName
    requires FindClientById(clients, p.clientId).Ok? && FindClientById(clients, p.clientId).value.name == newName
    ensures UpdateDiff(oldRow, p, clients) == Ok(Some((
      "'" + oldRow.title + "', '" + oldRow.description + "', '" + oldName + "'",
      "'" + p.title + "', '" + p.description + "', '" + newName + "'")))
  {
    var cs := [FieldChange(oldRow.title, p.title), FieldChange(oldRow.description, p.description), FieldChange(oldName, newName)];
    assert [cs[0]] + [cs[1]] + [cs[2]] == cs;
    assert ChangedFields(oldRow, p, clients) == Ok(cs);
    ChangesOfThree(cs[0], cs[1], cs[2]);
    JoinThree(oldRow.title, oldRow.description, oldName);
    JoinThree(p.title, p.description, newName);
  }

  lemma ChangesOfThree(c0: FieldChange, c1: FieldChange, c2: FieldChange)
    ensures Befores([c0, c1, c2]) == [c0.before, c1.before, c2.before]
    ensures Afters([c0, c1, c2]) == [c0.after, c1.after, c2.after]
  {
    var cs := [c0, c1, c2];
    assert Befores([c0]) == [c0.before] && Afters([c0]) == [c0.after] by {
      assert [c0][..0] == [];
    }
    assert Befores([c0, c1]) == [c0.before, c1.before] && Afters([c0, c1]) == [c0.after, c1.after] by {
      assert [c0, c1][..1] == [c0];
    }
    assert cs[..2] == [c0, c1];
  }

  lemma JoinThree(a: string, b: string, c: string)
    ensures JoinQuoted([a, b, c]) == "'" + a + "', '" + b + "', '" + c + "'"
  {
    var items := [a, b, c];
    assert JoinQuoted([a, b]) == JoinQuoted([a]) + ", '" + b + "'" by {
      assert [a, b][..1] == [a];
    }
    assert items[..2] == [a, b];
    assert JoinQuoted(items) == "'" + a + "'" + ", '" + b + "'" + ", '" + c + "'";
    assert "'" + ", '" == "', '";
  }

  /** A new client alone is recorded by the two clients' names, not by their ids. */
  lemma UpdateDiffClientOnly(oldRow: ProposalRow, p: ProposalData, clients: seq<Client>, oldName: string, newName: string)
    requires oldRow.title == p.title && oldRow.description == p.description && oldRow.clientId != p.clientId
    requires FindClientById(clients, oldRow.clientId).Ok? && FindClientById(clients, oldRow.clientId).value.name == oldName
    requires FindClientById(clients, p.clientId).Ok? && FindClientById(clients, p.clientId).value.name == newName
    ensures UpdateDiff(oldRow, p, clients) == Ok(Some(("'" + oldName + "'", "'" + newName + "'")))
  {
    var cs := [FieldChange(oldName, newName)];
    assert [] + cs == cs;
    assert ChangedFields(oldRow, p, clients) == Ok(cs);
    assert cs[..0] == [];
    assert Befores(cs) == [oldName] && Afters(cs) == [newName];
  }

  /** What `update` returns once its change texts are known. */
  function UpdateEntry(diff: Result<Option<(string, string)>, Exception>, file: FileState, userId: Option<Long>,
                       isAdmin: bool, timestamp: string): Result<Option<AuditLog>, Exception>
  {
    match diff
    case Err(_) => Err(RepositoryAccessException)
    case Ok(None) => Ok(None)
    case Ok(Some(texts)) =>
      match EntryFor(file, userId, isAdmin, ActionUpdate, EntityProposal, texts.0, texts.1, timestamp)
      case Err(e) => Err(e)
      case Ok(entry) => Ok(Some(entry))
  }

  lemma AppendChange(cs: seq<FieldChange>, c: FieldChange)
    ensures Befores(cs + [c]) == Befores(cs) + [c.before]
    ensures Afters(cs + [c]) == Afters(cs) + [c.after]
    ensures QuotedList(Befores(cs) + [c.before]) == QuotedList(Befores(cs)) + "'" + c.before + "', "
    ensures QuotedList(Afters(cs) + [c.after]) == QuotedList(Afters(cs)) + "'" + c.after + "', "
  {
    assert (cs + [c])[..|cs|] == cs;
    assert (Befores(cs) + [c.before])[..|cs|] == Befores(cs);
    assert (Afters(cs) + [c.after])[..|cs|] == Afters(cs);
  }

  /** `SELECT MAX(id)` read with `getLong`: the largest id, or 0 for the SQL null of an empty table. */
  function MaxIdColumn(rows: seq<ProposalRow>): (m: Long)
    ensures forall i :: 0 <= i < |rows| ==> rows[i].id <= m
    ensures rows != [] ==> exists i :: 0 <= i < |rows| && rows[i].id == m
    ensures rows == [] ==> m == 0
  {
    if rows == [] then 0
    else if |rows| == 1 then rows[0].id
    else
      var rest := MaxIdColumn(rows[1..]);
      assert forall i :: 1 <= i < |rows| ==> rows[i] == rows[1..][i - 1];
      if rows[0].id >= rest then rows[0].id else rest
  }

  /** getNextProposalId: the largest id plus one in `long` arithmetic, so 1 for an empty table. */
  function NextProposalId(rows: seq<ProposalRow>): (r: Long)
    ensures rows == [] ==> r == 1
  {
    var maxId := MaxIdColumn(rows);
    if maxId == MaxLong then MinLong else maxId + 1
  }

  /** Unless the largest id is already the largest `long`, the next id is above every stored id. */
  lemma NextProposalIdIsFresh(rows: seq<ProposalRow>)
    requires MaxIdColumn(rows) < MaxLong
    ensures forall i :: 0 <= i < |rows| ==> rows[i].id < NextProposalId(rows)
    ensures FindProposalById(rows, NextProposalId(rows)).Err?
  {
  }

  /**
   * What `deleteProposal` returns: EmptyRepositoryResultException for a missing
   * proposal, otherwise the DELETE entry with the old proposal's text and
   * "Deleted".
   */
  function DeletionEntry(rows: seq<ProposalRow>, id: Long, file: FileState, userId: Option<Long>, isAdmin: bool,
                         timestamp: string): (r: Result<AuditLog, Exception>)
    ensures FindProposalById(rows, id).Err? ==> r == Err(EmptyRepositoryResultException)
    ensures FindProposalById(rows, id).Ok? ==> (r.Err? <==> file.NotAList?)
    ensures r.Ok? ==> (r.value.action == ActionDelete && r.value.entityName == EntityProposal
      && r.value.oldValue == RowText(FindProposalById(rows, id).value) && r.value.newValue == Deleted
      && r.value.userId == userId && r.value.userRole == RoleTag(isAdmin) && r.value.timestamp == timestamp)
  {
    match FindProposalById(rows, id)
    case Err(e) => Err(e)
    case Ok(row) => EntryFor(file, userId, isAdmin, ActionDelete, EntityProposal, RowText(row), Deleted, timestamp)
  }

  /** The final `substring(0, length() - 2)` of a builder: the list without its trailing ", ". */
  method StripSeparator(built: string, ghost items: seq<string>) returns (text: string)
    requires items != [] && built == QuotedList(items)
    ensures text == JoinQuoted(items)
  {
    QuotedListStrip(items);
    text := built[..|built| - 2];
  }

  /** Appending "'before', " and "'after', " of one more changed field to the two builders. */
  method AppendQuoted(oldValue: string, newValue: string, ghost cs: seq<FieldChange>, c: FieldChange)
    returns (o: string, n: string)
    requires oldValue == QuotedList(Befores(cs)) && newValue == QuotedList(Afters(cs))
    ensures o == QuotedList(Befores(cs + [c])) && n == QuotedList(Afters(cs + [c]))
  {
    AppendChange(cs, c);
    o := oldValue + "'" + c.before + "', ";
    n := newValue + "'" + c.after + "', ";
  }

  class ProposalDatabaseRepository {
    /** The PROPOSALS table in storage order. */
    var rows: seq<ProposalRow>
    /** The CLIENTS table, read through a ClientDatabaseRepository of its own. */
    const clients: ClientDatabaseRepository
    /** The audit file and the session, both static in Java. */
    const audit: AuditLogRepository
    const session: SessionManager

    constructor (rows: seq<ProposalRow>, clients: ClientDatabaseRepository, audit: AuditLogRepository, session: SessionManager)
      ensures this.rows == rows && this.clients == clients && this.audit == audit && this.session == session
    {
      this.rows := rows;
      this.clients := clients;
      this.audit := audit;
      this.session := session;
    }

    /** findById. */
    function FindById(id: Long): Result<ProposalRow, Exception>
      reads this
    {
      FindProposalById(rows, id)
    }

    /**
     * save(List): one INSERT per entity in a single batch. A null status throws
     * NullPointerException while the batch is filled, before anything runs; an
     * `executeBatch` failure and an empty batch both end in
     * RepositoryAccessException; in all three cases nothing is stored.
     */
    method SaveAll(entities: seq<ProposalData>, keys: seq<Long>, executeFails: bool) returns (thrown: Option<Exception>)
      requires |keys| == |entities|
      modifies this`rows
      ensures !AllHaveStatus(entities) ==> thrown == Some(NullPointerException) && rows == old(rows)
      ensures AllHaveStatus(entities) && executeFails ==> thrown == Some(RepositoryAccessException) && rows == old(rows)
      ensures AllHaveStatus(entities) && !executeFails && entities == [] ==>
        thrown == Some(RepositoryAccessException) && rows == old(rows)
      ensures AllHaveStatus(entities) && !executeFails && entities != [] ==>
        thrown == None && rows == old(rows) + InsertedProposals(entities, keys)
    {
      var batch: seq<ProposalRow> := [];
      var i := 0;
      while i < |entities|
        invariant 0 <= i <= |entities|
        invariant AllHaveStatus(entities[..i])
        invariant batch == InsertedProposals(entities[..i], keys[..i])
      {
        if entities[i].status.None? {
          return Some(NullPointerException);
        }
        batch := batch + [RowFor(entities[i], keys[i])];
        i := i + 1;
      }
      assert entities[..i] == entities && keys[..i] == keys;
      if executeFails {
        return Some(RepositoryAccessException);
      }
      if |batch| == 0 {
        return Some(RepositoryAccessException);
      }
      rows := rows + batch;
      thrown := None;
    }

    /** getNextAuditLogId: read the audit file under its flag and take the next id. */
    method GetNextAuditLogId() returns (r: Result<Long, Exception>)
      requires !audit.loggedInProgress
      modifies audit`loggedInProgress
      ensures !audit.loggedInProgress
      ensures r == NextIdFrom(ReadInternal(audit.file))
    {
      var logs := audit.ReadAuditLogs();
      if logs.Err? {
        return Err(logs.error);
      }
      r := Ok(NextAuditLogId(logs.value));
    }

    /**
     * save(T): the batch save of exactly this one proposal, then the ADD entry
     * for "Proposal" with old value "N/A" and the proposal's text (its status)
     * as new value, handed to `logChange`.
     */
    method Save(entity: Proposal, key: Long, executeFails: bool, outcome: WriteOutcome, now: LocalDateTime)
      returns (r: Result<AuditLog, Exception>)
      requires !audit.loggedInProgress
      modifies this`rows, audit
      ensures !audit.loggedInProgress
      ensures entity.status.None? ==> r == Err(NullPointerException) && rows == old(rows)
      ensures entity.status.Some? && executeFails ==> r == Err(RepositoryAccessException) && rows == old(rows)
      ensures entity.status.Some? && !executeFails ==> rows == old(rows) + [RowFor(entity.Data(), key)]
      ensures entity.status.Some? && !executeFails ==> r == EntryFor(old(audit.file), session.loggedInUserId,
        session.isAdmin, ActionAdd, EntityProposal, NotApplicable, entity.ToString(), AuditTimestamp(now))
      ensures r.Ok? ==> audit.file == Appended(old(audit.file), r.value, outcome)
      ensures r.Err? ==> audit.file == old(audit.file)
    {
      assert AllHaveStatus([entity.Data()]) <==> entity.status.Some? by {
        assert [entity.Data()][0] == entity.Data();
      }
      var thrown := SaveAll([entity.Data()], [key], executeFails);
      if thrown.Some? {
        return Err(thrown.value);
      }
      var nextId := GetNextAuditLogId();
      if nextId.Err? {
        return Err(nextId.error);
      }
      var entry := AuditLog(nextId.value, session.loggedInUserId, RoleTag(session.isAdmin),
        ActionAdd, EntityProposal, NotApplicable, entity.ToString(), AuditTimestamp(now));
      // The background thread's logChange, run to completion before the caller goes on.
      var lost := audit.LogChange(entry, outcome);
      r := Ok(entry);
    }

    /**
     * The change texts of `update`: for each changed field in turn, "'old', "
     * and "'new', " are appended to two builders and a flag is raised; without
     * the flag there are no texts, otherwise each builder loses its last two
     * characters.
     */
    method ChangeTexts(oldRow: ProposalRow, proposal: ProposalData) returns (r: Result<Option<(string, string)>, Exception>)
      ensures r == UpdateDiff(oldRow, proposal, clients.rows)
    {
      var oldValue: string := "";
      var newValue: string := "";
      var hasChanges := false;
      ghost var cs: seq<FieldChange> := [];
      if oldRow.title != proposal.title {
        var change := FieldChange(oldRow.title, proposal.title);
        oldValue, newValue := AppendQuoted(oldValue, newValue, cs, change);
        hasChanges := true;
        cs := cs + [change];
      }
      if oldRow.description != proposal.description {
        var change := FieldChange(oldRow.description, proposal.description);
        oldValue, newValue := AppendQuoted(oldValue, newValue, cs, change);
        hasChanges := true;
        cs := cs + [change];
      }
      assert hasChanges <==> cs != [];
      ghost var withTitle := if oldRow.title != proposal.title then [FieldChange(oldRow.title, proposal.title)] else [];
      assert cs == (if oldRow.description != proposal.description
        then withTitle + [FieldChange(oldRow.description, proposal.description)] else withTitle);
      if oldRow.clientId != proposal.clientId {
        var oldClient := clients.FindById(oldRow.clientId);
        var newClient := clients.FindById(proposal.clientId);
        if oldClient.Err? || newClient.Err? {
          return Err(RepositoryAccessException);
        }
        var change := FieldChange(oldClient.value.name, newClient.value.name);
        oldValue, newValue := AppendQuoted(oldValue, newValue, cs, change);
        hasChanges := true;
        cs := cs + [change];
      }
      assert ChangedFields(oldRow, proposal, clients.rows) == Ok(cs);
      if !hasChanges {
        return Ok(None);
      }
      var oldText := StripSeparator(oldValue, Befores(cs));
      var newText := StripSeparator(newValue, Afters(cs));
      r := Ok(Some((oldText, newText)));
    }

    /**
     * update: a proposal that is not found ends in RepositoryAccessException;
     * otherwise its title, description and client are written, and an UPDATE
     * entry with the change texts is handed to `logChange` when something
     * changed.
     */
    method Update(proposal: Proposal, outcome: WriteOutcome, now: LocalDateTime) returns (r: Result<Option<AuditLog>, Exception>)
      requires !audit.loggedInProgress
      modifies this`rows, audit
      ensures !audit.loggedInProgress
      ensures old(FindById(proposal.id)).Err? ==>
        r == Err(RepositoryAccessException) && rows == old(rows) && audit.file == old(audit.file)
      ensures old(FindById(proposal.id)).Ok? ==>
        rows == WithEdits(old(rows), proposal.id, proposal.title, proposal.description, proposal.clientId)
      ensures old(FindById(proposal.id)).Ok? ==>
        r == UpdateEntry(UpdateDiff(old(FindById(proposal.id)).value, proposal.Data(), clients.rows),
          old(audit.file), session.loggedInUserId, session.isAdmin, AuditTimestamp(now))
      ensures r.Ok? && r.value.Some? ==> audit.file == Appended(old(audit.file), r.value.value, outcome)
      ensures !(r.Ok? && r.value.Some?) ==> audit.file == old(audit.file)
    {
      var found := FindById(proposal.id);
      if found.Err? {
        return Err(RepositoryAccessException);
      }
      var oldRow := found.value;
      rows := WithEdits(rows, proposal.id, proposal.title, proposal.description, proposal.clientId);
      // The row was just found, so at least one row is updated.
      var diff := ChangeTexts(oldRow, proposal.Data());
      if diff.Err? {
        return Err(RepositoryAccessException);
      }
      if diff.value.None? {
        return Ok(None);
      }
      var texts := diff.value.value;
      var nextId := GetNextAuditLogId();
      if nextId.Err? {
        return Err(nextId.error);
      }
      var entry := AuditLog(nextId.value, session.loggedInUserId, RoleTag(session.isAdmin),
        ActionUpdate, EntityProposal, texts.0, texts.1, AuditTimestamp(now));
      var lost := audit.LogChange(entry, outcome);
      r := Ok(Some(entry));
    }

    /**
     * deleteProposal: the lookup runs before the try block, so a missing
     * proposal escapes as EmptyRepositoryResultException; otherwise the row is
     * deleted and a DELETE entry with the old proposal's text and "Deleted" is
     * handed to `logChange`.
     */
    method DeleteProposal(proposalId: Long, outcome: WriteOutcome, now: LocalDateTime) returns (r: Result<AuditLog, Exception>)
      requires !audit.loggedInProgress
      modifies this`rows, audit
      ensures !audit.loggedInProgress
      ensures old(FindById(proposalId)).Err? ==>
        r == Err(EmptyRepositoryResultException) && rows == old(rows) && audit.file == old(audit.file)
      ensures old(FindById(proposalId)).Ok? ==> rows == WithoutId(old(rows), proposalId)
      ensures r == DeletionEntry(old(rows), proposalId, old(audit.file), session.loggedInUserId, session.isAdmin,
        AuditTimestamp(now))
      ensures r.Ok? ==> audit.file == Appended(old(audit.file), r.value, outcome)
      ensures r.Err? ==> audit.file == old(audit.file)
    {
      var found := FindById(proposalId);
      if found.Err? {
        return Err(found.error);
      }
      var oldRow := found.value;
      rows := WithoutId(rows, proposalId);
      // The row was just found, so at least one row is deleted.
      var nextId := GetNextAuditLogId();
      if nextId.Err? {
        return Err(nextId.error);
      }
      var entry := AuditLog(nextId.value, session.loggedInUserId, RoleTag(session.isAdmin),
        ActionDelete, EntityProposal, RowText(oldRow), Deleted, AuditTimestamp(now));
      var lost := audit.LogChange(entry, outcome);
      r := Ok(entry);
    }

    /**
     * updateStatus: the lookup runs before the try block, so a missing proposal
     * escapes as EmptyRepositoryResultException; otherwise the status is
     * written, the row is read again, and an UPDATE STATUS entry with the old
     * and the re-read status names is handed to `logChange`.
     */
    method UpdateStatus(proposalId: Long, newStatus: ProposalStatus, outcome: WriteOutcome, now: LocalDateTime)
      returns (r: Result<AuditLog, Exception>)
      requires !audit.loggedInProgress
      modifies this`rows, audit
      ensures !audit.loggedInProgress
      ensures old(FindById(proposalId)).Err? ==>
        r == Err(EmptyRepositoryResultException) && rows == old(rows) && audit.file == old(audit.file)
      ensures old(FindById(proposalId)).Ok? ==> rows == WithStatus(old(rows), proposalId, newStatus)
      ensures old(FindById(proposalId)).Ok? ==> r == EntryFor(old(audit.file), session.loggedInUserId, session.isAdmin,
        ActionUpdateStatus, EntityProposal, StatusName(old(FindById(proposalId)).value.status), StatusName(newStatus),
        AuditTimestamp(now))
      ensures r.Ok? ==> audit.file == Appended(old(audit.file), r.value, outcome)
      ensures r.Err? ==> audit.file == old(audit.file)
    {
      var found := FindById(proposalId);
      if found.Err? {
        return Err(found.error);
      }
      var oldRow := found.value;
      FindAfterStatusUpdate(rows, proposalId, newStatus);
      rows := WithStatus(rows, proposalId, newStatus);
      // The row was just found, so at least one row is updated, and reading it again finds it.
      var updated := FindById(proposalId);
      assert updated == Ok(oldRow.(status := newStatus));
      var nextId := GetNextAuditLogId();
      if nextId.Err? {
        return Err(nextId.error);
      }
      var entry := AuditLog(nextId.value, session.loggedInUserId, RoleTag(session.isAdmin),
        ActionUpdateStatus, EntityProposal, StatusName(oldRow.status), StatusName(updated.value.status),
        AuditTimestamp(now));
      var lost := audit.LogChange(entry, outcome);
      r := Ok(entry);
    }
  }
}
