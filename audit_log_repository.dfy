/**
 * repository/AuditLogRepository.java: the single audit file, rewritten in full
 * on every append, and the static `loggedInProgress` flag that gates access.
 *
 * The file is an abstract state rather than bytes. The flag is a field of the
 * one repository object that stands for the shared file; it is IDLE (false)
 * between operations, BUSY (true) while one runs, and reset on every exit.
 */
module AuditLogStore {
  import opened Wrappers
  import opened JavaLang
  import opened Exceptions
  import opened AuditLogs

  /** Why `readObject` on a non-empty file threw a checked exception. */
  datatype ReadFault = EndOfFile | IoFailure | ClassNotFound

  datatype FileState =
    | Absent                         // dat/audit_log.dat does not exist
    | Empty                          // it exists with length 0
    | Unreadable(fault: ReadFault)   // its content makes readObject throw
    | NotAList                       // it holds a serialized object that is not a List
    | Holds(logs: seq<AuditLog>)     // it holds a serialized list of records

  /** How the rewrite of the whole list went. */
  datatype WriteOutcome =
    | Written              // the list was serialized completely
    | OpenFailed           // FileOutputStream could not be opened; the file is untouched
    | FailedAfterTruncate  // the file was truncated on open and the write then failed

  /**
   * readAuditLogsInternal: a missing or empty file, and content that fails with
   * EOFException, IOException or ClassNotFoundException, all read as the empty
   * list; only a non-list object escapes, as the ClassCastException of the cast.
   */
  function ReadInternal(file: FileState): (r: Result<seq<AuditLog>, Exception>)
    ensures r.Err? <==> file.NotAList?
    ensures r.Err? ==> r.error == ClassCastException
    ensures file.Holds? ==> r == Ok(file.logs)
    ensures file.Absent? || file.Empty? || file.Unreadable? ==> r == Ok([])
  {
    match file
    case Absent => Ok([])
    case Empty => Ok([])
    case Unreadable(_) => Ok([])
    case NotAList => Err(ClassCastException)
    case Holds(logs) => Ok(logs)
  }

  /** The file after `logs` was written to it with the given outcome. */
  function AfterWrite(file: FileState, logs: seq<AuditLog>, outcome: WriteOutcome): FileState
  {
    match outcome
    case Written => Holds(logs)
    case OpenFailed => file
    case FailedAfterTruncate => Unreadable(EndOfFile)
  }

  /** A completed write is read back exactly; a failed one never makes the next read throw. */
  lemma ReadAfterWrite(file: FileState, logs: seq<AuditLog>, outcome: WriteOutcome)
    requires !file.NotAList?
    ensures outcome == Written ==> ReadInternal(AfterWrite(file, logs, outcome)) == Ok(logs)
    ensures ReadInternal(AfterWrite(file, logs, outcome)).Ok?
  {
  }

  /** The id `getNextAuditLogId` computes from what `readAuditLogs` returned, or that read's exception. */
  function NextIdFrom(read: Result<seq<AuditLog>, Exception>): (r: Result<Long, Exception>)
    ensures r.Err? <==> read.Err?
    ensures read == Ok([]) ==> r == Ok(1)
    ensures read.Ok? && read.value != [] && read.value[|read.value| - 1].id < MaxLong
      ==> r == Ok(read.value[|read.value| - 1].id + 1)
  {
    match read
    case Err(e) => Err(e)
    case Ok(logs) => Ok(NextAuditLogId(logs))
  }

  /**
   * The entry an audited repository operation hands to `logChange`: the id
   * allocated from the file as it is now, the session's user and role, and the
   * operation's own action, entity, old and new texts and timestamp; or the
   * exception that reading the file for the id raised.
   */
  function EntryFor(file: FileState, userId: Option<Long>, isAdmin: bool, action: string,
                    entityName: string, oldValue: string, newValue: string, timestamp: string)
    : (r: Result<AuditLog, Exception>)
    ensures r.Err? <==> file.NotAList?
    ensures r.Ok? ==> NextIdFrom(ReadInternal(file)) == Ok(r.value.id)
    ensures r.Ok? ==> (r.value.userId == userId && r.value.userRole == RoleTag(isAdmin)
      && r.value.action == action && r.value.entityName == entityName
      && r.value.oldValue == oldValue && r.value.newValue == newValue && r.value.timestamp == timestamp)
  {
    match ReadInternal(file)
    case Err(e) => Err(e)
    case Ok(logs) => Ok(AuditLog(NextAuditLogId(logs), userId, RoleTag(isAdmin), action, entityName, oldValue, newValue, timestamp))
  }

  /** The file once `logChange(entry)` has run on it with the given write outcome. */
  function Appended(file: FileState, entry: AuditLog, outcome: WriteOutcome): FileState
  {
    match ReadInternal(file)
    case Err(_) => file
    case Ok(logs) => AfterWrite(file, logs + [entry], outcome)
  }

  /**
   * Run one after the other, an audited operation and the `logChange` it hands
   * its entry to keep the persisted ids 1, 2, 3, ...: the entry lands at the end
   * with the next id.
   */
  lemma AuditedAppendKeepsContiguous(file: FileState, userId: Option<Long>, isAdmin: bool, action: string,
                                     entityName: string, oldValue: string, newValue: string, timestamp: string)
    requires file.Holds? && ContiguousIds(file.logs) && |file.logs| < MaxLong
    ensures var r := EntryFor(file, userId, isAdmin, action, entityName, oldValue, newValue, timestamp);
      r.Ok? && r.value.id == |file.logs| + 1
      && Appended(file, r.value, Written) == Holds(file.logs + [r.value])
      && ContiguousIds(file.logs + [r.value])
  {
    var r := EntryFor(file, userId, isAdmin, action, entityName, oldValue, newValue, timestamp);
    NextIdIsFresh(file.logs);
    AppendNextIdKeepsContiguous(file.logs, r.value);
  }

  class AuditLogRepository {
    var file: FileState
    /** The static `loggedInProgress` flag: true exactly while an operation holds the file. */
    var loggedInProgress: bool

    constructor (file: FileState)
      ensures this.file == file && !loggedInProgress
    {
      this.file := file;
      loggedInProgress := false;
    }

    /** readAuditLogsInternal, called only while the flag is held. */
    method ReadAuditLogsInternal() returns (r: Result<seq<AuditLog>, Exception>)
      requires loggedInProgress
      ensures r == ReadInternal(file)
    {
      match file {
        case Absent =>
          r := Ok([]);
        case Empty =>
          r := Ok([]);
        case Unreadable(_) =>
          r := Ok([]);
        case NotAList =>
          r := Err(ClassCastException);
        case Holds(logs) =>
          r := Ok(logs);
      }
    }

    /**
     * logChange: read the whole list, append one record, rewrite the whole list.
     * A write failure is logged and swallowed; the only exception that leaves
     * is the ClassCastException of the read, and the flag is reset either way.
     */
    method LogChange(auditLog: AuditLog, outcome: WriteOutcome) returns (thrown: Option<Exception>)
      requires !loggedInProgress
      modifies this
      ensures !loggedInProgress
      ensures thrown.Some? <==> old(file).NotAList?
      ensures thrown.Some? ==> thrown.value == ClassCastException && file == old(file)
      ensures thrown.None? ==> file == AfterWrite(old(file), ReadInternal(old(file)).value + [auditLog], outcome)
      ensures outcome == Written && old(file).Holds? ==> file == Holds(old(file).logs + [auditLog])
      ensures outcome == Written && (old(file).Absent? || old(file).Empty? || old(file).Unreadable?) ==> file == Holds([auditLog])
    {
      loggedInProgress := true;
      var read := ReadAuditLogsInternal();
      if read.Err? {
        // the exception leaves through `finally`
        loggedInProgress := false;
        return Some(read.error);
      }
      var logs := read.value;
      logs := logs + [auditLog];
      match outcome {
        case Written =>
          file := Holds(logs);
        case OpenFailed =>
        case FailedAfterTruncate =>
          file := Unreadable(EndOfFile);
      }
      loggedInProgress := false;
      thrown := None;
    }

    /** readAuditLogs: the persisted list under the flag; the file is left as it was. */
    method ReadAuditLogs() returns (r: Result<seq<AuditLog>, Exception>)
      requires !loggedInProgress
      modifies this`loggedInProgress
      ensures !loggedInProgress
      ensures r == ReadInternal(file)
    {
      loggedInProgress := true;
      r := ReadAuditLogsInternal();
      loggedInProgress := false;
    }
  }
}
