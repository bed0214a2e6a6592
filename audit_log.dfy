/**
 * The audit record (model/AuditLog.java) and the rules every repository uses
 * to fill one in: the next id taken from the tail of the log, the role tag
 * taken from the session, and the fixed action, entity and sentinel texts.
 */
module AuditLogs {
  import opened Wrappers
  import opened JavaLang

  /** The eight components of the `AuditLog` record; `userId` is a nullable Long. */
  datatype AuditLog = AuditLog(
    id: Long,
    userId: Option<Long>,
    userRole: string,
    action: string,
    entityName: string,
    oldValue: string,
    newValue: string,
    timestamp: string)

  const ActionAdd: string := "ADD"
  const ActionUpdate: string := "UPDATE"
  const ActionDelete: string := "DELETE"
  const ActionUpdateStatus: string := "UPDATE STATUS"
  const EntityProposal: string := "Proposal"
  const EntityClient: string := "Client"
  const NotApplicable: string := "N/A"
  const Deleted: string := "Deleted"

  /** `SessionManager.isAdmin() ? "Admin" : "User"`. */
  function RoleTag(isAdmin: bool): (tag: string)
    ensures tag == "Admin" <==> isAdmin
    ensures tag == "User" <==> !isAdmin
  {
    if isAdmin then "Admin" else "User"
  }

  /** getNextAuditLogId: 1 for an empty log, otherwise the last record's id + 1 in `long` arithmetic. */
  function NextAuditLogId(logs: seq<AuditLog>): Long
  {
    if |logs| == 0 then 1 else Increment(logs[|logs| - 1].id)
  }

  /** The ids of the log are 1, 2, 3, ... in persisted order: no gaps and no duplicates. */
  ghost predicate ContiguousIds(logs: seq<AuditLog>)
  {
    forall i :: 0 <= i < |logs| ==> logs[i].id == i + 1
  }

  /** Appending an entry whose id was allocated from the same log keeps the ids contiguous. */
  lemma AppendNextIdKeepsContiguous(logs: seq<AuditLog>, entry: AuditLog)
    requires ContiguousIds(logs) && |logs| < MaxLong
    requires entry.id == NextAuditLogId(logs)
    ensures ContiguousIds(logs + [entry])
  {
    if |logs| > 0 {
      assert logs[|logs| - 1].id == |logs|;
    }
  }

  /** The allocated id follows the last one and is used by no record of a contiguous log. */
  lemma NextIdIsFresh(logs: seq<AuditLog>)
    requires ContiguousIds(logs) && |logs| < MaxLong
    ensures NextAuditLogId(logs) == |logs| + 1
    ensures forall i :: 0 <= i < |logs| ==> logs[i].id != NextAuditLogId(logs)
  {
    if |logs| > 0 {
      assert logs[|logs| - 1].id == |logs|;
    }
  }

  /**
   * Two entries whose ids were both allocated from the same snapshot of the log
   * carry the same id once both are appended, so the log is no longer contiguous.
   */
  lemma StaleSnapshotDuplicatesId(logs: seq<AuditLog>, first: AuditLog, second: AuditLog)
    requires first.id == NextAuditLogId(logs) && second.id == NextAuditLogId(logs)
    ensures var after := logs + [first, second];
      after[|logs|].id == after[|logs| + 1].id && !ContiguousIds(after)
  {
    var after := logs + [first, second];
    assert after[|logs|] == first && after[|logs| + 1] == second;
  }
}
