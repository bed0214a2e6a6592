/**
 * controller/AuditLogController.java: the audit viewer. It loads the whole
 * audit file into a list and shows the entries that pass two stream filters,
 * one on the action picked in a combo box and one on the day picked in a date
 * picker.
 */
module AuditLogViewer {
  import opened Wrappers
  import opened JavaLang
  import opened Exceptions
  import opened Streams
  import opened DateFormat
  import opened AuditLogs
  import opened AuditLogStore

  /** The choice that disables the action filter, selected when the screen opens. */
  const AllActions: string := "ALL"

  /** The items of the action combo box. */
  const ActionChoices: seq<string> := [AllActions, ActionAdd, ActionUpdate, ActionDelete, ActionUpdateStatus]

  /**
   * The first filter: `"ALL".equalsIgnoreCase(selected) || action.equalsIgnoreCase(selected)`.
   * A null selection (None) makes both calls false.
   */
  predicate ActionMatches(selected: Option<string>, log: AuditLog)
  {
    selected.Some? && (EqualsIgnoreCase(AllActions, selected.value) || EqualsIgnoreCase(log.action, selected.value))
  }

  /** The second filter: no date picked, or the timestamp starts with the picked day in ISO form. */
  predicate DateMatches(selected: Option<LocalDate>, log: AuditLog)
  {
    selected.None? || StartsWith(log.timestamp, IsoLocalDate(selected.value))
  }

  function ActionFilter(selected: Option<string>): AuditLog -> bool
  {
    log => ActionMatches(selected, log)
  }

  function DateFilter(selected: Option<LocalDate>): AuditLog -> bool
  {
    log => DateMatches(selected, log)
  }

  /** filterAuditLogs: the two filters in turn over the loaded list. */
  function FilteredAuditLogs(logs: seq<AuditLog>, action: Option<string>, date: Option<LocalDate>): (r: seq<AuditLog>)
    ensures forall e :: e in r <==> e in logs && ActionMatches(action, e) && DateMatches(date, e)
  {
    Filter(Filter(logs, ActionFilter(action)), DateFilter(date))
  }

  /** The two chained filters are one filter on the conjunction, so the viewer never reorders entries. */
  lemma FilteredIsOneFilter(logs: seq<AuditLog>, action: Option<string>, date: Option<LocalDate>)
    ensures FilteredAuditLogs(logs, action, date) == Filter(logs, Both(ActionFilter(action), DateFilter(date)))
    ensures IsSubsequence(FilteredAuditLogs(logs, action, date), logs)
  {
    FilterFilter(logs, ActionFilter(action), DateFilter(date));
    FilterIsSubsequence(logs, Both(ActionFilter(action), DateFilter(date)));
  }

  /** "ALL", in any letter case, with no day picked shows the whole list, in order. */
  lemma AllWithoutDateShowsEverything(logs: seq<AuditLog>, action: string)
    requires EqualsIgnoreCase(AllActions, action)
    ensures FilteredAuditLogs(logs, Some(action), None) == logs
  {
    FilterKeepsAll(logs, ActionFilter(Some(action)));
    FilterKeepsAll(logs, DateFilter(None));
  }

  /** With no action selected nothing is shown, whatever the day. */
  lemma NoActionShowsNothing(logs: seq<AuditLog>, date: Option<LocalDate>)
    ensures FilteredAuditLogs(logs, None, date) == []
  {
    FilterFilter(logs, ActionFilter(None), DateFilter(date));
    NothingPasses(logs, Both(ActionFilter(None), DateFilter(date)));
  }

  /** A log written by a repository carries one of the four repository actions. */
  predicate WrittenAction(action: string)
  {
    action == ActionAdd || action == ActionUpdate || action == ActionDelete || action == ActionUpdateStatus
  }

  /**
   * Picking one of the four actions shows exactly the entries with that action:
   * equalsIgnoreCase compares whole names, so "UPDATE" does not also select
   * "UPDATE STATUS".
   */
  lemma PickedActionSelectsExactlyIt(logs: seq<AuditLog>, picked: string, e: AuditLog)
    requires picked in ActionChoices[1..]
    requires WrittenAction(e.action)
    ensures e in FilteredAuditLogs(logs, Some(picked), None) <==> e in logs && e.action == picked
  {
    assert !EqualsIgnoreCase(AllActions, picked) by {
      assert |AllActions| != |picked| || !CharEqualsIgnoreCase(AllActions[1], picked[1]);
    }
    assert EqualsIgnoreCase(e.action, picked) <==> e.action == picked by {
      if e.action != picked {
        assert !CharEqualsIgnoreCase(e.action[0], picked[0]) || |e.action| != |picked|;
      } else {
        EqualsIgnoreCaseIsEquivalence(picked, picked, picked);
      }
    }
  }

  /**
   * For an entry stamped by a repository in the years 1..9999, the day filter
   * keeps it exactly when it was stamped on the picked day.
   */
  lemma PickedDaySelectsThatDay(logs: seq<AuditLog>, action: Option<string>, day: LocalDate, e: AuditLog, stamped: LocalDateTime)
    requires e.timestamp == AuditTimestamp(stamped) && 1 <= stamped.date.year <= 9999
    ensures e in FilteredAuditLogs(logs, action, Some(day)) <==> e in logs && ActionMatches(action, e) && stamped.date == day
  {
    TimestampOnDay(day, stamped);
  }

  class AuditLogController {
    const repository: AuditLogRepository
    /** auditLogList: everything last read from the audit file. */
    var auditLogList: seq<AuditLog>
    /** The entries the table shows. */
    var tableItems: seq<AuditLog>
    /** The values of the action combo box and of the date picker. */
    var selectedAction: Option<string>
    var selectedDate: Option<LocalDate>

    /** initialize: the combo box starts on "ALL", no day is picked, nothing is loaded yet. */
    constructor (repository: AuditLogRepository)
      ensures this.repository == repository
      ensures auditLogList == [] && tableItems == []
      ensures selectedAction == Some(AllActions) && selectedDate == None
    {
      this.repository := repository;
      auditLogList := [];
      tableItems := [];
      selectedAction := Some(AllActions);
      selectedDate := None;
    }

    /**
     * loadAuditLogs, once its timeline fires: the list and the table both become
     * what `readAuditLogs` returned; the ClassCastException of a file that holds
     * no list leaves them as they were.
     */
    method LoadAuditLogs() returns (thrown: Option<Exception>)
      requires !repository.loggedInProgress
      modifies this`auditLogList, this`tableItems, repository`loggedInProgress
      ensures !repository.loggedInProgress
      ensures ReadInternal(repository.file).Ok? ==>
        thrown == None && auditLogList == ReadInternal(repository.file).value && tableItems == auditLogList
      ensures ReadInternal(repository.file).Err? ==>
        thrown == Some(ClassCastException) && auditLogList == old(auditLogList) && tableItems == old(tableItems)
    {
      var logs := repository.ReadAuditLogs();
      if logs.Err? {
        return Some(logs.error);
      }
      auditLogList := logs.value;
      tableItems := auditLogList;
      thrown := None;
    }

    /** filterAuditLogs: the table shows the loaded entries that pass both filters. */
    method FilterAuditLogs()
      modifies this`tableItems
      ensures tableItems == FilteredAuditLogs(auditLogList, selectedAction, selectedDate)
    {
      tableItems := FilteredAuditLogs(auditLogList, selectedAction, selectedDate);
    }

    /** The combo box's action handler: a new action is picked and the table is filtered again. */
    method PickAction(action: Option<string>)
      modifies this`selectedAction, this`tableItems
      ensures selectedAction == action
      ensures tableItems == FilteredAuditLogs(auditLogList, action, selectedDate)
    {
      selectedAction := action;
      FilterAuditLogs();
    }

    /** The date picker's action handler: a new day (or none) is picked and the table is filtered again. */
    method PickDate(date: Option<LocalDate>)
      modifies this`selectedDate, this`tableItems
      ensures selectedDate == date
      ensures tableItems == FilteredAuditLogs(auditLogList, selectedAction, date)
    {
      selectedDate := date;
      FilterAuditLogs();
    }
  }
}
