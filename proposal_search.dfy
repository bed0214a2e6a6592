/**
 * controller/ProposalSearchController.java: the proposal search and the
 * delete button of the search screen.
 *
 * `filterProposals` narrows all stored proposals in four steps: a non-admin
 * sees only their own proposals, then a title text, a status choice and a
 * client name each narrow the list when given. The first three are stream
 * filters; the client step is a loop that looks every remaining proposal's
 * client up.
 */
module ProposalSearch {
  import opened Wrappers
  import opened JavaLang
  import opened Exceptions
  import opened Streams
  import opened Clients
  import opened Proposals
  import opened AuditLogs
  import opened AuditLogStore
  import opened DateFormat
  import opened Session
  import opened ClientRepository
  import opened ProposalRepository

  /** The items of the status combo box. */
  const StatusChoices: seq<string> := ["Pending", "Approved", "Rejected"]

  // ---------------------------------------------------------------------------
  // The criteria, one per step

  /** The owner step: `proposal.getUserId() == currentUserId` for a non-admin. */
  predicate OwnerMatches(row: ProposalRow, isAdmin: bool, currentUserId: Option<Long>)
  {
    isAdmin || (currentUserId.Some? && row.userId == currentUserId.value)
  }

  /** The title step: the title contains the typed text ignoring case. */
  predicate TitleMatches(row: ProposalRow, idea: string)
  {
    ContainsIgnoringCase(row.title, idea)
  }

  /** The status step: no status chosen, or the status's name equals the choice ignoring case. */
  predicate StatusMatches(row: ProposalRow, status: Option<string>)
  {
    status.None? || status.value == [] || EqualsIgnoreCase(StatusName(row.status), status.value)
  }

  /** The client step: the proposal's client is found and its name contains the trimmed text ignoring case. */
  predicate ClientMatches(row: ProposalRow, clientName: string, clients: seq<Client>)
  {
    FindClientById(clients, row.clientId).Ok? && ContainsIgnoringCase(FindClientById(clients, row.clientId).value.name, clientName)
  }

  function OwnerFilter(isAdmin: bool, currentUserId: Option<Long>): ProposalRow -> bool
  {
    row => OwnerMatches(row, isAdmin, currentUserId)
  }

  function TitleFilter(idea: string): ProposalRow -> bool
  {
    row => TitleMatches(row, idea)
  }

  function StatusFilter(status: Option<string>): ProposalRow -> bool
  {
    row => StatusMatches(row, status)
  }

  function ClientFilter(clientName: string, clients: seq<Client>): ProposalRow -> bool
  {
    row => ClientMatches(row, clientName, clients)
  }

  // ---------------------------------------------------------------------------
  // The steps as the controller runs them

  /**
   * The owner step. Comparing the `long` user id with the boxed current id
   * unboxes it, so a non-admin without an id throws as soon as one proposal
   * is compared.
   */
  function OwnerStep(list: seq<ProposalRow>, isAdmin: bool, currentUserId: Option<Long>): (r: Result<seq<ProposalRow>, Exception>)
    ensures isAdmin ==> r == Ok(list)
    ensures !isAdmin && currentUserId.None? ==> r == (if list == [] then Ok([]) else Err(NullPointerException))
    ensures !isAdmin && currentUserId.Some? ==>
      r.Ok? && forall row :: row in r.value <==> row in list && row.userId == currentUserId.value
  {
    if isAdmin then Ok(list)
    else if currentUserId.None? then (if list == [] then Ok([]) else Err(NullPointerException))
    else Ok(Filter(list, OwnerFilter(isAdmin, currentUserId)))
  }

  /** The title step: the typed text is not trimmed; an empty text leaves the list as it is. */
  function TitleStep(list: seq<ProposalRow>, idea: string): seq<ProposalRow>
  {
    if idea == [] then list else Filter(list, TitleFilter(idea))
  }

  /** The status step: a null or empty choice leaves the list as it is. */
  function StatusStep(list: seq<ProposalRow>, status: Option<string>): seq<ProposalRow>
  {
    if status.None? || status.value == [] then list else Filter(list, StatusFilter(status))
  }

  /**
   * The client loop over the proposals in order: a proposal whose client cannot
   * be found ends the search with ProposalSearchException; the others are kept
   * when the client's name contains the text.
   */
  function ClientStep(list: seq<ProposalRow>, clientName: string, clients: seq<Client>): Result<seq<ProposalRow>, Exception>
  {
    if list == [] then Ok([])
    else
      match ClientStep(list[..|list| - 1], clientName, clients)
      case Err(e) => Err(e)
      case Ok(kept) =>
        var row := list[|list| - 1];
        match FindClientById(clients, row.clientId)
        case Err(_) => Err(ProposalSearchException)
        case Ok(client) => Ok(kept + (if ContainsIgnoringCase(client.name, clientName) then [row] else []))
  }

  /** filterProposals over the result of `findAll()`. */
  function SearchProposals(all: seq<ProposalRow>, isAdmin: bool, currentUserId: Option<Long>, idea: string,
                           status: Option<string>, clientText: string, clients: seq<Client>): Result<seq<ProposalRow>, Exception>
  {
    match OwnerStep(all, isAdmin, currentUserId)
    case Err(e) => Err(e)
    case Ok(owned) =>
      ClientTextStep(StatusStep(TitleStep(owned, idea), status), clientText, clients)
  }

  // ---------------------------------------------------------------------------
  // What the search means

  /**
   * The client loop fails exactly when some proposal in its input has a client
   * that cannot be found; otherwise it is the filter on the client criterion.
   */
  lemma {:induction false} ClientStepIsFilter(list: seq<ProposalRow>, clientName: string, clients: seq<Client>)
    ensures ClientStep(list, clientName, clients).Err? <==>
      exists i :: 0 <= i < |list| && FindClientById(clients, list[i].clientId).Err?
    ensures ClientStep(list, clientName, clients).Err? ==> ClientStep(list, clientName, clients).error == ProposalSearchException
    ensures ClientStep(list, clientName, clients).Ok? ==>
      ClientStep(list, clientName, clients).value == Filter(list, ClientFilter(clientName, clients))
    decreases |list|
  {
    if list != [] {
      var front, row := list[..|list| - 1], list[|list| - 1];
      assert list == front + [row];
      ClientStepIsFilter(front, clientName, clients);
      FilterSnoc(front, row, ClientFilter(clientName, clients));
      if exists i :: 0 <= i < |front| && FindClientById(clients, front[i].clientId).Err? {
        var i :| 0 <= i < |front| && FindClientById(clients, front[i].clientId).Err?;
        assert list[i] == front[i];
      }
      if exists i :: 0 <= i < |list| && FindClientById(clients, list[i].clientId).Err? {
        var i :| 0 <= i < |list| && FindClientById(clients, list[i].clientId).Err?;
        if i < |front| {
          assert front[i] == list[i];
        }
      }
    }
  }

  /** The owner step, when it does not throw, is the filter on the owner criterion. */
  lemma OwnerStepIsFilter(all: seq<ProposalRow>, isAdmin: bool, currentUserId: Option<Long>)
    requires OwnerStep(all, isAdmin, currentUserId).Ok?
    ensures OwnerStep(all, isAdmin, currentUserId).value == Filter(all, OwnerFilter(isAdmin, currentUserId))
  {
    if isAdmin {
      FilterKeepsAll(all, OwnerFilter(isAdmin, currentUserId));
    } else if currentUserId.None? {
      assert all == [];
    }
  }

  /** The title step is the title filter: an empty text is contained in every title. */
  lemma TitleStepIsFilter(list: seq<ProposalRow>, idea: string)
    ensures TitleStep(list, idea) == Filter(list, TitleFilter(idea))
  {
    if idea == [] {
      forall row | row in list
        ensures TitleFilter(idea)(row)
      {
        ContainsEmpty(row.title);
      }
      FilterKeepsAll(list, TitleFilter(idea));
    }
  }

  /** The status step is the status filter. */
  lemma StatusStepIsFilter(list: seq<ProposalRow>, status: Option<string>)
    ensures StatusStep(list, status) == Filter(list, StatusFilter(status))
  {
    if status.None? || status.value == [] {
      FilterKeepsAll(list, StatusFilter(status));
    }
  }

  /** The client criterion as the search applies it: skipped for a blank text, which is trimmed first. */
  predicate ClientTextMatches(row: ProposalRow, clientText: string, clients: seq<Client>)
  {
    Trim(clientText) == [] || ClientMatches(row, Trim(clientText), clients)
  }

  function ClientTextFilter(clientText: string, clients: seq<Client>): ProposalRow -> bool
  {
    row => ClientTextMatches(row, clientText, clients)
  }

  /** The last step of filterProposals. */
  function ClientTextStep(list: seq<ProposalRow>, clientText: string, clients: seq<Client>): Result<seq<ProposalRow>, Exception>
  {
    if Trim(clientText) == [] then Ok(list) else ClientStep(list, Trim(clientText), clients)
  }

  /** The last step, when it does not throw, is the filter on the client criterion. */
  lemma ClientTextStepIsFilter(list: seq<ProposalRow>, clientText: string, clients: seq<Client>)
    requires ClientTextStep(list, clientText, clients).Ok?
    ensures ClientTextStep(list, clientText, clients).value == Filter(list, ClientTextFilter(clientText, clients))
  {
    if Trim(clientText) == [] {
      FilterKeepsAll(list, ClientTextFilter(clientText, clients));
    } else {
      ClientStepIsFilter(list, Trim(clientText), clients);
      FilterAgree(list, ClientFilter(Trim(clientText), clients), ClientTextFilter(clientText, clients));
    }
  }

  /** The whole search criterion: all four steps at once. */
  predicate SearchMatches(row: ProposalRow, isAdmin: bool, currentUserId: Option<Long>, idea: string,
                          status: Option<string>, clientText: string, clients: seq<Client>)
  {
    OwnerMatches(row, isAdmin, currentUserId) && TitleMatches(row, idea) && StatusMatches(row, status)
    && ClientTextMatches(row, clientText, clients)
  }

  function SearchFilter(isAdmin: bool, currentUserId: Option<Long>, idea: string,
                        status: Option<string>, clientText: string, clients: seq<Client>): ProposalRow -> bool
  {
    row => SearchMatches(row, isAdmin, currentUserId, idea, status, clientText, clients)
  }

  /**
   * A search that succeeds shows exactly the stored proposals that meet all
   * four criteria, in storage order.
   */
  lemma SearchIsOneFilter(all: seq<ProposalRow>, isAdmin: bool, currentUserId: Option<Long>, idea: string,
                          status: Option<string>, clientText: string, clients: seq<Client>)
    requires SearchProposals(all, isAdmin, currentUserId, idea, status, clientText, clients).Ok?
    ensures SearchProposals(all, isAdmin, currentUserId, idea, status, clientText, clients).value
      == Filter(all, SearchFilter(isAdmin, currentUserId, idea, status, clientText, clients))
    ensures IsSubsequence(SearchProposals(all, isAdmin, currentUserId, idea, status, clientText, clients).value, all)
  {
    var owner, title, byStatus := OwnerFilter(isAdmin, currentUserId), TitleFilter(idea), StatusFilter(status);
    var client := ClientTextFilter(clientText, clients);
    OwnerStepIsFilter(all, isAdmin, currentUserId);
    var owned := OwnerStep(all, isAdmin, currentUserId).value;
    TitleStepIsFilter(owned, idea);
    FilterFilter(all, owner, title);
    StatusStepIsFilter(TitleStep(owned, idea), status);
    FilterFilter(all, Both(owner, title), byStatus);
    var s3 := StatusStep(TitleStep(owned, idea), status);
    assert SearchProposals(all, isAdmin, currentUserId, idea, status, clientText, clients) == ClientTextStep(s3, clientText, clients);
    ClientTextStepIsFilter(s3, clientText, clients);
    FilterFilter(all, Both(Both(owner, title), byStatus), client);
    var keep := SearchFilter(isAdmin, currentUserId, idea, status, clientText, clients);
    FilterAgree(all, Both(Both(Both(owner, title), byStatus), client), keep);
    FilterIsSubsequence(all, keep);
  }

  /**
   * The search fails only for a non-admin without a user id while something is
   * stored, or for a client name when some proposal that reached the client
   * step has a client that cannot be found.
   */
  lemma SearchFailures(all: seq<ProposalRow>, isAdmin: bool, currentUserId: Option<Long>, idea: string,
                       status: Option<string>, clientText: string, clients: seq<Client>)
    ensures var r := SearchProposals(all, isAdmin, currentUserId, idea, status, clientText, clients);
      r.Err? ==> ((r.error == NullPointerException && !isAdmin && currentUserId.None? && all != [])
        || (r.error == ProposalSearchException && Trim(clientText) != []
          && exists i :: 0 <= i < |all| && FindClientById(clients, all[i].clientId).Err?))
  {
    var r := SearchProposals(all, isAdmin, currentUserId, idea, status, clientText, clients);
    if r.Err? && OwnerStep(all, isAdmin, currentUserId).Ok? {
      var owned := OwnerStep(all, isAdmin, currentUserId).value;
      var byStatus := StatusStep(TitleStep(owned, idea), status);
      ClientStepIsFilter(byStatus, Trim(clientText), clients);
      var i :| 0 <= i < |byStatus| && FindClientById(clients, byStatus[i].clientId).Err?;
      assert byStatus[i] in byStatus;
      assert byStatus[i] in all;
      var j :| 0 <= j < |all| && all[j] == byStatus[i];
    }
  }

  /** The combo box's display names select their statuses: "Pending" keeps exactly the PENDING proposals, and so on. */
  lemma StatusChoiceSelectsThatStatus(row: ProposalRow, k: nat)
    requires k < |StatusChoices|
    ensures StatusMatches(row, Some(StatusChoices[k])) <==> row.status == [PENDING, APPROVED, REJECTED][k]
  {
    var choice := StatusChoices[k];
    var name := StatusName(row.status);
    if row.status == [PENDING, APPROVED, REJECTED][k] {
      assert forall i :: 0 <= i < |name| ==> CharEqualsIgnoreCase(name[i], choice[i]);
    } else {
      assert |name| != |choice| || !CharEqualsIgnoreCase(name[0], choice[0]);
    }
  }

  // ---------------------------------------------------------------------------
  // The controller

  /** What a click on the delete button ends in. */
  datatype DeleteOutcome =
    | NoSelection                // "No Proposal Selected"
    | AccessDenied               // "Access Denied"
    | Cancelled                  // the confirmation was not OK
    | Removed(entry: AuditLog)   // deleted, and the entry handed to the audit file
    | Failed(error: Exception)   // an exception left the handler

  /** `items.remove(selected)`: the selected proposal object, at its position, leaves the table. */
  function RemoveAt(items: seq<ProposalRow>, k: nat): (r: seq<ProposalRow>)
    requires k < |items|
    ensures |r| == |items| - 1
    ensures forall i :: 0 <= i < k ==> r[i] == items[i]
    ensures forall i :: k <= i < |r| ==> r[i] == items[i + 1]
  {
    items[..k] + items[k + 1..]
  }

  class ProposalSearchController {
    /**
     * The proposal repository, whose client repository reads the same CLIENTS
     * table; its session is the one SessionManager the screen also consults.
     */
    const proposals: ProposalDatabaseRepository
    /** The items of the proposal table. */
    var tableItems: seq<ProposalRow>

    constructor (proposals: ProposalDatabaseRepository)
      ensures this.proposals == proposals && tableItems == []
    {
      this.proposals := proposals;
      tableItems := [];
    }

    /** The client loop of filterProposals. */
    method FilterByClientName(list: seq<ProposalRow>, clientName: string) returns (r: Result<seq<ProposalRow>, Exception>)
      ensures r == ClientStep(list, clientName, proposals.clients.rows)
    {
      var filteredProposals: seq<ProposalRow> := [];
      var i := 0;
      while i < |list|
        invariant 0 <= i <= |list|
        invariant ClientStep(list[..i], clientName, proposals.clients.rows) == Ok(filteredProposals)
      {
        ghost var prefix := list[..i + 1];
        assert prefix[..|prefix| - 1] == list[..i] && prefix[|prefix| - 1] == list[i];
        var client := proposals.clients.FindById(list[i].clientId);
        if client.Err? {
          ClientStepIsFilter(list, clientName, proposals.clients.rows);
          return Err(ProposalSearchException);
        }
        if ContainsIgnoringCase(client.value.name, clientName) {
          filteredProposals := filteredProposals + [list[i]];
        } else {
          assert filteredProposals + [] == filteredProposals;
        }
        assert ClientStep(prefix, clientName, proposals.clients.rows) == Ok(filteredProposals);
        i := i + 1;
      }
      assert list[..i] == list;
      r := Ok(filteredProposals);
    }

    /**
     * filterProposals: the table shows the search result; an exception leaves
     * it as it was.
     */
    method FilterProposals(idea: string, status: Option<string>, clientText: string) returns (thrown: Option<Exception>)
      modifies this`tableItems
      ensures var r := SearchProposals(proposals.rows, proposals.session.isAdmin, proposals.session.loggedInUserId,
        idea, status, clientText, proposals.clients.rows);
        (r.Ok? ==> thrown == None && tableItems == r.value)
        && (r.Err? ==> thrown == Some(r.error) && tableItems == old(tableItems))
    {
      var currentUserId := proposals.session.loggedInUserId;
      var isAdmin := proposals.session.isAdmin;
      var proposalList := proposals.rows;
      var owned := OwnerStep(proposalList, isAdmin, currentUserId);
      if owned.Err? {
        return Some(owned.error);
      }
      proposalList := owned.value;
      if idea != [] {
        proposalList := Filter(proposalList, TitleFilter(idea));
      }
      if status.Some? && status.value != [] {
        proposalList := Filter(proposalList, StatusFilter(status));
      }
      var clientName := Trim(clientText);
      if clientName != [] {
        var filtered := FilterByClientName(proposalList, clientName);
        if filtered.Err? {
          return Some(filtered.error);
        }
        proposalList := filtered.value;
      }
      tableItems := proposalList;
      thrown := None;
    }

    /** A non-admin may delete only their own proposals; a non-admin without an id fails unboxing it. */
    predicate MayDelete(row: ProposalRow)
      reads proposals.session
    {
      proposals.session.isAdmin
      || (proposals.session.loggedInUserId.Some? && row.userId == proposals.session.loggedInUserId.value)
    }

    /**
     * handleDeleteProposal: refused with no repository call when nothing is
     * selected or a non-admin selected someone else's proposal; otherwise,
     * once confirmed, `deleteProposal` runs and the proposal leaves the table.
     */
    method HandleDeleteProposal(selected: Option<nat>, confirmed: bool, outcome: WriteOutcome, now: LocalDateTime)
      returns (r: DeleteOutcome)
      requires selected.Some? ==> selected.value < |tableItems|
      requires !proposals.audit.loggedInProgress
      modifies this`tableItems, proposals`rows, proposals.audit
      ensures !proposals.audit.loggedInProgress
      ensures selected.None? ==> r == NoSelection
      ensures selected.Some? && !proposals.session.isAdmin && proposals.session.loggedInUserId.None? ==>
        r == Failed(NullPointerException)
      ensures selected.Some? && proposals.session.loggedInUserId.Some? && !MayDelete(old(tableItems)[selected.value]) ==>
        r == AccessDenied
      ensures selected.Some? && MayDelete(old(tableItems)[selected.value]) && !confirmed ==> r == Cancelled
      ensures !(r.Removed? || (r.Failed? && r.error != NullPointerException)) ==>
        tableItems == old(tableItems) && proposals.rows == old(proposals.rows)
        && proposals.audit.file == old(proposals.audit.file)
      ensures selected.Some? && MayDelete(old(tableItems)[selected.value]) && confirmed ==>
        var entry := DeletionEntry(old(proposals.rows), old(tableItems)[selected.value].id, old(proposals.audit.file),
          proposals.session.loggedInUserId, proposals.session.isAdmin, AuditTimestamp(now));
        (entry.Ok? ==> r == Removed(entry.value) && tableItems == RemoveAt(old(tableItems), selected.value))
        && (entry.Err? ==> r == Failed(entry.error) && tableItems == old(tableItems))
      ensures selected.Some? && MayDelete(old(tableItems)[selected.value]) && confirmed ==>
        var id := old(tableItems)[selected.value].id;
        proposals.rows == (if FindProposalById(old(proposals.rows), id).Ok? then WithoutId(old(proposals.rows), id)
          else old(proposals.rows))
      ensures r.Failed? ==> proposals.audit.file == old(proposals.audit.file)
      ensures r.Removed? ==>
        proposals.rows == WithoutId(old(proposals.rows), old(tableItems)[selected.value].id)
        && proposals.audit.file == Appended(old(proposals.audit.file), r.entry, outcome)
    {
      if selected.None? {
        return NoSelection;
      }
      var selectedProposal := tableItems[selected.value];
      var currentUserId := proposals.session.loggedInUserId;
      var isAdmin := proposals.session.isAdmin;
      if !isAdmin && currentUserId.None? {
        return Failed(NullPointerException);
      }
      if !isAdmin && selectedProposal.userId != currentUserId.value {
        return AccessDenied;
      }
      if !confirmed {
        return Cancelled;
      }
      var deleted := proposals.DeleteProposal(selectedProposal.id, outcome, now);
      if deleted.Err? {
        return Failed(deleted.error);
      }
      tableItems := RemoveAt(tableItems, selected.value);
      r := Removed(deleted.value);
    }
  }
}
