/**
 * controller/EditProposalController.java: one screen for both a new proposal
 * (no current proposal) and an edited one. Saving a valid, confirmed form
 * either builds a PENDING proposal for the logged-in user and saves it, or
 * writes the title, description and client into the current proposal and
 * updates it.
 */
module EditProposal {
  import opened Wrappers
  import opened JavaLang
  import opened Exceptions
  import opened Streams
  import opened DateFormat
  import opened Clients
  import opened Proposals
  import opened AuditLogs
  import opened AuditLogStore
  import opened ProposalRepository

  /** The loop condition of loadProposalForEditing: the combo item with the proposal's client id. */
  function HasClientId(clientId: Long): Client -> bool
  {
    (c: Client) => c.id == clientId
  }

  /** The proposal a confirmed new-mode save builds: the next id, PENDING, the chosen client, the user. */
  function NewProposalData(rows: seq<ProposalRow>, title: string, description: string, clientId: Long, userId: Long)
    : (p: ProposalData)
    ensures p.status == Some(PENDING) && p.title == title && p.description == description
    ensures p.clientId == clientId && p.userId == userId
    ensures MaxIdColumn(rows) < MaxLong ==> FindProposalById(rows, p.id).Err?
  {
    ProposalData(NextProposalId(rows), title, description, Some(PENDING), clientId, userId)
  }

  /**
   * The stored row depends only on the generated key, not on the id the
   * Builder received: the INSERT has no id column.
   */
  lemma StoredRowIgnoresBuilderId(rows: seq<ProposalRow>, other: seq<ProposalRow>, title: string, description: string,
                                  clientId: Long, userId: Long, key: Long)
    ensures RowFor(NewProposalData(rows, title, description, clientId, userId), key)
         == RowFor(NewProposalData(other, title, description, clientId, userId), key)
    ensures RowFor(NewProposalData(rows, title, description, clientId, userId), key)
         == ProposalRow(key, title, description, PENDING, clientId, userId)
  {
  }

  /** What a click on the save button ends in. */
  datatype SaveOutcome =
    | Invalid                            // "All fields must be filled!"
    | Cancelled                          // the confirmation was not OK
    | Created(entry: AuditLog)           // a new proposal saved, its ADD entry handed to the audit file
    | Edited(change: Option<AuditLog>)    // the current proposal updated, with its UPDATE entry if anything changed
    | Failed(error: Exception)           // an exception left the handler

  class EditProposalController {
    /** The repository the screen saves through; its CLIENTS table fills the combo box. */
    const proposals: ProposalDatabaseRepository
    /** The combo box's items and its value. */
    var comboItems: seq<Client>
    var selectedClient: Option<Client>
    /** The two text fields. */
    var titleText: string
    var descriptionText: string
    /** The proposal being edited; null in new-proposal mode. */
    var currentProposal: Proposal?
    /** The logged-in user's id, a boxed Long that may be null. */
    var currentUserId: Option<Long>

    constructor (proposals: ProposalDatabaseRepository)
      ensures this.proposals == proposals
      ensures comboItems == [] && selectedClient == None && titleText == [] && descriptionText == []
      ensures currentProposal == null && currentUserId == None
    {
      this.proposals := proposals;
      comboItems := [];
      selectedClient := None;
      titleText := [];
      descriptionText := [];
      currentProposal := null;
      currentUserId := None;
    }

    /** setCurrentUser. */
    method SetCurrentUser(userId: Option<Long>)
      modifies this`currentUserId
      ensures currentUserId == userId
    {
      currentUserId := userId;
    }

    /** initialize: every stored client is appended to the combo box's items. */
    method Initialize()
      modifies this`comboItems
      ensures comboItems == old(comboItems) + proposals.clients.rows
    {
      comboItems := comboItems + proposals.clients.rows;
    }

    /**
     * loadProposalForEditing: the proposal becomes current, its texts fill the
     * fields, and the first combo item with its client id is selected; with no
     * such item the previous selection stays.
     */
    method LoadProposalForEditing(proposal: Proposal)
      modifies this`currentProposal, this`titleText, this`descriptionText, this`selectedClient
      ensures currentProposal == proposal && titleText == proposal.title && descriptionText == proposal.description
      ensures var k := FirstIndex(comboItems, HasClientId(proposal.clientId));
        (k.Some? ==> selectedClient == Some(comboItems[k.value])) && (k.None? ==> selectedClient == old(selectedClient))
    {
      currentProposal := proposal;
      titleText := proposal.title;
      descriptionText := proposal.description;
      var i := 0;
      while i < |comboItems|
        invariant 0 <= i <= |comboItems|
        invariant forall j :: 0 <= j < i ==> comboItems[j].id != proposal.clientId
        invariant selectedClient == old(selectedClient)
      {
        if comboItems[i].id == proposal.clientId {
          selectedClient := Some(comboItems[i]);
          assert HasClientId(proposal.clientId)(comboItems[i]);
          return;
        }
        i := i + 1;
      }
    }

    /** loadNewProposalMode: no current proposal, empty fields, no client selected. */
    method LoadNewProposalMode()
      modifies this`currentProposal, this`titleText, this`descriptionText, this`selectedClient
      ensures currentProposal == null && titleText == [] && descriptionText == [] && selectedClient == None
    {
      currentProposal := null;
      titleText := [];
      descriptionText := [];
      selectedClient := None;
    }

    /**
     * saveProposal. An empty title or description or no client selected saves
     * nothing, and neither does a dialog that is not confirmed. In new mode a
     * null user id throws while the Builder is filled, before anything is
     * stored; otherwise the built proposal is saved under the generated key.
     * In edit mode the current proposal takes the three values and is updated.
     */
    method SaveProposal(confirmed: bool, key: Long, executeFails: bool, outcome: WriteOutcome, now: LocalDateTime)
      returns (r: SaveOutcome)
      requires !proposals.audit.loggedInProgress
      modifies proposals`rows, proposals.audit, currentProposal
      ensures !proposals.audit.loggedInProgress
      ensures r == Invalid <==> titleText == [] || descriptionText == [] || selectedClient.None?
      ensures r == Cancelled <==> !(titleText == [] || descriptionText == [] || selectedClient.None?) && !confirmed
      ensures r.Invalid? || r.Cancelled? ==>
        proposals.rows == old(proposals.rows) && proposals.audit.file == old(proposals.audit.file)
      ensures r.Invalid? || r.Cancelled? || currentProposal == null ==>
        currentProposal == null || currentProposal.Data() == old(currentProposal.Data())
      ensures !r.Invalid? && !r.Cancelled? && currentProposal == null && currentUserId.None? ==>
        r == Failed(NullPointerException)
        && proposals.rows == old(proposals.rows) && proposals.audit.file == old(proposals.audit.file)
      ensures !r.Invalid? && !r.Cancelled? && currentProposal == null && currentUserId.Some? ==>
        var data := NewProposalData(old(proposals.rows), titleText, descriptionText, selectedClient.value.id,
          currentUserId.value);
        (executeFails ==> r == Failed(RepositoryAccessException) && proposals.rows == old(proposals.rows))
        && (!executeFails ==> proposals.rows == old(proposals.rows) + [RowFor(data, key)])
        && (!executeFails ==>
              var entry := EntryFor(old(proposals.audit.file), proposals.session.loggedInUserId,
                proposals.session.isAdmin, ActionAdd, EntityProposal, NotApplicable, StatusText(Some(PENDING)),
                AuditTimestamp(now));
              (entry.Ok? ==> r == Created(entry.value)) && (entry.Err? ==> r == Failed(entry.error)))
      ensures !r.Invalid? && !r.Cancelled? && currentProposal != null ==>
        currentProposal.Data() == old(currentProposal.Data()).(title := titleText, description := descriptionText,
          clientId := selectedClient.value.id)
      ensures !r.Invalid? && !r.Cancelled? && currentProposal != null ==>
        var id := currentProposal.id;
        (old(proposals.FindById(id)).Err? ==>
          r == Failed(RepositoryAccessException) && proposals.rows == old(proposals.rows))
        && (old(proposals.FindById(id)).Ok? ==>
              proposals.rows == WithEdits(old(proposals.rows), id, titleText, descriptionText, selectedClient.value.id)
              && var written := UpdateEntry(UpdateDiff(old(proposals.FindById(id)).value, currentProposal.Data(),
                   proposals.clients.rows), old(proposals.audit.file), proposals.session.loggedInUserId,
                   proposals.session.isAdmin, AuditTimestamp(now));
                 (written.Ok? ==> r == Edited(written.value)) && (written.Err? ==> r == Failed(written.error)))
      ensures r.Created? ==> proposals.audit.file == Appended(old(proposals.audit.file), r.entry, outcome)
      ensures r.Edited? && r.change.Some? ==>
        proposals.audit.file == Appended(old(proposals.audit.file), r.change.value, outcome)
      ensures r.Failed? || (r.Edited? && r.change.None?) ==> proposals.audit.file == old(proposals.audit.file)
    {
      if titleText == [] || descriptionText == [] || selectedClient.None? {
        return Invalid;
      }
      if !confirmed {
        return Cancelled;
      }
      if currentProposal == null {
        var builder := new Builder(Some(NextProposalId(proposals.rows)));
        var b := builder.WithTitle(titleText);
        b := b.WithDescription(descriptionText);
        b := b.WithStatus(Some(PENDING));
        b := b.WithClientId(selectedClient.value.id);
        if currentUserId.None? {
          return Failed(NullPointerException);
        }
        b := b.WithUserId(currentUserId.value);
        var built := b.Build();
        assert built.Ok?;
        var saved := proposals.Save(built.value, key, executeFails, outcome, now);
        if saved.Err? {
          return Failed(saved.error);
        }
        r := Created(saved.value);
      } else {
        currentProposal.SetTitle(titleText);
        currentProposal.SetDescription(descriptionText);
        currentProposal.SetClientId(selectedClient.value.id);
        var updated := proposals.Update(currentProposal, outcome, now);
        if updated.Err? {
          return Failed(updated.error);
        }
        r := Edited(updated.value);
      }
    }
  }
}
