/**
 * model/Proposal.java: a business proposal with mutable fields, the
 * approve/reject transitions it offers as an `Approver`, its Builder, and its
 * text form, which is the name of its status.
 */
module Proposals {
  import opened Wrappers
  import opened JavaLang
  import opened Exceptions

  /** enums.ProposalStatus. */
  datatype ProposalStatus = PENDING | APPROVED | REJECTED

  /** `name()`, which the enum also returns from `toString()`. */
  function StatusName(s: ProposalStatus): string
  {
    match s
    case PENDING => "PENDING"
    case APPROVED => "APPROVED"
    case REJECTED => "REJECTED"
  }

  /** `Enum.valueOf`: an exact, case-sensitive constant name; None where Java throws IllegalArgumentException. */
  function StatusValueOf(name: string): (r: Option<ProposalStatus>)
    ensures r.Some? ==> StatusName(r.value) == name
  {
    if name == "PENDING" then Some(PENDING)
    else if name == "APPROVED" then Some(APPROVED)
    else if name == "REJECTED" then Some(REJECTED)
    else None
  }

  /** `"" + status`: the constant's name, or "null" while no status is set. */
  function StatusText(s: Option<ProposalStatus>): string
  {
    if s.Some? then StatusName(s.value) else "null"
  }

  /** Every status text reads back as the status it was written from. */
  lemma StatusTextValueOf(s: Option<ProposalStatus>)
    ensures StatusValueOf(StatusText(s)) == s
  {
    if s.Some? {
      match s.value
      case PENDING =>
      case APPROVED =>
      case REJECTED =>
    }
  }

  /** Two proposals have the same text exactly when they have the same status. */
  lemma StatusTextInjective(a: Option<ProposalStatus>, b: Option<ProposalStatus>)
    ensures StatusText(a) == StatusText(b) <==> a == b
  {
    StatusTextValueOf(a);
    StatusTextValueOf(b);
  }

  /** The six fields of a proposal at one moment: `id` from `Entitiy`, a null status as None. */
  datatype ProposalData = ProposalData(
    id: Long,
    title: string,
    description: string,
    status: Option<ProposalStatus>,
    clientId: Long,
    userId: Long)

  class Proposal {
    var id: Long
    var title: string
    var description: string
    var status: Option<ProposalStatus>
    var clientId: Long
    var userId: Long

    function Data(): ProposalData
      reads this
    {
      ProposalData(id, title, description, status, clientId, userId)
    }

    /** The private constructor that only the Builder calls. */
    constructor (data: ProposalData)
      ensures Data() == data
    {
      id := data.id;
      title := data.title;
      description := data.description;
      status := data.status;
      clientId := data.clientId;
      userId := data.userId;
    }

    method SetTitle(title: string)
      modifies this
      ensures Data() == old(Data()).(title := title)
    {
      this.title := title;
    }

    method SetDescription(description: string)
      modifies this
      ensures Data() == old(Data()).(description := description)
    {
      this.description := description;
    }

    method SetStatus(status: Option<ProposalStatus>)
      modifies this
      ensures Data() == old(Data()).(status := status)
    {
      this.status := status;
    }

    method SetClientId(clientId: Long)
      modifies this
      ensures Data() == old(Data()).(clientId := clientId)
    {
      this.clientId := clientId;
    }

    method SetUserId(userId: Long)
      modifies this
      ensures Data() == old(Data()).(userId := userId)
    {
      this.userId := userId;
    }

    /** approveProposal: the status becomes APPROVED from any state; nothing else changes. */
    method ApproveProposal()
      modifies this
      ensures Data() == old(Data()).(status := Some(APPROVED))
    {
      status := Some(APPROVED);
    }

    /** rejectProposal: the status becomes REJECTED from any state; nothing else changes. */
    method RejectProposal()
      modifies this
      ensures Data() == old(Data()).(status := Some(REJECTED))
    {
      status := Some(REJECTED);
    }

    /** toString: the status text, which `Enum.valueOf` reads back as the status. */
    function ToString(): (s: string)
      reads this
      ensures StatusValueOf(s) == status
      ensures s == "null" <==> status.None?
    {
      StatusTextValueOf(status);
      StatusText(status)
    }
  }

  /** The values a Builder holds: a null id as None, an unset status as None. */
  datatype BuilderState = BuilderState(
    id: Option<Long>,
    title: string,
    description: string,
    status: Option<ProposalStatus>,
    clientId: Long,
    userId: Long)

  class Builder {
    var id: Option<Long>
    var title: string
    var description: string
    var status: Option<ProposalStatus>
    var clientId: Long
    var userId: Long

    function Configured(): BuilderState
      reads this
    {
      BuilderState(id, title, description, status, clientId, userId)
    }

    /** `new Builder()`: no id, no status, both ids of the references 0. */
    constructor Empty()
      ensures Configured() == BuilderState(None, "", "", None, 0, 0)
    {
      id := None;
      title := "";
      description := "";
      status := None;
      clientId := 0;
      userId := 0;
    }

    /** `new Builder(id)`, where the boxed id may itself be null. */
    constructor (id: Option<Long>)
      ensures Configured() == BuilderState(id, "", "", None, 0, 0)
    {
      this.id := id;
      title := "";
      description := "";
      status := None;
      clientId := 0;
      userId := 0;
    }

    method WithTitle(title: string) returns (b: Builder)
      modifies this
      ensures b == this && Configured() == old(Configured()).(title := title)
    {
      this.title := title;
      b := this;
    }

    method WithDescription(description: string) returns (b: Builder)
      modifies this
      ensures b == this && Configured() == old(Configured()).(description := description)
    {
      this.description := description;
      b := this;
    }

    method WithStatus(status: Option<ProposalStatus>) returns (b: Builder)
      modifies this
      ensures b == this && Configured() == old(Configured()).(status := status)
    {
      this.status := status;
      b := this;
    }

    method WithClientId(clientId: Long) returns (b: Builder)
      modifies this
      ensures b == this && Configured() == old(Configured()).(clientId := clientId)
    {
      this.clientId := clientId;
      b := this;
    }

    method WithUserId(userId: Long) returns (b: Builder)
      modifies this
      ensures b == this && Configured() == old(Configured()).(userId := userId)
    {
      this.userId := userId;
      b := this;
    }

    /**
     * build: a new proposal carrying exactly the configured values. The boxed
     * id is unboxed into the constructor's `long`, so a null id throws.
     */
    method Build() returns (r: Result<Proposal, Exception>)
      ensures id.None? <==> r.Err?
      ensures r.Err? ==> r.error == NullPointerException
      ensures r.Ok? ==> fresh(r.value)
      ensures r.Ok? ==> r.value.Data() == ProposalData(id.value, title, description, status, clientId, userId)
    {
      if id.None? {
        return Err(NullPointerException);
      }
      var p := new Proposal(ProposalData(id.value, title, description, status, clientId, userId));
      r := Ok(p);
    }
  }
}
