/**
 * controller/EditClientController.java: the new-client form. `addNewClient`
 * collects one message per empty field, in the order name, email, phone,
 * company; with no message and a confirmed dialog it saves one client and
 * clears the four fields.
 */
module EditClient {
  import opened Wrappers
  import opened JavaLang
  import opened Exceptions
  import opened Clients
  import opened AuditLogs
  import opened AuditLogStore
  import opened DateFormat
  import opened ClientRepository

  const NameMissing: string := "You must enter the client's full name!\n"
  const EmailMissing: string := "You must enter the client's email!\n"
  const PhoneMissing: string := "You must enter the client's phone number!\n"
  const CompanyMissing: string := "You must enter the client's company name!\n"

  /** The message for one field: its own text when the field is empty, nothing otherwise. */
  function MessageIf(empty: bool, message: string): string
  {
    if empty then message else ""
  }

  /** The error text the StringBuilder holds once all four fields were checked. */
  function ValidationMessages(name: string, email: string, phone: string, company: string): (messages: string)
    ensures messages == [] <==> name != [] && email != [] && phone != [] && company != []
  {
    MessageIf(name == [], NameMissing) + (MessageIf(email == [], EmailMissing)
      + (MessageIf(phone == [], PhoneMissing) + MessageIf(company == [], CompanyMissing)))
  }

  /**
   * Each empty field contributes its message at its place in the order name,
   * email, phone, company: the text starts with the first empty field's
   * message, and a single empty field yields exactly its own message.
   */
  lemma ValidationMessagesInOrder(name: string, email: string, phone: string, company: string)
    ensures name == [] ==> NameMissing <= ValidationMessages(name, email, phone, company)
    ensures name != [] && email == [] ==> EmailMissing <= ValidationMessages(name, email, phone, company)
    ensures name != [] && email != [] && phone == [] ==> PhoneMissing <= ValidationMessages(name, email, phone, company)
    ensures name != [] && email != [] && phone != [] && company == [] ==>
      ValidationMessages(name, email, phone, company) == CompanyMissing
  {
    var tail := MessageIf(company == [], CompanyMissing);
    var fromPhone := MessageIf(phone == [], PhoneMissing) + tail;
    var fromEmail := MessageIf(email == [], EmailMissing) + fromPhone;
    var m := ValidationMessages(name, email, phone, company);
    assert m == MessageIf(name == [], NameMissing) + fromEmail;
    if name == [] {
      assert m == NameMissing + fromEmail;
      PrefixOfAppend(NameMissing, fromEmail);
    } else {
      assert m == fromEmail;
      if email == [] {
        assert m == EmailMissing + fromPhone;
        PrefixOfAppend(EmailMissing, fromPhone);
      } else {
        assert m == fromPhone;
        if phone == [] {
          assert m == PhoneMissing + tail;
          PrefixOfAppend(PhoneMissing, tail);
        } else {
          assert m == tail;
        }
      }
    }
  }

  lemma AppendFour(a: string, b: string, c: string, d: string)
    ensures ((a + b) + c) + d == a + (b + (c + d))
  {
  }

  lemma PrefixOfAppend(a: string, b: string)
    ensures a <= a + b
  {
  }

  /** The client `addNewClient` constructs as written: phone and company go to each other's parameter. */
  function ClientAsWritten(name: string, email: string, phone: string, company: string): Client
  {
    NewClient(name, email, company, phone)
  }

  /** As written, the stored phone is the entered company and the stored company the entered phone. */
  lemma AsWrittenSwapsPhoneAndCompany(name: string, email: string, phone: string, company: string)
    ensures ClientAsWritten(name, email, phone, company).phone == company
    ensures ClientAsWritten(name, email, phone, company).company == phone
    ensures phone != company ==> ClientAsWritten(name, email, phone, company) != EnteredClient(name, email, phone, company)
  {
  }

  /** The client the form is meant to add: every entered value in its own attribute. */
  function EnteredClient(name: string, email: string, phone: string, company: string): (c: Client)
    ensures c.id == 0
    ensures c.name == name && c.email == email && c.phone == phone && c.company == company
    ensures ClientToString(c) == name
  {
    NewClient(name, email, phone, company)
  }

  /** What a click on the add button ends in. */
  datatype AddOutcome =
    | Invalid(messages: string)   // the error alert with the collected messages
    | Cancelled                   // the confirmation was not OK
    | Added(entry: AuditLog)      // saved, and the ADD entry handed to the audit file
    | Failed(error: Exception)    // an exception left the handler

  class EditClientController {
    /** The client repository `addNewClient` saves through. */
    const repository: ClientDatabaseRepository
    var nameText: string
    var emailText: string
    var phoneText: string
    var companyText: string

    constructor (repository: ClientDatabaseRepository)
      ensures this.repository == repository
      ensures nameText == [] && emailText == [] && phoneText == [] && companyText == []
    {
      this.repository := repository;
      nameText, emailText, phoneText, companyText := [], [], [], [];
    }

    /** The validation part of addNewClient: one append per empty field. */
    method CollectMessages() returns (errorMessages: string)
      ensures errorMessages == ValidationMessages(nameText, emailText, phoneText, companyText)
    {
      errorMessages := "";
      if nameText == [] {
        errorMessages := errorMessages + NameMissing;
      }
      assert errorMessages == MessageIf(nameText == [], NameMissing);
      ghost var afterName := errorMessages;
      if emailText == [] {
        errorMessages := errorMessages + EmailMissing;
      }
      assert errorMessages == afterName + MessageIf(emailText == [], EmailMissing);
      ghost var afterEmail := errorMessages;
      if phoneText == [] {
        errorMessages := errorMessages + PhoneMissing;
      }
      assert errorMessages == afterEmail + MessageIf(phoneText == [], PhoneMissing);
      ghost var afterPhone := errorMessages;
      if companyText == [] {
        errorMessages := errorMessages + CompanyMissing;
      }
      assert errorMessages == afterPhone + MessageIf(companyText == [], CompanyMissing);
      AppendFour(MessageIf(nameText == [], NameMissing), MessageIf(emailText == [], EmailMissing),
        MessageIf(phoneText == [], PhoneMissing), MessageIf(companyText == [], CompanyMissing));
    }

    /**
     * addNewClient: invalid input saves nothing; a confirmed valid form saves
     * exactly the entered client and then clears the four fields; an exception
     * from `save` leaves the fields as they are.
     */
    method AddNewClient(confirmed: bool, key: Long, executeFails: bool, outcome: WriteOutcome, now: LocalDateTime)
      returns (r: AddOutcome)
      requires !repository.audit.loggedInProgress
      modifies this, repository`rows, repository.audit
      ensures !repository.audit.loggedInProgress
      ensures var messages := ValidationMessages(old(nameText), old(emailText), old(phoneText), old(companyText));
        messages != [] ==> r == Invalid(messages)
      ensures !r.Added? && !(r.Failed? && r.error != RepositoryAccessException) ==>
        repository.rows == old(repository.rows) && repository.audit.file == old(repository.audit.file)
      ensures !r.Added? ==>
        nameText == old(nameText) && emailText == old(emailText) && phoneText == old(phoneText) && companyText == old(companyText)
      ensures ValidationMessages(old(nameText), old(emailText), old(phoneText), old(companyText)) == [] && !confirmed ==>
        r == Cancelled
      ensures ValidationMessages(old(nameText), old(emailText), old(phoneText), old(companyText)) == [] && confirmed ==>
        var client := EnteredClient(old(nameText), old(emailText), old(phoneText), old(companyText));
        (executeFails ==> r == Failed(RepositoryAccessException))
        && (!executeFails ==> repository.rows == old(repository.rows) + [client.(id := key)])
        && (!executeFails ==> var entry := EntryFor(old(repository.audit.file), repository.session.loggedInUserId,
              repository.session.isAdmin, ActionAdd, EntityClient, NotApplicable, client.name, AuditTimestamp(now));
            (entry.Ok? ==> r == Added(entry.value)) && (entry.Err? ==> r == Failed(entry.error)))
      ensures r.Added? ==> nameText == [] && emailText == [] && phoneText == [] && companyText == []
      ensures r.Added? ==> repository.audit.file == Appended(old(repository.audit.file), r.entry, outcome)
    {
      var errorMessages := CollectMessages();
      if errorMessages != [] {
        return Invalid(errorMessages);
      }
      if !confirmed {
        return Cancelled;
      }
      var client := EnteredClient(nameText, emailText, phoneText, companyText);
      var saved := repository.Save(client, key, executeFails, outcome, now);
      if saved.Err? {
        return Failed(saved.error);
      }
      nameText, emailText, phoneText, companyText := [], [], [], [];
      r := Added(saved.value);
    }
  }
}
