# BusinessProposalSystem audit trail, searches and forms — a Dafny model

This project models the core of BusinessProposalSystem, a JavaFX desktop application. In it, users log in, create, edit, approve, reject and delete business proposals, and keep a list of clients. Every change to a proposal or client is recorded in an audit log. The audit log is a serialized list kept in one file and shown in a filterable viewer.

The model has one Dafny module per source file:

| module | models |
|---|---|
| `AuditLogs` | the 8-field audit record and the id rule |
| `AuditLogStore` | `AuditLogRepository`: the file as an abstract state and the `loggedInProgress` flag |
| `ProposalRepository`, `ClientRepository` | the two database repositories: their tables, lookups and the audit entries they build |
| `AuditLogViewer` | `AuditLogController` |
| `UserRepository` | the 4-line user file, authentication, lookup and `save` |
| `ProposalSearch`, `ClientSearch` | the two search screens |
| `EditClient`, `EditProposal`, `LoginScreen` | the three forms |
| `Session` | `SessionManager` |
| `Proposals`, `Clients` | `Proposal` with its Builder, and `Client` |

The shared modules are:
- `Wrappers`: `Option` and `Result`.
- `Exceptions`: the Java exceptions that can leave an operation, as values.
- `JavaLang`: `long` bounds, ASCII case folding, `contains`, `trim`, `Long.parseLong`.
- `DateFormat`: `ISO_LOCAL_DATE` and `yyyy-MM-dd HH:mm:ss`.
- `Streams`: `filter` as an order-preserving subsequence, and first-match search.

Modelling choices:
- **Classes where the source changes state.** Code that updates fields in place is a class with `modifies` frames: the repositories, the controllers, the session, `Proposal` and its Builder. Pure stream pipelines are functions. Loops are methods with invariants, proved equal to a specification function.
- **Java `null` and exceptions.** A nullable reference is an `Option`. An exception that leaves a method is an `Err` value, or a `thrown` out-parameter.
- **The database.** Each table is a sequence of rows in storage order, and a lookup finds the first row with the id. Generated keys and "the batch failed" are parameters.
- **The clock and the write outcome.** The clock is a `LocalDateTime` parameter. How the rewrite of the audit file ends is a `WriteOutcome` parameter.
- **BCrypt.** Password checking is an uninterpreted `verify` predicate.
- **Background audit writes.** Each repository operation runs `logChange` on a new thread. Here it is the call that immediately follows the operation, and whatever it throws is dropped, as it would be on that thread.
- **The `loggedInProgress` flag.** It is modelled as a sequential invariant: every operation starts and ends with it false.

## Model

| member | source | states |
|---|---|---|
| AuditLogs.RoleTag | src/main/java/repository/ProposalDatabaseRepository.java:152 | the role text is "Admin" exactly for an admin session and "User" otherwise |
| AuditLogs.AppendNextIdKeepsContiguous | src/main/java/repository/ProposalDatabaseRepository.java:132-135 | a log with ids 1..n stays contiguous when an entry is appended whose id was allocated by getNextAuditLogId from that same log |
| AuditLogs.NextIdIsFresh | src/main/java/repository/ClientDatabaseRepository.java:112-115 | on a contiguous log, the allocated id is n+1 and no stored record uses it |
| AuditLogs.StaleSnapshotDuplicatesId | src/main/java/repository/ProposalDatabaseRepository.java:132-135 | two entries allocated from the same snapshot get the same id, and appending both breaks contiguity (the allocate-then-log race) |
| AuditLogStore.ReadInternal | src/main/java/repository/AuditLogRepository.java:87-101 | a missing or empty file, EOF, IO and class-not-found read as the empty list; only a non-list object throws (ClassCastException); a list reads back as itself |
| AuditLogStore.ReadAfterWrite | src/main/java/repository/AuditLogRepository.java:39-48 | a completed rewrite is read back exactly; a failed one never makes the next read throw |
| AuditLogStore.NextIdFrom | src/main/java/repository/ProposalDatabaseRepository.java:132-135 | 1 for an empty log, otherwise the last record's id + 1; a read exception propagates |
| AuditLogStore.EntryFor | src/main/java/repository/ProposalDatabaseRepository.java:149-158 | the entry's id is the one getNextAuditLogId allocates from the file as it is now; it carries the session's user id and role tag and the operation's action, entity, old and new values and timestamp; it fails exactly when the file holds a non-list |
| AuditLogStore.AuditedAppendKeepsContiguous | src/main/java/repository/AuditLogRepository.java:28-53 | on a contiguous log, an audited operation followed by its logChange appends exactly one entry with id n+1, and the log stays contiguous |
| AuditLogStore.AuditLogRepository.ReadAuditLogsInternal | src/main/java/repository/AuditLogRepository.java:87-101 | the method returns ReadInternal of the current file |
| AuditLogStore.AuditLogRepository.LogChange | src/main/java/repository/AuditLogRepository.java:28-53 | appends the record to what was read and rewrites the list; a failed write is swallowed; only ClassCastException escapes, leaving the file as it was; the flag ends false |
| AuditLogStore.AuditLogRepository.ReadAuditLogs | src/main/java/repository/AuditLogRepository.java:61-79 | returns ReadInternal of the file, leaves the file unchanged and the flag false |
| ClientRepository.FindClientById | src/main/java/repository/ClientDatabaseRepository.java:33-53 | the first client with the id, or EmptyRepositoryResultException when none has it |
| ClientRepository.InsertedClients | src/main/java/repository/ClientDatabaseRepository.java:85-106 | each entity is stored under its generated key, with its other fields unchanged, in batch order |
| ClientRepository.ClientDatabaseRepository.SaveAll | src/main/java/repository/ClientDatabaseRepository.java:85-106 | a failed batch stores nothing and throws RepositoryAccessException; otherwise the inserted rows are appended |
| ClientRepository.ClientDatabaseRepository.GetNextAuditLogId | src/main/java/repository/ClientDatabaseRepository.java:112-115 | the result is NextIdFrom of the audit file as read now |
| ClientRepository.ClientDatabaseRepository.Save | src/main/java/repository/ClientDatabaseRepository.java:123-145 | a one-element batch, then an ADD / "Client" / "N/A" / client name entry; no entry when the batch failed; the file is appended only when an entry was produced |
| ProposalRepository.FindProposalById | src/main/java/repository/ProposalDatabaseRepository.java:46-66 | the first row with the id, or EmptyRepositoryResultException when none has it |
| ProposalRepository.InsertedProposals | src/main/java/repository/ProposalDatabaseRepository.java:102-125 | each proposal is stored under its generated key, in batch order |
| ProposalRepository.WithEdits | src/main/java/repository/ProposalDatabaseRepository.java:171-188 | the UPDATE changes title, description and client of the rows with that id, and nothing else |
| ProposalRepository.WithStatus | src/main/java/repository/ProposalDatabaseRepository.java:345-361 | the UPDATE changes the status of the rows with that id, and nothing else |
| ProposalRepository.DeleteRemovesOnlyThatId | src/main/java/repository/ProposalDatabaseRepository.java:301-314 | after the DELETE the id is not found, and every other row is kept in order |
| ProposalRepository.FindAfterStatusUpdate | src/main/java/repository/ProposalDatabaseRepository.java:345-361 | after a status update, the lookup finds the same row with the new status |
| ProposalRepository.JoinQuoted | src/main/java/repository/ProposalDatabaseRepository.java:219-222 | the joined text starts and ends with a quote |
| ProposalRepository.QuotedListStrip | src/main/java/repository/ProposalDatabaseRepository.java:219-222 | the builder text is the ", "-joined quoted list plus one trailing ", ", which the final substring drops |
| ProposalRepository.UpdateDiffNoneIffUnchanged | src/main/java/repository/ProposalDatabaseRepository.java:189-218 | update records nothing exactly when title, description and client are all unchanged |
| ProposalRepository.UpdateDiffFailsOnlyOnClientLookup | src/main/java/repository/ProposalDatabaseRepository.java:205-212 | the change texts fail only when the client changed and one of the two client names cannot be looked up, and then with RepositoryAccessException |
| ProposalRepository.UpdateDiffAllFields | src/main/java/repository/ProposalDatabaseRepository.java:189-222 | with all three fields changed, the texts are 'title', 'description', 'client name' in that order, with no trailing separator |
| ProposalRepository.UpdateDiffClientOnly | src/main/java/repository/ProposalDatabaseRepository.java:205-212 | a changed client is recorded by the old and new clients' names, not their ids |
| ProposalRepository.MaxIdColumn | src/main/java/repository/ProposalDatabaseRepository.java:275-284 | SELECT MAX(id): bounds every id and is attained, or is 0 for an empty table |
| ProposalRepository.NextProposalId | src/main/java/repository/ProposalDatabaseRepository.java:274-291 | 1 for an empty table |
| ProposalRepository.NextProposalIdIsFresh | src/main/java/repository/ProposalDatabaseRepository.java:274-291 | below the long limit, the next id is greater than every stored id and finds nothing |
| ProposalRepository.DeletionEntry | src/main/java/repository/ProposalDatabaseRepository.java:301-333 | EmptyRepositoryResultException when the id is absent; otherwise a DELETE / "Proposal" entry whose old value is the found proposal's text and whose new value is "Deleted" |
| ProposalRepository.ProposalDatabaseRepository.SaveAll | src/main/java/repository/ProposalDatabaseRepository.java:102-125 | a null status throws NullPointerException before anything runs; a failed or empty batch throws RepositoryAccessException; otherwise the rows are appended |
| ProposalRepository.ProposalDatabaseRepository.GetNextAuditLogId | src/main/java/repository/ProposalDatabaseRepository.java:132-135 | the result is NextIdFrom of the audit file as read now |
| ProposalRepository.ProposalDatabaseRepository.Save | src/main/java/repository/ProposalDatabaseRepository.java:144-162 | a one-element batch under the generated key, then an ADD / "Proposal" / "N/A" entry whose new value is the proposal's status text |
| ProposalRepository.ProposalDatabaseRepository.ChangeTexts | src/main/java/repository/ProposalDatabaseRepository.java:189-222 | the builder loop yields exactly UpdateDiff, the quoted and ordered change list |
| ProposalRepository.ProposalDatabaseRepository.Update | src/main/java/repository/ProposalDatabaseRepository.java:171-242 | a missing proposal throws RepositoryAccessException and changes nothing; otherwise the row is edited and the UPDATE entry follows UpdateDiff |
| ProposalRepository.ProposalDatabaseRepository.DeleteProposal | src/main/java/repository/ProposalDatabaseRepository.java:301-333 | a missing id changes nothing; otherwise exactly that id's rows are removed and DeletionEntry is handed to logChange |
| ProposalRepository.ProposalDatabaseRepository.UpdateStatus | src/main/java/repository/ProposalDatabaseRepository.java:345-380 | a missing id changes nothing; otherwise only the status changes, and an UPDATE STATUS entry records the old and new status texts |
| AuditLogViewer.FilteredAuditLogs | src/main/java/controller/AuditLogController.java:98-113 | an entry is shown exactly when it is loaded and passes both the action and the date filter |
| AuditLogViewer.FilteredIsOneFilter | src/main/java/controller/AuditLogController.java:101-110 | the two chained filters are one filter on their conjunction, so the result is an order-preserving subsequence of the loaded list |
| AuditLogViewer.AllWithoutDateShowsEverything | src/main/java/controller/AuditLogController.java:103-107 | "ALL" in any letter case, with no day picked, shows the whole list in order |
| AuditLogViewer.NoActionShowsNothing | src/main/java/controller/AuditLogController.java:103 | with no action selected, nothing is shown |
| AuditLogViewer.PickedActionSelectsExactlyIt | src/main/java/controller/AuditLogController.java:67-103 | picking ADD, UPDATE, DELETE or UPDATE STATUS shows exactly the entries with that action; UPDATE does not also select UPDATE STATUS |
| AuditLogViewer.PickedDaySelectsThatDay | src/main/java/controller/AuditLogController.java:104-109 | an entry stamped by a repository passes the date filter exactly when it was stamped on the picked day |
| AuditLogViewer.AuditLogController.constructor | src/main/java/controller/AuditLogController.java:67-68 | the screen starts on "ALL" with no day picked |
| AuditLogViewer.AuditLogController.LoadAuditLogs | src/main/java/controller/AuditLogController.java:82-92 | the list and the table become what readAuditLogs returned; a ClassCastException leaves both unchanged |
| AuditLogViewer.AuditLogController.FilterAuditLogs | src/main/java/controller/AuditLogController.java:98-113 | the table shows FilteredAuditLogs of the loaded list and the current selections |
| AuditLogViewer.AuditLogController.PickAction | src/main/java/controller/AuditLogController.java:72 | a new action is selected and the table is refiltered |
| AuditLogViewer.AuditLogController.PickDate | src/main/java/controller/AuditLogController.java:73 | a new day is selected and the table is refiltered |
| UserRepository.RoleValueOf | src/main/java/repository/UserRepository.java:56 | only the exact constant names parse, over the two assumed constants "ADMIN" and "REGULAR_USER" (see Left out) |
| UserRepository.Records | src/main/java/repository/UserRepository.java:46-50 | the lines are grouped four at a time, in order, and a trailing partial group is dropped |
| UserRepository.IncompleteTailIgnored | src/main/java/repository/UserRepository.java:46 | fewer than four extra lines add no record |
| UserRepository.Verified | src/main/java/repository/UserRepository.java:53-60 | a failed password check gives null; a passed one gives the id and the admin flag, or IllegalArgumentException for an unknown role |
| UserRepository.FirstExact | src/main/java/repository/UserRepository.java:52 | the first record whose username is exactly equal |
| UserRepository.FirstIgnoringCase | src/main/java/repository/UserRepository.java:87 | the first record whose username is equal ignoring case |
| UserRepository.AuthenticateFirstMatchDecides | src/main/java/repository/UserRepository.java:42-69 | on a well-formed file, the first case-sensitive match alone decides; no match gives null |
| UserRepository.FindFirstMatchIgnoringCase | src/main/java/repository/UserRepository.java:78-96 | on a well-formed file, the result is the first case-insensitive match's id and admin flag, or null |
| UserRepository.AuthenticateFailsOnVisitedIdLine | src/main/java/repository/UserRepository.java:46-47 | NumberFormatException only comes from an id line that the scan reached before any username match |
| UserRepository.RoleColumn | src/main/java/repository/UserRepository.java:150 | the stored role name parses back to the user's role |
| UserRepository.SavedUsers | src/main/java/repository/UserRepository.java:134-157 | a taken username inserts nothing; otherwise exactly one row is appended |
| UserRepository.SaveKeepsUsernamesUnique | src/main/java/repository/UserRepository.java:140-152 | save keeps usernames unique, and the username is taken afterwards |
| UserRepository.SavedRoleReadsBack | src/main/java/repository/UserRepository.java:147-152 | the inserted row carries the id, username, hash and the role name of the admin flag |
| UserRepository.UserRepository.AuthenticateUser | src/main/java/repository/UserRepository.java:42-69 | the early-return loop equals Authenticate over the file's records; an unreadable file gives RepositoryAccessException |
| UserRepository.UserRepository.FindByUsername | src/main/java/repository/UserRepository.java:78-96 | the loop equals FindByName over the file's records; an unreadable file gives RepositoryAccessException |
| UserRepository.UserRepository.Save | src/main/java/repository/UserRepository.java:134-157 | a taken username changes nothing; otherwise the users become SavedUsers, unless the insert fails |
| ClientSearch.NarrowBy | src/main/java/controller/ClientSearchController.java:66-72 | an empty field restricts nothing; otherwise a client is kept exactly when that field contains the text ignoring case |
| ClientSearch.FilterClients | src/main/java/controller/ClientSearchController.java:62-104 | a client is shown exactly when it is stored and meets all four criteria |
| ClientSearch.NarrowIsFilter | src/main/java/controller/ClientSearchController.java:66-96 | each step is one filter, because the empty text is contained in every field |
| ClientSearch.FilterClientsIsOneFilter | src/main/java/controller/ClientSearchController.java:62-104 | the result is one filter on the conjunction, an order-preserving subsequence of findAll |
| ClientSearch.EmptySearchShowsAll | src/main/java/controller/ClientSearchController.java:62-104 | four empty fields show every client in order |
| ProposalSearch.OwnerStep | src/main/java/controller/ProposalSearchController.java:106-111 | an admin sees everything; a non-admin sees exactly their own proposals; a null user id throws NullPointerException when anything is stored |
| ProposalSearch.ClientStepIsFilter | src/main/java/controller/ProposalSearchController.java:127-143 | the client loop fails exactly when some proposal's client is missing; otherwise it is the contains-ignoring-case filter on client names |
| ProposalSearch.OwnerStepIsFilter | src/main/java/controller/ProposalSearchController.java:106-111 | a successful owner step is the owner filter |
| ProposalSearch.TitleStepIsFilter | src/main/java/controller/ProposalSearchController.java:113-118 | the title step is the case-insensitive title filter, with an untrimmed query |
| ProposalSearch.StatusStepIsFilter | src/main/java/controller/ProposalSearchController.java:120-125 | the status step is the equals-ignoring-case status filter |
| ProposalSearch.ClientTextStepIsFilter | src/main/java/controller/ProposalSearchController.java:127-143 | the trimmed client text step is a filter whenever it succeeds |
| ProposalSearch.SearchIsOneFilter | src/main/java/controller/ProposalSearchController.java:101-149 | a successful search shows exactly the stored proposals meeting all four criteria, in storage order |
| ProposalSearch.SearchFailures | src/main/java/controller/ProposalSearchController.java:107-139 | a search fails only through a null user id for a non-admin, or a missing client during a client-name search |
| ProposalSearch.StatusChoiceSelectsThatStatus | src/main/java/controller/ProposalSearchController.java:89-125 | each combo choice "Pending", "Approved", "Rejected" keeps exactly its own status |
| ProposalSearch.RemoveAt | src/main/java/controller/ProposalSearchController.java:179 | removing the selected item keeps the others in order |
| ProposalSearch.ProposalSearchController.FilterByClientName | src/main/java/controller/ProposalSearchController.java:127-143 | the loop equals ClientStep: ProposalSearchException on a missing client, otherwise the matching proposals in order |
| ProposalSearch.ProposalSearchController.FilterProposals | src/main/java/controller/ProposalSearchController.java:101-149 | the table becomes the search result; an exception leaves it unchanged |
| ProposalSearch.ProposalSearchController.HandleDeleteProposal | src/main/java/controller/ProposalSearchController.java:156-181 | no selection or someone else's proposal is refused with no repository call; when confirmed, the rows lose the selected id if it is still stored and are otherwise unchanged; the proposal is audited and removed from the table on success, and a failure leaves the audit file and the table unchanged |
| EditClient.ValidationMessages | src/main/java/controller/EditClientController.java:30-50 | the text is empty exactly when all four fields are filled |
| EditClient.ValidationMessagesInOrder | src/main/java/controller/EditClientController.java:30-50 | the messages appear in the order name, email, phone, company; a lone missing company gives exactly its message |
| EditClient.AsWrittenSwapsPhoneAndCompany | src/main/java/controller/EditClientController.java:69 | as written, the stored phone is the entered company and vice versa |
| EditClient.EnteredClient | src/main/java/model/Client.java:37-42 | each entered value lands in its own attribute, with id 0 |
| EditClient.EditClientController.CollectMessages | src/main/java/controller/EditClientController.java:30-50 | the StringBuilder ends equal to ValidationMessages |
| EditClient.EditClientController.AddNewClient | src/main/java/controller/EditClientController.java:29-89 | messages mean nothing is saved; a confirmed valid form saves exactly one client and its ADD entry, then clears the fields |
| EditProposal.NewProposalData | src/main/java/controller/EditProposalController.java:101-108 | a new proposal is PENDING, with the chosen client, the current user and an id not stored yet |
| EditProposal.StoredRowIgnoresBuilderId | src/main/java/repository/ProposalDatabaseRepository.java:102-115 | the stored row carries the generated key, whatever id the Builder got |
| EditProposal.EditProposalController.SetCurrentUser | src/main/java/controller/EditProposalController.java:41-43 | the user id is stored |
| EditProposal.EditProposalController.Initialize | src/main/java/controller/EditProposalController.java:48-51 | every stored client is appended to the combo items |
| EditProposal.EditProposalController.LoadProposalForEditing | src/main/java/controller/EditProposalController.java:57-69 | the texts are filled and the first combo item with the client id is selected; with none, the selection is kept |
| EditProposal.EditProposalController.LoadNewProposalMode | src/main/java/controller/EditProposalController.java:74-79 | no current proposal, empty fields, no selection |
| EditProposal.EditProposalController.SaveProposal | src/main/java/controller/EditProposalController.java:85-120 | invalid or unconfirmed saves nothing; new mode saves NewProposalData (NullPointerException for a null user); edit mode changes only title, description and client, then updates |
| LoginScreen.ErrorLabelFor | src/main/java/controller/LoginController.java:65-71 | the username label iff findByUsername gives null; lookup exceptions propagate |
| LoginScreen.WrongUsernameIffNoSuchUser | src/main/java/controller/LoginController.java:65-68 | on a well-formed file, "Username not found." appears exactly when no username matches ignoring case |
| LoginScreen.ExactUsernameNeverUnknown | src/main/java/controller/LoginController.java:65-71 | an exactly matching username is never reported as unknown |
| LoginScreen.CaseVariantReportsWrongPassword | src/main/java/repository/UserRepository.java:52-87 | a username matching only in another letter case is always rejected, and the screen says "Incorrect password." |
| LoginScreen.LoginController.ShowLoginError | src/main/java/controller/LoginController.java:61-72 | both labels are hidden, then exactly the one ErrorLabelFor names is shown with its text |
| LoginScreen.LoginController.HandleLogin | src/main/java/controller/LoginController.java:39-59 | empty trimmed input makes no repository call; success logs the session in with the id and admin flag; a failure shows the label for the trimmed username |
| Session.SessionManager.constructor | src/main/java/session/SessionManager.java:8-9 | nobody is logged in and not admin |
| Session.SessionManager.Login | src/main/java/session/SessionManager.java:20-23 | sets exactly the id and the flag; logged in iff the id is non-null |
| Session.SessionManager.Logout | src/main/java/session/SessionManager.java:55-58 | resets the id and the flag |
| Proposals.StatusValueOf | src/main/java/model/Proposal.java:220-223 | a parsed name is that status's name |
| Proposals.StatusTextValueOf | src/main/java/model/Proposal.java:220-223 | every status text parses back to its status |
| Proposals.StatusTextInjective | src/main/java/model/Proposal.java:220-223 | two texts are equal exactly when the statuses are |
| Proposals.Proposal.SetTitle | src/main/java/model/Proposal.java:48-50 | only the title changes |
| Proposals.Proposal.SetDescription | src/main/java/model/Proposal.java:64-66 | only the description changes |
| Proposals.Proposal.SetStatus | src/main/java/model/Proposal.java:80-82 | only the status changes |
| Proposals.Proposal.SetClientId | src/main/java/model/Proposal.java:96-98 | only the client id changes |
| Proposals.Proposal.SetUserId | src/main/java/model/Proposal.java:112-114 | only the user id changes |
| Proposals.Proposal.ApproveProposal | src/main/java/model/Proposal.java:120-122 | the status becomes APPROVED and nothing else changes |
| Proposals.Proposal.RejectProposal | src/main/java/model/Proposal.java:128-130 | the status becomes REJECTED and nothing else changes |
| Proposals.Proposal.ToString | src/main/java/model/Proposal.java:220-223 | the text parses back to the status, and is "null" exactly without one |
| Proposals.Builder.Empty | src/main/java/model/Proposal.java:146-147 | no id, no status, zero references |
| Proposals.Builder.constructor | src/main/java/model/Proposal.java:153-155 | the given id, no status |
| Proposals.Builder.WithTitle | src/main/java/model/Proposal.java:162-165 | the same builder with only the title set |
| Proposals.Builder.WithDescription | src/main/java/model/Proposal.java:172-175 | the same builder with only the description set |
| Proposals.Builder.WithStatus | src/main/java/model/Proposal.java:182-185 | the same builder with only the status set |
| Proposals.Builder.WithClientId | src/main/java/model/Proposal.java:192-195 | the same builder with only the client id set |
| Proposals.Builder.WithUserId | src/main/java/model/Proposal.java:202-205 | the same builder with only the user id set |
| Proposals.Builder.Build | src/main/java/model/Proposal.java:211-213 | a fresh proposal with exactly the configured values; a null id throws NullPointerException |
| DateFormat.TimestampOnDay | src/main/java/repository/ClientDatabaseRepository.java:140 | a "yyyy-MM-dd HH:mm:ss" stamp starts with a day's ISO text exactly when it is on that day |

## Left out

- Threads, `synchronized`, `wait`/`notifyAll` and interrupts in AuditLogRepository are not modelled. Operations run one at a time, so the wait loops never block, and the flag is a sequential invariant.
- The monitor is per instance while the flag is static. That makes a difference only under concurrency, which is not modelled.
- The race between allocating an audit id and the later logChange is not run. StaleSnapshotDuplicatesId states its outcome.
- Java serialization and the file system are an abstract `FileState`. `Files.lines` is a sequence of lines; the users file is `Option<seq<string>>`, where None means an IOException.
- SQL, JDBC and connection failures are abstracted. The tables are sequences and the generated keys are parameters. An SQLException from `getConnection` and the `affectedRows == 0` branches are not modelled; those branches cannot be reached once the row was found.
- `findAll` is the stored sequence of rows; extractProposalFromResultSet and extractClientFromResultSet are identity on rows.
- ProposalRepository.ProposalDatabaseRepository.Update: the lookup is by row id only. The SQL `WHERE id = ?` is used as the key; database collation is not modelled.
- UserRepository.importUsersFromFile is not part of this model: it only copies lines into the database.
- BCrypt is an uninterpreted `verify` predicate.
- A users file that is not valid text, which makes `Files.lines` fail while streaming, is not modelled; the file is either a sequence of lines or unreadable.
- Case folding, `trim` and digit parsing are ASCII only; Unicode case mapping is not modelled.
- The Builder's unset title and description are `""` rather than null. No core operation reads them before they are set.
- The user table's username comparison is modelled as exact. The database's collation is not known.
- A table selection is an index into the shown items. `remove(selected)` removes that position.
- ProposalSearchController's handleApproveProposal, handleRejectProposal and updateProposalStatus are not modelled. Their repository side is ProposalRepository.ProposalDatabaseRepository.UpdateStatus.
- Alerts, FXML screen switching, Timeline scheduling, table bindings, SLF4J logging, MenuController, DashboardController and the application class are not modelled. A confirmation dialog is a boolean parameter.
- EditClient.EditClientController.AddNewClient saves the client with each value in its own attribute (EnteredClient). The swapped construction as written is ClientAsWritten; see Findings.
- Proposals.StatusName, Proposals.StatusValueOf and UserRepository.RoleValueOf: the enums `ProposalStatus` and `UserRole` are not part of this model. Their constants (PENDING, APPROVED, REJECTED; ADMIN, REGULAR_USER) are taken from their uses in EditProposalController.java:105, Proposal.java:121-129 and UserRepository.java:150, and `toString()` is assumed to be the default `name()`. The status and ADD/UPDATE STATUS audit texts rest on that assumption.
- ProposalSearch.ProposalSearchController reads the proposal repository's session. The source's two references are the one shared SessionManager, so the model keeps only one.
- EditProposal.EditProposalController.SaveProposal uses one repository object for proposals and clients. The source keeps a second ClientDatabaseRepository over the same CLIENTS table.

## Findings

| source | as written | input that shows it | evidently intended | confidence | as-written member | corrected member |
|---|---|---|---|---|---|---|
| src/main/java/controller/EditClientController.java:69 | `new Client(name, email, company, phone)` against the constructor `Client(name, email, phone, company)` at src/main/java/model/Client.java:37-42 | phone "555-1234" and company "Acme" are stored as phone "Acme" and company "555-1234" | each entered value is stored in its own attribute | not executed; high | EditClient.AsWrittenSwapsPhoneAndCompany | EditClient.EnteredClient |
