# Verified model of the membership service

A Dafny model of the membership service's record store, its scans, its account batch and its barcodes,
with proofs of what they keep and, where they do not keep what one would expect, of exactly when they do.
`dafny verify dfyconfig.toml` checks the whole project.

## What is modelled

**The record store** (`Records`, `Store`, `Cassandra`). A record travels through `application`, `membership_queue`,
`members` (copied in `member_agreements`), `membership_dequeue` and `membership_archive`. Every operation reads,
prepares one batch from what it read, and later has that batch applied atomically. `Store.Prepare` is the read step
and `Store.Apply` the batch; INSERT and UPDATE are both upserts that create a missing row and leave unmentioned
columns alone. The class `Cassandra.CassandraDB` does the same in place, operation by operation, and each method is
proved against `Prepare` and `Apply`, with the read or the batch allowed to fail.

**Concurrency** (`Interleaving`, `Approval`, `Conservation`, `Races`, `ApplicationForm`, `Journeys`). A
world holds the store and the batches prepared but not finished. Steps are:
a new application, a read step, the execution of any pending batch (again and again, since the driver may retry until
the call ends) and the end of a call. A run is any sequence of steps, so every interleaving of any number of
clients is covered. For conservation under races the surroundings are asked for two things: generated uuids are new, and different
persons apply with different email addresses. The same person may apply again, any number of times. What happens without that is
in `Conservation`. The approval gate over whole runs, the agreement copies, the columns of member rows and the record every
application and queue row holds are proved of every run without any assumption; the scans of applications and queue need
generated uuids to have 16 bytes.

**One operation at a time** (`Sequential`, `Lifecycle`, `StatusColumn`, `Edits`, `MemberHistory`). The same steps back to back,
with nobody applying twice; every such run is an interleaving (`Sequential.SequentialRunsAreInterleavings`). PostgreSQL's single
status column is the abstract specification that the five tables refine, and a plain map of fields is the one that
the setters refine.

**Scans and paging** (`ByteStrings`, `Scans`, `Paging`, `Listing`). Byte-lexicographic ranges, the list and
the streaming copy of each scan loop, paging by uuid, and the loop of `member_list`, which pages by email and NUL.

**The account batch** (`Accounts`, `BatchRuns`, `Decimal`) and **the barcode** (`Barcode`, `Decimal`).

## Modelling decisions

- A Go string is a sequence of bytes. Row ids are opaque and used consistently, so a row's place is its table and its key
  without the prefix. The code does not always do that: `StoreMembershipRequest` names no key column, and fifteen
  others for fourteen placeholders (db/cassandra.go:235-244); `moveRecordToTable` and `MoveNewMemberToFullMember` key by
  the id's text where the readers decode raw uuid bytes (db/cassandra.go:1206-1207, 1294, 1330-1333 against 973); `MoveMemberToTrash` inserts a bare uuid
  (1167-1168); `MoveDeletedMemberToArchive` slices off a prefix that is already gone (1239-1240). The evident intent is modelled.
- `person` says whose record a row is. It stands for nothing in the store and no operation looks at it; it
  is there so that theorems can follow a record through its changes of key.
- Encoding is a datatype with a decoder; required fields of `member.proto` must be set on both sides. Promotion and archiving
  encode a bare member, which later readers decode as an agreement (db/cassandra.go:1191, 1229 against 987, 307). What those bytes
  parse to depends on the wire format, so it is a parameter (`Records.Parser`) and every theorem holds for each choice. A missing
  metadata or member part is a nil dereference in Go and an error result here.
- A scan returns the rows in key order, filtered, then limited. A table is a sorted sequence of rows. MapScan gives a null
  column as the zero value of its type (`Paging.Zero`).
- Time, generated uuids, failures of Cassandra and LDAP, results of LDAP searches, the text form of uuids and
  `strings.ToLower` are parameters.
- The setters' field names are strings in the class and columns in `Edit`; `Store.ColumnNamed` translates.

## What the proofs found

- A promotion writes key and blob only, no setter writes the email column, and the members enumeration asks for a non-empty
  one: starting from an empty store, no member is ever listed (`Listing.NoMemberIsEverListed`).
- Where persons share an email somebody can be lost: PostgreSQL declares the email unique, Cassandra does not. Nobody is lost in a
  run just when no batch executed takes a row that is somebody else's only one (`Conservation.NobodyIsLostIff`). Two people who
  become members under one email leave the first nowhere (`Conservation.SharedEmailLosesSomeone`), and a free member key does not
  help against a goodbye that is executed twice (`Conservation.RepeatedGoodbyeLosesSomeone`).
- With distinct emails races never lose anybody or move anybody back, and no run at all lets anybody past the approval gate. Three
  things races do break, and when is known exactly. Everyone is in one place throughout a run just when every executed batch still met the row it was read from or
  already met the one it leaves, and nobody applied twice (`Races.OnePlaceThroughoutIff`). Columns and blobs agree throughout just
  when every batch executed on a member row was up to date with the columns it does not write (`Races.ColumnsThroughoutIff`). A
  user name stays while its row lives just when every operation executed on the row wrote that name or had read it
  when it began (`Races.NameStaysIff`). For a single
  edit these are conditions on what it read (`Races.LateEditKeepsColumnsIff`, `Races.LateEditKeepsNameIff`). Runs that violate
  each are constructed (`Races.SomeoneEndsInTwoPlaces`, `Races.SomeRowIsSplit`, `Races.SomeNameChanges`); the last two need a
  promoted member whose bare encoding reads back as an agreement with a member in it, since no edit succeeds otherwise.
- The members enumeration contradicts the detail lookup on a zip code once one is set: the setter writes that column and the
  enumeration does not select it. On every other column that is set they agree (`Listing.EnumerationAgreesWithDetailIff`).
- A scanned barcode finds its application just when the uuid's first byte is at least 0x80; for any other uuid the lookup is
  skipped without an error (`Barcode.BarcodeRoundTrip`). A negative number of 128 bits, on the
  other hand, is looked up by its magnitude (`Barcode.FoundIff`).
- A request whose account was added but whose promotion failed is not promoted by any later run as long as nobody deletes the
  account (`Accounts.FailedMoveStrandsRequest`), and the departures of a run may delete an account the same run created
  (`BatchRuns.FreshAccountIsDeleted`).
- An upload executed after its application has moved on brings the application back with the scan and none of its form
  (`Races.SomeFormIsLost`); that is the only way the form is lost (`ApplicationForm.FormsThroughoutIff`).
- A dry run leaves the directory alone but moves records between tables as any other run does (`Accounts.DryRunMovesIff`), and so
  makes members without an account (`BatchRuns.DryRunHasAccountIff`).
- Users join groups under their user name and leave under its ASCII part, so exactly the ASCII names are taken out
  (`Accounts.NameIsRemovedIffAscii`); where the account is deleted nothing is taken out (`Accounts.DeletionLeavesGroups`).
- The page cursor skips a key that is the last printed key with a NUL, so a listing is complete exactly when no page ends between
  two such keys (`Paging.PrintsAllIff`). Over rows not kept under their email the loop may print one page forever
  (`Paging.StrayRowEndsIff`); it ends at all just when it ends within a round a row (`Paging.LoopEndsIff`).

## Model

| member | source | states |
|---|---|---|
| Interleaving.EveryoneIsKept | db/cassandra.go:1119-1388 | in every interleaving, everyone who ever applied has a row in a lifecycle table |
| Interleaving.StagesNeverDrop | db/cassandra.go:1119-1343 | in every interleaving, the highest stage a person has a row in never goes down between two moments of a run |
| Interleaving.ReachableRows | db/cassandra.go:1313-1335 | in every interleaving of any steps, without assumption: queue rows have scan, approver and approval time; every member row's blob equals its agreement copy; a member row has only columns the setters write, so no email column |
| Interleaving.StepKeepsInv | db/cassandra.go:207-251 | every step keeps: each place belongs to one person, pending batches stay within their person's places and only move up, nobody who applied is missing; second applications included |
| Interleaving.PreparedIsOk | db/cassandra.go:1280-1343 | the batch prepared by any operation's read step stays within the places of the person whose row was read and moves it to a later table |
| Approval.MembersWereApproved | db/cassandra.go:1185-1217 | in every run of any steps, whoever is in members, or has a write to it on its way, was earlier a queue entry with scan, approver and approval time whose email is the member key |
| Approval.DepartingWereApproved | db/cassandra.go:1119-1180 | likewise whoever is in the departing queue, or has a move to it on its way |
| Conservation.LosesNobodyIff | db/cassandra.go:1119-1388 | any batch on any store loses nobody exactly when whoever else has a row in one of its two places has another row elsewhere |
| Conservation.NobodyIsLostIff | db/cassandra.go:1119-1388 | in any interleaving, without assumption, everyone in the store stays in it at all later moments exactly when no step takes somebody else's only row |
| Conservation.PromotionKeepsEveryoneIffKeyIsFree | db/cassandra.go:1197-1207 | while everyone is in one place, promoting a queued record loses nobody exactly when the member key is free |
| Conservation.SharedEmailLosesSomeone | db/cassandra.go:1197-1207 | for any two complete members under one email, a run from the empty store in which both become members leaves the first without a row |
| Conservation.RepeatedGoodbyeLosesSomeone | db/cassandra.go:1165-1180 | a run in which every promotion meets a free key, and a goodbye executed twice still loses the second member |
| Races.LateBatchKeepsOnePlaceIff | db/cassandra.go:1119-1343 | a pending batch keeps everyone in one place exactly when the row it was read from or the row it leaves is there as it is executed |
| Races.OnePlaceThroughoutIff | db/cassandra.go:1119-1343 | in an interleaving everyone is in one place at every moment exactly when every executed batch met one of its two rows and nobody applied twice |
| Races.SomeoneEndsInTwoPlaces | db/cassandra.go:1272-1343 | for every complete application there is an interleaving from the empty store that leaves the person in two tables |
| Races.StalePromotionDuplicates | db/cassandra.go:1185-1217 | in every reachable state with a queue entry: cancelling it after its promotion was prepared leaves the person archived and a member |
| Races.LateEditKeepsColumnsIff | db/cassandra.go:312-577 | an edit executed late keeps columns and blobs in agreement exactly when every column set by then that it does not set has the value it read |
| Races.ColumnsThroughoutIff | db/cassandra.go:312-577 | in any interleaving columns and blobs agree at every moment exactly when every batch executed on a member row was up to date with the columns it does not write |
| Races.SomeRowIsSplit | db/cassandra.go:501-577 | for every member whose encoding reads back with a member in it, an interleaving from the empty store leaves a column that contradicts its blob |
| Races.LateEditKeepsNameIff | db/cassandra.go:545-577 | an edit executed late keeps the user name set by then exactly when that is its own text or, for another field, the name it read |
| Races.NameStaysIff | db/cassandra.go:545-549 | in any interleaving, while the row lives, the user name is the same at every moment exactly when every operation executed on the row wrote that name or read it when it began |
| Races.SomeNameChanges | db/cassandra.go:545-549 | for every such member without a user name, an interleaving sets any one name and then makes it any other |
| Sequential.AtomicallyIsAnInterleaving | db/cassandra.go:1119-1180 | an operation without interference is begin, execute, drop |
| Sequential.SequentialRunsAreInterleavings | db/cassandra.go:1119-1388 | every sequential run is an interleaving that ends in the same world with nothing pending |
| Sequential.OperationMovesOneRow | db/cassandra.go:1280-1343 | a successful operation carries its person's one row to the target with the prepared blob and touches no other row; moves raise the rank |
| Sequential.ExactlyOnePlace | db/cassandra.go:1119-1343 | one operation at a time, everyone who applied is in exactly one place |
| Sequential.MovesAreBounded | db/cassandra.go:1119-1343 | the successful moves of a person in a run never outnumber the rank of where they are, and never exceed four |
| Sequential.ArchiveIsFinal | db/cassandra.go:1223-1252 | an archived row is unchanged in every continuation of a sequential run, new requests included |
| Sequential.ColumnsAlwaysAgree | db/cassandra.go:312-577 | over every sequential run each non-null column of a member row is the field of the decoded blob |
| Lifecycle.ApprovalSucceedsIff | db/cassandra.go:1291-1316 | in every state any steps reach, approval succeeds exactly when the application is there with a scan; the other error branches are dead |
| Lifecycle.OthersSucceedIffPresent | db/cassandra.go:1291-1326 | likewise uploads and rejections succeed exactly on applications, cancellations and promotions exactly on queue entries |
| Lifecycle.AuditedMovesKeepTheRecord | db/cassandra.go:1149-1163 | approval, rejection, cancellation and goodbye keep scan, member data and all metadata but approval and goodbye fields |
| Lifecycle.DrainingMovesKeepTheMember | db/cassandra.go:1185-1242 | promotion and archiving keep the member data, an assigned id apart, and nothing else |
| Lifecycle.RequestReadsBack | db/cassandra.go:216-251 | a complete request reads back as sent, with a request timestamp; an incomplete one changes nothing |
| ApplicationForm.RequestFillsTheForm | db/cassandra.go:234-246 | a complete request under a new uuid is stored with its form: nine text fields as far as set, email_verified false, fee and period, source address and user agent, and no other column |
| ApplicationForm.FormIsWholeOrLost | db/cassandra.go:216-251 | in every interleaving with new uuids an application has its whole form, as its decoded blob has it, or none of it, and email_verified tells which |
| ApplicationForm.FormColumnsAgree | db/cassandra.go:234-246 | so a form column that is a field of the member is set exactly when the form is there and the decoded blob has the field, and then it is that field |
| ApplicationForm.FormsThroughoutIff | db/cassandra.go:1374-1379 | in any interleaving every application has its form at every moment exactly when every executed upload still met the application |
| Races.SomeFormIsLost | db/cassandra.go:1374-1379 | for every complete application, an interleaving brings it back without its form |
| Lifecycle.UploadThenApprove | db/cassandra.go:1313-1388 | after an upload approval succeeds and the queue holds the application with that scan |
| Lifecycle.CallsAreAtomicOperations | db/cassandra.go:1119-1180 | a client method run alone is the atomic operation, or changes nothing and reports the failed read, its own error or the failed batch |
| Lifecycle.AuditedErrors | db/cassandra.go:1291-1323 | moves by hand fail exactly without the row (NotFound), on one that does not decode (DataLoss), on approving without a scan (Internal), or on a record without metadata |
| Lifecycle.DrainingErrors | db/cassandra.go:1191-1235 | promotion and archiving fail exactly when no such record is handed out or it cannot be encoded |
| Lifecycle.UploadErrors | db/cassandra.go:1361-1371 | uploads fail exactly without the row or on one that does not decode |
| Lifecycle.EditErrors | db/cassandra.go:519-559 | edits fail exactly without the row or the field (NotFound), on a row that does not decode, without a member, or on a user name that is set (Internal) |
| StatusColumn.MovesCommuteWithStatus | db/pgsql.go:622-726 | each successful operation commutes with the matching UPDATE of status and audit columns, each failed one leaves the abstract table alone |
| StatusColumn.RunsRefineStatus | db/pgsql.go:622-726 | over every sequential run the tables and the status column agree, audit columns included wherever Cassandra still has them |
| StatusColumn.PostgreSQLDB.MoveMemberToTrash | db/pgsql.go:622-644 | for an id that is the text of a 64-bit number n, row n, if there is one, gets the status and the three goodbye columns and keeps its approver and approval time, all other rows are kept; any other id is an error and no change |
| StatusColumn.PostgreSQLDB.UpdateMemberStatus | db/pgsql.go:646-666 | likewise row n gets the status and keeps all audit columns |
| StatusColumn.PostgreSQLDB.UpdateMemberStatusWithInitiator | db/pgsql.go:685-706 | likewise row n gets status, approver and approval time and keeps its goodbye columns |
| StatusColumn.PgOpAudits | db/pgsql.go:622-726 | of the audit columns, moves by hand change approver and time, a goodbye its own three, all other operations none |
| StatusColumn.UpdatesOneRow | db/pgsql.go:633-700 | each UPDATE changes the columns it names and no other, in at most the one row |
| Edits.EditsRefineMap | db/cassandra.go:312-577 | after any run of setter calls the member is read back from the fold of the accepted edits over its field map |
| Edits.EditsNeedAMember | db/cassandra.go:328-342 | without a decodable member no run of setter calls changes anything |
| Edits.UnknownFieldsChangeNothing | db/cassandra.go:405-410 | an unknown field is reported as not found and changes nothing |
| Edits.AcceptedIffMapAccepts | db/cassandra.go:533-553 | an edit is accepted exactly when its field is known and it would not replace a non-empty user name |
| Edits.EditsCommute | db/cassandra.go:312-577 | after any run, edits of different fields in either order leave the same store |
| Edits.UserNameIsFinal | db/cassandra.go:545-549 | a non-empty user name survives every run of setter calls |
| MemberHistory.MemberIsFoldOfEdits | db/cassandra.go:312-577 | over whole sequential runs, a member there at two moments has at the later one the row that the edits of that member in between make of it, whatever else happens |
| MemberHistory.UserNameIsFinalInRuns | db/cassandra.go:545-549 | over whole sequential runs, a non-empty user name is the same whenever the member is there |
| MemberHistory.OthersLeaveMemberAlone | db/cassandra.go:312-577 | with no edit of its own in between, a member's row is unchanged |
| Records.MemberFromFieldMap | db/cassandra.go:106-171 | memberFromRow recovers a member from the row of its set fields, 64-bit fields through their signed columns included |
| Records.EncodesIffRequired | member.proto:40-92 | a record is encoded exactly when its required fields are set, and reads back as it was |
| Records.SameBits | db/cassandra.go:108-127 | unsigned fields and signed columns are the same 64 bits, both ways |
| Store.Prepare | db/cassandra.go:1119-1388 | a read step succeeds only on the operation's row, and its batch takes that row to the operation's destination for the same person |
| Cassandra.CassandraDB.StoreMembershipRequest | db/cassandra.go:207-251 | stores the stamped request with its form under its uuid, or nothing on error |
| Cassandra.CassandraDB.GetMemberDetail | db/cassandra.go:284-309 | the decoded agreement of the member key, or which error |
| Cassandra.CassandraDB.SetMemberFee | db/cassandra.go:312-370 | on a member that can be looked up: fee and period set in blob, the two columns and the agreement copy, and nothing else; otherwise an error and no change |
| Cassandra.CassandraDB.SetLongValue | db/cassandra.go:373-434 | likewise payments_caught_up_to, and NotFound under any other name |
| Cassandra.CassandraDB.SetBoolValue | db/cassandra.go:437-498 | likewise has_key, and NotFound under any other name |
| Cassandra.CassandraDB.SetTextValue | db/cassandra.go:501-577 | likewise, by name, the one of name, street, city, zipcode, country, phone and an empty user name that was asked for; NotFound under any other name, Internal for a user name that is set |
| Cassandra.TextFieldIsSet | db/cassandra.go:533-569 | the same of the batch the read step prepares: each of the seven names sets its own field and column |
| Cassandra.CassandraDB.StoreMembershipAgreement | db/cassandra.go:1347-1388 | the scan in the application's blob and in its application_pdf column, and nothing else, or an error and no change |
| Cassandra.CassandraDB.MoveMemberToTrash | db/cassandra.go:1119-1180 | the member's record with goodbye data in the departing queue and gone from members, or an error and no change |
| Cassandra.CassandraDB.MoveNewMemberToFullMember | db/cassandra.go:1185-1217 | the member handed in under its email in members and agreements, and its queue row gone, or an error and no change |
| Cassandra.CassandraDB.MoveDeletedMemberToArchive | db/cassandra.go:1223-1252 | the member handed in in the archive and gone from the departing queue, or an error and no change |
| Cassandra.CassandraDB.MoveApplicantToNewMember | db/cassandra.go:1256-1260 | the approved application in the queue |
| Cassandra.CassandraDB.MoveApplicantToTrash | db/cassandra.go:1264-1269 | the rejected application in the archive |
| Cassandra.CassandraDB.MoveQueuedRecordToTrash | db/cassandra.go:1272-1277 | the cancelled queue entry in the archive |
| Cassandra.CassandraDB.MoveRecordToTable | db/cassandra.go:1280-1343 | the record with approver and time in the destination and gone from the source, or which error and no change |
| ByteStrings.LessUnderPrefix | db/cassandra.go:731-740 | under a common prefix keys are ordered like what follows it |
| ByteStrings.RangeIsProperExtensions | db/cassandra.go:55-56 | the range from a prefix to its successor is exactly the prefix's proper extensions |
| ByteStrings.AfterNul | member_list/member_list.go:112 | after a key with NUL means after the key, but for that one key |
| ByteStrings.PrefixesSpell | db/cassandra.go:55-56 | the applicant prefix and its end are that text |
| Listing.QueuePrefixSpells | db/cassandra.go:57 | so is the queue prefix |
| Paging.MemberPrefixSpells | db/cassandra.go:60 | so is the member prefix |
| Scans.EnumerateMembershipRequests | db/cassandra.go:811-898 | the list scan returns the matching decodable rows of the selection in order |
| Scans.StreamingEnumerateMembershipRequests | db/cassandra.go:715-806 | the streaming scan sends those rows and an error for each other row, in row order |
| Scans.ApplicantSelection | db/cassandra.go:825-843 | both look at the rows after the prefix and the cursor's uuid, in order: the first num of them, or all before the prefix's successor |
| Scans.ListedOne | db/cassandra.go:857-889 | a row is an item exactly when 16 bytes follow the prefix, its blob decodes and its name starts with the criterion, both in lower case |
| Scans.ListedConcat | db/cassandra.go:857-889 | the list of a table is the lists of its parts, one after the other |
| Scans.StreamedConcat | db/cassandra.go:755-799 | and so is what the stream sends |
| Scans.StreamIsList | db/cassandra.go:755-799 | the stream's items are the list, its errors the skipped rows, and without a criterion both together all rows |
| Scans.UnboundedScanIsThePrefix | db/cassandra.go:742-776 | the unbounded scan selects exactly the rows that properly extend the prefix, so none has a short key |
| Scans.PagesAreAdjacent | db/cassandra.go:731-746 | the page after the last listed uuid starts at the next row |
| Scans.PagesAreComplete | db/cassandra.go:825-889 | pages by uuid cursor together list every row after the first cursor once, in order, whatever the page size |
| Scans.EnumerateQueuedMembersIn | db/cassandra.go:917-998 | the list scan returns the decodable rows in order, and nothing but an error once there is a short key |
| Scans.StreamingEnumerateQueuedMembersIn | db/cassandra.go:1008-1090 | the streaming scan sends each decodable row and an error for each other one, short keys included |
| Scans.QueueSelection | db/cassandra.go:926-943 | both look at the rows after the prefix and the cursor's uuid, in order: the first num of them, or all |
| Scans.QueueListedOne | db/cassandra.go:967-989 | a row is an item exactly when 16 bytes follow the prefix and its blob decodes; otherwise the stream has an error |
| Scans.QueueConcat | db/cassandra.go:952-989 | the list of a table is the lists of its parts, one after the other |
| Scans.QueueStreamConcat | db/cassandra.go:1047-1081 | and so is what the stream sends |
| Scans.HasShortKeyIff | db/cassandra.go:966-970 | the list form gives up exactly when a key is shorter than the prefix |
| Scans.QueuePagesAreComplete | db/cassandra.go:926-989 | pages by uuid cursor together list every queue row after the first cursor once, in order, whatever the page size |
| Scans.QueueStreamIsList | db/cassandra.go:952-989 | the stream's items are the list, its errors the undecodable rows, together all rows |
| Listing.EveryApplicantIsListed | db/cassandra.go:811-898 | in every state steps with 16-byte uuids reach, paging lists every application, in strictly increasing uuid order |
| Listing.NoMemberIsEverListed | db/cassandra.go:633-641 | in every state any steps reach from the empty store, the members enumeration returns nothing |
| Listing.EnumerationAgreesWithDetailIff | db/cassandra.go:633-655 | after any sequential run enumeration and detail lookup give the same field for a set column exactly when it is selected; of the settable ones only the zip code is not; a null column shows as zero |
| Listing.ZipcodeIsNotShown | db/cassandra.go:633-635 | setting any member's zip code makes the two differ: the lookup has it, the enumeration does not |
| Listing.RequestsAreTheQueue | member_creator/member_creator.go:197-202 | in every state steps with 16-byte uuids reach, the account batch is handed every queue entry once, as it is stored, and no error |
| Paging.EnumerateMembers | db/cassandra.go:623-666 | the selected columns of the rows with an email, in order, as members, null columns as zero values |
| Paging.NullsReadAsZero | db/cassandra.go:633-655 | of a row of nulls each selected field is there and zero, and no other field |
| Paging.PrintMembers | member_list/member_list.go:88-114 | on any table on which the loop ends it prints what its rounds fetch, in order |
| Paging.LoopEndsIff | member_list/member_list.go:88-114 | on any table and at any page size the loop ends exactly when it ends within as many rounds as there are rows with an email |
| Paging.LoopPrints | member_list/member_list.go:88-114 | over rows kept under their email the loop ends, and fetches the pages cut by its cursor |
| Paging.PrintsAllIff | member_list/member_list.go:88-114 | at any one page size, such as the loop's 25, all rows with an email are printed once, in key order, exactly when no page ends at the first of two keys that differ by a trailing NUL |
| Paging.PrintsAllIffNoTwins | member_list/member_list.go:88-114 | at every page size alike this holds exactly when no two keys differ by a trailing NUL |
| Paging.PrintsEveryone | membersys/formvalidator.go:376 | with NUL-free addresses everyone with an email is printed exactly once |
| Paging.StrayRowEndsIff | member_list/member_list.go:97-112 | for a single row the loop ends exactly when the row's key does not come after its email and a NUL |
| Accounts.FilterAscii | member_creator/member_creator.go:53-64 | the ASCII part of a name, in order |
| Accounts.FilterByte | member_creator/member_creator.go:57-61 | of one byte: itself if it is ASCII, nothing otherwise |
| Accounts.FilterConcat | member_creator/member_creator.go:57-61 | of two names joined: the two parts joined |
| Accounts.FilteredIsAscii | member_creator/member_creator.go:53-64 | only ASCII is left, and exactly ASCII names are left alone |
| Accounts.GreatestUid | member_creator/member_creator.go:169-188 | at least 1000, at least every parseable uid in the directory, and one of these |
| Accounts.CreateAccounts | member_creator/member_creator.go:204-292 | the creation loop changes counter, directory, groups and database as the fold of its requests, failures included |
| Accounts.UidsCountUp | member_creator/member_creator.go:204-216 | assigned uids are consecutive from the greatest found, failed additions included |
| Accounts.UidWraps | member_creator/member_creator.go:208 | the next uid is greater unless the counter is at the end of 64 bits, where it becomes 0 |
| Accounts.UidsStayUnique | member_creator/member_creator.go:204-255 | no assigned uidNumber is in the directory already, parseable or not, and old entries stay |
| Accounts.PromotedHaveAccounts | member_creator/member_creator.go:204-282 | every member row changed by the creation loop has an account with its stored id, if it has a user name |
| Accounts.LeavesQueueIffPromoted | member_creator/member_creator.go:247-282 | a request leaves the queue exactly when its encoding and move succeed and, unless the run is dry or there is no name, its account is added; otherwise its row is unchanged |
| Accounts.FailedMoveStrandsRequest | member_creator/member_creator.go:250-282 | after an added account and a failed move no later run takes a request of that name out of the queue, over any number of runs, as long as no departure and nobody in between deletes the account |
| Accounts.JoinedIff | member_creator/member_creator.go:257-271 | the creations add exactly the new accounts' user names to exactly the new-user groups whose modification succeeds |
| Accounts.GroupsDiffer | member_creator/member_creator.go:332-358 | true exactly when some named group is neither a new-user nor an ignored group |
| Accounts.Depart | member_creator/member_creator.go:302-390 | deletion exactly when all named groups are expected, otherwise removal from every new-user group, then archiving; after a failed search nothing |
| Accounts.RemoveDeparted | member_creator/member_creator.go:302-396 | the departing loop changes directory, groups and database as the fold of its records |
| Accounts.LeftIff | member_creator/member_creator.go:360-374 | a group entry is gone after the departures exactly when one of them, after a search that found some other group, removed the ASCII part of its user name from that group without a failure |
| Accounts.NameIsRemovedIffAscii | member_creator/member_creator.go:262-370 | removals take a member out of a group it was added to exactly when the user name is ASCII |
| Accounts.DeletionLeavesGroups | member_creator/member_creator.go:375-384 | where the account is deleted no group changes |
| Accounts.LeavesDequeueIffArchived | member_creator/member_creator.go:317-395 | a departing record leaves its queue exactly when its search, encoding and move succeed, and is then in the archive |
| Accounts.RunBatch | member_creator/member_creator.go:66-401 | scan, creations and departures in sequence, groups included; a dry run leaves the directory as it was, any other keeps uidNumber unique while 64 bits last |
| Accounts.WholeRunKeepsAccountIff | member_creator/member_creator.go:204-396 | after a whole run a newly promoted member with a user name has their account exactly when no departure deleted that name |
| Accounts.WholeRunKeepsUidsUnique | member_creator/member_creator.go:169-396 | uidNumber stays unique in the directory over a whole run |
| BatchRuns.WholeRunIsSequential | member_creator/member_creator.go:197-396 | a whole run, dry or not and whatever fails, does to the store what a sequential run of the promotions and archivings that succeed does, so one place a person and columns in step survive it |
| BatchRuns.AccountIsDeletedIff | member_creator/member_creator.go:317-384 | when searches find what the groups hold, an account is gone after a run exactly when a departure of its name was searched and deleted and the name was in no group but new-user and ignored ones before the run |
| BatchRuns.FreshAccountIsDeleted | member_creator/member_creator.go:247-384 | a run that creates an account, promotes its member and deletes the account again |
| Accounts.DryRunLeavesDirectory | member_creator/member_creator.go:146-273 | a dry run never touches the directory |
| Accounts.DryRunMovesIff | member_creator/member_creator.go:247-396 | a dry run moves exactly the queued and departing records that can be encoded and whose move the database does not fail |
| BatchRuns.DryRunHasAccountIff | member_creator/member_creator.go:204-282 | a member row changed by a whole dry run has its account exactly when the request had no user name or the directory already held that name with that number |
| Decimal.ParseUintUndoesFormat | member_creator/member_creator.go:180-216 | an assigned uid parses back from its text |
| Decimal.ParseUintIff | member_creator/member_creator.go:180-184 | exactly the decimal texts of 64-bit numbers parse, leading zeros allowed, each to its number |
| Decimal.ParseIntIff | db/pgsql.go:627-630 | exactly the decimal texts of signed 64-bit numbers parse, signs and leading zeros allowed, each to its number |
| Decimal.ParseIntUndoesFormat | db/pgsql.go:627-630 | the plain text of a number, and with a minus of its negative, parses back as long as 64 bits hold it and not beyond |
| Barcode.MakeBarcode | membersys/barcode.go:57-66 | the barcode text is the number of the uuid's bytes, and scanned it finds the uuid exactly when the first byte is at least 0x80 |
| Barcode.LookUpStart | membersys/applicantlist.go:98-117 | a uuid is found only if it is the number's magnitude and starts with at least 0x80; text that is no number is an error; the lookup itself never fails |
| Barcode.BarcodeRoundTrip | membersys/applicantlist.go:98-117 | the printed barcode finds its uuid exactly when the first byte is at least 0x80, otherwise no lookup happens |
| Barcode.FoundIff | membersys/applicantlist.go:101-117 | any text finds a uuid exactly when it is the number of the uuid's bytes or its negative, and the first byte is at least 0x80 |
| Barcode.LookupNeverFails | membersys/applicantlist.go:109-115 | the error branch behind the 128-bit test is dead |
| Barcode.BarcodesAreDistinct | membersys/barcode.go:65-66 | a barcode stands for one application key only |

## Left out

- Survival of scan and metadata from the queue to members: promotion encodes the bare member, so it is not claimed.
- GetMemberDetailByUsername, and the streaming copy of the members enumeration, whose loop is the list's.
- Reading the database while `member_creator` runs: its requests and departures are given, as its two enumerations hand them out.
- LDAP's own consistency rules, such as a server that drops group entries of deleted accounts; only the requests sent count.
- Operations that fail at the client but take effect at the server, TTLs, replicas, quorums and write timestamps.
- PostgreSQL's enumerations, inserts and field updates; only the status moves serve as specification.
- HTTP handlers, authentication, templates, mail, barcode drawing, configuration, backup and the web front end.
- Paging.PrintMembers: requires that the loop ends; where it does not (`Paging.LoopEndsIff`) nothing is said of what it prints.
- The welcome mail and log output of the account batch.
