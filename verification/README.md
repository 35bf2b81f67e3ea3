# Verification of the Ranger IMS record store

A Dafny model of the server side of the Ranger Incident Management System and proofs about it. The
model follows the source's own branches, bounds and error cases; what it proves holds for every input
and, where requests run at the same time, for every interleaving of their database statements.

`dafny verify dfyconfig.toml` checks the project.

## The record store

Incidents, Visits and Field Reports are edited by a read, merge and version-guarded write inside two nested
bounded retry loops. `EditProtocol` states that as a machine over single statements, with any number of
requests in flight, a row lock, staged report entries, rollbacks, deadlock victims, failing statements,
deletion of the record and publication after commit. It is generic in the record: `Incident`, `Visit` and
`FieldReport` supply the merge, which each also has as a method that overwrites fields step by step.
`EditProofs`, `EditHistory` and `EditAudit` hold what every step keeps, `EditTheorems` and `EditProgress`
what follows for every run: serial equivalence, the audit log that determines the row, publication exactly
once, the charge of three rival commits for each 409, a bound on the statements of every request.
`EditAnswers` gives every answer its cause, `EditNotes` follows the notes a client sends along, and
`EditAlone` runs a request that meets no other: it gets through. `Retry` proves that the nested loops and
the one-step retry policy of the machine are the same thing. `Numbers` does the same for the allocation of
record numbers, `Membership`, `MembershipAnswers` and `Relations` for an Incident's types and links, which
are changed row by row under record and gap locks, and `Roster`, `RosterRuns`, `RosterRace` and
`RosterSpelling` for the Rangers assigned to a record, who are read by exact handle and deleted by the
database's collation. `FieldReportCreation`, `FieldReportPublished` and `FieldReportRace` add the creation
of a Field Report, whose log is written in a transaction of its own; `ReportEntries`, `ChangeText` and
`RosterText` say when the text of an entry tells its changes.

## The rest

`Cache`, `CacheRuns` and `CacheAlone`: the directory's time-limited caches, as objects and under concurrent
readers and flushers. `Claims`: sets of ids in a token. `Address` and `Normalize`: addresses in Black Rock City.
`LikePattern` and `Snippet`: literal search and its excerpts. `Events` and `EventRaces`: event groups.
`Permissions` and `PermissionChains`: two computations of who may do what. `ActionLog`: the bounded,
dropping log queue.

## Where the code falls short of what it says

Each of these is a lemma with the input that shows it, beside the exact condition under which the code
does what is meant.

- A Field Report's creation logs its summary after the report can already be edited. Then the latest entry
  can name the old summary (`FieldReportRace.RacingCreationLogsLate`), exactly under the condition of
  `FieldReportCreation.LogTellsSummaryIff`.
- A change log is one text, its lines joined by newlines
  (`ReportEntries.NewlineInAValueReadsAsTwoChanges`). It is read back exactly when no value holds a newline
  (`ChangeText.EntryIsReadBackIff`).
- Two racing detaches of one type both log its removal (`Relations.RacingDetachLogsTwice`); the removal
  entries exceed the removals by exactly the detaches that came too late
  (`Relations.TypeEntriesCountTransitions`).
- Two racing attaches of one Ranger both log that they added them (`RosterRace.RacingAttachesBothSayAdded`);
  which rivals between its read and its delete make a line wrong, `RosterRuns.LineNamesTheActIff` says.
- The database takes handles that differ in case for the same, the roster's read does not: attaching or
  detaching hub removes the row of Hub, and the latest entry about Hub still says they are on
  (`RosterSpelling.OtherSpellingTakesTheRow`). An entry tells the row of its exact handle if and only if it
  says removed or no later entry names another spelling (`RosterRuns.EntryTellsHandleIff`).
- The text of a roster entry can be that of two lines (`RosterText.HandleReadsAsRole`); exactly when it tells
  its own, `RosterText.TextTellsLineIff` says.
- A rule for a position or team with an empty name is announced as granting nobody anything
  (web/typescript/admin_events.ts:884-885), and matches everyone whose id the directory lacks and everyone off
  duty (`Permissions.EmptyOnDutyGrantsOffDuty`); exactly whom, `Permissions.MatchesBearersIff` says.
- Edits of two groups at the same time can close a cycle of parents (`EventRaces.RacingEditsCloseACycle`),
  exactly by a write that puts an event below itself (`EventRaces.StepKeepsAcyclicIff`).
- An event that had a map URL keeps it when it becomes a group (`Events.GroupCanHoldAMapUrl`), although
  groups are said to get none (api/event.go:238-239); exactly when, `Events.GroupKeepsMapUrlIff` says.
- When a former group with children is put below another group, the permissions computed for all events
  depend on the order the events are listed in (`PermissionChains.OrderDecidesInAChain`); exactly when they
  go too far, `PermissionChains.CompareBoth` says.
- A cache with a ttl longer than the time since 1986 would serve its empty value, and only such a one
  (`CacheRuns.NewCacheServesNothingIff`).

Apart from these, the repository's README.md:198-206 says that changing a type, a link or a roster bumps
the Incident's version. The code does not (api/incidentrelation.go:49-52), and the model follows the code.

## Assumptions

- A guarded UPDATE matches the row only at the expected version and then increments it
  (store/queries.sql:142-158, 362-365, 564-599). `AttachFieldReportToIncident` increments it
  unguarded (store/queries.sql:324-328).
- A transaction that ends in an error was not committed. An UPDATE or a record's insert or delete holds
  its row lock until the transaction ends; a delete that finds nothing holds the gap, which other such
  deletes share and inserts wait for. A read sees committed data. A new report entry takes the next id
  when it is inserted, not when it is committed. The shared lock that such an insert takes on its record's
  row is not modelled: it only rules interleavings out.
- The numbers of an event come from one more than the largest (store/queries.sql:331-348, 681-688), with
  the event and the number as primary key (store/schema/current.sql:65-95).
- The collation of a table (store/schema/current.sql:98-112, 331-343) gives each handle a sort key, and takes
  two handles for the same when their keys are equal. Which keys, is a parameter.
- The roster tables have no unique key but the row's id (store/schema/current.sql:98-112, 331-343). That a
  Ranger gets no second row rests on the locks: at the default isolation level a delete that finds nothing
  locks the gap. The locks are taken to cover the rows of one key only; wider ones rule interleavings out. The
  rows of a roster are listed in the order of their commits.
- The clock, random words, refreshers, a library's lower case and the collation are parameters. One
  permission check reads the clock once. A clock reading is an integer of nanoseconds, which a time column
  keeps exactly; the change log writes it in whole seconds.
- The unique key on event names (store/schema/current.sql:30) compares the letters that names may hold
  without case. The database refuses a name longer than its column (store/schema/current.sql:14), before it
  draws an id.
- Case folding in addresses is that of ASCII.

## Model

| member | source | states |
|---|---|---|
| `Retry.Jitter` | lib/rand/jitter.go:25-41 | a backoff of d is slept for at least d/2 and less than d; a nonpositive one for nothing |
| `Retry.RetryOnDeadlock` | api/helpers.go:99-112 | the body runs at most 6 times; every run but the last was a deadlock victim; the result is the last run's; the sleeps lie between 2^(runs-1) - 1 ms and twice that |
| `Retry.SleepOfAFullRetry` | api/helpers.go:48-61 | using up all 6 runs means sleeping at least 31 ms and less than 62 ms |
| `Retry.Advance` | api/helpers.go:99-112 | the retry policy never leaves the bounds of 3 CAS attempts and 6 runs of each |
| `Retry.OnePass` | api/incident.go:460-471 | one pass of the CAS loop with its deadlock loop ends where the one-step policy does, and an answer comes with no earlier run left in the database |
| `Retry.OneAttempt` | api/incident.go:460-471 | one turn of the CAS loop runs the body at most 6 times and ends with the policy's answer, or at the beginning of the next turn, or, after the third, with a conflict |
| `Retry.UpdateRecord` | api/incident.go:453-472 | the two nested retry loops answer exactly when and what the one-step policy answers, after at most 18 runs, all of which but the last were undone; so at most one run commits |
| `EditProtocol.Plan` | api/reportentry.go:132-161 | an attempt writes its change log first, if it has one, and then as many notes as are not empty, nothing else |
| `EditProtocol.PlanHasEachNote` | api/reportentry.go:147-159 | each nonempty note, with or without a change log before it, has the entry that its place among them gives it; so they keep their order |
| `EditProtocol.SerialOfLonger` | api/incident.go:474-545 | a later commit does not alter what an earlier stretch of commits amounted to |
| `EditProofs.CommitsGrow` | api/incident.go:497-541 | a commit accepted on the current row extends the serial order by one step, and every earlier commit stays accepted at its place |
| `EditProofs.EndAttemptKeepsInv` | api/incident.go:460-471 | rolling back and retrying keeps the protocol's invariant, provided each conflict was paid for by a rival commit |
| `EditProofs.ReadKeepsInv` | api/incident.go:477-495 | after the read an attempt holds a row that some prefix of the commits produced, merged by the record's own rules; nothing is written, and an answer at this point means that the record is gone or refuses |
| `EditProofs.GuardKeepsInv` | api/incident.go:497-527 | passing the version guard means the row read is still the stored one and the row lock is held; failing it means a rival committed since the read |
| `EditProofs.BystanderAfterCommit` | api/incident.go:500-510 | a commit leaves what every other request read a prefix of the serial order |
| `EditProofs.CommitKeepsInv` | api/incident.go:529-541 | committing keeps the row equal to the serial application of the commits |
| `EditProofs.DirectKeepsInv` | api/fieldreport.go:445-462 | so does an unguarded single UPDATE that bumps the version |
| `EditProofs.StepKeepsInv` | api/incident.go:474-545 | every statement of every request, in any state the protocol can be in, keeps the invariant |
| `EditHistory.QuietKeepsHistory` | api/incident.go:534-545 | who has committed and who was published change only at a commit or a publication |
| `EditHistory.NotifyKeepsHistory` | api/incident.go:541-544 | publishing happens once per request, after its commit |
| `EditHistory.CommitKeepsHistory` | api/incident.go:529-541 | a request commits at most once |
| `EditHistory.StepKeepsHistory` | api/incident.go:453-545 | every step keeps: each committed edit is past its commit, each publication belongs to a request told it succeeded, and none is doubled |
| `EditAudit.AddEntriesAdds` | api/reportentry.go:51-70 | a commit makes each staged report entry visible under its own id and disturbs no other |
| `EditAudit.InsertKeepsIds` | api/reportentry.go:51-70 | auto-increment ids of open transactions are unused, increasing, and disjoint between transactions |
| `EditAudit.CommitKeepsIds` | api/reportentry.go:51-70 | and stay so when one of them commits |
| `EditAudit.EditIsLogged` | api/incident.go:497-541 | an edit's entry holds exactly the change log its merge gives at its place in the serial order |
| `EditAudit.EditKeepsAudit` | api/incident.go:500-541 | an edit's entry gets an id larger than those of all edits before it, as the guard takes the row lock before the insert |
| `EditAudit.StepKeepsAudit` | api/incident.go:474-545 | every step keeps the audit invariant: one entry per committed edit, with its id in commit order |
| `EditAudit.UntouchedFieldStays` | api/incident.go:547-587 | a stretch of commits that do not name a field leaves it alone |
| `EditTheorems.EditsAreSerial` | api/incident.go:453-545 | serial equivalence: in every interleaving the stored row is the committed requests merged one after another in commit order, each accepted at its turn; the version counts them |
| `EditTheorems.ConflictNeedsRivals` | api/incident.go:460-472 | a 409 means at least 3 commits of other requests to the same record since the request arrived |
| `EditAnswers.PublishedOnceAfterCommit` | api/incident.go:534-545 | a request publishes exactly once if it succeeds and never otherwise; a committed edit is about to publish or has; and what succeeds has committed, or changes nothing on some row stored since it arrived |
| `EditTheorems.OneLogEntryPerCommittedEdit` | api/incident.go:497-541 | while the record exists, the change-log entries its edits wrote are those of the committed edits, one each, with ids in commit order; no edit that did not commit left one |
| `EditTheorems.AuditDeterminesRow` | api/reportentry.go:132-161 | the latest change-log entry naming a field holds the field's stored value |
| `EditTheorems.UnloggedFieldIsInitial` | api/reportentry.go:132-161 | a field that no entry names still has its initial value |
| `EditTheorems.RowInvariant` | api/visit.go:380-457 | a row property that each single merge keeps holds in every interleaving, because the guard ties the merge to the row it was checked on |
| `EditProgress.OwnStepCountsDown` | api/incident.go:453-545 | every statement a request runs brings it nearer to its answer, whatever the others did |
| `EditProgress.EveryRequestIsBounded` | api/incident.go:453-545 | a request with n notes runs fewer than 18 * (n + 6) statements, in every interleaving |
| `EditProgress.SomeoneCanMove` | api/incident.go:500-510 | no reachable state is stuck: an unfinished request, or the holder of the lock it waits for, can go on; or the record is deleted, nobody holds its lock, and the entry the request was about to insert can only fail |
| `EditNotes.GoneRecordHasNoEntries` | api/event.go:300-366 | a record that is gone has no report entries: its own went with it, and no request adds any to it, however far it had come |
| `EditAnswers.AnswersAreDeserved` | api/incident.go:453-545 | in every interleaving each answer has its cause: of a success, a commit of this very patch, or a stored row on which it changes nothing; of a 404 or 400, a failing statement, a record that is gone, or a stored row that refuses the merge; of a 500, also the last of 6 deadlocks |
| `EditAnswers.SuccessMeansCommitted` | api/incident.go:497-541 | a request that changes something on every row, and was told of success, has committed |
| `EditAlone.AloneGetsThrough` | api/incident.go:453-545 | from any state with the record there, its lock free and the merge accepted: the request's statements are a legal run, it is told of success and published, and the row is the merged one at the next version, with its entries and no others added |
| `EditAlone.AloneIsRefused` | api/visit.go:399-410 | a request that the record refuses is told so at once and has changed nothing |
| `EditNotes.NotesAreAdded` | api/reportentry.go:132-161 | committing the entries an attempt staged adds each nonempty note as an entry of its own, by this author, with ids in the order given, and no other note |
| `EditNotes.CommitKeepsEntries` | api/reportentry.go:132-161 | a commit adds the request's own entries and leaves everybody else's alone |
| `EditNotes.AllNotesOrNothing` | api/reportentry.go:132-161 | while the record exists: each nonempty note of a request told of success is an entry of its own, in the order given; a request that was not told so, or not yet, has left no entry at all |
| `Changes.ApplyStringChange` | api/helpers.go:126-132 | a given value is stored, empty as NULL, and the line logged says what the column then reads as; an absent one changes nothing |
| `Changes.LoggedLine` | api/helpers.go:126-132 | a change log's last word on a field is its last line about it |
| `Incident.ParseState` | api/incident.go:556-563 | a request's state is recognized if and only if it is the name of one |
| `Incident.NoStateIff` | api/incident.go:556-563 | a request's state is not recognized if and only if it is no state's name |
| `Incident.BuildIncidentUpdate` | api/incident.go:547-587 | the stepwise overwriting gives, for every column, the request's own value, or the stored one where the request has none, the address normalized exactly if that is asked for, and a named state sets or clears the closing time by the request's clock; and one log line per field set, in the order of the columns |
| `Incident.LinesSayEachField` | api/incident.go:547-587 | the change log's last word on each field is the request's own value for it, or nothing |
| `Incident.MergeLogsWhatItSets` | api/incident.go:547-587 | the merged row shows in each logged field exactly what the change log says, and elsewhere what was stored |
| `Incident.IncidentLaws` | api/incident.go:547-587 | the Incident merge meets everything the generic protocol asks of a record |
| `Incident.IncidentLogDeterminesRow` | api/incident.go:497-541 | for priority, state, start time and the text fields of an Incident, the latest entry naming the field holds its value, in every interleaving |
| `Incident.LastEditOfAFieldWins` | api/incident.go:497-541 | no edit is lost: a field holds what the last committed request setting it asked for, whatever requests on other fields did |
| `Incident.DisjointEditsCommute` | api/incident.go:547-587 | requests that set different fields give the same row in either order |
| `Incident.ClosingTimeAgreesWithState` | api/incident.go:556-572 | a closing time is stored exactly while the state is closed, in every interleaving |
| `Incident.ClosingTimeIsTheClosers` | api/incident.go:556-572 | and it is the clock's reading of the last committed request that named a state, if that is the closed one |
| `Incident.SuccessMeansCommitted` | api/incident.go:497-541 | a request that asks for something and was told of success has committed its own patch |
| `Incident.IncidentsRefuseNothing` | api/incident.go:474-498 | a 400 or a 404 comes of a statement that failed, or of an Incident that is gone |
| `Incident.EditAloneSetsWhatIsAsked` | api/incident.go:453-587 | a request that meets no other is told of success, and the row then has, column by column, what it asks for, at the next version |
| `Visit.ApplyStringChanges` | api/visit.go:470-575 | a stretch of text columns is overwritten and logged column by column |
| `Visit.BuildVisitUpdate` | api/visit.go:470-575 | both times are applied before the pair is checked; a refusal logs nothing and blames the end the request moved; otherwise each of the 21 text columns has the request's own text, that of the camp address normalized exactly if that is asked for, or the stored one, the times and the incident number likewise, and the log has one line per column set |
| `Visit.TextsAreAsAsked` | api/visit.go:501-575 | going over all the stretches of text columns leaves each with the text given for it, or as it was |
| `Visit.MergedIsAsAsked` | api/visit.go:470-575 | the merged row has every column as the request's body asks |
| `Visit.MergedTextsSetEach` | api/visit.go:470-575 | each text column ends with the request's value or the stored one |
| `Visit.TextLinesSayEach` | api/visit.go:470-575 | each text column set has the last line about it in the log |
| `Visit.LinesSayEachField` | api/visit.go:470-575 | for every logged field the log's last word is what the request set it to |
| `Visit.MergeSetsEachField` | api/visit.go:470-575 | and the merged row shows the same |
| `Visit.VisitLaws` | api/visit.go:470-575 | the Visit merge meets everything the generic protocol asks of a record |
| `Visit.VisitTimesStayOrdered` | api/visit.go:380-457 | no interleaving leaves a Visit that ends before it begins, even when requests move one end each |
| `Visit.EachCommitWasCheckedOnTheStoredPair` | api/visit.go:380-568 | each committed request left the pair of its own times, or the stored ones at its place in the serial order, and that very pair was checked |
| `Visit.VisitLogDeterminesRow` | api/visit.go:380-457 | the latest entry naming a field of a Visit holds its value, in every interleaving |
| `Visit.LastEditOfAFieldWins` | api/visit.go:380-457 | no edit is lost: a field holds what the body of the last committed request naming it gives for it, whatever requests on other fields did |
| `Visit.SuccessMeansCommitted` | api/visit.go:380-454 | a request that asks for something and was told of success has committed its own patch |
| `Visit.RefusedForItsTimes` | api/visit.go:399-410 | a 400 comes of a statement that failed, or of a Visit stored since the request arrived that it would have made end before it begins |
| `Visit.EditAloneSetsWhatIsAsked` | api/visit.go:380-575 | a request that meets no other and leaves the times in order is told of success, and the row then has, column by column, what it asks for, at the next version |
| `FieldReport.BuildFieldReportUpdate` | api/fieldreport.go:362-372 | the summary reads as the one given, if one is, and is logged; the attachment stays as read; without a summary nothing changes |
| `FieldReport.FieldReportLaws` | api/fieldreport.go:344-418 | the Field Report merge meets what the generic protocol asks, with attachments as unguarded writes |
| `FieldReport.EditsNeverUndoAttachments` | api/fieldreport.go:344-462 | a summary edit writes the attachment back too, yet a report stays attached where the last attach or detach put it |
| `FieldReport.AttachmentsNeverUndoEdits` | api/fieldreport.go:420-462 | among the entries of edits, the latest about the summary still holds it, whatever attaches did; the creation's own entry is in FieldReportCreation |
| `FieldReport.SuccessMeansCommitted` | api/fieldreport.go:344-418 | a summary edit told of success has committed; a 404 or a 400 comes of a report that is gone, or of a statement that failed |
| `FieldReport.EditAloneSetsTheSummary` | api/fieldreport.go:344-418 | an edit that meets no other sets the summary, keeps the attachment and is told of success |
| `FieldReport.AttachAloneIsSet` | api/fieldreport.go:420-462 | a report that nobody is writing can be attached or detached at once: its incident is then the one asked for, its summary as before, at the next version |
| `FieldReportCreation.EditsRunTheProtocol` | api/fieldreport.go:548-608 | to the requests on a new report the creation's transaction is only somebody else who draws entry ids, so everything proved about edits holds beside it |
| `FieldReportCreation.StepKeepsInv` | api/fieldreport.go:580-602 | every step keeps: the creation's entry ids are its own, increasing and unused by edits, and its one change log says the summary the report was created with |
| `FieldReportCreation.EveryLogHasItsWriter` | api/fieldreport.go:580-602 | every change log on a report was written by exactly one of: a committed edit, the creation |
| `FieldReportCreation.RowHoldsLastEdit` | api/fieldreport.go:344-418 | the row holds what the last committed summary edit asked for, and before any the created summary |
| `FieldReportCreation.LogTellsSummaryIff` | api/fieldreport.go:548-608 | in every interleaving of a creation, edits and attachments, the latest entry naming the summary holds it if and only if it is not so that the creation logged after the last summary edit had drawn its entry and that edit asked for another summary |
| `FieldReportRace.RacingCreationLogsLate` | api/fieldreport.go:548-602 | a report created with one summary and edited to another before its creation logs: the row holds the second, and the latest entry says the first |
| `FieldReportPublished.PublishedMeansLogged` | api/fieldreport.go:580-608 | while the report exists: a creation that is published has logged the summary it was given and each nonempty note, in order; one that is not through, or failed, has left no entry |
| `FieldReportPublished.FailureHasItsCause` | api/fieldreport.go:580-602 | a creation fails to log only by a failing statement, or as the victim of 6 deadlocks |
| `FieldReportPublished.CreationAlone` | api/fieldreport.go:548-608 | a creation that nobody interferes with logs and is published |
| `ReportEntries.EntryTable.Add` | api/reportentry.go:51-130 | one entry is appended to the record's log under a new id; nothing else changes |
| `ReportEntries.EntryTable.AddChangeReportEntries` | api/reportentry.go:132-161 | the record's log grows by the change log, if there are changes, and by as many entries as there are nonempty notes; each of these is at its place after it, in order, with this author |
| `ReportEntries.EntryTextIsReadableIffNoNewlines` | api/reportentry.go:139-144 | the joined text of a change log gives its lines back if and only if there is a line and none holds a newline |
| `ReportEntries.NewlineInAValueReadsAsTwoChanges` | api/reportentry.go:139-144 | where a value holds a newline, one change has the very text of two |
| `ReportEntries.EntryTable.AddNotes` | api/reportentry.go:147-159 | the record's log grows by each nonempty note, in order |
| `ChangeText.LineIsRead` | api/incident.go:564-584 | every change's line is read back as its field and value |
| `ChangeText.EntryIsReadBackIff` | api/reportentry.go:139-144 | reading an entry line by line gives its fields and values back if and only if it has some and no value holds a newline |
| `ChangeText.LogsAreWellTyped` | api/incident.go:564-584 | each field logs one kind of value |
| `ChangeText.TextTellsChanges` | api/reportentry.go:139-144 | requests whose values hold no newline leave entries with the same text only if they logged the same changes |
| `Numbers.NextNumber` | store/queries.sql:341-348 | the query returns one more than the largest number, or 1 |
| `Numbers.NumberTable.Create` | store/schema/current.sql:65-95 | the primary key refuses a number in use and nothing changes; another one is added |
| `Numbers.NumberTable.TryNumber` | api/incident.go:358-371 | one attempt fails exactly when a rival created between its read and its insert; else it adds the next number |
| `Numbers.NumberTable.NewNumber` | api/incident.go:350-382 | the allocation loop gives up exactly when every one of its 3 attempts met a rival; else it adds one new number, the largest |
| `Numbers.StepKeepsInv` | api/incident.go:358-381 | every statement of every creator keeps the numbers consecutive and each owned by its creator |
| `Numbers.NumbersAreConsecutiveAndUnique` | api/incident.go:358-381 | however creators interleave, the numbers present are exactly 1 to N, returned numbers are present, and no two creations return the same |
| `Numbers.ConflictNeedsRivals` | api/fieldreport.go:548-574 | a 409 means at least 3 other creations completed since the request arrived, and it created nothing |
| `Numbers.ErrorNeedsFailure` | api/incident.go:358-381 | a 500 means that one of the creator's own statements failed |
| `Numbers.AloneGetsTheNext` | api/incident.go:358-381 | a creator that meets no other gets the next number at its first attempt |
| `Membership.ExecKeepsInv` | api/incidentrelation.go:173-196 | inserting or deleting a row in place, under its lock, keeps every open transaction's view true and keeps transactions apart |
| `Membership.CommitAppliesWhole` | api/incidentrelation.go:205-212 | what a finished transaction did row by row amounts to its whole request |
| `Membership.CommitKeepsInv` | api/incidentrelation.go:205-212 | a commit extends the serial order by its request |
| `Membership.StepKeepsInv` | api/incidentrelation.go:120-365 | every statement of every request keeps the table equal to the committed requests in order; a check that answers found the first key as asked |
| `Relations.MembershipIsSerial` | api/incidentrelation.go:120-212 | any interleaving of attach and detach requests equals their serial application in commit order, and so does the log; a request told of success is one of them, or its first key was as asked in a table stored since it arrived |
| `MembershipAnswers.AnswersAreDeserved` | api/incidentrelation.go:143-212 | in every interleaving each answer has its cause: of a success, a commit, or a first key that was just as asked in a table stored between the request's arrival and its answer, be it at the check or at a duplicate; of an error, a failing statement, the last of 6 deadlocks, or a later key that was there already |
| `MembershipAnswers.AloneGetsThrough` | api/incidentrelation.go:120-212 | from any state without an open transaction, a request whose first key is not as asked runs its statements and is told of success: exactly its keys have come or gone, with one new entry for each, in order |
| `Relations.LastRequestOnAKeyDecides` | api/incidentrelation.go:42-47 | requests on different members commute: whether one is there depends only on the last committed request that names it |
| `Relations.EntriesCountTransitions` | api/incidentrelation.go:173-203 | a serial run of requests logs an addition for each time a member came, and a removal for each time it went or was already gone |
| `Relations.TypeEntriesCountTransitions` | api/incidentrelation.go:158-203 | "Added type" entries count the times the type came, exactly; "Removed type" entries count the times it went plus the detaches that committed when it was gone already |
| `Relations.TypeAloneIsSet` | api/incidentrelation.go:143-212 | attaching a type the Incident has not, or detaching one it has, meeting no other request: the type alone comes or goes, and the log has one entry more |
| `Relations.RacingDetachLogsTwice` | api/incidentrelation.go:143-203 | two racing detaches of one type: it goes once and the log says so twice |
| `Relations.LinksStaySymmetric` | api/incidentrelation.go:227-365 | in every interleaving of link and unlink requests from either end, with duplicate keys, failures and deadlocks, the link table is symmetric and irreflexive |
| `Relations.ReverseInsertIsNeverADuplicate` | api/incidentrelation.go:286-317 | after the first row of a link is inserted the reverse row is never already there, so a duplicate needs handling only at the first insert |
| `Relations.LinkEntriesCountTransitions` | api/incidentrelation.go:336-356 | each end's "linked" entries count the times the link came to be, exactly; its "unlinked" entries the times it went plus the unlinks that committed when it was gone already |
| `Relations.LinkAloneIsSet` | api/incidentrelation.go:267-365 | linking two Incidents that are not linked, or unlinking two that are, meeting no other request: both directions come or go, and nothing else |
| `Roster.CurrentRole` | api/ranger.go:70-84 | the loop gives the role of the first row whose handle is exactly this string |
| `Roster.LineSaysTheResult` | api/ranger.go:223-247 | whatever an attach had read, afterwards the rows the database finds for the handle, in any spelling its collation takes for the same, are exactly what the line says; the rows of every other handle are as before |
| `Roster.Table.AttachRanger` | api/ranger.go:183-272 | with rivals committing before each run and between its exact read and its collating delete: at most 6 runs, all but the last deadlock victims that wanted to write; `changed` is true if and only if the last run committed, which it did unless the roster it read had the role; then exactly one line and one notification follow; success without a commit means the role was there |
| `Roster.Table.DetachRanger` | api/ranger.go:274-319 | with rivals committing before each run: success if and only if the last run committed; then the Ranger is off in every spelling, with one line and one notification, even if they were not on |
| `RosterRuns.LocksStay` | api/ranger.go:202-262 | no two transactions hold the rows of one Ranger, however they spell the handle, nor rows another keeps the gap of; what a delete found stays what is there |
| `RosterRuns.CommitApplies` | store/queries.sql:442-452 | removing the very rows that the delete found and adding the inserted one amounts, at the commit, to the whole request on the rows of that moment |
| `RosterRuns.CommitTells` | api/ranger.go:240-262 | a commit's line becomes the latest about its Ranger, in any spelling, or agrees with the later one that stays so; about others it is silent |
| `RosterRuns.StepKeepsInv` | api/ranger.go:183-319 | every statement of every attach and detach keeps the roster invariant, for every collation |
| `RosterRuns.RosterIsSerial` | api/ranger.go:183-319 | every interleaving equals the committed requests one after another, each deleting by the collation |
| `RosterRuns.RosterLogDeterminesRoster` | api/ranger.go:202-262 | in every interleaving, the entry with the largest id about a Ranger, in whichever spelling, says exactly the rows there are for them; without one they are as they were |
| `RosterRuns.EntryTellsHandleIff` | api/ranger.go:78-83 | the latest entry about a handle as it is spelt tells what an exact read finds if and only if it says they were removed or no later entry names them in another spelling |
| `RosterRuns.UnspeltHandleIff` | api/ranger.go:78-83 | a handle that no entry spells reads as at the start if and only if no entry names the Ranger at all, or it was not there at the start |
| `RosterRuns.ChangedIffCommitted` | api/ranger.go:200-272 | a request that is over has `changed` set if and only if it committed, which it did once at most; exactly then it notified, once; it ran at most 6 times |
| `RosterRuns.SuccessHasItsCause` | api/ranger.go:200-272 | a request over with success has committed, or is an attach that some roster since its arrival answered already: an exact read of it gave the very role asked for |
| `RosterRuns.FailureHasItsCause` | api/ranger.go:262-272 | a request is over without success only if one of its statements failed, or it was the victim of 6 deadlocks |
| `RosterRuns.LastDecides` | api/ranger.go:235-247 | the last committed request that names a Ranger, in whichever spelling, decides their rows |
| `RosterRuns.OneRowPerRanger` | store/schema/current.sql:98-112 | though no unique key forbids a second row, attaches however racing leave a Ranger one row at most, all spellings together, or the rows of the start |
| `RosterRuns.LineNamesTheActIff` | api/ranger.go:214-234 | an attach's line says truly whether it added the Ranger if and only if its read found the exact handle exactly when rows stand for the Ranger after the rivals committed since: those read if none of these names them, otherwise some if the last that does is an attach and none if it is a detach |
| `RosterRace.RacingAttachesBothSayAdded` | api/ranger.go:209-262 | two racing attaches put a Ranger on the roster once and both log that they added them |
| `RosterSpelling.RunsAlone` | api/ranger.go:202-262 | a request that meets no other commits in its first run, unless it attaches with the role it reads, and its entry says what it did to what it read |
| `RosterSpelling.OtherSpellingTakesTheRow` | store/queries.sql:446-452 | for any two spellings of one handle, attaching or detaching the second takes the row of the first away without a race, and the only entry about the first still says they are on |
| `RosterText.LineIsReadBackIff` | api/ranger.go:223-234 | the text of a roster line is read back as that line if and only if its handle holds no mark that reading takes for the role's |
| `RosterText.TextTellsLineIff` | api/ranger.go:223-234 | every text belongs to exactly one line with such a clear handle; so it tells its own line if and only if that is clear, and is otherwise another line's text too |
| `RosterText.HandleReadsAsRole` | api/ranger.go:225-228 | Hub added with the role Lead, and a Ranger called "Hub (role: Lead)" added without one, have the same text |
| `Cache.InMemory.constructor` | lib/cache/cache.go:45-57 | a new cache holds nothing: the zero value, from the epoch |
| `Cache.InMemory.Invalidate` | lib/cache/cache.go:76-83 | an invalidated cache holds nothing, like a new one |
| `Cache.InMemory.Get` | lib/cache/cache.go:90-116 | data that is fresh at either check is returned and kept; otherwise the refresher's answer is returned, and stored if it is no error; an error changes nothing |
| `Cache.UserStore.constructor` | directory/directory.go:66-84 | three empty caches with one ttl |
| `Cache.UserStore.Flush` | directory/directory.go:86-93 | all three caches are invalidated |
| `Cache.UserStore.GetPositionsAndTeams` | directory/directory.go:125-136 | both or an error: each from its cache when that is fresh and fetched when not, in every combination; each successful fetch is stored, even when the other failed, and nothing else changes |
| `CacheRuns.BystanderStaysOk` | lib/cache/cache.go:90-116 | what a reader holds stays within bounds while others step, as its cache cannot be invalidated while it refreshes |
| `CacheRuns.ReaderIsOk` | lib/cache/cache.go:90-116 | each step of a reader keeps what it loads, fetches and stores no older than the last invalidation |
| `CacheRuns.FlusherIsOk` | directory/directory.go:89-93 | a flusher goes on to the next cache only after invalidating the one before |
| `CacheRuns.MutexStaysExclusive` | lib/cache/cache.go:96-98 | whoever is between lock and unlock is the mutex's one holder |
| `CacheRuns.StepKeepsInv` | lib/cache/cache.go:76-116 | every step of every reader, flusher, clock and directory write keeps the cache invariant |
| `CacheRuns.ReadAfterFlushSeesTheWrites` | directory/directory.go:86-93 | a read of any of the three caches that starts after a Flush returned yields a version no older than the directory's when that Flush began, in every interleaving |
| `CacheRuns.ReadAfterInvalidateIsFetchedAfterIt` | lib/cache/cache.go:76-116 | whatever a read returns, its fetch began after every invalidation of that cache that was done when the read started |
| `CacheRuns.ServedDataIsYoung` | lib/cache/cache.go:85-95 | what is served without a fetch is real data stored less than the ttl before it was checked |
| `CacheRuns.OneRefresherAtATime` | lib/cache/cache.go:96-104 | at most one fetch runs for each cache |
| `CacheRuns.FailureStoresNothing` | lib/cache/cache.go:104-107 | over any run, a read that ends in a failure has changed no cache |
| `CacheRuns.NewCacheServesNothingIff` | lib/cache/cache.go:70-74 | a new cache answers its first read at once, with nothing, if and only if the ttl is longer than the time since the epoch date |
| `CacheAlone.FreshCellIsServed` | lib/cache/cache.go:90-96 | a reader that finds data younger than the ttl is answered with it, with no lock taken and nothing fetched |
| `CacheAlone.StaleCellIsRefreshed` | lib/cache/cache.go:96-116 | a reader alone that finds older data fetches what the directory has, answers with it and stores it, and frees the lock |
| `CacheAlone.FailureNeedsAFailedFetch` | lib/cache/cache.go:104-107 | a read fails only by a fetch of its own that failed |
| `Claims.SetBitSets` | lib/authz/claim.go:71-77 | setting a bit sets that bit and no other |
| `Claims.IntsToBitSet` | lib/authz/claim.go:71-77 | the bit set holds exactly the ids given; there is none, as the library panics, if and only if an id is negative |
| `Claims.BitSetToInts` | lib/authz/claim.go:58-69 | the ids are the set bits, each once, in increasing order, and no bit lies beyond the length |
| `Claims.ValueOfDigits` | lib/authz/claim.go:79-81 | the base-62 text of a natural number spells that number |
| `Claims.TextRoundTrips` | lib/authz/claim.go:46-56 | every natural number survives being printed and read back |
| `Claims.NegativeIff` | lib/authz/claim.go:46-61 | text reads as a negative number, on which decoding panics, if and only if it is a minus sign before digits worth more than zero |
| `Claims.MarshalIds` | lib/authz/claim.go:113-121 | the claim's text stands for exactly the ids given, unless one is negative |
| `Claims.UnmarshalIds` | lib/authz/claim.go:141-147 | the claim is read as the sorted set of its bits; empty text as no ids |
| `Claims.SortedSetIsUnique` | lib/authz/claim.go:58-69 | there is only one increasing list with given elements |
| `Claims.RoundTrip` | lib/authz/claim.go:113-147 | every list of natural numbers comes back from a token as the increasing list of its distinct elements |
| `Address.ScannerDecidesRadialConcentric` | lib/format/address.go:28-42 | the radial/street pattern matches a text with given captures if and only if the left-to-right scan finds them, so it captures in one way only |
| `Address.ScannerDecidesConcentricRadial` | lib/format/address.go:28-42 | likewise for the street/radial pattern |
| `Address.ScannerDecidesRadialDistance` | lib/format/address.go:28-42 | likewise for the radial/distance pattern |
| `Address.PatternsAreDisjoint` | lib/format/address.go:39-43 | no text matches two of the patterns |
| `Address.NumberOfDecimal` | lib/format/address.go:101-112 | a printed number reads back as itself, without leading zeros |
| `Normalize.ReadRadial` | lib/format/address.go:76-92 | a radial is read only as an hour up to 12 and a minute up to 59 |
| `Normalize.FormatConcentric` | lib/format/address.go:94-99 | a known street comes out as a capital letter from A to L or as Esplanade |
| `Normalize.Parse` | lib/format/address.go:50-74 | whatever parses has a real clock position, a known street or a distance of one to five digits |
| `Normalize.ParsesIff` | lib/format/address.go:50-112 | an address parses exactly when, without the blanks around it, it fits one of the three patterns with an hour up to 12, a minute up to 59 and, without a street, a distance above 0 with a unit or three digits; and then to what its pieces say |
| `Address.TrimSpaceTrims` | lib/format/address.go:50-52 | trimming takes blanks away at both ends, only blanks, and leaves none there |
| `Normalize.ParseInvertsPrint` | lib/format/address.go:50-112 | every sensible meaning survives being printed canonically and parsed again, with the order it was written in |
| `Normalize.NormalizeKeepsMeaning` | lib/format/address.go:45-74 | normalizing keeps the meaning, changes nothing the second time, and leaves text that does not parse alone |
| `Normalize.SameTextIffSamePlace` | lib/format/address.go:45-74 | two addresses that parse become the same text if and only if they mean the same |
| `LikePattern.EscapeQuotesEachOnce` | api/search.go:380-385 | the three ordered replacements put one backslash before each special character and change nothing else |
| `LikePattern.QuotedMatchesItself` | api/search.go:380-385 | the escaped query matches exactly its own characters |
| `LikePattern.PercentSkips` | api/search.go:181 | a percent sign stands for any stretch of text |
| `LikePattern.SearchIsLiteral` | api/search.go:181 | a LIKE with backslash escape accepts a text against the search pattern if and only if the query occurs in it literally |
| `Snippet.DecodeInvertsEncode` | api/search.go:465 | decoding a rune inverts encoding it, whatever follows |
| `Snippet.EncodedIsValid` | api/search.go:455 | a range over encoded text visits the runes it was made from |
| `Snippet.NextBoundary` | api/search.go:455 | the range goes from one rune to the next, with none between |
| `Snippet.HasFoldPrefix` | api/search.go:463-475 | true if and only if the text's runes begin with the prefix's, case folded |
| `Snippet.IndexFold` | api/search.go:450-461 | the least offset of a rune where the query matches case-insensitively, or -1 if and only if there is none |
| `Snippet.SearchSnippet` | api/search.go:418-448 | on any bytes: nothing is sliced out of range, and the excerpt runs from the last possible rune start up to 40 bytes before the match to the first one 200 bytes later, marked where it was cut |
| `Snippet.StartsAreBoundaries` | api/search.go:432-437 | in valid text a byte looks like the start of a rune if and only if it is one |
| `Snippet.ExcerptIsWholeRunes` | api/search.go:432-437 | an excerpt of valid text is cut between runes, is at most 206 bytes long and has the start of the match in it |
| `Snippet.Excerpt` | api/search.go:190-197 | what a literal search shows: a match, if there is one, begins inside the excerpt, which is cut between runes |
| `Events.BuildEventUpdate` | api/event.go:184-265 | the checks interleaved with the overwrites accept exactly the acceptable edits; each column is then what the edit asks for, a map URL cut to its length, or as stored where it asks for nothing |
| `Events.RefusedIff` | api/event.go:184-259 | an edit is refused exactly for a name that is empty or has other characters, for a parent that is the event itself, not there or no group, or for making or leaving the event a group that has a parent or is given a URL, a time or normalization |
| `Events.NameIsAcceptedIff` | api/event.go:184-198 | an edit of the name alone is accepted if and only if the name is a nonempty one of letters, digits, underscores and hyphens |
| `Events.GroupCanHoldAMapUrl` | api/event.go:232-237 | an edit that only makes an event with a map URL a group is accepted, and the group has the URL |
| `Events.GroupKeepsMapUrlIff` | api/event.go:232-237 | an accepted edit leaves a group with a map URL if and only if the event had one and the edit does not mention it |
| `Events.EventTable.constructor` | api/event.go:147-270 | an empty table |
| `Events.EventTable.EditEvents` | api/event.go:147-270 | an id of 0 creates an event first, unless its name is taken or too long for the column, and that stays even if the rest is refused; the table then changes by exactly the accepted edit, if its name is free |
| `Events.EventTable.DeleteEvent` | api/event.go:376-383 | the event is gone, its children have no parent, and nothing else changed |
| `Events.ClimbingBackIsALoop` | api/event.go:209-226 | an event that can be climbed back to from its parent makes a cycle |
| `Events.WriteKeepsAcyclicIff` | api/event.go:209-226 | writing a row keeps the parent relation acyclic if and only if the event is not its new parent, nor above it |
| `Events.EditKeepsTree` | api/event.go:184-265 | an edit alone keeps: acyclic, no group with a parent, every parent there |
| `Events.EditKeepsNames` | store/schema/current.sql:12-30 | with the column's bound and the unique key, an edit leaves names of 128 characters at most, no two of which differ in case at most |
| `Events.SerialRunsKeepATree` | api/event.go:147-392 | over every serial run of creations, edits and deletions no group has a parent, the parent relation is acyclic and names differ and fit their column, although a group with children may stop being one |
| `EventRaces.NoGroupEverHasAParent` | api/event.go:229-231 | even when edits interleave statement by statement, no group has a parent, parents exist, and names differ and fit their column |
| `EventRaces.StepKeepsAcyclicIff` | api/event.go:216-231 | a step closes a cycle if and only if it is a write that puts the event below itself |
| `EventRaces.WriteUnderAGroupIsSafe` | api/event.go:216-224 | a write made while its target is still a group closes none |
| `EventRaces.RacingEditsCloseACycle` | api/event.go:183-270 | the guard is checked before the write and outside any transaction: two racing edits can make two groups each other's children |
| `EventRaces.DeletionDetaches` | api/event.go:376-383 | a deletion takes the event away and the parent of its children, and changes nothing else, whoever edits meanwhile |
| `EventRaces.CreationAdds` | api/event.go:162-182 | a creation adds a plain event of that name under the next id, which its edit goes on to, unless the name does not fit the column or is another event's but for case: then it adds nothing |
| `EventRaces.EditAloneIsSerial` | api/event.go:183-270 | an edit that meets no other writes the row its checks accept, if the name is free, and nothing else |
| `Permissions.ExpressionsAreUnambiguous` | lib/authz/permission.go:211-229 | a rule in force for a named person, position, duty or team matches exactly who bears that name, and is never read as another kind |
| `Permissions.MatchesOnlyInForce` | lib/authz/permission.go:197-229 | a rule matches nobody after its last moment, before its first, or off site if it is for people on site; and it matches by the star or by one of the four kinds of name only |
| `Permissions.StarMatchesIff` | lib/authz/permission.go:197-229 | within that time and at that place the star matches everyone |
| `Permissions.Resolve` | lib/authz/permission.go:138-152 | the loops over the ids give each its name in the directory, and the empty name to an id that is not in it or to being off duty |
| `Permissions.MatchesBearersIff` | lib/authz/permission.go:138-229 | a rule in force for a position or a team matches exactly those the directory says bear the name, or, if the name is empty, also everyone with an id the directory lacks and, for a position on duty, everyone off duty |
| `Permissions.EmptyOnDutyGrantsOffDuty` | lib/authz/permission.go:148-152 | a rule for the position "" on duty grants its mode to everyone off duty |
| `Permissions.MaskIsByModes` | lib/authz/permission.go:105-110 | what each mode gives, permission by permission: reading incidents and all field reports, Read and Write; writing them, Write; one's own field reports, Read, Write and Report, to write them Write and Report; visits, all but Report, to write them Write and visit-writing; the event's name and places, any |
| `Permissions.MaskFromRules` | lib/authz/permission.go:187-193 | a bit is set if and only if some rule matching the person grants it, and for each permission exactly if the mode of a matching rule is one of those that give it |
| `Permissions.ManyEventPermissions` | lib/authz/permission.go:166-195 | every event with rules gets the mask of its rules, permission by permission by their modes, and no other event gets one |
| `Permissions.EventPermissions` | lib/authz/permission.go:112-164 | one event's mask is what its own rules, unless it is a group, and its parent's rules grant, by their modes |
| `Permissions.GroupByEvent` | api/helpers.go:294-301 | the rules are grouped by event, in table order |
| `Permissions.AppendRules` | api/helpers.go:314-316 | the child gets the parent's rules appended, and no other event changes |
| `Permissions.MergeParents` | api/helpers.go:308-318 | merging in place gives each event what its parent had at the event's turn |
| `Permissions.PermissionsByEvent` | api/helpers.go:288-349 | each event's mask is what its merged rules grant, by their modes |
| `Permissions.MergedIsOwnAndParents` | api/helpers.go:308-318 | when no parent has a parent, the order of the events does not matter |
| `Permissions.BothWays` | api/helpers.go:288-349 | when every parent is a group, both computations give an event that is no group the same mask, whose bits are exactly what some matching own or parent rule grants; for a group the one-event form gives nothing |
| `PermissionChains.MergedHas` | api/helpers.go:308-318 | the merge gives an event its own rules and those of the event above any chain of ancestors, each listed after its parent's turn, that begins with it |
| `PermissionChains.InheritsExactlyIff` | api/helpers.go:308-318 | an event ends with exactly its own and its parent's rules if and only if no chain of ancestors, listed from the top down before it, leads from its parent to an event with rules |
| `PermissionChains.MergedGrants` | api/helpers.go:288-349 | what the computation for all events grants is what the event's own rules grant, its parent's, and those of the events above such chains |
| `PermissionChains.CompareBoth` | api/helpers.go:288-349 | with any events and rules, both computations give an event that is no group the same mask if and only if whatever comes from beyond its parent is granted by its own or its parent's rules anyway; the one for all events never gives less |
| `PermissionChains.AChainCanBeMade` | api/event.go:209-231 | accepted edits can lead to an event below an event below a group |
| `PermissionChains.OrderDecidesInAChain` | api/helpers.go:308-318 | there the leaf gets the top group's rules or not depending on the order of the list, and never in the one-event form |
| `ActionLog.StepKeepsInv` | store/actionlog/actionlog.go:60-104 | every operation of a caller or the worker keeps the accounts balanced |
| `ActionLog.NothingIsLostUncounted` | store/actionlog/actionlog.go:60-104 | in every interleaving the calls are the rows attempted, in hand and queued, in call order, and the drops, reported or counted or about to be; at most 1024 rows wait |
| `ActionLog.CallIsLostIffFull` | store/actionlog/actionlog.go:66-78 | a call never waits; its row is lost, and to be counted, if and only if 1024 wait, and is otherwise the last in line |
| `ActionLog.TurnOfTheWorker` | store/actionlog/actionlog.go:82-104 | a turn of the worker that nobody comes between attempts the oldest row and reports every drop counted so far |
| `ActionLog.Logger.constructor` | store/actionlog/actionlog.go:45-58 | an empty queue |
| `ActionLog.Logger.Log` | store/actionlog/actionlog.go:60-78 | a call never waits and touches nothing written: while there is room its row is the last in line; at 1024 waiting it is only counted; a disabled log takes none |
| `ActionLog.Logger.LogAll` | store/actionlog/actionlog.go:66-78 | of many calls, as many of the first rows as there is room for are queued, in order, and the others are counted |
| `ActionLog.Logger.WriteNext` | store/actionlog/actionlog.go:82-92 | the worker attempts the oldest row waiting, and after that no drop is unreported |
| `ActionLog.Logger.Work` | store/actionlog/actionlog.go:82-92 | over many rounds of calls and one row written, the rows attempted are the oldest queued; the number waiting and the number lost follow from the numbers of calls alone; no drop stays unreported |

## Left out

- HTTP, JSON, routing, cookies, sign-in, attachments, the front end: no state to reason about.
- The refusal of whole-list fields in an edit (api/incident.go:436-451): a check on the request alone.
- The publications for Incidents that a Visit's edit also names, and those of attaching a Field Report: the record's own publication is modelled.
- The log entry of attaching a Field Report (api/fieldreport.go:463-470): it is written in a statement of its own after the UPDATE, so it is not tied to it.
- The rendering of a log line in the protocol: there a line is a field and a value, and a time its whole seconds.
- The Visit's text columns are a map from field to text, gone over in the source's order, not one struct field each.
- The first edit of a new Incident or Visit after its number is allocated: it is an ordinary edit request.
- 32-bit overflow of versions and numbers; the 64-bit bound of an id in a token.
- Truncation of a role to 128 bytes (api/ranger.go:196), and of a map URL inside a multi-byte character.
- A handle longer than its column: the database refuses its insert, which is one of the failures that may come at any statement; that it must come is not stated.
- Deletion of a record under roster, type or link requests.
- Roster.Table.AttachRanger: rivals commit whole requests between its statements; single statements interleave in RosterRuns.
- The wording of lines other than an Incident's (ChangeText) and a roster's (RosterText), and of a time: any clock that tells seconds apart.
- The action log's mode for tests, in which a call writes its row itself.
- ActionLog.Logger.Work: calls come between the worker's turns; single operations interleave in the machine beside it.
- Regular-expression searches, whose match is the library's; the excerpt is proved for any match offset.
- The global permissions (api/helpers.go:273-286): they depend on no table.
- Non-ASCII case folding in addresses, such as the Kelvin sign for K.
- Replacement of event access, places and directory memberships: last write wins, with no protocol.
- Deletion of an event's other rows, whose order only serves foreign keys: only the children and the row are modelled, and the disappearance of a record under its editors.
- Numbers.NumberTable.NewNumber: rivals complete whole creations between its statements; the interleaving of single statements is the machine beside it.
- Cache.InMemory.Get: one caller at a time; concurrent callers are the machine in CacheRuns.
