# SkyMail: verification models

Dafny models of the parts of SkyMail whose guarantees span several functions
and hold over every run, with machine-checked proofs of those guarantees. Each
operation that changes state is a method on a class, proved equal to a step of
a specification; the guarantees are lemmas about those steps and about all
sequences of them. `dafny verify dfyconfig.toml` checks everything.

| part | files |
|---|---|
| A template and its version history: drafts, publish, restore, discard, direct writes, the Template seed | `Templates.dfy` (the steps), `TemplateStore.dfy` (the store's methods), `TemplateCalls.dfy` (each call's answer, field by field), `TemplateProofs.dfy`, `TemplateRoundTrips.dfy`, `JsxSource.dfy` |
| Bounce reports: reading them, recording them, polling a mailbox for them | `Dsn.dfy`, `SkipSpace.dfy`, `Bounces.dfy`, `BounceFields.dfy` (each report's answer, field by field), `Reader.dfy`, `ReaderLinks.dfy` (which polls move the link, and the counts) |
| Account erasure over the 22 tables it touches | `Erasure.dfy` (the statements, the command, its methods), `ErasureExact.dfy` (what is left, row by row), `ErasurePlainly.dfy` (who the person is and what mentions them), `ErasureRows.dfy` (what is left, told from the command and the rows alone), `ErasureProofs.dfy`, `ErasureDone.dfy`, `ErasureResults.dfy`, `ErasureCompletes.dfy`, `ErasureAgain.dfy`, `ErasureLinks.dfy`, `ErasureNames.dfy`, `ErasureApprovals.dfy`, `ErasureCounts.dfy`, `ErasureTallies.dfy`, `ErasureCases.dfy` (databases at which a result's condition is needed) |
| What core is asked: accounts' addresses in batches, audiences page by page | `Consent.dfy`, `ConsentAddresses.dfy` (the addresses, character by character) |
| Shared | `Options.dfy`, `Text.dfy` |

## How to read it

**Templates.** The state is one template: its row and its versions in the order
they were written; a version's id is its place in that order. A transaction
holds the row's lock, so each is one step. The statements of `query.sql` have
the semantics written there. `Inv` holds of every run; on it rest the results
about lost updates, the seed's rules and the round trips.

**Reports.** Graph, the clock and the database are arbitrary: `World` answers
each delta request, each fetch and each store as it likes, including a store
that happened though the call failed. A mailbox is a log of messages that only
grows; a message may be gone from any poll on, and stays gone. Only for the
results on handling once is Graph held to its word (`Honest`): a page lists, from
its link on and also after a restart, at least every message still there, and a
fetch gives the message, fails, or finds it gone. SHA-256 is any function;
nothing needs it to be injective, a collision only makes a report a duplicate.

**Erasure.** Every statement of `account_erasure.go` is a `Step` over the
tables, run by `Eraser` in the order of the file. `Erased` says what is left of
each table without any order, from the tables at the start; `ErasureIsExact`
proves that the 34 statements in turn leave exactly that. `IsWhatIsLeft` says it
again from the command and the rows alone, without the person's `Look`:
`IsThem` is a text that stands for them, an address of the command in any case
or the full name of a row of theirs, and a text `Mentions` them that has such a
text in it. `IsCommand` is what
the route lets in: every address has an `@` and no white space, and the subject
is not the stand-in's. The stand-in's own address is let in, and no result leaves
it out. `Sound` is what the database's unique indexes and deferred triggers keep
of the tables: a statement that breaks an index is refused, a transaction whose
tables break a trigger does not commit, and either way nothing is kept of it.

**Text.** A string is a sequence of bytes. Lower-casing folds ASCII only, in
the program and in the database alike.

## Where the code and its comments disagree

The models follow the code. Each difference is proved.

- The comment on `keepNamesSteps` (account_erasure.go:407-409) says these
  statements change nothing the names are read from. They delete mail to the
  person still waiting, whose name is read at line 252. `NamesAfterWaiting` says
  exactly which names the next call still finds; `ANameIsLost` is a database in
  which another person's mail keeps the name after the erasure completed.
- Mail to others whose status is NULL is neither waited for nor cleared, since
  `status IN (...)` skips it. `MailTextsGoneExactly`: mail texts are gone if
  and only if no such mail named the person at the start;
  `AMailWithoutStatusIsKept` is a completed erasure that leaves one.
- A repeated call is said to finish the erasure once the mailer is done
  (account_erasure.go:136-142). It need not: "mail to the person" (769-787) empties
  the address of a sent mail and leaves its `source_ref`, and
  `idx_mail_queue_news_once` takes a News record once for each address
  (db/migrations/20261025190100_add_mail_queue_news_once_index.up.sql:14-16).
  `CompletesExactly`: a first call is rolled back if and only if no mail is in
  flight and two mails of one record would be left without an address.
  `SecondOfARecordIsRefused`: of the people a record's mail went to, one can be
  erased; `TheSecondIsNotErased` is two people, with nothing in flight.
- A name or an address written encoded in a tracked link is said to be searched
  for URL-decoded (account_erasure.go:528-535). `linkNames` (583-599) drops a
  decoded form on any error, and one `%` that begins no escape, anywhere in the
  link, is an error; `tracking.Trackable` (internal/tracking/links.go:153-177)
  takes such a link, since `url.Parse` does not check the query.
  `WrittenLinkIsClearedExactly`: the link is cleared if and only if only mail to
  the person had it, it can be unescaped, or it holds a needle as it stands;
  `ALinkKeepsTheName` is a tracked link, `https://x/?d=50%&n=a%20b`, that keeps
  the name after the receipt.
- The route refuses the stand-in's subject and not its address: `plainAddress`
  (internal/handlers/account_erasure.go:244-262) takes it among the person's.
  `ReceiptMeansGone`: a row of the person is left if and only if it is among them
  and a request to people went to the person alone; the row is the stand-in put
  in there. `AStandInIsTheirs` is a command at which this happens, and at which
  erasing again counts it again, against `ErasingAgain`'s other case.
- `query.sql` (221-246) says a write that changes nothing a version holds
  records nothing. It records one if and only if its `react_email_content` holds
  no JSX source while the version sent keeps one and is not an HTML version of
  just the HTML it sends: `WritingTheSameRecordsExactly`, for every write, and
  `SeedingTheSameRecordsExactly`. `WritingTheSameCanRecord` is a history of
  writes the routes take, the last with a comment for JSX. Sending the row back
  just as it is does so only with an empty `react_email_content`, which no route
  takes: `ResendingTheRowRecordsExactly`, over every run.
- `OutcomeHard` is said to suppress the address (bounce.go:216-226).
  `HardFailureSuppresses`: the address the report matched is suppressed if and
  only if it has something before and after an `@` and `strings.TrimSpace` and
  `btrim` trim it alike. `PaddedIsSuppressedElsewhere` is a row that fails the
  second: its address is stored as Keycloak gave it (internal/handlers/mail.go:205)
  and trimmed before it is parsed and sent (internal/mailer/graph.go:90-100). The
  first has no such row, since an address without both parts is never sent
  (internal/mailer/graph.go:93-97, internal/mailer/channel.go:227-232); `UnmailableIsNotSuppressed`
  only shows what the query would do with one.
- `readStatus` accepts up to two blocks more than `maxRecipients`, since the end
  of the part is tested before the limit (dsn.go:195-203): `ReadsExactly`.

## Model

| member | source | states |
|---|---|---|
| `TemplateStores.TemplateStore.SaveTemplateDraft` | internal/database/template_drafts.go:88-114 | the version table after a save, and its result or error, are the save step's: lock, base, continued version, content kept, sources checked, draft written once |
| `TemplateStores.TemplateStore.RestoreTemplateVersion` | internal/database/template_drafts.go:124-149 | a restore is the restore step: a draft of the old content on the version sent now, or an error and no change |
| `TemplateStores.TemplateStore.PublishTemplateDraft` | internal/database/template_drafts.go:162-198 | a publish is the publish step: every refusal in order, nothing changed by one; else the version marked and the row copied together |
| `TemplateStores.TemplateStore.DiscardTemplateDraft` | internal/database/template_drafts.go:205-227 | a discard marks the draft and nothing else, never a published version |
| `TemplateStores.TemplateStore.FindDraftInProgress` | internal/database/template_drafts.go:299-314 | the loop over every operator's draft finds the author's newest version exactly when it is neither published nor discarded |
| `TemplateStores.TemplateStore.FindContinued` | internal/database/template_drafts.go:251-260 | a save continues the author's draft in progress on the same base, else the base |
| `TemplateStores.TemplateStore.InsertDraft` | internal/database/template_drafts.go:266-295 | sources and check refuse before anything is written; content the continued version holds already is not written again |
| `TemplateStores.TemplateStore.WriteAndRecord` | internal/database/template_versions.go:50-67 | the row and, when it differs from the version sent, a published version of it are written together |
| `TemplateStores.TemplateStore.PublishTemplateWrite` | internal/database/template_versions.go:35-43 | a direct write is the panel step, and leaves no trace when it fails |
| `TemplateStores.TemplateStore.FindConflict` | internal/database/template_seed.go:157-197 | the rules that hold, in order, and the versions they name |
| `TemplateStores.TemplateStore.SeedTemplateByKey` | internal/database/template_seed.go:81-131 | savepoint, rollback and refusal are the seed step: an unforced seed that would write over an operator leaves row and history as they were but for the refusal |
| `TemplateCalls.PublishExactly` | internal/database/template_drafts.go:151-198 | from row and version alone: not found, already sent and so repeated with nothing changed, another published version, discarded, stale with its id, base and the version sent, refused by the check, or sent; a draft of an open template that is not discarded and that the check takes is sent if and only if its base or the version named is the one sent now, and which fields the row then holds |
| `TemplateCalls.SaveExactly` | internal/database/template_drafts.go:88-114 | every error of a save and when; else what is stored, field by field, and whether it was written: what is saved passed the check |
| `TemplateCalls.RestoreExactly` | internal/database/template_drafts.go:124-149 | every error of a restore and when; else a draft of the whole old content on the version sent now |
| `TemplateCalls.DiscardExactly` | internal/database/template_drafts.go:200-227 | the mark alone, of a version never published; else which error |
| `TemplateCalls.ContinuedExactly` | internal/database/template_drafts.go:251-260 | the version continued is the author's newest when it is an undiscarded draft on the same base, else the base |
| `TemplateCalls.CandidateExactly` | query.sql:257-281 | each field of the version a write is recorded as, by whether the row has a JSX source and sends the body of the version sent |
| `TemplateCalls.PanelExactly` | internal/database/template_versions.go:35-67 | a panel write: the row's every field after it, or which error and nothing |
| `TemplateCalls.SeedExactly` | internal/database/template_seed.go:81-131 | a seed: failed with nothing changed, refused with only the refusal kept and its first time, or the row with its fields, open and without a refusal, and whether a conflict was overridden |
| `TemplateCalls.FirstSeedExactly` | query.sql:12-28 | a first seed: every field of the new row and of its version |
| `TemplateCalls.ErasingExactly` | internal/database/account_erasure.go:653-660 | an account erasure takes its author off every version they signed and changes nothing else of any |
| `TemplateStores.ListDrafts` | query.sql:395-411 | lists exactly each operator's newest version that is neither published nor discarded |
| `Templates.NewestOf` | internal/database/template_drafts.go:299-314 | the newest version an operator with the subject wrote, if any |
| `Templates.LastSeed` | query.sql:360-386 | the last version a Template seed wrote, if any |
| `Templates.OperatorVersions` | internal/database/template_seed.go:168-185 | exactly the operators' versions from an index on that are not discarded, oldest first |
| `TemplateProofs.RunKeeps` | internal/database/template_drafts.go:151-198 | in every reachable state the row's name, subject, HTML, plain text and JSX source are those of the version it names; every version holds its Main source; none is both published and discarded; every base is an earlier published version |
| `TemplateProofs.CandidateHolds` | query.sql:247-313 | the version built from any row says what the row sends and holds its Main source |
| `TemplateProofs.NoLostUpdate` | internal/database/template_drafts.go:151-198 | at every step of every run, the version sent is replaced only by one that started from it or by a publish that named it |
| `TemplateProofs.HistoryOnlyGrows` | internal/database/template_drafts.go:200-227 | no later state changes what a version holds or its base, or unsets its marks, nor who wrote it until their account is erased |
| `TemplateProofs.DiscardedIsNeverSent` | query.sql:498-509 | a draft discarded at any time is not the version sent at any later one |
| `TemplateProofs.EveryPublishedVersionIsBuiltOn` | internal/database/template_drafts.go:151-198 | in every run without overrides, every version ever published is in the ancestry of the one sent now |
| `TemplateProofs.WordsHold` | internal/database/template_seed.go:157-197 | over every run, the last seed's version is the one sent exactly when a seed made the last change of what is sent |
| `TemplateProofs.RulesExactly` | internal/database/template_seed.go:157-224 | in every run: published_by_operator if and only if an operator last changed what is sent; newer_operator_version if and only if an operator's undiscarded version is newer than the last seed; operator_subject if and only if the subject sent is neither the last seed's nor the one asked for, and never without the first |
| `TemplateProofs.ConflictExactly` | internal/database/template_seed.go:157-197 | in every run a seed meets a conflict if and only if an operator had the last word on what is sent or has newer work; the conflict names the version sent, the last seed's, and exactly the operators' versions since |
| `TemplateProofs.RecordedSeedSettles` | internal/database/template_seed.go:68-131 | a seed that records a version, forced or not, leaves no rule holding for any next payload and no refusal |
| `TemplateProofs.RefusedExactly` | internal/database/template_seed.go:81-131 | refused if and only if unforced, in conflict and differing; a refusal changes nothing but the refusal fields, a failure nothing at all |
| `TemplateProofs.RefusalKeepsItsFirstTime` | query.sql:60-78 | the same payload refused again keeps its first time, another starts over |
| `TemplateProofs.ForcedSeedOverrides` | internal/database/template_seed.go:116-153 | what a forced seed reports as written over: the versions it named, none of them sent any more |
| `TemplateProofs.RepeatingSeedLiftsNothing` | internal/database/template_seed.go:68-80 | a seed that repeats an operator's published content changes nothing and a later differing one is still refused |
| `TemplateRoundTrips.RestoreThenPublish` | internal/database/template_drafts.go:116-198 | a restored version publishes without an override from every state, never stale, and the template then sends exactly that version's content, also when the restore repeated an existing version |
| `TemplateRoundTrips.SavedAsGiven` | internal/database/template_drafts.go:88-114 | a save stores what it was given and keeps each source and name it left out; the template sends what it did |
| `TemplateRoundTrips.WritesSendTheirFields` | internal/database/template_versions.go:24-67 | a direct write sends exactly its fields, the version sent says the same, and a version it adds is the writer's, on the version sent before |
| `TemplateRoundTrips.NextSaveContinues` | internal/database/template_drafts.go:249-260 | the version a save returns is the one the author's next save on that base continues |
| `TemplateRoundTrips.SavingAgainWritesNothing` | internal/database/template_drafts.go:78-114 | repeating a save writes nothing and returns the same version |
| `TemplateRoundTrips.SavesNeverDropASource` | internal/database/template_drafts.go:316-336 | over any interleaving of any operators' saves on one base, a source an author's version holds stays in all their later ones |
| `TemplateRoundTrips.RecordsNothingExactly` | query.sql:221-246 | exactly which row writes record no version |
| `TemplateRoundTrips.WritingTheSameRecordsExactly` | query.sql:221-246 | a direct write of any fields that change nothing the version sent holds records a version if and only if it gives no JSX source, that version keeps one, and its HTML is not the Main source as it is; and exactly which version |
| `TemplateRoundTrips.SeedingTheSameRecordsExactly` | query.sql:221-246 | the same of a seed's fields |
| `TemplateRoundTrips.ResendingTheRowRecordsExactly` | query.sql:221-246 | over every run, sending the row back as it is records a version only when its react_email_content is empty and the version sent keeps a JSX source beside another Main source |
| `TemplateRoundTrips.WritingTheSameCanRecord` | internal/requests/template.go:7-38 | a history from an empty template, of fields the routes take only, after which the same fields written again record a version |
| `JsxSources.LineCommentIsSkipped` | db/migrations/20260923120000_create_template_versions.up.sql:88-106 | a line comment, whatever is in it, is no source and hides nothing after its newline |
| `JsxSources.BlockCommentIsSkipped` | db/migrations/20260923120000_create_template_versions.up.sql:88-106 | a block comment ends at its first close |
| `TemplateCalls.OthersAreKept` | db/migrations/20260923120000_create_template_versions.up.sql:88-106 | every other character is kept, a block comment never closed included |
| `TemplateCalls.SourceExactly` | db/migrations/20260923120000_create_template_versions.up.sql:88-106 | code is a JSX source, whole, if and only if something but white space is left of it |
| `Dsn.SplitMessageIds` | internal/dsn/dsn.go:363-377 | the loop gives the specification's ids and ends on every header |
| `Dsn.WrittenIdsAreRead` | internal/dsn/dsn.go:363-377 | any ids without > written with any separators without < are read back, all and in order |
| `Dsn.ParsesExactly` | internal/dsn/dsn.go:388-392 | a 36-character text is a UUID's if and only if it is its canonical form, in either case |
| `Dsn.NamesExactly` | internal/dsn/dsn.go:379-393 | an id names a queue row if and only if it is the row's UUID at the sender's own domain |
| `BounceFields.CanonicalFormExactly` | internal/dsn/dsn.go:379-393 | a UUID is written as 8, 4, 4, 4 and 12 hexadecimal digits in lower case with dashes between |
| `Dsn.FindQueueId` | internal/dsn/dsn.go:342-360 | the two loops give the first id, over the headers that decide, that names a row |
| `Dsn.WrittenQueueIdIsRead` | internal/dsn/dsn.go:334-360 | the row the mailer wrote is found: in the Message-ID, in X-SkyMail-Queue-Id beside a foreign one, or in In-Reply-To or References when nothing was returned |
| `Dsn.ReturnedHeadersDecide` | internal/dsn/dsn.go:334-360 | once a header was returned nothing else in the report changes whose mail it is about |
| `BounceFields.RowIsDecided` | internal/dsn/dsn.go:334-360 | over every message: whose mail a parsed report is about, from the headers read of it: the first id of the returned Message-ID and queue header that names a row when either was returned, else of In-Reply-To when there is one, else of References |
| `BounceFields.ReturnedIdDecides` | internal/dsn/dsn.go:334-347 | the returned Message-ID decides whatever any other header says, and the queue header beside a Message-ID that names no row |
| `BounceFields.ForgedHeadersChangeNothing` | internal/dsn/dsn.go:334-360 | a forged In-Reply-To or References changes neither the database nor the outcome once a header was returned, nor References beside an In-Reply-To, nor the report's own Message-ID beside the mailbox's id |
| `Dsn.ReadStatusPart` | internal/dsn/dsn.go:186-218 | the loop over blocks, its two limits in their order and the recipients built from the blocks are the specification, errors included |
| `Dsn.ReadsExactly` | internal/dsn/dsn.go:186-206 | every block is read, in order, if and only if at most maxRecipients + 1 come before the last; so at most maxRecipients + 2 are |
| `BounceFields.PartIsReadExactly` | internal/dsn/dsn.go:186-218 | which error ends the reading of a part, in the order they are tested, or exactly which blocks are read |
| `BounceFields.RecipientsExactly` | internal/dsn/dsn.go:208-218 | the recipients are all blocks but a first one with neither a Final-Recipient nor an Action, in order |
| `BounceFields.RecipientFieldsExactly` | internal/dsn/dsn.go:251-278 | which field of a block each field of a recipient is read of |
| `Dsn.RecipientIsABlock` | internal/dsn/dsn.go:208-218 | every recipient a report is parsed to is built from one of its own blocks |
| `Dsn.CodeAtExactly` | internal/dsn/dsn.go:244-248 | a code is found at a place exactly when one stands there as a word of its own: class, subject and detail of one to three digits |
| `Dsn.FirstCodeExactly` | internal/dsn/dsn.go:244-248 | the code taken from a Diagnostic-Code is the first that stands in it |
| `BounceFields.ReplyIsRead` | internal/dsn/dsn.go:244-258 | a reply code is three digits of class 2, 4 or 5 after white space at the start, before a blank, a dash or the end |
| `BounceFields.TokenAtExactly` | internal/dsn/dsn.go:244-248 | an AS(…) token stands at a place exactly when one to twelve digits do, in brackets, as a word of their own |
| `BounceFields.FirstTokenExactly` | internal/dsn/dsn.go:244-248 | the token taken is the first that stands |
| `BounceFields.DiagnosticIsCut` | internal/dsn/dsn.go:259-263 | a Diagnostic-Code is read after its first semicolon, of type smtp in any case only |
| `BounceFields.FirstWordIsRead` | internal/dsn/dsn.go:308-314 | the first word of a field |
| `Dsn.FieldIsCut` | internal/dsn/dsn.go:288-306 | an address field is read at its first semicolon: the address after it, lower-cased and without its brackets, exactly when the kind is rfc822 or utf-8 and the address is plain, else none |
| `Dsn.WrittenAddressIsRead` | internal/dsn/dsn.go:288-306 | a plain address written with either kind, in any case, bare or in brackets, with any white space around both, is read whole, lower-cased |
| `BounceFields.AddressIsReadExactly` | internal/dsn/dsn.go:288-306 | which addresses are read at all: with an @ and no blank, tab or bracket left |
| `BounceFields.UnbracketedExactly` | internal/dsn/dsn.go:302 | one bracket is taken off each end where there is one |
| `Dsn.ChosenStatusIsSound` | internal/dsn/dsn.go:264-276 | the code kept is a code or none; the Diagnostic-Code's if and only if there is one and no Status, or the Status says only its class and that class is the code's; else the Status |
| `BounceFields.ClassOnlyExactly` | internal/dsn/dsn.go:264-276 | of all codes exactly those ending in a subject 0 and a detail 0 say only their class |
| `Dsn.AddressStatusesExactly` | internal/dsn/dsn.go:435-457 | of all status codes, however their digits are written, exactly 5.1.n with n of 0 to 6 and 10 are about the recipient's address |
| `SkipSpace.Compact` | internal/dsn/dsn.go:170-178 | compaction in place keeps exactly the bytes that are not white space, in order |
| `SkipSpace.Skipper.Read` | internal/dsn/dsn.go:165-182 | one read: what it gives is what is kept of what it took, never nothing without the end or an error, and it passes on the inner reader's end or error |
| `SkipSpace.ReadAll` | internal/dsn/dsn.go:156-182 | for every input and every cutting by both sides, the bytes read are the input without CR, LF, blanks and tabs, or that of what came before an error |
| `SkipSpace.KeptJoins` | internal/dsn/dsn.go:165-182 | what is kept does not depend on where the input is cut |
| `SkipSpace.KeptOfOne` | internal/dsn/dsn.go:170-178 | of one byte nothing is kept if and only if it is CR, LF, a blank or a tab |
| `Bounces.Pick` | internal/bounce/bounce.go:230-246 | the first failure or delay naming the address, and only without one the first of any; none only when there is none |
| `Bounces.PickBlock` | internal/bounce/bounce.go:230-246 | the loop is Pick |
| `Bounces.BounceStore.RecordReport` | internal/bounce/bounce.go:165-228 | one transaction is the record step: which row, which block, once, and when it suppresses |
| `Bounces.BounceStore.Handle` | internal/bounce/bounce.go:122-163 | from the MIME parts on: the report is parsed, and processing commits the record step or, in a dry run, nothing, with the same outcome |
| `BounceFields.MessageIsHandledExactly` | internal/bounce/bounce.go:122-163 | over every message: which outcome or error, with nothing changed, or the row and the name it is recorded of: the deciding headers' row, and the mailbox's id or, without one, the report's own Message-ID |
| `BounceFields.NothingRecordedExactly` | internal/bounce/bounce.go:165-185 | unmatched if and only if the row is not e-mail that was sent to someone at most two minutes after the report came; reporting no failure if and only if no block failed or was delayed |
| `BounceFields.RecordedExactly` | internal/bounce/bounce.go:186-228 | every field of the bounce recorded, once, of the first block that names the address or else the first of any; which of delayed, permanent, soft and another's the outcome is; and that only a permanent failure of the row's own address suppresses |
| `BounceFields.SuppressedExactly` | query.sql:2320-2338 | every field of the suppression written, the subject kept included, at an address the table takes; or nothing |
| `Bounces.BounceStore.Evaluate` | internal/bounce/bounce.go:115-120 | from every state Evaluate returns Process's outcome and changes nothing |
| `Bounces.EveryRunFollows` | internal/bounce/bounce.go:111-228 | over any reports: no mail changes, bounces only grow, each new one is about an e-mail that was sent, each report is recorded at most once, and the suppressions are those the recorded bounces replay to |
| `Bounces.ReplayExactly` | query.sql:2320-2339 | an address is suppressed if and only if it was or a recorded bounce is its permanent failure; it counts one for each, and keeps a failure's row and codes |
| `Bounces.FailuresAreTold` | internal/bounce/bounce.go:111-228 | over any run, every permanent failure recorded comes from a report of the run that names the mail and has a block whose own Action, Status or Diagnostic-Code, and recipient fields say that the mail's own address failed, with the codes recorded |
| `Bounces.EverySuppressionTraces` | internal/bounce/bounce.go:203-228 | every suppression a run adds or changes is the address of a mail that was sent, with the codes of a recorded failure told by a block of one of the run's reports; none is removed |
| `Bounces.HardFailureSuppresses` | internal/bounce/bounce.go:203-228 | OutcomeHard records one matched bounce with the codes of a block naming the address matched; that address is suppressed, with this mail and reason, if and only if it has something on both sides of an @ and both trims agree; no other entry but the row's own changes |
| `Bounces.PaddedIsSuppressedElsewhere` | query.sql:2324-2332 | a row on which the trims differ: the address matched is not suppressed, another text is |
| `Bounces.UnmailableIsNotSuppressed` | query.sql:2324-2332 | a row with nothing after its @, which the mailer never sends: were it matched, nothing would be suppressed |
| `Bounces.HardReasonIsStorable` | internal/bounce/bounce.go:248-259 | for every block parsed, the reason of a permanent failure satisfies the suppression table's check |
| `Bounces.EveryBounceIsStorable` | db/migrations/20261021090000_create_mail_bounces_and_suppressions.up.sql:24-46 | for every block parsed, what is recorded satisfies the bounces table's checks on kind, action, status, reply code and Exchange code |
| `Bounces.HandledIsSettled` | internal/bounce/bounce.go:184-202 | a report handled once, dated or not, changes nothing when handled again, at any time; one without a date handled before its mail was sent apart |
| `Bounces.SettledStays` | internal/bounce/bounce.go:184-202 | and stays so whatever else is handled |
| `Readers.Reader.Read` | internal/bouncereader/reader.go:239-268 | one item: gone, too large, failed, or counted and processed, with a store that may fail before or after it wrote |
| `Readers.Reader.ReadPage` | internal/bouncereader/reader.go:206-214 | a page's items in order, up to the first failure |
| `Readers.Reader.ReadToTheEnd` | internal/bouncereader/reader.go:184-219 | the loop over pages with its restart and bound is the specification, and makes at most maxPages delta requests |
| `Readers.Reader.PollMailbox` | internal/bouncereader/reader.go:169-234 | a poll, its requests and its stored link are the poll step, with at most maxPages delta requests |
| `ReaderLinks.PollSucceedsExactly` | internal/bouncereader/reader.go:169-234 | a poll succeeds if and only if the link is read, the poll recorded, and from the stored link or the first the pages lead on, within maxPages, to one with a delta link, every message on the way read |
| `ReaderLinks.LinkMovesExactly` | query.sql:2424-2440 | a poll that succeeds stores, for its own mode only, the delta link of its last page, never empty, and the next starts there; any other poll leaves every link as it was |
| `ReaderLinks.MovedLinkBounds` | internal/bouncereader/reader.go:165-234 | after it, of an honest Graph, every message before where that page leads was handled, removed, gone or too large |
| `ReaderLinks.PutToTheDatabaseExactly` | internal/bounce/bounce.go:122-142 | which messages a database failure can stop a poll at |
| `ReaderLinks.AddsExactly` | internal/bouncereader/reader.go:43-62 | the counter of an outcome goes up by one and no other moves |
| `ReaderLinks.ReadsCountExactly` | internal/bouncereader/reader.go:239-268 | which counters each message read moves, and by how much |
| `ReaderLinks.PageCountsExactly` | internal/bouncereader/reader.go:206-214 | and each page's messages, one after the other |
| `ReaderLinks.TotalsGrowExactly` | query.sql:2424-2450 | each total grows by what each poll in its mode counted, failed polls included, unless cancelled or not recorded, and by nothing else |
| `Readers.Reader.Fail` | internal/bouncereader/reader.go:271-281 | a failed poll keeps the link before and adds its counts, unless it was cancelled |
| `Readers.PollIsBounded` | internal/bouncereader/reader.go:184-219 | at most maxPages delta requests, restarts included |
| `Readers.TotalsBalance` | internal/bouncereader/reader.go:28-62 | over any polls, reports minus outcomes is at most the number of polls that stopped |
| `Readers.RunDoes` | internal/bouncereader/reader.go:165-281 | after any polls, bounces and suppressions are those of the items whose report reached the database, handled in that order |
| `Readers.AtLeastOnce` | internal/bouncereader/reader.go:165-281 | after any polls, with failures at any page, fetch or database call, restarts and messages going between polls, every item behind the stored link was handled, or is removed, gone or too large |
| `Readers.FirstsDoAll` | internal/bouncereader/reader.go:165-281 | handling each item once, when it was first handled, does what all the handlings did |
| `Readers.ExactlyOnce` | internal/bouncereader/reader.go:165-281 | after any such polls, bounces and suppressions are those of one pass over the items handled, each once, in the order first handled |
| `Readers.BehindTheLinkIsHandled` | internal/bouncereader/reader.go:165-281 | every item behind the stored link is one of that pass, or was removed, gone or too large, or is a report without a date handled only before the clock reached its mail's sending |
| `Erasure.Eraser.FindLinks` | internal/database/account_erasure.go:536-577 | the loop finds exactly the links that name the person or that only mail to them had |
| `Erasure.Eraser.ClearTrackedLinks` | internal/database/account_erasure.go:528-577 | exactly those links lose their address, and are counted |
| `Erasure.Eraser.Run` | internal/database/account_erasure.go:320-331 | a list of statements is run in its order, up to the first that is refused |
| `Erasure.Store.EraseAccount` | internal/database/account_erasure.go:143-216 | the command: a receipt already there is returned and nothing changes; mail in flight commits the first statements and no receipt; a statement or a commit the database refuses keeps nothing; else everything and a receipt, as one |
| `ErasureExact.ErasureIsExact` | internal/database/account_erasure.go:143-216 | a completed erasure leaves every one of the 22 tables exactly as an order-free description says, row by row, from the tables at its start |
| `ErasurePlainly.FullNameExactly` | internal/database/account_erasure.go:263-270 | what is searched for of a name: its words, two or more, on one line with single blanks, in lower case, and not the stand-in's |
| `ErasurePlainly.NamedPlainly` | internal/database/account_erasure.go:246-262 | whose name is held, one clause for each of the nine tables read |
| `ErasurePlainly.NeedlesPlainly` | internal/database/account_erasure.go:246-273 | a text is searched for, in any case, if and only if it is an address of the command or the full name of a row of the person's |
| `ErasurePlainly.NamesPlainly` | internal/database/account_erasure.go:296-301 | a text names the person if and only if such a text stands anywhere in it, in any case |
| `ErasureRows.ErasurePlainlyTold` | internal/database/account_erasure.go:143-216 | a completed erasure leaves of every one of the 22 tables exactly what IsWhatIsLeft says of it, row by row, from the command and the rows before: to whom mail went, what mentions them, who did what |
| `ErasureRows.NoTextHoldsThem` | internal/database/account_erasure.go:296-301 | after a receipt no body, subject or HTML of mail with a status, no variables, note, change, reason, title, inbox item or link is a text with the person in it, whatever comes before and after |
| `ErasureRows.NoTextHoldsAnAnchoredName` | internal/database/account_erasure.go:136-142 | nor one with the full name that was anchored to them when the command was first called, however often it had to be |
| `ErasureRows.ReceiptsExactly` | internal/database/account_erasure.go:143-216 | a receipt is written if and only if the call completes, with its time, beside the others; a call rolled back keeps nothing; a repeated request returns its receipt |
| `ErasureRows.WaitingPlainlyTold` | internal/database/account_erasure.go:186-198 | what a call that waits has cleared already, and what it has not touched |
| `ErasureExact.QueueExact` | internal/database/account_erasure.go:393-478 | mail to the person: waiting deleted, the rest emptied but for its send, status and that it was tracked; mail to others that went out loses a text naming them; nothing else changes |
| `ErasureExact.PeopleExact` | internal/database/account_erasure.go:677-749 | of a request's people exactly the person goes, the first of theirs with a queued send stood in for, one stand-in put in where no one was left; of the sends exactly the person's others; and without the first part when the stand-in's address is theirs |
| `ErasureExact.SuppressionsExact` | internal/database/account_erasure.go:753-768 | exactly the suppressions at the person's address, subject or last mail go, by mail as it was at the start; one that pointed at deleted mail loses the pointer |
| `ErasureExact.TasksExact` | internal/database/account_erasure.go:422-434 | variables go exactly when they name the person or the send went to them alone, by the mail at the start |
| `ErasureExact.LinksExact` | internal/database/account_erasure.go:528-577 | links likewise |
| `ErasureExact.EventsExact` | internal/database/account_erasure.go:411-419 | tracking events go exactly when their mail was to the person |
| `ErasureExact.ApprovalEventsExact` | internal/database/account_erasure.go:480-504 | actor, note and changes of a decision, judged by the decision as it was at the start |
| `ErasureExact.SourcesExact` | internal/database/account_erasure.go:333-377 | owner, title and invalidation of a Forms source, judged at the start |
| `ErasureExact.MembershipsExact` | internal/database/account_erasure.go:788-796 | memberships of exactly the person's recipients go |
| `ErasureDone.CompletedErases` | internal/database/account_erasure.go:143-216 | after a receipt no statement has anything left to do and no mail is waited for; the statements on requests' people apart when the stand-in's address is the person's |
| `ErasureCompletes.CompletesExactly` | db/migrations/20261025190100_add_mail_queue_news_once_index.up.sql:14-16 | a first call on tables as the database keeps them waits if and only if mail it must change is on its way; is rolled back, with nothing kept, if and only if none is and two mails of one News record would be left without an address, both emptied or one beside one that has none already; else completes; and leaves tables as the database keeps them |
| `ErasureRows.CompletesPlainly` | internal/database/account_erasure.go:601-619 | the same from the queue's rows alone: which mail is waited for, and which two mails of a record roll a call back |
| `ErasureCompletes.CompletedIsSound` | internal/database/account_erasure.go:143-216 | a completed erasure leaves tables that hold every unique index it writes and every deferred trigger, whatever it started from |
| `ErasureCompletes.SecondOfARecordIsRefused` | db/migrations/20261025190100_add_mail_queue_news_once_index.up.sql:14-16 | after an erasure of one person a News record went to, no call for another whose mail of it is final completes; with no mail in flight it is rolled back and changes nothing |
| `ErasureCases.TheSecondIsNotErased` | db/migrations/20261025190100_add_mail_queue_news_once_index.up.sql:14-16 | two people of one News record: the erasure of the one completes and that of the other is rolled back at every call, with no mail in flight |
| `ErasureResults.ReceiptMeansGone` | internal/database/account_erasure.go:123-135 | when a receipt is written no row outside requests' people is the person's by address or subject, no column has them as an actor, and no text but mail names them; of requests' people none is theirs if and only if the stand-in's address was not among theirs or no request to people went to them alone, and exactly which are otherwise |
| `ErasureResults.MailTextsGoneExactly` | internal/database/account_erasure.go:460-478 | and no mail names them, if and only if no mail to others with a NULL status did |
| `ErasureAgain.ErasingAgain` | internal/database/account_erasure.go:151-158 | the same request returns its receipt and changes nothing; another for the same person completes and changes nothing but its own receipt and sends at the place of a stand-in that is theirs; its counts are all 0 if and only if no stand-in left is theirs |
| `ErasureResults.EveryoneElseIsKept` | internal/database/account_erasure.go:601-619 | completed or not, every row that does not concern the person is as it was, and mail with the mailer keeps its text and recipient |
| `ErasureResults.ChangedMailIsLocked` | internal/database/account_erasure.go:379-391 | every queue row a call changes or deletes is one locked at its start |
| `ErasureLinks.WrittenIsFoundExactly` | internal/database/account_erasure.go:579-599 | a needle written in a link in any way, as it is, as %XX or a blank as +, in any case, is found if and only if the whole link unescapes or it holds a needle as it stands |
| `ErasureLinks.WrittenLinkIsClearedExactly` | internal/database/account_erasure.go:528-599 | after a receipt a link that had the person written in it in any such way lost its address if and only if only mail to them had it, it unescapes, or it held a needle as it stood; else it is as it was |
| `Text.UnescapesExactly` | internal/database/account_erasure.go:583-592 | a text unescapes, for a query or a path, if and only if two hexadecimal digits follow its every % |
| `ErasureCases.ALinkKeepsTheName` | internal/tracking/links.go:153-177 | a tracked link with a stray % in its query that keeps an encoded name after the receipt |
| `ErasureCases.AMailWithoutStatusIsKept` | internal/database/account_erasure.go:460-478 | a completed erasure that leaves another person's mail without a status with an address of theirs in it |
| `ErasureCases.AStandInIsTheirs` | internal/handlers/account_erasure.go:244-262 | a command with the stand-in's address that completes, leaves a stand-in that is theirs, and counts it again |
| `ErasureNames.NeedlesExactly` | internal/database/account_erasure.go:246-280 | a needle is an address or the full name, of more than one word, of someone held |
| `ErasureNames.NamesAfterWaiting` | internal/database/account_erasure.go:186-198 | after a call that waits, the next looks for exactly the addresses and the names held by anything but mail to the person still waiting |
| `ErasureNames.AnchoredNamesAreCleared` | internal/database/account_erasure.go:136-142 | over every interleaving of waiting calls and the mailer, a name held by a row outside the mail or by mail that is final is a needle of the call that writes the receipt, and no text searched keeps it, mail without a status apart |
| `ErasureCases.ANameIsLost` | internal/database/account_erasure.go:407-410 | a name held only by waiting mail to the person is not looked for again, and another person's mail keeps it |
| `ErasureApprovals.ErasureKeepsPromises` | internal/database/account_erasure.go:677-749 | a request still goes to a list or to someone, never both, a Forms request to its own source; an address is in a request once; every remaining send of a request to people is paired, at its place, with the same person or with the stand-in for the person |
| `ErasureApprovals.FirstSendKeepsItsPlace` | internal/database/account_erasure.go:683-706 | the first send queued to the person in a request without a stand-in stays, with the stand-in at its place, if and only if the stand-in's address is not among the person's |
| `ErasureApprovals.SnapshotsStayWhole` | internal/database/account_erasure.go:333-358 | no call leaves a Forms source in use with fewer people than its snapshot; every source that concerns the person is invalidated by each call not rolled back |
| `ErasureCounts.PeopleAddUp` | internal/database/account_erasure.go:688-749 | people after = people before - removed + stand-ins, as the receipt counts them |
| `ErasureCounts.DeletionsAddUp` | internal/database/account_erasure.go:282-293 | the receipt's counts of deletions and of emptied links are exactly the rows that are gone |
| `ErasureTallies.ClearingsAddUp` | internal/database/account_erasure.go:282-293 | the receipt's counts of sources, variables, notes and reasons, changes, mail, bodies and actors cleared are exactly the rows that held such and hold it no more |
| `ErasureTallies.MailAndActorsCounted` | internal/database/account_erasure.go:469-524 | mail counted is the mail to them that was out, bodies the other mail that was out and mentions them, actors the columns that named them |
| `ErasureTallies.InboxCounted` | internal/database/account_erasure.go:444-459 | inbox items counted: theirs, and of the others those that mention them |
| `ErasureTallies.StandInsCounted` | internal/database/account_erasure.go:677-749 | stand-ins counted: one for the first queued send of theirs in each request without one, and one for each request that would have no one |
| `Consent.Client.Matched` | internal/consent/client.go:255-281 | the loops are the specification: the same answer, the same calls |
| `Consent.EachGetsItsOwn` | internal/consent/client.go:250-281 | whatever core answers: given an answer, it holds exactly the distinct normalized addresses, and each one's value is the item at its place in the answer to the call it was asked in |
| `Consent.MatchedIsAskingAlone` | internal/consent/client.go:250-281 | so of a truthful core, it says of each address what asking about it alone would |
| `Consent.AskedExactlyOnce` | internal/consent/client.go:250-281 | each address is asked about once, in calls of 1 to ResolveBatch, in order; one call refused, failed or short is no answer for anyone |
| `Consent.DistinctExactly` | internal/consent/client.go:256-264 | the addresses asked about are the given ones normalized, each once, and none that is blank |
| `ConsentAddresses.NormalizedExactly` | internal/consent/client.go:93-96 | an address is normalized to the one text it is written for, up to the case of its letters and outer white space, that has no upper-case letter and no outer white space |
| `ConsentAddresses.AskedAboutExactly` | internal/consent/client.go:256-264 | core is asked about exactly those texts, each once, and about none for white space alone |
| `ConsentAddresses.SpellingsAreAskedOnce` | internal/consent/client.go:256-264 | two addresses that differ only in ASCII case and outer white space are asked about once |
| `ConsentAddresses.AskedInOrder` | internal/consent/client.go:256-264 | in the order they were first given |
| `ConsentAddresses.AskedByAddress` | internal/consent/client.go:265-270 | each by address and not by subject |
| `ConsentAddresses.AnsweredExactly` | internal/consent/client.go:265-281 | the answer is under exactly those texts, each with core's item for it |
| `ConsentAddresses.CheckedExactly` | internal/consent/client.go:229-248 | which replies are an answer, and which error each other is |
| `Consent.Client.Resolve` | internal/consent/client.go:195-227 | one decision per recipient, given if and only if core answered each without fault; a decision to send has its link and no reason, one not to send a reason core gives |
| `Consent.Client.Audience` | internal/consent/client.go:108-142 | the loop is the specification: the same answer, the same pages asked for |
| `ConsentAddresses.PagesAskedExactly` | internal/consent/client.go:108-142 | of an audience read, the pages asked for are exactly the pages read |
| `Consent.ReadExactly` | internal/consent/client.go:108-142 | an audience is read if and only if core's pages lead, one to the next and within the bound, to a last one, and is then every grant of all of them in order |
| `ConsentAddresses.AudienceIsKeyed` | internal/consent/client.go:122-132 | every item of every page, in order, under its address normalized in the same words, its other fields kept |
| `ConsentAddresses.PageErrorsExactly` | internal/consent/client.go:116-139 | which page ends the reading, and with which error |
| `ConsentAddresses.FaultsExactly` | internal/consent/client.go:195-227 | which answers are at fault, and how |
| `ConsentAddresses.DecisionsExactly` | internal/consent/client.go:195-227 | each field of a decision |

## Left out

- The SQL engine: each transaction is one step, so lock waits, deadlocks and isolation levels are not modelled; that every queue row changed is locked first is proved.
- Times: a version's and a row's time columns, a poll's time and a suppression's first and last time are not kept; a refusal's and a report's are.
- Unicode: lower-casing folds ASCII only and white space is ASCII; the differences between PostgreSQL's and Go's folding are not modelled.
- Templates.State: one template; its key, required variables, sensitivity and tracking columns, and rows migrated before versions were kept with a version already, are not in it.
- Templates.Check: a caller's check of content with the row locked is any function of both.
- Dsn.Mime: MIME multipart parsing and header decoding are not modelled; a report is given as its parts, the delivery status as blocks of fields and whether it was longer than its limit.
- Readers.Mailbox: a message's content is the same whenever it is fetched; one mailbox at a time.
- Readers.Poll: the loop over mailboxes, the advisory lock and the text of the last error are left out.
- Bounces.Process: the deletion of bounces after a year and relayed failures recorded elsewhere are left out.
- Tracking: of `tracking.Trackable` only the inputs cited are used; which links a send has is not modelled.
- Erasure.Command: a subject is text; that it is a canonical UUID is the route's check.
- Erasure.CanCommit: of the deferred triggers, that a request with sends is approved and that a consumed source names its request are not modelled; erasure changes neither. The other unique keys and checks of the tables it writes are not in the model: it only takes rows or NULLs their columns, or writes constants they allow.
- The trigger `mail_queue_erase_after_send`: a send it covers has its final rows in the form erasure leaves already, so no statement of erasure meets one.
- ErasureNames.IsTrail: what goes on between two calls keeps final mail, people, actors and their names; another command for someone else in between is not part of it.
- Consent.Client: the token, HTTP, the size bounds of an answer and its JSON are an arbitrary answer to each call.
- The mail queue's lease, budget and throttling, the routes, configuration, tracking, subscriptions and the drain loops: not modelled.
