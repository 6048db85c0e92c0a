# Verified models of DrFed

DrFed is a debugging server for ActivityPub. This project models the parts of it
whose correctness is hardest to see from the code, and proves what they promise.

* **The document validator and normaliser.** `Diagnostics` is the collector that
  caps findings at 100. `Definitions` and `ContextTerms` are the rounds that
  resolve inline JSON-LD terms, a bounded profile of section 4.2 of JSON-LD 1.1
  Processing Algorithms and API, against a least fixpoint, and `TermMeanings` says
  which terms these are; `DocumentContexts` builds the context of a document from
  its entries, and `ContextVocabulary` puts these contexts in the place where the
  check of documents takes them. `DocumentGraph`,
  `DocumentRules` and `DocumentWalk` define the check of a shared, possibly
  cyclic object graph by recursion; `WorkStack`, `OpenContainers` and
  `DocumentCheck` prove the loop with its explicit stack against that
  definition. `Conformity` says of a document itself what an accepted one holds,
  `CleanDocuments` and `ConformingDocuments` show that exactly the finite documents
  that conform are accepted, and `DocumentRemarks` what is said of them.
  `Preview` and `Omission` clone such a document without the proposed fields,
  `Proposals` describes these fields, `PreviewNodes`, `PreviewAccounts`, `PreviewWalk` and
  `PreviewCheck` carry the check over to the clone, and `Undo` and
  `Normalization` conclude that validation is idempotent and reversible.
  `ServerFields` fills in the values the server decides.
* **The versioned resource store.** `RevisionHistory` is one resource's history,
  `RevisionRuns` its concurrent transactions, `RevisionTables` the statements on
  the tables, `TypedRevisions` the typed rows and addressing kept in step, and
  `TypedRuns` the same over interleaved statements, refining `RevisionRuns`.
* **Received activities.** `InboxLocks` is the lock protocol of the storing
  transactions, `ObjectPaths` the search for the embedded object,
  `DeliveryEvidence` and `DeliveryRows` what a delivery proves.
* **Pagers.** `Keyset` is paging in a total order; `CollectionPager` and
  `CursorCodec` are the GraphQL collections and their base64 cursors (sections
  3.5 and 4 of RFC 4648), `JsonText` the JSON texts in them (ECMA-404), `OutboxCursor`
  and `OutboxPages` the actor's outbox.
* **Migrations.** `Calendar`, `MigrationManifest` and `MigrationState` compare a
  recorded history with a manifest, `MigrationColumns` says the same over the raw
  columns of the rows; `Preparation` and `PglitePreparation` are the
  preparers that run at the same time.
* **Small concurrent components.** `TaskQueue` is the key prewarming queue and
  `ActorKeys` the key store that generates at most once.

Code that changes state is a class or a loop here too. Code that runs at the same
time as other code is a state machine: a world, a `Next` predicate that lists what
one statement or one await may do, an invariant, and theorems over all runs.
Database tables are maps, sets and sequences; a JSON document with identity is a
heap of records and lists.

Three promises hold under a condition only; each has a lemma with a concrete
failure and one that states the condition exactly. Outbox cursors return only for
the years 1 to 9999 (`OutboxCursor.EraIsLostOnce`, `CursorReturnsExactlyWhen`), and
an outbox is listed only if the activities that end its pages lie in them
(`OutboxPages.SomeOutboxIsNotListed`, `OutboxIsListedExactlyWhen`). A migration named
before 1970 can never be recorded as applied (`MigrationState.EarlyMigrationStaysPending`,
`CanBeReadyExactlyWhen`). A preparer whose session the server has ended, heard
of or not, does not keep others from working beside it, nor does one that works keep
out another that is still to read a grant it lost (`Preparation.TwoMayWork`,
`LateGrantGetsIn`, `AnotherGetsInExactlyWhen`); migrations still run under the lock.

## Model

| member | source | states |
|---|---|---|
| Diagnostics.Reporter.Report | packages/models/src/document.ts:287-319 | the collector shows every report up to 100; from the 101st on it shows the first 99 and the limit marker, and the result is no longer complete (`Valid` ties the three fields to the list of all reports) |
| Diagnostics.ShownIgnoresTail | packages/models/src/document.ts:287-319 | once more than 100 findings were reported, no later finding changes what is shown or whether it counts as complete |
| Diagnostics.CleanShown | packages/models/src/document.ts:2033-2044 | the shown result is complete and error-free exactly when the uncapped run had no error and fitted into 100 |
| Definitions.MeaningIsFixpoint | packages/models/src/document.ts:741-824 | the recursive expansion of a set of definitions is a fixpoint of reading: a name has a meaning exactly when its definition reads as defined under those meanings |
| Definitions.MeaningIsLeast | packages/models/src/document.ts:741-824 | ... and the least one: every set of meanings closed under reading contains it |
| Definitions.WellDefinedExactlyWhenAcyclic | packages/models/src/document.ts:741-824 | every name has a meaning exactly when there are admissible meanings and a ranking no reference violates (the dependency graph is acyclic); these meanings are unique |
| Definitions.SolutionIsMeaning | packages/models/src/document.ts:741-824 | any admissible acyclic assignment of meanings is the recursive expansion |
| Definitions.RefusalIsFinal | packages/models/src/document.ts:741-824 | a definition refused under what is known so far is never accepted later: the set has no complete meaning |
| Definitions.StuckIsMeaning | packages/models/src/document.ts:741-824 | when a whole round decides nothing, everything that has a meaning is known |
| ContextTerms.ContextIsLawful | packages/models/src/document.ts:576-740 | reading a term definition is stable under learning more names, and depends only on the names its `@id` and `@type` refer to |
| ContextTerms.DirectiveIsNeverAwaited | packages/models/src/document.ts:741-824 | a directive may leave the pending names early: no definition ever waits for it, and it alone is skipped |
| ContextTerms.ReadingIsAdmissible | packages/models/src/document.ts:596-740 | a defined term is a keyword alias without options or a supported absolute IRI, its name is no keyword and holds no colon, and a protected term is only repeated, never changed |
| ContextTerms.InterpretableExactlyWhenAcyclic | packages/models/src/document.ts:741-824 | an inline context can be interpreted exactly when its definitions are admissible and their dependencies acyclic; its terms are then unique, so no key order matters |
| ContextTerms.MeaningIsAdmissible | packages/models/src/document.ts:596-740 | interpreting a context never changes a protected term and adds only admissible ones |
| ContextTerms.StuckContext | packages/models/src/document.ts:741-824 | a round that resolves nothing ends at the meaning; names are left over exactly when there is no interpretation |
| ContextTerms.InterpretedIsMeaning | packages/models/src/document.ts:741-824 | for every visiting order, the rounds end without a remark exactly when the context is interpretable, and then with the inherited terms and the recursive expansion |
| ContextTerms.RunRound | packages/models/src/document.ts:741-824 | one pass over the pending names, in order, leaves the table, the pending names and the reports of the rounds as defined by recursion; what is known grows inside the meaning, a pass that resolves something shrinks `pending` (the termination measure), and one that reports proves there is no interpretation |
| ContextTerms.ApplyContextTerms | packages/models/src/document.ts:741-824 | for every visiting order the loop returns true exactly when the context is interpretable, then leaves the inherited terms and the recursive expansion in the table; what it leaves and every reason and path it reports, in order, are those of the rounds, none exactly when it returns true |
| TermMeanings.NamesReadAsTheyMean | packages/models/src/document.ts:576-740 | a definition is read as defined exactly when it gives the name this term: by its form (a text, or a record whose options are all allowed), the IRI its text denotes, its type, container and language, and whether it can be a prefix; and as skipped exactly when it is the vocabulary directive |
| TermMeanings.InterpretableInWords | packages/models/src/document.ts:741-824 | an inline context can be interpreted exactly when its names can be given terms that fit their definitions, with a ranking under which no definition refers to itself; these terms are the ones the rounds find |
| TermMeanings.MeaningInWords | packages/models/src/document.ts:741-824 | a name has a meaning in a context exactly when its definition gives it one within that context, and its term is the one the definition gives |
| TermMeanings.TextsLeadToIris | packages/models/src/document.ts:576-595 | of an `@id` or `@type` text: the keywords mean themselves, a term in use means its IRI, `p:s` for a prefix term `p` the IRI of that term followed by `s`, and any other text with a colon itself |
| TermMeanings.RefusalsInWords | packages/models/src/document.ts:596-740 | a definition waits exactly when it names something that may still get a meaning, and is reported as invalid exactly when it is malformed |
| TermMeanings.RemarksAreExplained | packages/models/src/document.ts:741-824 | whatever the order of the names: if a definition is refused, every remark names a refused definition and its reason; otherwise exactly the names left without a meaning are remarked on |
| DocumentContexts.ApplyContextEntry | packages/models/src/document.ts:867-907 | one entry adds the terms of a bundled context (the http spelling of the ActivityStreams one included) or of an inline one that can be interpreted, and is refused otherwise; it reports something exactly when it is refused, and then exactly the remarks on the entry, below its path |
| DocumentContexts.CheckContext | packages/models/src/document.ts:910-957 | the result is the context the entries mean, one after another; it is refused exactly when an entry is, or when a standard term is missing or changed; the reports are exactly the remarks on the entries, in order and located below `@context`: errors when it is refused, and otherwise nothing but an assumed context |
| DocumentContexts.NamedEntriesInWords | packages/models/src/document.ts:867-907 | the http spelling of the ActivityStreams context means the https one; any other URL is accepted exactly when it is bundled, and its terms then take the place of earlier ones of the same name, which else remain |
| DocumentContexts.InlineEntriesInWords | packages/models/src/document.ts:867-907 | an inline entry is accepted exactly when its names can be given terms that fit their definitions; the terms are then these, and the earlier ones of every other name |
| DocumentContexts.EmptyContextsInWords | packages/models/src/document.ts:910-957 | an empty list of entries means the inherited context and is refused without one; no `@context` means the inherited context, or the standard one at the root |
| DocumentContexts.RefusedEntriesInWords | packages/models/src/document.ts:867-907 | the one remark on an entry that is not bundled, null, a list, a scalar or no JSON; an inline entry has the remarks of its definitions |
| DocumentContexts.ListRemarksInWords | packages/models/src/document.ts:910-957 | every remark on a list of entries belongs to one of its entries, and is located at it |
| DocumentContexts.ReadingIsMeaning | packages/models/src/document.ts:910-957 | reading the entries one by one, with their remarks, gives the context they mean: it ends without an error exactly when there is one, and otherwise with errors only |
| DocumentContexts.ContextsCoverStandard | packages/models/src/document.ts:910-957 | every context in use, however nested, contains the standard vocabulary unchanged |
| DocumentContexts.ContextsAreAdmissible | packages/models/src/document.ts:867-957 | and otherwise only keyword aliases and supported absolute IRIs |
| ContextTerms.RefusalsAreErrors | packages/models/src/document.ts:596-740 | every refusal of a definition is an error, not a warning |
| ContextVocabulary.RecordsReadTheirContext | packages/models/src/document.ts:910-957 | under a vocabulary built from the context tables, the rules for documents read every record in the context its `@context` means within the inherited one, and report exactly what the check of that context reports |
| ContextVocabulary.ChildrenWorkInContext | packages/models/src/document.ts:1735-1830 | a task hands its context on, and a document the one that its own `@context` means |
| ContextVocabulary.DocumentsAreCheckedInContext | packages/models/src/document.ts:1690-1830 | in the check of a whole document, every task works in the context that the `@context` entries of the objects around it mean; it holds the standard vocabulary unchanged and, if the bundled contexts do, only admissible terms |
| DocumentRules.ReadType | packages/models/src/document.ts:1018-1052 | a document without a supported type is never entered silently, and one with a type reports nothing about it |
| DocumentRules.EnterRecord | packages/models/src/document.ts:1081-1103 | a record that is not entered has an error among its findings |
| DocumentWalk.ChildrenHaveLessRoom | packages/models/src/document.ts:1643-1952 | whatever the graph, every task left behind has less room to descend: the reason the check ends on cyclic graphs |
| WorkStack.RunningStep | packages/models/src/document.ts:1653-1952 | popping a task and pushing its children in reverse keeps what the stack stands for: the events of the recursive walk, and strictly fewer operations |
| WorkStack.TopCloses | packages/models/src/document.ts:1653-1952 | popping a close entry removes its container from the open ones and changes no event of the walk that remains |
| WorkStack.RunningKeepsBalance | packages/models/src/document.ts:1653-1952 | after every task the set of ancestors holds exactly the containers with a pending close entry, each once |
| WorkStack.ClosingKeepsBalance | packages/models/src/document.ts:1653-1952 | after every close entry too |
| WorkStack.NothingOpensTwice | packages/models/src/document.ts:1653-1952 | a container that is open is never opened again |
| OpenContainers.RunningKeepsPlaces | packages/models/src/document.ts:1653-1952 | every task on the stack lies at its path in the document, below the containers waiting to be closed |
| OpenContainers.AncestorsAreOnThePath | packages/models/src/document.ts:1653-1952 | whenever a task is about to run, the ancestors are exactly the containers open on the path to it: every record above it, and every container, list or record, from the value of the opaque property on whose data it checks |
| OpenContainers.CyclesAreReported | packages/models/src/document.ts:1672-1703 | a cycle is reported where it closes: a document or an extension container that is one of those is reported as no JSON value at its path and not opened, and any other extension container is opened |
| DocumentCheck.CheckDocumentValue | packages/models/src/document.ts:1653-1952 | the loop with its explicit stack ends on every graph; it shows the diagnostics of the recursive walk, capped (first 99 and the marker beyond 100), and unless it overflowed it proposes exactly the changes of the walk |
| CleanDocuments.CleanIsFinite | packages/models/src/document.ts:1653-1952 | a task whose walk finds no error checks a value without cycles and of bounded depth |
| CleanDocuments.CleanDocumentsUnfold | packages/models/src/document.ts:1956-1986 | an error-free document unfolds to a finite JSON value at most 68 containers deep, which the unguarded cloning loop relies on |
| ConformingDocuments.AcceptedExactlyWhenConforming | packages/models/src/document.ts:1653-1952 | the check of a document finds no error exactly when the document is finite and conforms, said without tasks, paths or findings: a record with a context and one supported type its place accepts, each of whose other fields holds what the vocabulary plans for it (a scalar whose content is accepted, at most one value where one is due, a language map, references that are null, accepted IRIs or conforming documents of the type due, or plain data), within 64 levels |
| DocumentRemarks.RemarksOfAccepted | packages/models/src/document.ts:1476-1952 | in full, what the check of an accepted document says: it proposes to leave out exactly the empty fields of the documents in it, with the values they hold, and warns of exactly these, of the fields it does not look into, and of a missing context |
| Proposals.VisitProposes | packages/models/src/document.ts:1476-1520 | only an omittable property proposes a change; it is the last event of its check and leaves nothing else to do |
| Proposals.WalkIsScattered | packages/models/src/document.ts:1476-1520 | no two proposals of a check concern the same path, and none lies inside another |
| Proposals.WalkIsGenuine | packages/models/src/document.ts:1476-1520 | every proposal names an existing field of a record that holds nothing, and records the value it has |
| Normalization.ProposalsAreProper | packages/models/src/document.ts:1476-1520 | the change list of a document: existing empty fields with their values, no path twice and none a prefix of another |
| Preview.Clone | packages/models/src/document.ts:1956-1986 | the cloning loop ends and copies every occurrence of every container separately: each copy mirrors its original entry by entry, and shared originals are no longer shared |
| Omission.FollowIsLike | packages/models/src/document.ts:1987-2004 | a path that passes through no removed field leads, in the preview, to the copy of what it led to in the document |
| Omission.CreatePreview | packages/models/src/document.ts:1956-2004 | the preview is the clone in which exactly the fields at the change paths are missing: everything else is mirrored, and a change path leads nowhere |
| PreviewCheck.Simulated | packages/models/src/document.ts:1653-1952 | checking the preview performs, step by step, the check of the document without the events about removed fields |
| Normalization.PreviewFindings | packages/models/src/document.ts:2033-2064 | the findings of the preview are those of the document that are not about removed fields |
| Normalization.PreviewIsStable | packages/models/src/document.ts:2033-2064 | checking the preview proposes nothing, reports nothing new and no error, and repeats every finding that is not about a removed field: normalisation is idempotent |
| Undo.PreviewIsPruned | packages/models/src/document.ts:1956-2004 | as a JSON value the preview is the document without the fields at the change paths, and equal to it everywhere else |
| Undo.UndoRestores | packages/models/src/document.ts:152-158 | putting removed fields back with the values they had, one after another, restores a JSON value |
| Normalization.PreviewIsReversible | packages/models/src/document.ts:152-158 | undoing the changes of a preview with their recorded values gives exactly the document |
| Normalization.ReportPreviewDiagnostics | packages/models/src/document.ts:2066-2083 | adds exactly those findings of the preview that the first check did not have, in order |
| Normalization.PreviewIsFinal | packages/models/src/document.ts:2045-2063 | the recursive call ends after one level: its check proposes nothing, is complete, and has only findings the first check had |
| Normalization.ValidateDocument | packages/models/src/document.ts:2033-2064 | the result shows what one check of the input reports; a normalized document is returned exactly when that check was complete, error-free and proposed a change, and it is the input without the proposed fields |
| ServerFields.NothingSupplied | packages/models/src/document.ts:2226-2238 | a document supplies nothing for a property exactly when every spelling of it is absent, null or a list of nulls |
| ServerFields.SuppliesInWords | packages/models/src/document.ts:2226-2238 | the values counted as supplied are exactly the non-null values of the keys that spell the property, or the non-null items of their lists, each with its place |
| ServerFields.ChosenKeyInWords | packages/models/src/document.ts:2257-2279 | a value is filled in under the requested spelling if the document has that key or no key spells the property, and else under the first key that does |
| ServerFields.ProposeServerField | packages/models/src/document.ts:2217-2280 | the same single value is kept, any other supply is reported at each of its places, and nothing at all is filled in under the chosen spelling, in place of the omission of that field |
| ServerFields.AssignmentReplacesOmission | packages/models/src/document.ts:2257-2279 | an assignment takes the place of an omission at its path: still no path is changed twice, and every other change stays |
| RevisionHistory.AppendKeepsLaw | packages/models/src/resource-revision.ts:391-523 | an accepted append keeps the history lawful: sequences 1..n, distinct revisions, a whiteout only last and never first, one revision per activity |
| RevisionHistory.AppendExtends | packages/models/src/resource-revision.ts:460-523 | an append adds one revision behind the expected head and changes no older one |
| RevisionHistory.AcceptedExactlyWhen | packages/models/src/resource-revision.ts:391-458 | a lawful history accepts an append exactly when it follows the head the caller expects, the kind fits, no typed row is bypassed, and the history may still grow |
| RevisionHistory.AppendInWords | packages/models/src/resource-revision.ts:460-523 | field by field, what an accepted append adds: a snapshot has the parts of the request, a whiteout the capture, projection, addressing and relations of the revision before it |
| RevisionHistory.RefusalsInWords | packages/models/src/resource-revision.ts:391-458 | what each refusal tells the caller: a conflict the actual head, a kind conflict the registered kind, and each of them that its condition holds |
| RevisionHistory.PageIsDescending | packages/models/src/resource-revision.ts:574-609 | a history page lists strictly falling sequences, all before the bound |
| RevisionHistory.ListingIsPage | packages/models/src/resource-revision.ts:574-602 | the query (rows before the bound, latest first, at most the limit, 20 by default) answers a page of the history, and refuses exactly a limit outside 1 to 100 or a bound that is no positive safe integer |
| RevisionHistory.PagesListHistory | packages/models/src/resource-revision.ts:574-609 | asking on before the last sequence shown lists every older revision exactly once, latest first |
| RevisionRuns.NextKeepsInvariant | packages/models/src/resource-revision.ts:391-523 | no step of any interleaved transaction breaks a history, committed or still being written under its row lock |
| RevisionRuns.HistoryOnlyGrows | packages/models/src/resource-revision.ts:460-523 | in every run committed revisions stay as they are; a history only grows at its end |
| RevisionRuns.OneCommitPerExpectation | packages/models/src/resource-revision.ts:391-458 | of several appends to one resource with the same expectation at most one commits, in every reachable state |
| RevisionRuns.CommittedHistoriesAreLawful | packages/models/src/resource-revision.ts:391-523 | at every point of every run: sequences exactly 1..n, at most one revision per activity, a whiteout never first and always last |
| RevisionRuns.CommitsInWords | packages/models/src/resource-revision.ts:391-523 | a commit publishes exactly what its transaction wrote, and no other step changes a committed resource |
| RevisionRuns.AloneAppends | packages/models/src/resource-revision.ts:391-523 | an append that its history accepts can be carried out whenever no other transaction holds the resource, and then commits exactly that append |
| RevisionTables.Database.Current | packages/models/src/resource-revision.ts:244-261 | the head row names the last revision of the history |
| RevisionTables.Database.LockRevisionTarget | packages/models/src/resource-revision.ts:391-458 | the checks under the lock refuse in the order of the code, with the error of the first that fails, and otherwise settle the kind and return the head |
| RevisionTables.AppendLands | packages/models/src/resource-revision.ts:460-523 | inserting the revision row, its projections and the head leaves valid tables whose history is the old one with the one revision the request calls for |
| RevisionTables.Database.AppendPrepared | packages/models/src/resource-revision.ts:460-523 | the statements on the revision, projection and head tables carry out exactly the append on the history, or leave every table as it was |
| RevisionTables.ExceptAllBothEmpty | packages/models/src/resource-revision.ts:673-716 | two empty EXCEPT ALL queries, one each way, mean the same occurrences with the same multiplicities |
| TypedRevisions.CompareTypedState | packages/models/src/resource-revision.ts:673-716 | the comparison is true exactly when the typed row is live, has the JSON text of the head, and has its addressing as a multiset |
| TypedRevisions.WriteTypedResourceRevision | packages/models/src/resource-revision.ts:726-821 | either a check fails, with the error of the first that does, and no table changes; or row, addressing and history change together: the revision appended is the one drafted, and the row is again in step with it |
| TypedRevisions.WrittenExactlyWhen | packages/models/src/resource-revision.ts:726-795 | a coordinated write succeeds exactly when the resource is an object with a typed row and the head the caller expects, the row is live with the document of that head and declares its addressing, and the occurrences given are well-formed; else nothing changes |
| TypedRevisions.TypedRowsInWords | packages/models/src/resource-revision.ts:726-821 | after a snapshot the row has the document, columns and `updated` of the draft, is not fetched and keeps its deletion mark; a whiteout changes the deletion mark only; no other row changes |
| TypedRevisions.TypedRevisionsInWords | packages/models/src/resource-revision.ts:726-821 | the revision added last has the document, projection, addressing and relations of a snapshot draft and the capture `Local`; of a whiteout, those of the revision before it |
| TypedRevisions.WriteLands | packages/models/src/resource-revision.ts:795-821 | once the checks have passed, the append after writing the row and its addressing cannot be refused |
| TypedRevisions.WritesKeepStep | packages/models/src/resource-revision.ts:726-821 | every coordinated write keeps every resource in step: live with a snapshot head of the same document and addressing, or deleted with a whiteout head that inherits its addressing |
| TypedRevisions.AppendsKeepStep | packages/models/src/resource-revision.ts:391-523 | plain appends keep every resource in step: they never touch one with a typed row |
| TypedRuns.StepOfHistories | packages/models/src/resource-revision.ts:391-523 | seen from the histories alone, every statement of a transaction with typed rows is a step of the concurrent revision store, or changes nothing |
| TypedRuns.NextKeepsInvariant | packages/models/src/resource-revision.ts:726-821 | over interleaved statements (row update, addressing, append, promotion, first capture, savepoint, commit) no statement breaks a history or takes a committed resource out of step |
| TypedRuns.FinishLands | packages/models/src/resource-revision.ts:795-821 | under the row lock the append that ends a coordinated write is never refused, and puts the resource back in step |
| TypedRuns.WritesLand | packages/models/src/resource-revision.ts:795-821 | in every interleaving a write that has come to its append adds one revision and is done |
| TypedRuns.CommitsInWords | packages/models/src/resource-revision.ts:726-821 | a commit publishes exactly the rows, addressing and histories its transaction wrote, and no other step changes a committed resource |
| TypedRuns.AloneWrites | packages/models/src/resource-revision.ts:726-821 | a write whose checks pass can be carried out, statement by statement, whenever no other transaction touches the resource; it commits the row, addressing and revision of the draft and changes no other resource |
| TypedRuns.CommittedStayInStep | packages/models/src/resource-revision.ts:726-821 | at every point of every interleaving each committed object with a typed row and a history is in step: live with a snapshot head of the same document and addressing, or deleted with a whiteout head whose inherited addressing it has |
| TypedRevisions.EnsureResource | packages/models/src/resource.ts:43-72 | returns the one resource of an IRI, registering it if it is new, and changes no other row |
| TypedRevisions.StoreAddressingOccurrences | packages/models/src/resource.ts:206-227 | adds exactly the given occurrences to the addressing of the source, as read back through the join with the resources, and none to any other |
| TypedRevisions.ReplaceAddressing | packages/models/src/resource.ts:233-241 | afterwards the joined addressing of the source is exactly the given multiset of (property, position, IRI), and that of every other source is unchanged |
| TypedRevisions.CheckAddressingOccurrences | packages/models/src/resource.ts:247-271 | accepts exactly the lists whose positions fit the column and take no (property, position) twice |
| TypedRevisions.JoinedRows | packages/models/src/resource.ts:206-227 | storing occurrences by target and joining the targets back is the identity on multisets of occurrences |
| InboxLocks.NextKeepsInvariant | packages/federation/src/inbox-persist.ts:434-535 | every statement of every transaction keeps to its plan: what it inserted and locked is its own, and the tables count one row per IRI and one typed row per settled kind |
| InboxLocks.WaitsRise | packages/federation/src/inbox-persist.ts:434-463 | along every wait (host, then new IRIs in sorted order, then row locks in database order) the pair of phase and key strictly rises |
| InboxLocks.NoDeadlock | packages/federation/src/inbox-persist.ts:434-463 | no transaction ever waits, directly or through others, for itself |
| InboxLocks.SomeoneProceeds | packages/federation/src/inbox-persist.ts:434-535 | while any transaction runs, one of them need not wait |
| InboxLocks.KindsSettle | packages/models/src/resource.ts:118-153 | in every run a registered IRI stays registered and a kind that has left `unknown` never changes |
| InboxLocks.RowsAreInsertedOnce | packages/models/src/resource.ts:43-153 | at every point of every run each registered host and each registered IRI has been inserted once, and the typed row of an IRI once exactly when its kind is settled |
| InboxLocks.PlansAreWellMade | packages/federation/src/inbox-persist.ts:434-463 | a transaction that registers all IRIs of a received activity in sorted order, and locks and promotes the actor, the object and the activity, keeps to the orders the protocol relies on: everything locked was registered, and everything promoted was locked |
| InboxLocks.CommitsAsPlanned | packages/federation/src/inbox-persist.ts:434-535 | a commit leaves the host registered, every planned IRI registered, every promoted one with the kind promoted to, and every other row as it was |
| InboxLocks.UnblockedGoesOn | packages/federation/src/inbox-persist.ts:434-535 | a transaction that need not wait can take its next step, and has fewer left after it |
| ObjectPaths.NextIsLevel | packages/federation/src/inbox-persist.ts:175-195 | one turn of the loop takes all places of one path length to all places of the next, each once, skipping `@context` |
| ObjectPaths.ObjectPaths | packages/federation/src/inbox-persist.ts:175-195 | lists exactly the paths to JSON objects that pass through no `@context` key, each once, shorter ones first |
| ObjectPaths.PutThenGet | packages/federation/src/inbox-persist.ts:197-217 | reading what was put at an existing path gives it back |
| ObjectPaths.GetThenPut | packages/federation/src/inbox-persist.ts:197-217 | putting back what was read changes nothing |
| ObjectPaths.PutTwice | packages/federation/src/inbox-persist.ts:197-217 | the second of two replacements at one path wins |
| ObjectPaths.OthersStay | packages/federation/src/inbox-persist.ts:206-217 | a replacement leaves alone every path that is neither a prefix nor an extension of its own |
| ObjectPaths.EmbeddedObject | packages/federation/src/inbox-persist.ts:248-261 | searches the JSON objects of the document outside contexts and without the document itself, shallowest first; returns the value at the first of the leading 64 that proves to be the object, so the shallowest one, and nothing only if none of these does |
| DeliveryEvidence.Deliveries.DecideCarried | packages/models/src/activity-delivery.ts:304-411 | rewrites the marks and receipts of a delivery to what its link, payload and fetched object prove, and nothing else |
| DeliveryEvidence.EvidenceInWords | packages/models/src/activity-delivery.ts:304-411 | in terms of what is stored: the activity receipt names exactly the first revision of the linked activity, if that is the payload and the revision a snapshot of it; the object receipt exactly the first revision of the object brought along, if moreover the object was not fetched or equals the fetched one and the revision is a snapshot of it; and likewise for the two marks |
| DeliveryEvidence.NoEvidenceInWords | packages/models/src/activity-delivery.ts:304-411 | an outbound delivery is left alone, and an unlinked inbound one only loses its receipts |
| DeliveryEvidence.LinksInWords | packages/models/src/activity-delivery.ts:424-450 | a delivery is linked to an activity exactly when it is inbound, verified, received or acknowledged, not yet linked, and its IRI names that stored activity; nothing else of it changes |
| DeliveryEvidence.Deliveries.LinkInboundActivity | packages/models/src/activity-delivery.ts:424-450 | links exactly the verified, accepted, not yet linked inbound deliveries whose IRI names a stored activity, and then decides anew |
| DeliveryEvidence.Deliveries.RecordFetchedObject | packages/models/src/activity-delivery.ts:458-478 | records the fetched document of an inbound delivery, and then decides anew |
| DeliveryEvidence.Deliveries.ReceiveInbound | packages/models/src/activity-delivery.ts:274-287 | only an acknowledged inbound delivery becomes received |
| DeliveryEvidence.OperationsStayConsistent | packages/models/src/activity-delivery.ts:304-478 | every operation keeps: an object mark implies the activity mark, an object receipt an activity receipt, and a link a verified, accepted delivery |
| DeliveryEvidence.HistoriesStayConsistent | packages/models/src/activity-delivery.ts:304-478 | this holds over every history of operations, even while what is stored changes in between |
| DeliveryEvidence.EvidenceIsConfluent | packages/models/src/activity-delivery.ts:304-478 | any order and repetition of linking and of fetches of one document ends as a single computation on the final inputs |
| DeliveryEvidence.OrderDoesNotMatter | packages/models/src/activity-delivery.ts:424-478 | two runs with the same operations, however ordered and repeated, end alike |
| DeliveryRows.InboundActorRows | packages/models/src/activity-delivery.ts:101-125 | the rows say of each actor exactly how it was reached: as inbox owner, directly, and through which collections, sorted and without repetition |
| DeliveryRows.MergingIgnoresOrder | packages/models/src/activity-delivery.ts:101-125 | the rows are determined by what was said, not by its order or repetition |
| DeliveryRows.Outbox.SettleOutbound | packages/models/src/activity-delivery.ts:529-570 | settles the latest pending delivery to the inbox, records one attempt if there was one, and changes nothing when none is pending |
| DeliveryRows.PendingInWords | packages/models/src/activity-delivery.ts:529-570 | the deliveries a settlement can concern: queued or failed ones of the activity to the inbox, or the one it names |
| CollectionPager.PredicateIsStrictlyBetween | packages/graphql/src/resource.ts:273-301 | under three-valued logic with nullable positions, the WHERE clause is true exactly for items strictly after and strictly before the cursors in the order (position NULLS LAST, id) |
| CollectionPager.UnknownInWords | packages/graphql/src/resource.ts:273-301 | the connectives are those of SQL: unknown unless the known side decides |
| CollectionPager.OrdersAreTotal | packages/graphql/src/resource.ts:303-311 | both ORDER BY clauses are strict total orders, each the reverse of the other |
| CollectionPager.ForwardQueryIsPage | packages/graphql/src/resource.ts:193-221 | a forward query is the page strictly after its cursor |
| CollectionPager.InvertedQueryIsPage | packages/graphql/src/resource.ts:193-221 | an inverted query is the page strictly after its cursor in the opposite order |
| CollectionPager.PageIsQuery | packages/graphql/src/resource.ts:193-221 | conversely, every page of the total order is what the query answers |
| CollectionPager.PagingListsAll | packages/graphql/src/resource.ts:193-221 | paging from one end comes to an end, and however it goes it lists every visible item exactly once: forward in order, inverted in exactly the reverse order |
| CollectionPager.ResolveItems | packages/graphql/src/resource.ts:193-221 | every item fetched can be named by the cursor made from its remembered position |
| Keyset.OneListing | packages/graphql/src/resource.ts:303-311 | a query in a total order has one answer |
| Keyset.FollowingListsAll | packages/federation/src/collection.ts:42-93 | following cursors ends, and its pages concatenate to the sorted table, on as many pages as the rows need |
| CursorCodec.DecodeEncode | packages/graphql/src/resource.ts:234-271 | every encoder output matches the base64 pattern and decodes to its bytes |
| CursorCodec.EncodeInWords | packages/graphql/src/resource.ts:234-242 | every three bytes are written as one number of 24 bits in four digits of the standard alphabet, highest first; missing bytes count as zero and leave padding (section 4 of RFC 4648) |
| CursorCodec.CanonicalExactlyWhenClear | packages/graphql/src/resource.ts:243-271 | a text is the encoding of its bytes exactly when its unused trailing bits are zero (section 3.5 of RFC 4648) |
| CursorCodec.ParseEncode | packages/graphql/src/resource.ts:237-271 | parsing undoes encoding for every null or 32-bit position and every UUID; the JSON texts are written and read by the grammar itself |
| JsonText.PairIsRead | packages/graphql/src/resource.ts:237-271 | reading the JSON text of a pair gives the pair back, whatever the position and for every string of plain characters |
| JsonText.IntegerReturns | packages/graphql/src/resource.ts:237-271 | the decimal text of an integer, negative or not, spells that integer |
| CursorCodec.AcceptedIsCanonical | packages/graphql/src/resource.ts:243-271 | every accepted text is the canonical encoding of its bytes, which spell the pair of its position and UUID, and names a valid cursor |
| CursorCodec.AcceptedExactlyWhen | packages/graphql/src/resource.ts:243-271 | a text is read as a cursor exactly when it matches the pattern, leaves no unused bit set, and is the base64 of a JSON pair of null or a 32-bit integer, which is the position, and a UUID, which is the item |
| CursorCodec.OneTextPerBytes | packages/graphql/src/resource.ts:243-271 | of the texts that decode alike at most one is accepted |
| OutboxCursor.CursorReturnsExactlyWhen | packages/federation/src/collection.ts:159-180 | a cursor parses back to the boundary it was made from, with all its microseconds, exactly for the years 1 to 9999 |
| OutboxCursor.EraIsLost | packages/federation/src/collection.ts:60-76 | a time before the year 1 is written without its era and read as a later time: the exact failure outside that range |
| OutboxCursor.EraIsLostOnce | packages/federation/src/collection.ts:60-76 | a concrete activity whose cursor does not come back |
| OutboxCursor.CursorStraysOutside | packages/federation/src/collection.ts:159-180 | outside those years every cursor is refused, or read as a later time than the one it was made from |
| OutboxCursor.LongYearsAreRefused | packages/federation/src/collection.ts:159-180 | a year of five or more digits makes a text no cursor may have |
| OutboxCursor.CursorsInWords | packages/federation/src/collection.ts:159-180 | a text is read as a boundary exactly when it is a time of day on a calendar date, in four-digit years with six decimals and in UTC, followed by a bar and a UUID; the boundary is that time and UUID |
| OutboxPages.BoundaryMeansNewer | packages/federation/src/collection.ts:52-65 | the row comparison with a boundary is the order of the listing |
| OutboxPages.AnswerIsPage | packages/federation/src/collection.ts:42-77 | each answer is the page after the activity its cursor names, holds served activities only, and carries a cursor exactly when more remain |
| OutboxPages.ServedInWords | packages/federation/src/collection.ts:42-77 | the activities served are exactly the stored Create activities addressed to the public by `to` or `cc` whose object is stored and not deleted |
| OutboxPages.BrowsingEnds | packages/federation/src/collection.ts:42-93 | as long as the activities that end pages lie in the years 1 to 9999, following the cursors from any of them ends |
| OutboxPages.StrayAnswer | packages/federation/src/collection.ts:42-77 | a cursor that does not come back is refused, or answered with a page that starts with an activity listed before |
| OutboxPages.OutboxIsListedExactlyWhen | packages/federation/src/collection.ts:42-93 | browsing can list every served activity once, latest first, exactly when the activities that end a page with more to follow lie in the years 1 to 9999 |
| OutboxPages.SomeOutboxIsNotListed | packages/federation/src/collection.ts:42-93 | a concrete outbox of twenty-one public posts of 1 BC that no browsing lists |
| OutboxPages.OutboxIsListedOnce | packages/federation/src/collection.ts:42-93 | then every browsing lists every served activity once, latest first, on max(1, ceil(n/20)) pages whose lengths add up to the counter |
| Calendar.EpochIsDayZero | packages/models/src/migration-manifest.ts:43-57 | the days are counted from the first of January 1970 |
| Calendar.NextDateIsNextDay | packages/models/src/migration-manifest.ts:43-57 | counting days follows the Gregorian calendar: the date after a date has the next day number |
| Calendar.NextSecondIsLater | packages/models/src/migration-manifest.ts:43-57 | the second after a moment, across the ends of minutes, hours, days, months and years, is a thousand milliseconds later |
| Calendar.ClocksStartAtEpoch | packages/models/src/migration-manifest.ts:43-57 | both counts start at 1970-01-01T00:00:00, and microseconds refine milliseconds |
| Calendar.FieldOrderIsTimeOrder | packages/models/src/migration-manifest.ts:43-57 | moments are ordered as their fields are, and different fields are different moments |
| MigrationManifest.NameOrderIsTimeOrder | packages/models/src/migration-manifest.ts:43-57 | for accepted names, comparing the 14-digit stamps as text is comparing the UTC milliseconds |
| MigrationManifest.SpelledNamesAreRead | packages/models/src/migration-manifest.ts:43-57 | the name spelled with the fourteen digits of a valid moment and a label is read as the milliseconds of that moment |
| MigrationManifest.ReadNamesAreSpelled | packages/models/src/migration-manifest.ts:43-57 | and every name that is read as a time is spelled so |
| MigrationManifest.ParseMigrationManifest | packages/models/src/migration-manifest.ts:67-96 | accepts exactly the files of format 1 that hold nothing but their version and a list of well-formed, hashed entries strictly increasing in time, and returns the entries |
| MigrationManifest.KeepsHistory | packages/models/src/migration-manifest.ts:102-117 | passes exactly when the baseline is a prefix of the current manifest |
| MigrationManifest.ManifestIsSorted | packages/models/src/migration-manifest.ts:135-150 | a manifest with increasing times is already in sorted-name order |
| MigrationManifest.DirectoriesMatch | packages/models/src/migration-manifest.ts:135-150 | the comparison entry by entry is equality of the name lists |
| MigrationManifest.DirectoriesMatchExactlyWhenEqual | packages/models/src/migration-manifest.ts:135-150 | the sorted directory comparison passes exactly when the two sets of names are equal |
| MigrationState.ClassifyMigrationHistory | packages/models/src/migration-state.ts:115-177 | the verdict on a history is decided by what it records: a prefix of the manifest, a prefix whose next row fits but for its hash, the whole manifest with rising rows after it, or none of these |
| MigrationState.VerdictsAreExact | packages/models/src/migration-state.ts:115-177 | ready exactly for a non-empty current history that matches the whole manifest, pending exactly for a proper non-empty prefix, modified exactly for a prefix followed by a row that fits but for its hash, newer exactly for the whole manifest with rising rows after it, diverged exactly otherwise; what is applied followed by what is pending is the manifest |
| MigrationColumns.IdentityInColumns | packages/models/src/migration-state.ts:76-113 | what a recorded row stands for, in its raw columns: a safe natural number, a hash, and a time, which in legacy rows and in current ones that were upgraded counts to the whole second only and in current ones is the time of the recorded name |
| MigrationColumns.CompatibleInColumns | packages/models/src/migration-state.ts:115-177 | over the raw columns: a history is upgrade-required, ready or pending exactly when its rows record the first entries of the manifest (numbers rising, hashes equal, times equal or, in legacy rows and in current ones that were upgraded, less than a second later), and is then applied as far as it goes |
| MigrationColumns.RefusalsInColumns | packages/models/src/migration-state.ts:115-177 | and modified, newer or diverged exactly as the raw columns say: a row like the next entry but for its hash behind recorded ones, rising rows behind the whole manifest, or neither |
| MigrationState.AppendingPendingIsReady | packages/models/src/migration-state.ts:115-177 | recording valid rows for everything pending makes a history ready |
| MigrationState.UpgradeKeepsProgress | packages/models/src/migration-state.ts:76-113 | a legacy history with its metadata filled in has the same applied and pending migrations |
| MigrationState.BaselineStaysCompatible | packages/models/src/migration-state.ts:115-177 | a history ready for a baseline is ready or pending for every manifest that keeps its history |
| MigrationState.CanBeReadyExactlyWhen | packages/models/src/migration-state.ts:65-113 | some history is found ready exactly when the manifest has entries and all its times lie between 1970 and the largest safe integer |
| MigrationState.CanBeRecordedExactlyWhen | packages/models/src/migration-state.ts:65-113 | all entries of a manifest, none included, can be recorded exactly when their times lie in that range |
| MigrationState.EarlyMigrationStaysPending | packages/models/src/migration-state.ts:65-113 | a concrete lawful manifest, named one second before 1970, that no history records and for which none is ever found ready |
| Preparation.MigrationSession.Interrupt | packages/models/src/migration-session.ts:115-124 | the first interrupt is kept, whatever comes later, and the connection is cut |
| Preparation.InterruptEndsWork | packages/models/src/migration-session.ts:115-133 | an interrupted preparer fails at the next thing it awaits, with the code of the interrupt, does no more work, and leaves the lock alone |
| Preparation.MigrationSession.TakeAnswer | packages/models/src/migration-session.ts:135-166 | a lock granted after an interrupt is not recorded as held |
| Preparation.NextKeepsInvariant | packages/models/src/migration-session.ts:302-372 | every step of every preparer and of the server keeps: a recorded key, or a grant still to be read, is the lock held on the server for as long as the server runs the session |
| Preparation.OneWorksAtATime | packages/models/src/migration-session.ts:135-209 | of two preparers between acquire and close, the server no longer runs the session of one, whether or not that preparer has heard of it |
| Preparation.AnotherGetsInExactlyWhen | packages/models/src/migration-session.ts:135-209 | a working preparer holds the lock exactly as long as the server runs its session; without a step of its own another can begin to work beside it exactly when the server no longer does, or when another was granted the lock before, lost it with its session, and is still to read the grant |
| Preparation.NoOtherGetsIn | packages/models/src/migration-session.ts:135-209 | while the server runs its session, a working preparer that takes no step keeps every other from beginning to work, but for those with an unread grant; and nobody is granted the lock meanwhile |
| Preparation.TwoMayWork | packages/models/src/migration-session.ts:135-209 | a concrete run in which two preparers are between acquire and close at once and neither has been interrupted: the server ended the session of one, which has not heard of it |
| Preparation.LateGrantGetsIn | packages/models/src/migration-session.ts:135-209 | a concrete run in which a preparer works, its session alive and the lock its own, and another can begin to work beside it by reading late a grant it lost with its session |
| Preparation.SqlRunsUnderTheLock | packages/models/src/migration-session.ts:230-276 | migrations run only on the session that holds the advisory lock |
| Preparation.NormalReturnIsReady | packages/models/src/migration-session.ts:302-372 | a preparer that returns normally was never interrupted and leaves a ready history; an interrupted one always fails |
| Preparation.LonePreparerReturns | packages/models/src/migration-session.ts:302-372 | a preparer that finds the lock free and is left alone can return normally on every history that is not incompatible; it leaves the history ready and the lock free, and runs no migration on one that is ready already |
| Preparation.FailuresInWords | packages/models/src/migration-session.ts:302-372 | what a failure is called: after the interrupt if there was one, else after what was being done, and incompatible only where such a history was read |
| Preparation.FirstCodeIsKept | packages/models/src/migration-session.ts:115-133 | the code of the first interrupt is the one a failing preparer reports |
| Preparation.CodesStay | packages/models/src/migration-session.ts:302-372 | over every run, the first interrupt and the failure of a preparer never change |
| PglitePreparation.Preparations.Prepare | packages/models/src/pglite-preparation.ts:120-137 | a call is chained behind the latest call of its client, and becomes its new tail |
| PglitePreparation.CallsRunInOrder | packages/models/src/pglite-preparation.ts:120-137 | calls that share a client begin only after every earlier one has settled, in call order |
| PglitePreparation.NoOverlap | packages/models/src/pglite-preparation.ts:120-137 | no two calls of one client run at once, even when earlier ones failed |
| PglitePreparation.SomeCallProceeds | packages/models/src/pglite-preparation.ts:120-137 | while a client has an unsettled call, one of its calls runs or may begin |
| TaskQueue.KeyGenerationQueue.EnqueueMany | packages/federation/src/task-queue.ts:60-82 | a batch is accepted whole or dropped whole, by capacity and closing; delayed messages are an error and change nothing |
| TaskQueue.KeyGenerationQueue.Listen | packages/federation/src/task-queue.ts:90-128 | only the first listener of an open queue starts |
| TaskQueue.KeyGenerationQueue.Loop | packages/federation/src/task-queue.ts:90-128 | the loop runs from its head to its next wait: it stops, parks, or takes the oldest message |
| TaskQueue.EnqueueInWords | packages/federation/src/task-queue.ts:60-82 | a batch that fits into an open queue is appended in order and wakes a parked listener; any other is counted as dropped and changes nothing else |
| TaskQueue.LoopInWords | packages/federation/src/task-queue.ts:90-128 | an aborted listener closes the queue and drops what is left; else it takes the oldest message, or parks when there is none |
| TaskQueue.MessagesAreConserved | packages/federation/src/task-queue.ts:60-128 | in every reachable state accepted = handled + in hand + queued + discarded, dropped = refused + discarded, and the queue is within its capacity |
| TaskQueue.HandlingFollowsAcceptance | packages/federation/src/task-queue.ts:60-128 | what was handled is a prefix of what was accepted, in order |
| TaskQueue.NoWakeIsLost | packages/federation/src/task-queue.ts:90-128 | a parked listener whose wake has not fired faces an empty queue that is not aborted; any message accepted and any abort wakes it |
| TaskQueue.StoppedDropsAll | packages/federation/src/task-queue.ts:90-128 | after the listener stopped nothing is queued, everything sent is counted as dropped, and it never starts again |
| ActorKeys.NextKeepsInvariant | packages/federation/src/actor-key.ts:85-184 | every step of every call in every process, also one that fails after its transaction committed, keeps: all keys stored, read or returned are the first stored for their actor and algorithm, and an operation in flight is the one pending |
| ActorKeys.SavingAgrees | packages/federation/src/actor-key.ts:148-172 | inserting what is missing and reading back never replaces a stored pair |
| ActorKeys.SavesInWords | packages/federation/src/actor-key.ts:150-184 | a save adds exactly the generated pairs that are missing, unless the actor is deleted, and returns exactly the rows then stored if they are both algorithms, and else nothing |
| ActorKeys.ReadsInWords | packages/federation/src/actor-key.ts:118-149 | an operation first reads whether the actor is deleted, then its keys: both are returned, a deleted actor gets nothing, and else exactly the missing ones are generated |
| ActorKeys.AloneReturnsPairs | packages/federation/src/actor-key.ts:85-184 | an operation alone on a registered actor ends with both pairs stored, the stored ones kept and the missing ones generated, and returns them |
| ActorKeys.KeysAgree | packages/federation/src/actor-key.ts:85-184 | over every interleaving in any number of processes, all non-empty results for one actor are the same pairs |
| ActorKeys.NoKeyAfterDeletion | packages/federation/src/actor-key.ts:148-172 | no key row is inserted once the actor is deleted |
| ActorKeys.OneOperationAtATime | packages/federation/src/actor-key.ts:85-117 | within a process at most one operation per actor is in flight |
| ActorKeys.JoinersShareTheOutcome | packages/federation/src/actor-key.ts:85-117 | a call that finds an operation pending joins it, and every call of an operation receives its one outcome |

## Left out

- ContextTerms.ApplyContextTerms: the reports follow the order in which names are visited, which is a parameter; so are the tables of bundled contexts and the IRI check.
- DocumentCheck.CheckDocumentValue: once the diagnostics overflow, which changes have been proposed so far is not stated, because the validator discards them.
- In the check of documents a context is a number that stands for its terms; `ContextVocabulary` takes any numbering that can be undone.
- The vocabulary (type hierarchy, property tables, collection ranges) and the lexical checks of dates, language tags, MIME types and IRIs are parameters of the document model.
- JavaScript details of submitted values: prototypes, accessors, symbol keys and sparse arrays; values JSON does not have are one `Alien` value. The order in which a record's keys are visited is part of the record.
- Diagnostic messages; only reasons and paths are modelled.
- In the rules for documents, an `@context` value nested too deeply to be read is reported as one unsupported form instead of by its inner positions.
- The search for a second spelling of a functional property is a predicate, not a loop with a map of first spellings.
- `prepareDocument` beyond `proposeServerField`: the checks of its options, the local authority rules, previews with added or replaced values, and `describeDocument`.
- Legacy capture of first revisions and its triggers, which run in SQL that is not part of this model: a captured first revision is taken to agree with the row it captures.
- Lexical checks of relations and projections, and the JSON writer; documents are compared as stored text, as the code does.
- Addressing properties outside the five of the vocabulary: excluded by the type.
- The page query over revisions reads the rows of one resource's history; its projections are part of the rows.
- Savepoints are steps of `TypedRuns`; the statements on the tables have none, because a refused write there runs its checks before its first change.
- Row contents of received activities, and `recordInbound` and `recordOutbound`, which only insert.
- JSON-LD expansion of an embedded object (`isObjectAt`) is a parameter, as is UUID syntax, of which only the alphabet is used; infinite timestamps have no cursor here. In cursors, the rounding of JSON numbers with a fraction or an exponent is a parameter, bytes above 127 are not decoded as UTF-8, and escaped halves of surrogate pairs become U+FFFD: no UUID holds either.
- CursorCodec.AcceptedExactlyWhen: speaks of the reader of JSON texts in `JsonText`, which follows ECMA-404 token by token; what is proved of that reader is that it reads back the texts that are written.
- Pothos and Relay plumbing around the collection connections; followers, following and featured collections.
- Reading and hashing migration files, snapshots of the migrations directory, and the inspection of schemas without a history table.
- Real time: timeouts, delays, aborts and lost connections are steps that may come at any moment.
- Key generation and import: pairs are opaque, and a stored pair that cannot be read is a failing operation. `ActorKeys` models the processes as steps on shared state, because what it states is about interleavings, and not as a class with a map of promises.
- The storing transaction of received activities is likewise a state machine over its statements, and not a method.
