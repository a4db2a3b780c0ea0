# Verification of the publication, recovery and collection cores

A Dafny model of the parts of the repository whose correctness spans whole runs, with proofs.
`dafny verify dfyconfig.toml` checks everything.

- **Publication** (`versions`, `batches`, `publication*`): projection batches, binding batches and
  the pointer transaction as committed steps over a database of maps, with a crash allowed after
  any of them; page reads as three queries that interleave with those steps.
- **Taxonomy ingress** (`taxonomy*`): staging, concurrent linking and promotion with crashes and
  reruns, and a finer model of the row locks, statement by statement.
- **Scheduler** (`scheduler`, `scheduler_errors`): the bounded concurrent map as steps of lanes over
  shared variables, and what becomes of errors.
- **Backup and restore** (`restore*`, `backup_loop`, `json*`, `manifest*`, `envelope`, `order`):
  the single-transaction restore with its two deferred references, canonical JSON against the
  grammar of RFC 8259, the integrity manifest with its audit chain, and the encrypted envelope.
- **Collector** (`collector*`, `percentiles`, `cutoffs`, `classify*`): the resumable crawl and its
  conversation with the server, the archive and its replay, the in-place merge, and percentile
  arithmetic over reals.
- **Routes and locales** (`locale*`), **runtime configuration** (`runtime_config`, `json_prefix`)
  and **ULIDs** (`ulid`).

What the source changes step by step is a class or a method with loops, proved against a
specification function; the properties are lemmas about those functions. `contracts` holds the page
document shared by publisher, reader and overlay.

Assumptions: the digest is injective, avoids the chain's seed and has no colon; decryption undoes
encryption; a transaction is atomic, except that PostgreSQL does not undo `setval` (the adapter
without transactions is not modelled); one publisher and one ingress run at a time; there is one
binding per projection, carrying its route, locale and family. Foreign keys, serial tables, the
server, the clock, the schedule, each process's random configuration and the message tables are
parameters.

Where an expected property does not hold of the code, the code is kept and the exact condition is
proved:

- `mapWithConcurrency` overwrites its error variable, which a thrown `undefined` clears. A lane claims
  an index after a catch under some schedule exactly when a worker throws `undefined` before the last
  index with fewer other throwers before it than lanes (`SchedulerErrors.ClaimAfterCatchWhen`); the
  error raised is not the first one under some schedule exactly when two workers throw differently, each
  with fewer throwers before it than lanes (`SchedulerErrors.RaisesOtherThanFirstWhen`); and a call
  returns although a worker throws under some schedule exactly when one throws `undefined` and the other
  throwers are fewer than the lanes (`SchedulerErrors.ReturnsDespiteThrowWhen`).
- An ingress attempt stopped between staging and promotion forgets earlier qualifications
  (`TaxonomyConvergence.IngressConverges`), and a stored description that the manifest does not
  mention makes every rerun write again (`TaxonomyConvergence.RerunChangesNothing`).
- The relation and content hashes depend on row order (`ManifestEvidence.OrderOfRelationRows`,
  `ManifestMeaning.OneManifest`).
- Replay accepts any non-empty tweet id, the live crawl only digits (`Collector.ReplayPagesAgree`).
- A restore that fails may have moved sequences (`RestoreProofs.AttemptExact` says which).
- A unit that stopped on a repeated or closing cursor asks again when resumed
  (`CollectorCrawl.Crawler.CrawlUnit` says exactly when a unit asks nothing).
- A route under `/en` requested in another locale is rejected (`Locale.SourceAccepted`).

## Model

| member | source | states |
|---|---|---|
| Versions.KeyRoundTrip | scripts/generate-local-pseo-projections.ts:748-752 | a version written into a workflow key is read back out of it, whatever the projection id |
| Versions.KeysDiffer | scripts/generate-local-pseo-projections.ts:748-752 | keys of different versions or different projection ids never collide |
| Versions.KeyVersionWhen | scripts/generate-local-pseo-projections.ts:748-752 | a key carries a version exactly when it is the prefix, that version's decimal digits and a colon, whatever follows |
| Versions.NextVersion | scripts/generate-local-pseo-projections.ts:744-753 | the least number above every version that a snapshot or a workflow key mentions |
| Batches.FlattenBatches | scripts/generate-local-pseo-projections.ts:397-401 | batching then flattening gives the list back: nothing lost, repeated or reordered |
| Batches.BatchSizes | scripts/generate-local-pseo-projections.ts:397-401 | no batch is empty or too large, and all but the last are full |
| Batches.BatchIndex | scripts/generate-local-pseo-projections.ts:397-401 | which value of the list stands at which place of which batch |
| Batches.BatchMembers | scripts/generate-local-pseo-projections.ts:397-401 | a value is in the list exactly when it is in some batch |
| PublicationSafety.PersistEffect | scripts/generate-local-pseo-projections.ts:830-852 | a projection batch that commits only adds: its pages under fresh row ids, read back as built, and no version mentioned but its own |
| PublicationSafety.BindEffect | scripts/generate-local-pseo-projections.ts:855-862 | a binding batch that commits adds exactly its pages' keys, none of which existed |
| PublicationExact.PersistExact | scripts/generate-local-pseo-projections.ts:830-852 | a projection batch commits exactly when its pages have different ids and none has a workflow run or a projection yet |
| PublicationExact.BindExact | scripts/generate-local-pseo-projections.ts:855-862 | a binding batch commits exactly when all its rows are stored, its routes and rows differ, and none of them is bound in this version |
| PublicationExact.ActivateExact | scripts/generate-local-pseo-projections.ts:772-785 | an activation commits exactly when its version has no snapshot and the pointer is still the one its publisher saw, and then adds the snapshot and moves the pointer by one |
| PublicationExact.StalePublisherIsRefused | scripts/generate-local-pseo-projections.ts:772-785 | after any number of activations, by whomever, a publisher that saw the pointer before them activates nothing |
| PublicationSafety.LogGrows | scripts/generate-local-pseo-projections.ts:826-891 | adding rows and bindings of another version keeps every activated version complete |
| PublicationSafety.StepKeeps | scripts/generate-local-pseo-projections.ts:802-891 | every step of a publish attempt, or a crash after it, keeps the invariant |
| PublicationSafety.RunKeeps | scripts/generate-local-pseo-projections.ts:802-891 | so does every sequence of attempts, each crashing after any transaction |
| PublicationSafety.PublishSafety | scripts/generate-local-pseo-projections.ts:744-785 | over every run, from any database earlier publishers left: each activated version has its complete binding set, all its rows, all bindings from one attempt; versions strictly increase and are newer than all that was found; the pointer counts on exactly from the one found; what was found stays |
| PublicationSafety.ActivationAdvances | scripts/generate-local-pseo-projections.ts:772-785 | the pointer moves only by activating: to a version above all activated before, revision one higher, previous version the one just before |
| PublicationSafety.ActivatesFreshVersion | scripts/generate-local-pseo-projections.ts:744-785 | over every run, a version the pointer moves to is above every version any snapshot or workflow key mentioned when its attempt began, crashed attempts and other pipelines included, and then the greatest mentioned |
| PublicationSafety.RunGrows | scripts/generate-local-pseo-projections.ts:826-891 | rows, ids and version mentions are never lost over a run |
| PublicationReader.ReadIsOwed | frontend/routes/payload-active-projection-reader.ts:39-64 | whatever the publisher does between the three queries, the answer is the page of the version active at the pointer query, be it one activated since or the one found |
| PublicationReader.AnswerExactly | frontend/routes/payload-active-projection-reader.ts:39-64 | whatever states the three queries see, a page is answered exactly when its version is the active one, the route is bound there to a row that reads back as it, and it is released, not indexed and of that route |
| PublicationReader.InterleavedReadIsAtomic | frontend/routes/payload-active-projection-reader.ts:39-64 | an interleaved read answers as if all queries had run at the pointer query: no mixed versions, no lost page |
| PublicationReader.AnswersStableUntilActivation | frontend/routes/payload-active-projection-reader.ts:39-64 | no step but a successful activation changes any answer |
| PublicationReader.ActivatedPagesAreServed | frontend/routes/payload-active-projection-reader.ts:39-64 | after an activation every page of it is read back equal to what was stored |
| PublicationProgress.AttemptSucceeds | scripts/generate-local-pseo-projections.ts:802-891 | an attempt that nothing interrupts activates a fresh version with its pages, in any order of batch commits |
| PublicationStore.PayloadStore.PersistTransaction | scripts/generate-local-pseo-projections.ts:830-852 | the batch loop commits what the specification says, or leaves the database as it was |
| PublicationStore.PayloadStore.BindTransaction | scripts/generate-local-pseo-projections.ts:855-862 | likewise for a batch of bindings |
| RestoreProofs.RestoreExact | scripts/phase1/recovery-core.ts:313-344 | a restore commits exactly when the dump is restorable, and then the rows are exactly the dump's and every serial sequence is past all restored ids |
| RestoreProofs.InsertExact | scripts/phase1/recovery-core.ts:320-332 | inserting succeeds exactly when every row's key is new and its remaining references are met, and stores the rows with deferred references nulled |
| RestoreProofs.PatchExact | scripts/phase1/recovery-core.ts:333-335 | patching gives each nulled reference its value back, exactly when its parent exists |
| RestoreProofs.SyncExact | scripts/phase1/recovery-core.ts:302-311 | synchronising succeeds exactly when every serial table with rows has a positive id, puts each of their sequences one past the greatest id and moves no other |
| RestoreProofs.AttemptExact | scripts/phase1/recovery-core.ts:313-344 | an attempt commits exactly when the dump is restorable and the connection lasts; otherwise the rows are as before, and exactly the sequences of the serial tables with rows before the failing one have moved, if the rows had gone in at all |
| RestoreProofs.RestoresAfterFailures | scripts/phase1/recovery-core.ts:313-344 | after any number of failed attempts a restorable dump restores as into a fresh target |
| BackupLoop.EveryTableOnce | scripts/phase1/recovery-core.ts:14-23 | the dump list and the restore list name every table exactly once |
| BackupLoop.PrefixInsertOk | scripts/phase1/recovery-core.ts:320-332 | table after table, every insert finds its parents |
| BackupLoop.SelectUnique | scripts/phase1/recovery-core.ts:142-149 | reading a table in id order has one result |
| BackupLoop.ReadingIsUnique | scripts/phase1/recovery-core.ts:142-149 | two databases with the same rows read back as the same dump |
| BackupLoop.BackupRestores | scripts/phase1/recovery-core.ts:142-149 | the dump of any consistent source whose references follow the restore order restores, reads back equal, and leaves every sequence past the restored ids |
| RestoreTarget.Target.RestoreLogicalDump | scripts/phase1/recovery-core.ts:313-344 | the transaction as it runs restores what the specification says, or leaves the rows as they were and the sequences where the failure left them |
| RestoreTarget.InsertTables | scripts/phase1/recovery-core.ts:320-332 | the nested insert loop and its list of deferred references |
| RestoreTarget.InsertRows | scripts/phase1/recovery-core.ts:322-331 | the inner loop over one table's rows |
| RestoreTarget.ApplyDeferred | scripts/phase1/recovery-core.ts:333-335 | the loop over the deferred references |
| RestoreTarget.SynchronizeSequences | scripts/phase1/recovery-core.ts:302-311 | the loop over the tables' sequences, up to the first refused or the loss of the connection |
| JsonOrder.SortSorted | scripts/phase1/recovery-core.ts:100-100 | sorting distinct keys gives them strictly ascending |
| JsonOrder.SortUnique | scripts/phase1/recovery-core.ts:100-100 | the sorted object does not depend on the order of its properties |
| JsonRoundTrip.ParseEscaped | scripts/phase1/recovery-core.ts:97-97 | every string, lone surrogates and controls included, is read back from its quoted form (section 7 of RFC 8259) |
| JsonEscape.EscapeOfUnit | scripts/phase1/recovery-core.ts:97-97 | which escape each code unit gets: the short one where there is one, four lower-case hexadecimal digits of its value for other controls and lone surrogates, none otherwise |
| JsonEscape.EscapeInPieces | scripts/phase1/recovery-core.ts:97-97 | a surrogate pair stands as it is, everything else is escaped unit by unit |
| JsonRoundTrip.ParsePlain | scripts/phase1/recovery-core.ts:95-101 | a value printed in its own key order is read back, and whatever follows it is left over (sections 4, 5 and 7 of RFC 8259) |
| JsonCanonical.PrintsNorm | scripts/phase1/recovery-core.ts:95-101 | canonical printing is plain printing of the normal form |
| JsonCanonical.ParsePrint | scripts/phase1/recovery-core.ts:198-198 | parsing canonical JSON gives the value with undefined properties dropped, other undefined values null and keys sorted |
| JsonCanonical.NormFixedPoint | scripts/phase1/recovery-core.ts:195-198 | the normal form is a fixed point of normalising, of printing and of print-then-parse |
| JsonCanonical.PrintAlike | scripts/phase1/recovery-core.ts:95-101 | two values print alike exactly when they agree up to key order |
| JsonCompact.PrintIsCompact | scripts/phase1/recovery-core.ts:95-101 | canonical JSON has white space only inside strings |
| JsonText.PrintPaired | scripts/phase1/recovery-core.ts:230-230 | canonical JSON has no lone surrogate, so encoding it loses nothing |
| JsonText.ParseIsClean | scripts/phase1/recovery-core.ts:260-260 | whatever is parsed has distinct keys and nothing undefined, so its normal form can be printed and read back |
| JsonText.CollectTakesLast | scripts/phase1/recovery-core.ts:260-260 | in a parsed object each key stands where the text has it first, with the value the text gives it last |
| JsonPrefix.ParseValueMore | scripts/run-persistent-postgres.ts:66-66 | more text after a parsed value changes nothing of it, unless it is a number at the very end |
| JsonPrefix.PrefixOfObject | scripts/run-persistent-postgres.ts:73-77 | a prefix of a printed object and its newline either does not parse or parses to that object |
| Manifest.ChainAudits | scripts/phase1/recovery-core.ts:211-212 | the loop computes the chain of the audit events in order |
| Manifest.FactList.Discover | scripts/phase1/recovery-core.ts:131-139 | the recursion pushes exactly the object references inside a value, outermost first, after those already there |
| ManifestSort.SortByMultiset | scripts/phase1/recovery-core.ts:199-202 | sorting rows keeps every row as often as it was there |
| ManifestSort.SortByUnique | scripts/phase1/recovery-core.ts:199-202 | under a total order the sorted rows depend on the rows only |
| ManifestSort.GatherMultiset | scripts/phase1/recovery-core.ts:208-214 | what is gathered from rows depends, up to order, on the rows up to order |
| ManifestDump.DumpRoundTrip | scripts/phase1/recovery-core.ts:196-198 | printing a dump, parsing it and reading the value gives the normal dump |
| ManifestDump.NormDumpIsNormal | scripts/phase1/recovery-core.ts:196-198 | that dump is in normal form throughout |
| ManifestDump.ReadIsProper | scripts/phase1/recovery-core.ts:260-261 | a parsed text read as a dump is a proper one |
| ManifestEvidence.ChainInjective | scripts/phase1/recovery-core.ts:210-212 | with an injective digest whose range excludes the seed, equal chain hashes come only from equal audit sequences |
| ManifestEvidence.EvidenceBuilds | scripts/phase1/recovery-core.ts:195-227 | dumps sharing the evidence have one manifest, whatever the order of rows in their tables |
| ManifestEvidence.OrderOfRelationRows | scripts/phase1/recovery-core.ts:208-208 | swapping two rows of a relation table changes the evidence although the tables are the same |
| ManifestEvidence.IdealExists | scripts/phase1/recovery-core.ts:93-95 | digests as assumed here exist |
| ManifestMeaning.CollectionsDistinct | scripts/phase1/recovery-core.ts:7-12 | the collection names are distinct, so no count or id hash overwrites another |
| ManifestMeaning.OneManifest | scripts/phase1/recovery-core.ts:195-227 | two normal dumps have one manifest exactly when they share schema version, tables with the same rows, relation rows, content facts and audit events in order |
| ManifestFields.CollectionCounts | scripts/phase1/recovery-core.ts:203-203 | collection_counts maps each collection to the decimal number of rows the dump has under that table, 0 when it has none |
| ManifestFields.StableIdHashes | scripts/phase1/recovery-core.ts:204-207 | stable_id_hashes maps each collection to the digest of the ascending list of its rows' ids: stable_id, else event_id, else id |
| ManifestFields.RelationHash | scripts/phase1/recovery-core.ts:208-208 | relation_hash is the digest of the rows of the relation tables, table after table |
| ManifestFields.ContentHash | scripts/phase1/recovery-core.ts:209-209 | content_hash is the digest of the four content fields of every row, row after row |
| ManifestFields.AuditChainHash | scripts/phase1/recovery-core.ts:210-212 | audit_chain_hash is the last link of the chain over the audit events, arranged by time and then by id |
| ManifestFields.ObjectRefHash | scripts/phase1/recovery-core.ts:213-214 | object_ref_hash is the digest of all object references anywhere inside the rows, ascending as printed |
| ManifestFields.ProjectionHash | scripts/phase1/recovery-core.ts:199-202 | canonical_projection_hash is the digest of the tables, each with its rows ascending as printed |
| ManifestFields.Versioned | scripts/phase1/recovery-core.ts:215-218 | format_version is 2 and schema_version is the dump's |
| ManifestFields.ManifestHash | scripts/phase1/recovery-core.ts:226-227 | manifest_hash is the digest of the nine other fields under their names |
| Envelope.ManifestOfNormalForm | scripts/phase1/recovery-core.ts:195-227 | every proper dump has a manifest, which depends on its normal form only |
| Envelope.ManifestIgnoresKeyOrder | scripts/phase1/recovery-core.ts:195-227 | dumps that agree up to the order of tables and keys have one manifest |
| Envelope.EnvelopeRoundTrip | scripts/phase1/recovery-core.ts:229-269 | decrypting an envelope built from a dump and its own manifest always gives the normalised dump; its metadata names the run, the source and the two times |
| Envelope.SealedUnder | scripts/phase1/recovery-core.ts:253-269 | a dump sealed under another dump's manifest is accepted exactly when the two share the evidence, and is a manifest mismatch otherwise |
| Envelope.TamperedEnvelope | scripts/phase1/recovery-core.ts:253-269 | an envelope with the genuine digest, whatever else was changed and whatever key is used, gives the dump back or is refused, and each reason has its exact cause; a changed digest is a checksum mismatch |
| Envelope.AcceptedIsGenuine | scripts/phase1/recovery-core.ts:253-269 | whatever envelope is presented with a dump's manifest, a dump it yields shares that evidence |
| TaxonomyLinks.LinkedAgain | scripts/generate-local-pseo-projections.ts:588-592 | linking an artifact again adds nothing and bumps nothing |
| TaxonomyLinks.TargetFor | scripts/generate-local-pseo-projections.ts:566-579 | an artifact's target holds the nodes of exactly those plans that name it, once |
| TaxonomyLinks.TargetIsRight | scripts/generate-local-pseo-projections.ts:566-579 | each target carries exactly the nodes the manifest gives its artifact |
| TaxonomyLinks.LinkOneEffect | scripts/generate-local-pseo-projections.ts:583-606 | linking one artifact completes it, with one revision bump when it grows, and fails exactly when it must grow without its metadata |
| TaxonomyLinks.LinkBatchEffect | scripts/generate-local-pseo-projections.ts:581-607 | a batch that commits completes its artifacts and undoes none |
| TaxonomyForms.PlansFound | scripts/generate-local-pseo-projections.ts:504-529 | planning again after any interruption succeeds and reads the same artifacts and sources |
| TaxonomyForms.PlannableWhen | scripts/generate-local-pseo-projections.ts:482-515 | a manifest fits exactly when each assignment names as many artifacts as it expects, all with a source, and a node of its key has its type and label |
| TaxonomyForms.StageAllEffect | scripts/generate-local-pseo-projections.ts:539-564 | staging makes every node of the manifest a candidate with its evidence, from any earlier form of the nodes |
| TaxonomyForms.PromoteAllEffect | scripts/generate-local-pseo-projections.ts:612-657 | promotion commits exactly when every assignment's artifacts are linked, and then promotes and records all of them |
| TaxonomySafety.RunKeeps | scripts/generate-local-pseo-projections.ts:468-664 | over every sequence of attempts, crashes and lane interleavings the database has one of a few forms |
| TaxonomySafety.UnplannableChangesNothing | scripts/generate-local-pseo-projections.ts:480-520 | a manifest that does not fit the database never changes it |
| TaxonomySafety.IngressSafety | scripts/generate-local-pseo-projections.ts:536-657 | at every crash point a node with this manifest's hash that is reviewed or qualified has all its artifacts linked and its review recorded |
| TaxonomySafety.IngressAllOrNothing | scripts/generate-local-pseo-projections.ts:536-657 | the manifest's nodes are all untouched, all candidates or all accepted; artifacts change only by gaining the manifest's references, with one bump each |
| TaxonomyConvergence.AttemptCompletes | scripts/generate-local-pseo-projections.ts:468-664 | from any state between attempts an uninterrupted one completes, in any order of link batches, and leaves the nodes promoted, the artifacts linked and the reviews recorded; it writes nothing when all is complete |
| TaxonomyReport.ReportIsExact | scripts/generate-local-pseo-projections.ts:532-534 | over every run a report comes from one of the two returns: no node and the artifacts some assignment targets when all is in place, otherwise the nodes missing when the attempt began, the rest, and those artifacts |
| TaxonomyReport.AttemptReports | scripts/generate-local-pseo-projections.ts:659-663 | from any state between attempts an uninterrupted one reports as created the assignments whose node was missing, as updated the others, and the artifacts matched by some assignment |
| TaxonomyReport.FirstAttemptReports | scripts/generate-local-pseo-projections.ts:659-663 | so does the first attempt on any database the manifest fits |
| TaxonomyConvergence.IngressConverges | scripts/generate-local-pseo-projections.ts:504-534 | any interrupted attempts and then one to the end give the uninterrupted result exactly when no attempt stopped between staging and promotion, or no node loses a qualification the manifest does not give |
| TaxonomyConvergence.RerunChangesNothing | scripts/generate-local-pseo-projections.ts:533-534 | a further attempt leaves the database as it is, and writes nothing and reports zero nodes exactly when no assignment without a description meets a node that has one |
| TaxonomyStore.CollectTargets | scripts/generate-local-pseo-projections.ts:566-579 | the nested loop builds the target list of the specification |
| TaxonomyStore.Ingress.StageTransaction | scripts/generate-local-pseo-projections.ts:539-564 | the staging loop commits all of its writes or none |
| TaxonomyStore.Ingress.LinkTransaction | scripts/generate-local-pseo-projections.ts:581-607 | the batch loop commits all of its writes or none |
| TaxonomyStore.Ingress.PromoteTransaction | scripts/generate-local-pseo-projections.ts:612-657 | the promotion loop commits all of its writes or none |
| TaxonomyLocks.NoLostUpdates | scripts/generate-local-pseo-projections.ts:430-466 | under row locks, every schedule of any number of linking and outside transactions ends with each artifact holding exactly its first references and all that committed transactions added |
| TaxonomyLocks.RefsOnlyGrow | scripts/generate-local-pseo-projections.ts:581-607 | references only grow from one point of a schedule to a later one |
| TaxonomyLocks.LostWithoutLocks | scripts/generate-local-pseo-projections.ts:443-443 | without the locks two transactions can both commit and one addition be lost |
| Scheduler.ClaimsOnceInOrder | scripts/generate-local-pseo-projections.ts:371-395 | under every schedule the claims are 0, 1, 2, ... once each, at most the allowed number of workers run, and none when the call concludes |
| Scheduler.ConcludesWithLastCaught | scripts/generate-local-pseo-projections.ts:379-394 | the call raises the last error caught, which some worker threw, or returns with every index claimed |
| SchedulerErrors.ClaimAfterCatchWhen | scripts/generate-local-pseo-projections.ts:381-390 | some schedule claims an index after a catch exactly when a worker throws undefined, its index is not the last, and fewer other throwers than lanes come before it |
| SchedulerErrors.RaisesOtherThanFirstWhen | scripts/generate-local-pseo-projections.ts:387-393 | some complete schedule raises an error other than the first caught exactly when two workers throw differently, the raised one not undefined, each with fewer other throwers before it than lanes |
| SchedulerErrors.ReturnsDespiteThrowWhen | scripts/generate-local-pseo-projections.ts:379-394 | some complete schedule returns although a worker throws exactly when one throws undefined and all other throwers are fewer than the lanes |
| SchedulerErrors.FirstErrorIsLost | scripts/generate-local-pseo-projections.ts:387-393 | two lanes, two throwers: the error caught first is not the one raised |
| Scheduler.ReturnsAllValues | scripts/generate-local-pseo-projections.ts:371-395 | every complete schedule returns all the workers' values in order exactly when no worker throws |
| SchedulerErrors.UndefinedIsSwallowed | scripts/generate-local-pseo-projections.ts:379-394 | one lane, two values: after a caught undefined the second index is claimed, and the call returns with a hole |
| Scheduler.StepsRunOut | scripts/generate-local-pseo-projections.ts:380-392 | every step brings the end nearer, and until the end some step is possible |
| Scheduler.Pool.RunLanes | scripts/generate-local-pseo-projections.ts:371-395 | letting any lane go on that may, the lanes finish, in a state some schedule reaches |
| Scheduler.ConcurrentBatchesAreMap | scripts/generate-local-pseo-projections.ts:830-852 | batching, mapping concurrently and flattening equals mapping in order, under every schedule |
| Collector.SortedSetMeaning | scripts/fetch_higgsfield_twitter241.py:409-410 | the sorted set lists the distinct elements in ascending order |
| Collector.Record.MergeRecord | scripts/fetch_higgsfield_twitter241.py:408-416 | the in-place merge of a record |
| Collector.RecordsSummarise | scripts/fetch_higgsfield_twitter241.py:408-416 | a record's hits and references are the sorted unions of its observations', everything else is from the last one with the greatest timestamp |
| Collector.ReplayPagesAgree | scripts/fetch_higgsfield_twitter241.py:583-594 | replaying pages gives what crawling them gave exactly when every tweet on them has a numeric id or none |
| CollectorUnit.MatrixFallbacksDiffer | scripts/fetch_higgsfield_twitter241.py:32-43 | no row of the query matrix falls back to its own query |
| CollectorTalk.PagesAreAnswers | scripts/fetch_higgsfield_twitter241.py:612-647 | the pages added are the server's answers to strictly later and later calls, each for the page's own query and cursor, with that answer's tweets, next cursor and time |
| CollectorTalk.PagesChained | scripts/fetch_higgsfield_twitter241.py:576-676 | each page was asked for at the cursor that the page before it of the same query gave, the first one at the cursor the archive ends with, the first one after falling back at none |
| CollectorTalk.ToldByServer | scripts/fetch_higgsfield_twitter241.py:610-679 | both, of the pages and calls of any unit |
| CollectorCrawl.Crawler.ReplayPage | scripts/fetch_higgsfield_twitter241.py:583-594 | the replay loop over one archived page |
| CollectorCrawl.Crawler.TakePage | scripts/fetch_higgsfield_twitter241.py:649-664 | the live loop over one page merges its tweets and counts the new ones |
| CollectorCrawl.Crawler.StorePage | scripts/fetch_higgsfield_twitter241.py:634-664 | each page is archived and merged, and counts exactly the tweets it adds |
| CollectorCrawl.Crawler.Ask | scripts/fetch_higgsfield_twitter241.py:610-679 | one turn of the unit loop: it sends the query and the cursor that are due, archives exactly the server's answer to them, and says what that does to records, counters, cursors and what is left to do; a stop is exactly the one the answer calls for |
| CollectorCrawl.Crawler.CrawlUnit | scripts/fetch_higgsfield_twitter241.py:571-679 | with a cap a unit ends whatever the server answers; without one it ends if the numeric ids the server can show are finitely many, within 2N + 3 pages for N of them unseen; every call is the one due after the answers so far, the pages are the server's answers, and the unit stops, falls back or goes on exactly as the last answer says (429; 401, 402 or 403; 400 or 404 to the row's own query; a closing or repeated cursor; two pages without a new tweet; the cap); the counters, the status and the last cursor of the ledger; and if the new pages have numeric ids or none, the records are the replay of its archived pages |
| CollectorRun.Run | scripts/fetch_higgsfield_twitter241.py:565-697 | after a whole run, fresh or resumed, every unit's pages are its server's answers and its ledger follows from its calls; the records are those of replaying what was found and crawling what was added, unit after unit, and a replay of the whole archive if the added pages have numeric ids or none |
| CollectorRun.ReplayMeaning | scripts/fetch_higgsfield_twitter241.py:565-594 | a tweet is in the replayed records when some archived page shows it, and its record sums up exactly those observations |
| CollectorRun.UnitsDiffer | scripts/fetch_higgsfield_twitter241.py:568-570 | the twenty unit ids are distinct |
| Percentiles.RankBounds | scripts/fetch_higgsfield_twitter241.py:342-354 | percentile ranks lie in 0..100, so the clamp never acts |
| Percentiles.RankOrder | scripts/fetch_higgsfield_twitter241.py:342-354 | ranks are greater for greater values and equal for equal ones |
| Percentiles.RankSum | scripts/fetch_higgsfield_twitter241.py:342-354 | the ranks of n values, two or more, sum to exactly 50 n |
| ClassifyResults.RankIsMeanPlace | scripts/fetch_higgsfield_twitter241.py:342-354 | a rank is the mean of the places the value takes in the ascending list, from 0 to 100 |
| Percentiles.CutoffBetween | scripts/fetch_higgsfield_twitter241.py:328-339 | the interpolated cutoff lies between its two ranks, hence between least and greatest |
| Cutoffs.CutoffIsProportional | scripts/fetch_higgsfield_twitter241.py:333-339 | the cutoff is to the gap between its two ranked neighbours as q(n-1) is to the gap between their places |
| Cutoffs.CutoffOfEvenlySpaced | scripts/fetch_higgsfield_twitter241.py:333-339 | on values a + d i it is exactly a + d q(n-1) |
| Cutoffs.CutoffAtValue | scripts/fetch_higgsfield_twitter241.py:333-339 | at q = k/(n-1) it is the k-th sorted value |
| Cutoffs.CutoffMonotone | scripts/fetch_higgsfield_twitter241.py:333-339 | a greater quantile has no smaller cutoff |
| Percentiles.CutoffCounts | scripts/fetch_higgsfield_twitter241.py:328-339 | at least n - ceil(q(n-1)) values reach the cutoff and at most n - 1 - floor(q(n-1)) exceed it |
| Classify.PercentileRanks | scripts/fetch_higgsfield_twitter241.py:342-354 | the in-place ranking of one metric, whose prior sorting does not matter |
| Classify.RankSorted | scripts/fetch_higgsfield_twitter241.py:343-352 | a rank does not depend on the order of the values |
| Classify.ScoreExists | scripts/fetch_higgsfield_twitter241.py:373-382 | which known percentiles give a value score |
| ClassifyResults.ScoreIsWeightedMean | scripts/fetch_higgsfield_twitter241.py:373-382 | a score is the mean of the known percentiles, weighted four, three, two and one |
| Classify.ScoreOfKnown | scripts/fetch_higgsfield_twitter241.py:357-382 | after classification a row has a value score exactly when its likes and bookmarks are known, and it lies in 0..100 |
| Classify.ScoreFollowsMetrics | scripts/fetch_higgsfield_twitter241.py:357-382 | with all three metrics known, no smaller metrics mean no smaller score |
| Classify.HighIsUpwardClosed | scripts/fetch_higgsfield_twitter241.py:384-404 | a row no lower than a high one is high, and under the floor of 20 likes every high row reaches it |
| Classify.SomeRowIsHigh | scripts/fetch_higgsfield_twitter241.py:396-404 | with ten scored rows some row is of high value |
| Classify.RankAndScore | scripts/fetch_higgsfield_twitter241.py:362-382 | ranking and scoring in place, step after step |
| Classify.MarkRows | scripts/fetch_higgsfield_twitter241.py:384-404 | the labelling loops; rows without the metric keep their label |
| Classify.ClassifyRows | scripts/fetch_higgsfield_twitter241.py:357-405 | the whole classification touches only the relevant rows with a prompt and leaves them ranked, scored and marked |
| ClassifyResults.ClassifiedRow | scripts/fetch_higgsfield_twitter241.py:357-382 | every number of a classified row: three percentiles, two ratios, the score, and everything else as it was |
| ClassifyResults.MarkMeaning | scripts/fetch_higgsfield_twitter241.py:384-404 | which label a row gets from its metric, the number of rows and the 0.9 quantile or the floor |
| ClassifyResults.CutoffReturned | scripts/fetch_higgsfield_twitter241.py:385-405 | the cutoff returned is the 0.9 quantile of the known values, or the floor if that is more |
| Locale.RouteRoundTrip | frontend/localization/localize-bound-projection.ts:16-19 | mapping a route to another locale and back is the identity exactly when it lies under its own prefix or under neither |
| Locale.SlotsRestored | frontend/localization/localize-bound-projection.ts:36-42 | rewriting the slots back restores them when no link was under the other locale |
| Locale.StableIdentifier | frontend/localization/localize-bound-projection.ts:9-15 | the derived identifier is the digest's digits, hyphenated, with two digits fixed for version and variant |
| LocaleResults.OverlaidTexts | frontend/localization/localize-bound-projection.ts:21-34 | title, heading and description of each kind of page under the overlay |
| LocaleResults.OverlaidPage | frontend/localization/localize-bound-projection.ts:44-101 | the overlay marks the page as the source's fallback, moves its route and pagination, and leaves alone what it does not name |
| LocaleResults.OverlaidTrail | frontend/localization/localize-bound-projection.ts:57-62 | breadcrumbs and links keep their places and move; a crumb that leads to the prompts gets the locale's word |
| LocaleResults.OverlaidNavigation | frontend/localization/localize-bound-projection.ts:75-87 | navigation items keep their identity and move; the hub and the two galleries get the locale's titles |
| LocaleResults.OverlaidSlots | frontend/localization/localize-bound-projection.ts:36-40 | slot items keep text and identity, and their links and their tags' links move |
| Locale.SourceAccepted | frontend/routes/resolve-active-projection.ts:44-61 | a usable English source is returned, overlaid, exactly when the route is under its own prefix or not under /en |
| LocaleResults.EnglishResolved | frontend/routes/resolve-active-projection.ts:34-43 | an English request gets the page bound to it if that fits, and nothing else |
| LocaleResults.OtherLocaleResolved | frontend/routes/resolve-active-projection.ts:20-61 | in any other locale a page that fits and is marked translated is served as it is; otherwise the English source of the route, overlaid, exactly when there is one and its route is of the locale or not under /en; otherwise nothing |
| LocaleResults.MislabelledSource | frontend/routes/resolve-active-projection.ts:44-61 | the same for a source whose own locale is not that of its page |
| Locale.PublishedPageIsResolved | frontend/routes/resolve-active-projection.ts:34-43 | right after an activation, a request for one of its English pages gets exactly what was stored |
| RuntimeConfig.PartialRead | scripts/run-persistent-postgres.ts:63-79 | a reader that finds the file partly written throws or reads the whole configuration |
| RuntimeConfig.AcceptedWhen | scripts/run-persistent-postgres.ts:37-53 | which values are accepted: format 1, a port within 1024 to 65535 and three secrets of at least 32 characters, each under its key |
| RuntimeConfig.WholeRead | scripts/run-persistent-postgres.ts:37-53 | a complete file reads as its creator's configuration exactly when the port is within 1024 to 65535 and no secret is shorter than 32, and throws otherwise |
| RuntimeConfig.Agreement | scripts/run-persistent-postgres.ts:63-79 | all processes that return hold one configuration, however they interleave and whoever crashes |
| RuntimeConfig.CompletedNeverChanges | scripts/run-persistent-postgres.ts:71-77 | once created the file only grows into its creator's text, and completed content never changes |
| RuntimeConfig.WriterLeavesWhole | scripts/run-persistent-postgres.ts:71-74 | a process that created the file returns only when the file holds all of its configuration, and it does so ever after |
| RuntimeConfig.FirstProcessReturns | scripts/run-persistent-postgres.ts:63-74 | a lone process creates the file and returns its own configuration |
| RuntimeConfig.LateProcessReturns | scripts/run-persistent-postgres.ts:63-79 | a process that finds the complete file, or loses the race to create it, returns the creator's configuration |
| Ulid.EncodeTime | src/access/ulid.ts:5-10 | the loop gives the ten low base-32 digits of the time, most significant first |
| Ulid.CreateUlid | src/access/ulid.ts:4-15 | 26 characters of the alphabet: the time, then one for each random byte |
| Ulid.TimeDecodes | src/access/ulid.ts:5-10 | the prefix decodes to the time modulo 2^50, and to the time itself exactly below 2^50 |
| Ulid.TimesSort | src/access/ulid.ts:5-10 | below 2^50, earlier times are exactly those with lexicographically smaller prefixes |

## Left out

- Payload hooks, access control, schema validation and the page builder: their effects are the
  assumptions above; `terminalWorkflow` updates are not modelled.
- Concurrent publishers: one publisher and one ingress run at a time
  (`PublicationExact.StalePublisherIsRefused` is about the pointer under any number of publishers).
- The limit of 10,000 rows when versions are looked up: the tables are assumed to fit.
- Adapters without transactions, where a batch is not atomic.
- Taxonomy rows are named by their stable keys and artifacts by their place in id order; the order
  of references inside a row is not kept, only which ones there are.
- TaxonomyLocks.NoLostUpdates: models references only; revisions, deadlock detection and lock
  timeouts are not modelled (a rolled-back transaction may be one of those).
- Restore checks keys and references only: column types, NOT NULL and other constraints, and the
  text encoding of array columns, are not modelled.
- JSON numbers are identified with their printed text, and objects list integer-like keys in
  insertion order.
- Row order in manifests uses code units where the source uses `localeCompare`; ids of audit events
  are decimal digits.
- Envelope.AcceptedIsGenuine: a decrypted text without the two fields of a dump is refused here with
  one reason where the source may give another, and further top-level fields are dropped.
- Cryptographic strength, networking, file modes, signals and child processes.
- `extract_tweet_nodes`, `extract_cursor` and the regular expressions: a page is the tweets and the
  cursor found in it; `raw_posts.jsonl`, the ledger's `unique_tweet_count`, `rebuild_only` and the output files are not modelled.
- Tweet ids, unit ids, references and timestamps are ASCII text.
- Floating-point rounding: percentiles and scores are over reals.
- The localised document's hashes are abstract functions of what they hash, and the final schema
  check of the overlay is the identity.
- A worker's answer depends on its value and index, not on the schedule; `concurrency` outside 1 to 16
  is rejected before the lanes start.
- ULIDs: the clock and the random bytes are inputs.
