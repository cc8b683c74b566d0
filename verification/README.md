# Job catalogue and CV protocol: a verification model

This project models, in Dafny, the parts of a job-matching platform whose behaviour
spans several functions and several processes, and proves what they keep.

**The job catalogue.** Sources send records about postings. Each is written in one
transaction: deduplicated, merged under an ownership rule, and observed as a provenance
row. After a run, reconciliation retires the rows the run did not see and withdraws the
jobs nobody lists; expiry and paged retention do the rest. `Catalogue`, `Ownership`,
`Deduplication`, `Persistence`, `Contracts`, `Reconciliation` and `Retention` state the
rules on values. `CatalogueStore` and `IngestionRun` are the services that change tables
and counters in place, each method proved against its rule, and `Effects` says what the rules
leave in every column. `Lifecycle`, `LifecycleLaws`,
`SoleOwner`, `Ownerless`, `Convergence`, `Pairs`, `Voices` and `WholeRun` prove who owns a
job and whose word it ends up with, and what every transaction, every run of transactions and
one whole ingestion run keep. `RowLocks` takes retention and ingestion apart into single
statements under row locks.

**The public listing.** `Listing` proves keyset paging against plain sorting while the
catalogue changes; `Base64` and `Cursor` prove the cursor's round trip.

**Skill extraction.** `Extraction` proves the longest-first loops compute the one set of
phrases that satisfies a declarative description, and `Mentions` what that means for the text.

**The CV protocol.** `CvProtocol` gives every transaction of uploading, replacing,
reading and deleting CVs and of deleting an account, with failing deletes and commits.
`CvEffects` says what each of them does to one row, file or skill, and `CvLaws` what all runs
keep. `CvService` is the service over its tables and files,
and `BoundedCopy` the upload's bounded copy.

**Algorithms.** `Crawl` (the checkpointed walk), `Paragraphs`, `Boilerplate`, `BoilerplateLaws`,
`StoredBoilerplate` and `BoilerplateEffects` (employer boilerplate), `Throttle` (the attempt
throttle), `Ranking` and `Ndcg` (evaluation), `Allocation` (largest remainder). `Sorting`, `Extremes`, `Sets`, `Texts`
and `Wrappers` are shared.

Conventions. One committed transaction is one step, except in `RowLocks`. A savepoint
that rolls back is a step that changes nothing and reports a failure. Identifiers are
numbers; times are integers (reals in the throttle). Clocks, failures, network outages,
fresh identifiers and the order in which things happen are parameters, so every theorem
ranges over all of them. Text computations (normalizing, folding, tokenizing, hashing, date
and identifier formats) are functions passed as parameters; a theorem that needs something
of them says so in a `requires` clause.

Where the code and its documentation differ, the model follows the code:

- services/job-ingestion-service/scripts/strip_stored_boilerplate.py:7-9 says that a
  second run of the stored rule changes nothing. It changes something exactly when a posting
  fails the condition of `StoredBoilerplate.RewritingIsIdleIff`; five that do are in
  `StoredBoilerplate.TheStoredRuleIsNotIdempotent`. The ingestion rule is idle the second
  time exactly under the condition of `BoilerplateLaws.SecondPassIsIdleIff`.
- backend/app/modules/cvs/service.py:207-212 says inferred skills belong to the owner's most
  recent CV. They belong to the last read that wrote (`CvLaws.InferredComesFromTheLastReading`),
  which need not be of the most recent one (`CvLaws.SkillsOfADeletedCv`).
- backend/app/modules/profiles/models.py:132-134 says a concept that arrives both ways stays
  manual. It does if it was picked first; picking one a CV already put there leaves it
  inferred (`CvLaws.PickedIsManualIff`), and the next read may drop it.
- `is_stated` compares by value and the vocabulary enumerations are strings, so any text
  equal to `unspecified` counts as unstated, even a title (`Ownership.IsStated`).
- With three or more sources of one rank a job may have no owner at all
  (`Ownerless.AJobNobodyOwns`): the owner is an amalgam, so one source's date or count can
  join another's text. `SoleOwner.AnOwnerExistsIff` says exactly when there is one,
  and `Voices.TheOwnerIsHeardByAll` what the job says in either case.

## Model

| member | source | states |
|---|---|---|
| Ownership.Resolve | services/job-ingestion-service/job_ingestion/persistence.py:224-240 | silence never wins: the result is one of the two values, and is stated as soon as either is |
| Ownership.Merge | services/job-ingestion-service/job_ingestion/persistence.py:243-268 | every one of the eight canonical fields is resolved on its own, under one ranking |
| Ownership.MergeIsIdempotent | services/job-ingestion-service/job_ingestion/persistence.py:243-268 | folding the same record in twice under one ranking adds nothing |
| Ownership.Owning | services/job-ingestion-service/job_ingestion/persistence.py:373-377 | the owning rows are exactly the live ones of highest rank |
| Ownership.OutranksEach | services/job-ingestion-service/job_ingestion/persistence.py:407-460 | who outranks the amalgam of the other rows is no worse than any single live one: by rank, then completeness, then first listing |
| Ownership.AtMostOneOwner | services/job-ingestion-service/job_ingestion/persistence.py:350-460 | of any two sources that each list a job through one row, at most one takes the contested fields from all the others together |
| SoleOwner.OwnsIff | services/job-ingestion-service/job_ingestion/persistence.py:350-460 | which listing source takes the contested fields: one of the highest live rank, not a snippet where anybody ever sent the text, and alone there, or the only one there with the text, or leading the others there in what it states or by date |
| SoleOwner.AnOwnerExistsIff | services/job-ingestion-service/job_ingestion/persistence.py:376-383 | when some listing source does, case by case on how many are at the highest rank and how many of those sent the text |
| Ownerless.RankingReadsTheRows | services/job-ingestion-service/job_ingestion/persistence.py:407-460 | for a listed record the ranking of the stored rows is that ownership |
| Ownerless.AJobHasAnOwnerIff | services/job-ingestion-service/job_ingestion/persistence.py:350-460 | a stored job with one row a source has an owner among its rows iff that condition holds of them |
| Ownerless.AJobNobodyOwns | services/job-ingestion-service/job_ingestion/persistence.py:376-383 | a run of three writes from the empty catalogue after which three full texts of one rank list a job and none outranks the other two |
| Deduplication.DecisionIs | services/job-ingestion-service/job_ingestion/deduplication.py:74-194 | the record's own row decides, otherwise the only job that is the same posting, by that condition; new without one, ambiguous with several; unchanged iff the stored fields are the record's |
| Deduplication.CandidateIff | services/job-ingestion-service/job_ingestion/deduplication.py:128-161 | a stored job is matched iff its key is that of the record's company and title, the places agree, no row of it and not the record is a snippet, and the texts read the same |
| Persistence.TheOldestMatchWins | services/job-ingestion-service/job_ingestion/persistence.py:190-211 | the oldest company whose name normalizes alike is taken, and a new one only where none does |
| Effects.RecordsLandWhereTheyBelong | services/job-ingestion-service/job_ingestion/persistence.py:497-535 | a stored record lands on the job of its own row, else on the only job that is the same posting, else on a new one; never on a job that differs in any part of that condition |
| Effects.RefusedIff | services/job-ingestion-service/job_ingestion/persistence.py:463-522 | a record is refused iff its source is not the run's, several jobs are the same posting, or what the job would say expires before it was published |
| Effects.StoredRecords | services/job-ingestion-service/job_ingestion/persistence.py:497-569 | what a stored record leaves in every column of its job, its row, the sources and the companies, and which outcome it reports |
| Ownership.AgainstUnrecordedRows | services/job-ingestion-service/job_ingestion/persistence.py:322-334 | rows that do not say what they delivered count as full texts that stated nothing |
| LifecycleLaws.SkippingIsFolding | services/job-ingestion-service/job_ingestion/persistence.py:535-552 | the UNCHANGED shortcut writes exactly what merging would have written |
| LifecycleLaws.StoredSendFolds | services/job-ingestion-service/job_ingestion/persistence.py:497-569 | every stored record that creates nothing is one fold into one known job, with the match key of the merged title |
| LifecycleLaws.ReappearanceUndoesBothConclusions | services/job-ingestion-service/job_ingestion/persistence.py:463-569 | a write that fails changes nothing at all; one that succeeds leaves its row live and its job not withdrawn, touches no other job or row, keeps a known row on its job, and undoes expiry only where the job had been withdrawn |
| LifecycleLaws.FirstListedStays | services/job-ingestion-service/job_ingestion/persistence.py:387-404 | the earliest listing counted ahead of the write is the one the row holds after it |
| LifecycleLaws.RankingIsSettledOnce | services/job-ingestion-service/job_ingestion/persistence.py:407-460 | whether a record outranks is the same before and after it has been written |
| LifecycleLaws.ResendingIsASkip | services/job-ingestion-service/job_ingestion/persistence.py:497-569 | once stored, sending the same record again with no other write between is a skip that changes no job |
| Lifecycle.SendKeepsValid | services/job-ingestion-service/job_ingestion/persistence.py:497-569 | writing one record keeps the catalogue invariant: withdrawn iff no live row, every job has a row and every row its job, first seen before last seen, match key of the job's own company and title, dates in order |
| Lifecycle.RetireUnlists | services/job-ingestion-service/job_ingestion/reconciliation.py:168-177 | retiring rows unlists exactly the jobs all of whose live rows were among them |
| Lifecycle.ReconcileKeepsValid | services/job-ingestion-service/job_ingestion/reconciliation.py:123-210 | reconciliation keeps the invariant under either rule |
| Lifecycle.ExpireKeepsValid | services/job-ingestion-service/job_ingestion/reconciliation.py:213-232 | expiry keeps the invariant |
| Lifecycle.AnonymiseKeepsValid | services/job-ingestion-service/job_ingestion/retention.py:225-261 | anonymising keeps the invariant |
| Lifecycle.PurgeKeepsValid | services/job-ingestion-service/job_ingestion/retention.py:264-283 | purging keeps the invariant; no row is left without its job |
| Lifecycle.StepKeepsValid | services/job-ingestion-service/job_ingestion/persistence.py:497-569 | every transaction of any kind keeps the invariant |
| Lifecycle.EveryRunIsValid | services/job-ingestion-service/job_ingestion/persistence.py:497-569 | the invariant holds after every sequence of writes, reconciliations, expiries and retention pages |
| Lifecycle.EmptyIsValid | platform/db/platform_db/models/catalog.py:246-304 | the empty catalogue satisfies it |
| LifecycleLaws.AbsenceIsPerSource | services/job-ingestion-service/job_ingestion/reconciliation.py:156-170 | a reconciliation changes only live rows of its own source last seen before the line its rule draws, and only retires them |
| LifecycleLaws.WithdrawnIffLastListingLost | services/job-ingestion-service/job_ingestion/reconciliation.py:186-210 | a job changes in a reconciliation iff it lost its last live row, and then it is withdrawn and otherwise unchanged |
| LifecycleLaws.ReconcileCounts | services/job-ingestion-service/job_ingestion/reconciliation.py:178-210 | the report counts exactly the rows retired and the jobs that lost their last listing |
| LifecycleLaws.RetentionSparesTheListed | services/job-ingestion-service/job_ingestion/retention.py:118-130 | a page leaves a listed, active, recent, anonymised or unselected job and all of its rows exactly as they were |
| LifecycleLaws.RowsStayInPlace | services/job-ingestion-service/job_ingestion/persistence.py:91-109 | in any transaction a row stays on its job and its seen interval only widens; a row that goes, goes with its unlisted job |
| LifecycleLaws.GoneForGood | services/job-ingestion-service/job_ingestion/retention.py:264-283 | a purged job's identifier never returns |
| LifecycleLaws.StepKeepsStated | services/job-ingestion-service/job_ingestion/persistence.py:214-268 | one transaction keeps every stated field stated, unless it anonymises the job |
| LifecycleLaws.AnonymisationIsForever | services/job-ingestion-service/job_ingestion/retention.py:13-15 | over any run an anonymised job that is still there stays anonymised |
| LifecycleLaws.SilenceNeverWins | services/job-ingestion-service/job_ingestion/persistence.py:214-268 | over any run by any sources a stated field stays stated unless retention stripped the job |
| Reconciliation.RulesOfASummary | services/job-ingestion-service/job_ingestion/reconciliation.py:87-120 | which rule fires, in the summary's own fields: exhausted iff the run fetched something, reached the end within budget without a failure and accounts for all of it; by lifetime iff not that, but a lifetime is set and only rejections are missing from the count |
| Reconciliation.UnseenBefore | services/job-ingestion-service/job_ingestion/reconciliation.py:137-146 | the line is the start of an exhausted run, and a lifetime before it for any other |
| Effects.ReconcileDoes | services/job-ingestion-service/job_ingestion/reconciliation.py:123-210 | a row is retired iff it is live, of the run's registered source, and last seen before the start of an exhausted run or a lifetime before that of another; a job is withdrawn iff it had live rows and all of them were retired so; nothing else changes, and both are counted |
| Effects.ExpireDoes | services/job-ingestion-service/job_ingestion/reconciliation.py:213-232 | exactly the active jobs whose stated date is past expire, and are counted |
| Retention.PageIsTheNextOnes | services/job-ingestion-service/job_ingestion/retention.py:167-195 | a page is the next candidates in key order, each once, and leaves one behind only when full and only if it comes after all of the page |
| Retention.CandidatesLeft | services/job-ingestion-service/job_ingestion/retention.py:118-130 | what a page did is a candidate no longer, every other candidate still is, at the same key |
| Effects.SweepDoes | services/job-ingestion-service/job_ingestion/retention.py:118-164 | a pass deletes with its rows every job expired or withdrawn, old enough, never stripped, unlisted and in no probe, strips those some probe has, column by column, and changes nothing else |
| Effects.PageDoes | services/job-ingestion-service/job_ingestion/retention.py:225-283 | the same of one page, for the jobs on it |
| Retention.PageIsASweep | services/job-ingestion-service/job_ingestion/retention.py:225-283 | anonymise then purge on a page of candidates is the one-shot rule on that page |
| Retention.SweepsCompose | services/job-ingestion-service/job_ingestion/retention.py:133-164 | the one-shot rule on two disjoint parts is the rule on their union |
| Convergence.TwoVoicesHaveOneOwnerIff | services/job-ingestion-service/job_ingestion/persistence.py:407-460 | between two live sources exactly one owns the job, iff neither is a higher-ranked snippet against a lower-ranked full text and something tells them apart |
| Convergence.SecondVoiceSettles | services/job-ingestion-service/job_ingestion/persistence.py:224-268 | the second record's fold gives the winner's stated values and otherwise the other's |
| Convergence.SettledStays | services/job-ingestion-service/job_ingestion/persistence.py:224-268 | every later fold of either record keeps that |
| Convergence.RankingOfAVoice | services/job-ingestion-service/job_ingestion/persistence.py:350-460 | the stored rows rank a voice exactly as the two accounts alone do |
| Convergence.CreationStartsIt | services/job-ingestion-service/job_ingestion/persistence.py:523-528 | any stored creation by one source starts such a run |
| Convergence.TwoVoicesConverge | services/job-ingestion-service/job_ingestion/persistence.py:407-460 | from a creation, for every later interleaving of the two sources' sends with everything else, once both have written each field is the owner's value if stated and otherwise the other's |
| Pairs.SnippetsNeverJoin | services/job-ingestion-service/job_ingestion/deduplication.py:143-161 | from a creation only two full texts meet: deduplication joins no snippet to a job and nothing to a snippet |
| Pairs.OneOutspeaksIff | services/job-ingestion-service/job_ingestion/persistence.py:407-460 | of two sources already on a job one outranks the other iff no higher-ranked snippet faces a full text and something tells them apart; never both |
| Pairs.OneTurn | services/job-ingestion-service/job_ingestion/persistence.py:243-268 | any transaction leaves such a job's fields as they are, or folds the record of the source that sent, under its rank against the other |
| Pairs.TheOwnerIsHeard | services/job-ingestion-service/job_ingestion/persistence.py:407-460 | from any such job, whatever it says, and any later interleaving: a field the owner states is the owner's from its next send on, any other stated one keeps its value, and one nobody had stated is the other's once it has sent |
| Pairs.NobodyIsHeard | services/job-ingestion-service/job_ingestion/persistence.py:407-460 | where neither outranks the other, no stated field of the job ever changes |
| Voices.CreationIsAChorus | services/job-ingestion-service/job_ingestion/persistence.py:523-528 | a stored creation leaves a job whose one live row is its creator's |
| Voices.JoiningAddsAVoice | services/job-ingestion-service/job_ingestion/persistence.py:530-569 | a record of another source that joins such a job leaves one live row each for one source more |
| Voices.OneChorusTurn | services/job-ingestion-service/job_ingestion/persistence.py:243-268 | with any number of sources on a job, any transaction leaves its fields as they are or folds the record of the source that sent, as the owner iff that source owns the job; and ownership stays as it was |
| Voices.ThereIsOneAnswer | services/job-ingestion-service/job_ingestion/persistence.py:407-460 | exactly one of them owns the job, or none does |
| Voices.TheOwnerIsHeardByAll | services/job-ingestion-service/job_ingestion/persistence.py:350-460 | over any later interleaving of any number of sources with everything else: a field the owner states is the owner's from its next send on, and any other field, or every field where nobody owns the job, keeps the first value stated |
| CatalogueStore.Store.EnsureCompany | services/job-ingestion-service/job_ingestion/persistence.py:190-211 | the oldest company of that normalized name, or a new one |
| CatalogueStore.Store.PersistJob | services/job-ingestion-service/job_ingestion/persistence.py:463-569 | the tables and the report are those of the write rule; a refused write restores the savepoint, and a stored one lands where the record belongs and leaves in every column what `Effects.Sent` says |
| CatalogueStore.Store.WithdrawJobsNobodyLists | services/job-ingestion-service/job_ingestion/reconciliation.py:186-210 | the loop withdraws and counts exactly the named jobs nobody lists |
| CatalogueStore.Store.RetireRows | services/job-ingestion-service/job_ingestion/reconciliation.py:168-170 | exactly the unseen rows are retired |
| CatalogueStore.Store.Reconcile | services/job-ingestion-service/job_ingestion/reconciliation.py:123-183 | tables and report are those of the reconciliation rule: the rows not shown are retired and the jobs that lost their last listing withdrawn, as `Effects.Reconciled` says |
| CatalogueStore.Store.ExpireJobsPastTheirStatedDate | services/job-ingestion-service/job_ingestion/reconciliation.py:213-232 | exactly the active jobs whose date has passed expire, and are counted |
| CatalogueStore.Store.Probe | services/job-ingestion-service/job_ingestion/retention.py:153-155 | the union of what every probe points at, within the page |
| CatalogueStore.Store.SweepPage | services/job-ingestion-service/job_ingestion/retention.py:153-159 | one page does the one-shot rule and its counts are exact |
| CatalogueStore.Store.ApplyRetention | services/job-ingestion-service/job_ingestion/retention.py:133-164 | run alone the paged pass ends and is the one-shot rule on all candidates: unreferenced ones deleted with their rows, referenced ones stripped, all else untouched, as `Effects.Retained` says column by column; the counts are of the jobs that went and of those that changed |
| IngestionRun.RunTally.Count | services/job-ingestion-service/job_ingestion/pipeline.py:83-89 | exactly one of the three counters moves by one |
| IngestionRun.TakePage | services/job-ingestion-service/job_ingestion/pipeline.py:162-174 | records are taken until the page or the budget ends, and the run is stopped only with a record still to come |
| IngestionRun.PagesInOrder | services/job-ingestion-service/job_ingestion/pipeline.py:160-174 | the feed is its pages one after the other |
| IngestionRun.TakesUpToTheBudget | services/job-ingestion-service/job_ingestion/pipeline.py:162-174 | a run takes the first records up to the budget or all, and is over it iff some are left |
| IngestionRun.Gather | services/job-ingestion-service/job_ingestion/pipeline.py:160-182 | the run takes the budgeted prefix of the feed, in order, with every rejection and fetch failure recorded |
| IngestionRun.StoreRecords | services/job-ingestion-service/job_ingestion/pipeline.py:184-187 | every prepared record is stored in order and tallied, every failed write recorded |
| IngestionRun.Execute | services/job-ingestion-service/job_ingestion/pipeline.py:129-191 | the whole run: what it leaves in the catalogue and what it says of itself |
| WholeRun.ExhaustedRunStoredEverything | services/job-ingestion-service/job_ingestion/pipeline.py:129-191 | if the exhausted rule fires, the run took the whole feed, every record validated, and no write failed |
| WholeRun.RunsAreAccountedFor | services/job-ingestion-service/job_ingestion/contracts.py:130-181 | every run accounts for what it fetched: stored, skipped or rejected before storing |
| WholeRun.RunTracks | services/job-ingestion-service/job_ingestion/persistence.py:91-109 | among any foreign transactions, what the run stored is live and seen since it began and nothing else of the source is |
| WholeRun.ExhaustedRunLeavesWhatItSaw | services/job-ingestion-service/job_ingestion/reconciliation.py:123-183 | after an exhausted run the source's live rows are exactly the ids the run fetched, and the jobs withdrawn are exactly those whose last live row was retired |
| WholeRun.RefreshedRowsStayLive | services/job-ingestion-service/job_ingestion/reconciliation.py:104-146 | under either rule no row the run refreshed is retired by its reconciliation |
| IngestionRun.EachJobCountsOnce | services/job-ingestion-service/job_ingestion/persistence.py:144-163 | an employer's stored postings are counted once each, under the normalized name |
| WholeRun.StripKeepsKeys | services/job-ingestion-service/job_ingestion/pipeline.py:193-219 | stripping boilerplate changes no record's identity |
| WholeRun.StoreAllIsARun | services/job-ingestion-service/job_ingestion/pipeline.py:184-187 | storing a run's records is a sequence of catalogue steps |
| WholeRun.RunRecordedIngestion | services/job-ingestion-service/job_ingestion/runs.py:134-170 | execute then reconcile keeps the invariant, and leaves exactly what was fetched live when the exhausted rule fires |
| RowLocks.WriterCommitLeavesHeld | services/job-ingestion-service/job_ingestion/retention.py:198-222 | a writer's commit moves no row onto or off a job a page holds and changes no row it locked |
| RowLocks.CommitKeepsNoOrphans | services/job-ingestion-service/job_ingestion/retention.py:264-283 | no commit leaves a row without its job |
| RowLocks.StepKeepsSound | services/job-ingestion-service/job_ingestion/retention.py:167-222 | every statement of a page or a writer keeps locks exclusive and what each has read true |
| RowLocks.EveryInterleavingIsSound | services/job-ingestion-service/job_ingestion/retention.py:17-24 | so does every interleaving of any number of pages and writers, statement by statement |
| RowLocks.CommitTakesCandidates | services/job-ingestion-service/job_ingestion/retention.py:225-283 | what a page commits touches only jobs that are candidates at that very moment |
| RowLocks.NoListedJobIsTaken | services/job-ingestion-service/job_ingestion/retention.py:17-24 | after any interleaving no commit of a page deletes or strips a job with a committed live row |
| RowLocks.PagesNeverWait | services/job-ingestion-service/job_ingestion/retention.py:198-206 | after any interleaving nobody else holds any job, or row of a job, that the next statement of a page updates or deletes, and the page has a next statement, so it never waits and is in no deadlock |
| RowLocks.BesideIngestion | services/job-ingestion-service/job_ingestion/retention.py:17-24 | all of that from a catalogue at rest, over every interleaving of pages and writers |
| RowLocks.CommitIsAPage | services/job-ingestion-service/job_ingestion/retention.py:225-283 | what a page commits is one page of the retention rule on what is committed by then, the stripped jobs as the referenced ones |
| RowLocks.UninterruptedPage | services/job-ingestion-service/job_ingestion/retention.py:152-222 | a page nobody interrupts does the retention rule to every job it chose of which nobody else holds a row, whatever else is open |
| RowLocks.UninterruptedWriter | services/job-ingestion-service/job_ingestion/persistence.py:463-495 | a writer nobody interrupts commits its writes, the last to each row and job |
| RowLocks.FreshWriter | services/job-ingestion-service/job_ingestion/persistence.py:463-495 | from its first statement to its commit |
| RowLocks.InterleavedPagesKeepValid | services/job-ingestion-service/job_ingestion/retention.py:17-24 | so pages interleaved statement by statement with writers that keep the lifecycle invariant keep it too |
| Listing.AfterSelectsTheStrictlyLater | backend/app/modules/jobs/queries.py:189-203 | the cursor clause selects exactly the rows strictly later in published-descending, nulls-last, id-descending order |
| Listing.PrecedesIsTotal | backend/app/modules/jobs/queries.py:139 | that order is strict and total |
| Listing.BatchIsTheFirstRows | backend/app/modules/jobs/queries.py:238-258 | for a page size of at least one, a page is the first rows of the sorted rest, with a cursor at its last row iff more remain |
| Listing.BatchHolds | backend/app/modules/jobs/queries.py:238-258 | a page holds as many as asked for, at most a hundred, or all that remain |
| Listing.ShownGoesForward | backend/app/modules/jobs/queries.py:216-258 | whatever changes between requests, what is shown only goes forward and was listable when shown |
| Listing.NoJobTwice | backend/app/modules/jobs/queries.py:216-258 | a job is shown twice only if its publication date changed in between |
| Listing.StayersAreShownOnce | backend/app/modules/jobs/queries.py:216-258 | a job listable throughout with an unchanged key is shown exactly once to a reader who reaches the end |
| Listing.ActiveThroughoutIsShownOnce | backend/app/modules/jobs/queries.py:156-258 | over any states of the catalogue between requests: only jobs active and wanted are shown, and one that is so throughout with its date untouched is shown exactly once |
| Listing.PagingIsSorting | backend/app/modules/jobs/queries.py:216-258 | over an unchanging catalogue the pages end in time and concatenate to the sorted listing |
| Base64.DecodeOfEncode | backend/app/modules/jobs/queries.py:102 | URL-safe base64 (section 5 of RFC 4648) reads back |
| Base64.DigitsOfTheAlphabet | backend/app/modules/jobs/queries.py:102 | the digits are those of the URL-safe alphabet in its order (section 5 of RFC 4648) |
| Base64.GroupIsTheNumber | backend/app/modules/jobs/queries.py:102 | a group of digits is the number its bytes are, most significant first, padded where bytes are missing |
| Base64.EncodingShape | backend/app/modules/jobs/queries.py:102 | an encoding is whole groups with at most two padding signs, all at the end |
| Base64.PaddingIsRestored | backend/app/modules/jobs/queries.py:105-136 | the length modulo four restores exactly the padding taken off |
| Cursor.SplitOfJoin | backend/app/modules/jobs/queries.py:101-109 | splitting undoes joining for fields free of the separator |
| Cursor.RoundTripIffZoned | backend/app/modules/jobs/queries.py:87-136 | a token reads back as its position iff the date, if any, carries a time zone; otherwise it is refused for that reason |
| Cursor.FieldsAreRead | backend/app/modules/jobs/queries.py:105-136 | how a token of any fields is read: a position iff there are three, of this ordering, with an identifier and no date or a zoned one; else refused as another ordering, as lacking a zone, or as no position |
| Cursor.TokensAreDistinct | backend/app/modules/jobs/queries.py:87-102 | different positions have different tokens |
| Extraction.VocabularyEntries | platform/skills/platform_skills/extraction.py:77-93 | entries exist iff every form has a term and no two forms of one term disagree, and then hold exactly the forms' terms |
| Extraction.SpansOverlapIffWindowsDo | platform/skills/platform_skills/extraction.py:96-97 | two token windows share text iff they share a token |
| Extraction.AnswerIsUnique | platform/skills/platform_skills/extraction.py:100-140 | at most one set of windows is disjoint, in the vocabulary, and leaves out only windows overlapped by a longer or equally long earlier chosen one |
| Extraction.ScanSize | platform/skills/platform_skills/extraction.py:117-138 | one pass over all windows of a size decides every window of that size |
| Extraction.SortBySpan | platform/skills/platform_skills/extraction.py:140 | the mentions found, in span order |
| Extraction.ExtractMentions | platform/skills/platform_skills/extraction.py:100-140 | the mentions are that unique greedy answer, in source order, each with its own text, form, span and concept |
| Mentions.MentionSays | platform/skills/platform_skills/extraction.py:117-138 | every mention is of consecutive tokens that spell a form of the vocabulary, with their text and place and its form and concept |
| Mentions.NothingIsMissed | platform/skills/platform_skills/extraction.py:117-138 | wherever the tokens spell a form, it or something at least as long sharing a token with it is mentioned |
| Mentions.MentionsAscend | platform/skills/platform_skills/extraction.py:140 | mentions come in text order and share no text |
| Crawl.VisitSlice | backend/scripts/fetch_esco.py:133-151 | a visited slice is seen, a concept of it is fetched iff some request for it was answered and fails iff some was not, and all children of those fetched are found |
| Crawl.Crawler.OneSlice | backend/scripts/fetch_esco.py:147-153 | a slice is 400 concepts or what is left, and the checkpoint written after it accounts for everything met so far |
| Crawl.Crawler.OneLevel | backend/scripts/fetch_esco.py:142-155 | a level ends with everything pending seen, or killed with a resumable checkpoint |
| Crawl.Crawler.Run | backend/scripts/fetch_esco.py:126-156 | a run from any checkpoint ends; unkilled, the roots and all children of fetched concepts are seen, each seen uri is a concept or a failure, and nothing unreachable is seen; killed after a slice it has made progress; it fetches only what was up and fails only at what was down, and without an outage it fetches exactly what the roots lead to |
| Crawl.FetchedOrBehindAFailure | backend/scripts/fetch_esco.py:126-156 | on every way from a root to a concept the finished walk has not fetched, something failed |
| Crawl.Crawler.RunThroughKills | backend/scripts/fetch_esco.py:100-156 | killed and resumed any number of times, before the first slice too, the walk finishes with that same result once more runs have completed a slice than there are concepts |
| Paragraphs.BlocksOfJoin | services/job-ingestion-service/job_ingestion/boilerplate.py:138-140 | reading back joined paragraphs gives those paragraphs |
| Boilerplate.CountBlocks | services/job-ingestion-service/job_ingestion/boilerplate.py:206-210 | each folded block is counted once per posting that carries it |
| Boilerplate.SelfDescribingBlocks | services/job-ingestion-service/job_ingestion/boilerplate.py:173-215 | the removable blocks are those most postings in hand carry and that name the employer |
| Boilerplate.GroupByEmployer | services/job-ingestion-service/job_ingestion/boilerplate.py:316-318 | what each employer's postings say, in order |
| Boilerplate.RemovableByEmployer | services/job-ingestion-service/job_ingestion/boilerplate.py:320-332 | each employer's removable blocks, judged on the larger of the run and the catalogue |
| Boilerplate.StripEmployerBoilerplate | services/job-ingestion-service/job_ingestion/boilerplate.py:296-347 | the postings out are the stripped postings in, and the totals are the differences between them |
| BoilerplateEffects.RemovableIff | services/job-ingestion-service/job_ingestion/boilerplate.py:173-215 | a run removes from an employer's postings exactly what reads alike in the stated share of those in hand and names the employer between blanks, given enough in hand and enough in hand or in the catalogue |
| BoilerplateEffects.TotalsBalance | services/job-ingestion-service/job_ingestion/boilerplate.py:334-347 | the totals balance: the postings counted are those that say something else, and the blocks and characters reported are what is no longer there |
| BoilerplateLaws.StripKeepsOrderAndIdentity | services/job-ingestion-service/job_ingestion/boilerplate.py:334-347 | every posting stays in its place and keeps everything but its text, whose paragraphs are the kept ones in order |
| BoilerplateLaws.TotalsAreWhatWasRemoved | services/job-ingestion-service/job_ingestion/boilerplate.py:335-347 | the reported blocks are the removable paragraphs taken out, and the reported characters are never negative |
| BoilerplateLaws.RemovableAgain | services/job-ingestion-service/job_ingestion/boilerplate.py:173-215 | what a second pass would remove, told from the first pass's input alone |
| BoilerplateLaws.SecondPassIsIdleIff | services/job-ingestion-service/job_ingestion/boilerplate.py:284-347 | a second ingestion pass changes nothing iff every wholly removable posting rests under what is then still removable |
| BoilerplateLaws.SecondPassIsIdle | services/job-ingestion-service/job_ingestion/boilerplate.py:284-347 | in particular if no posting is reduced to nothing |
| StoredBoilerplate.FindStoredBlocks | services/job-ingestion-service/job_ingestion/boilerplate.py:235-281 | the naming blocks most stored postings carry, or nearly as many as carry the commonest one where enough do |
| BoilerplateEffects.StoredBlockIff | services/job-ingestion-service/job_ingestion/boilerplate.py:218-281 | the stored rule removes exactly what names the employer and is carried by the stated share of its postings, or by nine in ten of as many as carry the commonest such block, if those are enough |
| BoilerplateEffects.LinesAreCounted | services/job-ingestion-service/scripts/strip_stored_boilerplate.py:66-72 | the lines reported are those ended in the text, a carriage return and its line feed ending one, and one more if something follows |
| StoredBoilerplate.RewriteStored | services/job-ingestion-service/scripts/strip_stored_boilerplate.py:52-81 | every employer's postings without its blocks, and the totals of postings, lines and characters between them |
| StoredBoilerplate.FoundAgainIs | services/job-ingestion-service/job_ingestion/boilerplate.py:258-281 | what a second pass finds, told from the first pass's input alone |
| StoredBoilerplate.NothingFoundAgainIff | services/job-ingestion-service/job_ingestion/boilerplate.py:258-281 | a second pass finds nothing iff every naming block is left in fewer postings than a pattern takes, and no removable one in most of them |
| StoredBoilerplate.PassIsIdleIff | services/job-ingestion-service/job_ingestion/boilerplate.py:258-293 | a second pass over an employer's postings changes nothing iff each of them settles under what is then found |
| StoredBoilerplate.PassIsIdleIffFewCarry | services/job-ingestion-service/job_ingestion/boilerplate.py:258-293 | where every posting says something of its own, a second pass is idle iff every naming block the first leaves is carried by fewer postings than a pattern takes |
| StoredBoilerplate.RewritingIsIdleIff | services/job-ingestion-service/scripts/strip_stored_boilerplate.py:52-81 | the same over everything stored, employer by employer |
| StoredBoilerplate.TheStoredRuleIsNotIdempotent | services/job-ingestion-service/job_ingestion/boilerplate.py:235-281 | five stored postings, under the default policy, that a second pass changes, by that condition |
| Throttle.WaitingClears | backend/app/api/throttle.py:82-94 | waiting the returned seconds always clears the refusal |
| Throttle.AttemptThrottle.RetryAfter | backend/app/api/throttle.py:82-94 | the answer for this key's window; an ended window is dropped and nothing else changes |
| Throttle.AttemptThrottle.Record | backend/app/api/throttle.py:96-106 | the key's window is counted or begun, the key moves last, and the oldest keys beyond capacity go |
| Throttle.BoundedAgreesWithFree | backend/app/api/throttle.py:96-106 | the bounded table agrees with unbounded windows on every key after which fewer than capacity distinct others were ever recorded |
| Throttle.AnswersAgree | backend/app/api/throttle.py:82-106 | so does the answer such a key gets |
| Throttle.RefusedIff | backend/app/api/throttle.py:82-106 | an attempt is refused iff the allowed number was admitted in a window still open, and told the fewest whole seconds, at least one, to its end |
| Throttle.WindowsBeginWithAnAttempt | backend/app/api/throttle.py:96-106 | a window begins with the first attempt it counts |
| Throttle.ServiceIsWindowed | backend/app/api/throttle.py:60-106 | a key's admitted attempts fall into disjoint windows of at most the allowed number |
| Throttle.AtMostTwiceInAnyInterval | backend/app/api/throttle.py:60-106 | at most the allowed number per window, and at most twice that in any interval of one window length |
| Throttle.OthersDoNotMatter | backend/app/api/dependencies.py:62-77 | check-then-record by any number of keys admits a never crowded key exactly as if it were alone |
| Throttle.UnevictedKeysAreBounded | backend/app/api/dependencies.py:62-77 | with every key attempting at will, a key never crowded out gets at most twice the limit in any window length |
| Ndcg.KeptAreTheFirst | backend/app/modules/matching/evaluation.py:71-80 | a cutoff keeps the places before it, counted from the end when negative |
| Ndcg.IdealIsDescending | backend/app/modules/matching/evaluation.py:78 | the ideal order is the grades in falling order |
| Ndcg.IdealGainsMost | backend/app/modules/matching/evaluation.py:71-80 | truncated rearrangement: no order of the same grades gains more within a cut than the sorted one, and only the same prefix gains as much |
| Ndcg.ScoreIsARatio | backend/app/modules/matching/evaluation.py:75-80 | the score is between 0 and 1, and is 1 iff some grade in the cut is positive, the cut is in falling order and nothing after it is better |
| Ndcg.RelevanceOrderScoresOne | backend/app/modules/matching/evaluation.py:75-80 | a ranking in relevance order with a positive grade within the cutoff scores 1 |
| Ranking.ScoreIsCoverage | backend/app/modules/matching/overlap.py:57-65 | the score is a share, 1 iff the candidate has everything asked for, 0 iff nothing, and matched and missing partition what is asked for |
| Ranking.MoreSkillsNeverHurt | backend/app/modules/matching/overlap.py:14-19 | knowing more than is asked for never lowers a score |
| Ranking.Rank | backend/app/modules/matching/evaluation.py:48-68 | every posting once, by falling score and then key, with its own match and relevance, the score being the share of skills or what replaces it |
| Ranking.EntriesSay | backend/app/modules/matching/evaluation.py:48-68 | an entry names the skills asked for that the candidate has and has not, and scores their share or what is given in its place |
| Ranking.RankingIsFixed | backend/app/modules/matching/evaluation.py:54-58 | there is only one such ranking, whatever order the postings arrive in |
| Allocation.ShortByLessThanOne | backend/scripts/sample_postings.py:112-114 | rounding down leaves a stratum with room short by less than one, and one without room not short at all |
| Allocation.OnePassIsEnough | backend/scripts/sample_postings.py:122-127 | what rounding down leaves over never exceeds the number of strata with room, so the cycling loop never comes round again |
| Allocation.TakeBack | backend/scripts/sample_postings.py:116-120 | the excess is taken one by one from the largest quota above one, of equal ones from the smaller share and then the earlier stratum |
| Allocation.TakingBackIsUnique | backend/scripts/sample_postings.py:116-120 | that fixes which quotas give way |
| Allocation.SortByRemainder | backend/scripts/sample_postings.py:121 | largest remainder first, ties in the strata's own order |
| Allocation.HandOut | backend/scripts/sample_postings.py:122-127 | the rest goes out by largest remainder, at most one a stratum, passing over full ones |
| Allocation.Allocate | backend/scripts/sample_postings.py:104-128 | every quota is between one and the stratum's size and they sum to the larger of the sample and the number of strata; either largest remainders get one more, or the largest quotas give way |
| Allocation.HandingOutIsUnique | backend/scripts/sample_postings.py:121-128 | those two conditions fix the quotas |
| Allocation.TooLargeASampleHasNoRoom | backend/scripts/sample_postings.py:122-127 | for a sample larger than the pool no stratum has room, and the quotas reach it iff every share is whole, so the second loop ends only then |
| CvProtocol.StepKeepsOwners | backend/app/modules/cvs/models.py:82-89 | rows, profiles and skills always belong to existing accounts |
| CvProtocol.StepKeepsInferencesBacked | backend/app/modules/cvs/service.py:207-230 | after any transaction an owner with a CV-sourced skill has a CV |
| CvProtocol.StepKeepsFilesNamed | backend/app/modules/cvs/service.py:192-195 | after any transaction every stored file is named by a row or a running upload, or its cleanup failed |
| CvProtocol.StepKeepsReadsExclusive | backend/app/modules/cvs/processing.py:62-67 | a row stays in processing while its read goes on |
| CvLaws.EveryRunIsValid | backend/app/modules/cvs/service.py:66-165 | all of that holds after every sequence of transactions by anybody, whatever deletes and commits fail |
| CvLaws.StatesFollowTheTable | backend/app/modules/cvs/models.py:40-47 | over any run a CV moves only along the transition table and keeps owner, key and creation time; an identifier that is gone stays gone |
| CvLaws.AReadBeginsAlone | backend/app/modules/cvs/processing.py:62-67 | a read that begins finds no other read of its CV going on |
| CvLaws.AbandonedIsNeverReadAgain | backend/app/modules/cvs/processing.py:71-83 | a CV whose read died of anything but a parsing failure stays in processing, over any run, until it is deleted |
| CvLaws.ConcludingNeverRaises | backend/app/modules/cvs/models.py:121-134 | concluding a read never asks for a transition the table refuses |
| CvLaws.DeletedWhileReadWritesNothing | backend/app/modules/cvs/processing.py:85-92 | a CV deleted while it is read writes no row and no skill, whatever happens in between |
| CvLaws.RereadIsExact | backend/app/modules/cvs/skills.py:60-113 | a read replaces exactly the owner's inferred skills by those named and not picked, and no one else's |
| CvLaws.OnlyTheLastReadingCounts | backend/app/modules/cvs/skills.py:67-75 | of two reads only the last leaves a trace |
| CvLaws.PickedIsManualIff | backend/app/modules/profiles/service.py:108-136 | a picked skill is recorded as the candidate's own iff no CV had put it there before |
| CvLaws.ChoicesSurvive | backend/app/modules/cvs/skills.py:69-72 | no run of CV transactions adds, drops or relabels a picked skill |
| CvLaws.InferredComesFromTheLastReading | backend/app/modules/cvs/skills.py:67-75 | every inferred skill was named by the last read that wrote |
| CvLaws.DeletionTakesTheInferredIffNewest | backend/app/modules/cvs/service.py:219-230 | deleting a CV removes an inferred skill iff the CV is the newest |
| CvLaws.AnOlderReadingOutlastsItsCv | backend/app/modules/cvs/service.py:207-212 | skills read from an older CV after the newest one was read survive the deletion of the CV they came from |
| CvLaws.SkillsOfADeletedCv | backend/app/modules/cvs/service.py:207-212 | a run from the empty service that ends there: two overlapping uploads, both read, the older one last and then deleted |
| CvLaws.TheLaterUploadSurvives | backend/app/modules/cvs/service.py:137-142 | however uploads race and replace one another, an owner who deletes nothing keeps a CV at least as recent as any there was |
| CvLaws.AccountGoesWholeOrStays | backend/app/modules/accounts/service.py:118-144 | account deletion either leaves everything but some files, when one will not go; or, all its files gone, leaves everything else when the commit fails, and otherwise removes account, profile, rows and skills |
| CvLaws.GoneAccountStaysGone | backend/app/modules/accounts/service.py:124-131 | nothing of a deleted account comes back, not even from uploads it left running |
| CvLaws.OvertakenUploadCleansUp | backend/app/modules/accounts/service.py:124-131 | an upload overtaken by the deletion of its account stores no row and takes its file back |
| CvEffects.CvGoesIff | backend/app/modules/cvs/service.py:119-230 | which CVs go, in any transaction: those replaced by a later one of their owner, deleted by their owner or gone with the account, once committed and unless their file stays |
| CvEffects.ReplacingLeavesNothingEarlier | backend/app/modules/cvs/service.py:146-165 | replacing takes every earlier CV of the owner with its file, and leaves of them only those whose file will not go |
| CvEffects.CvComesIff | backend/app/modules/cvs/service.py:96-106 | which come, and what they say |
| CvEffects.CvChangesTo | backend/app/modules/cvs/processing.py:62-104 | what changes about one that stays: a read that begins makes a pending or failed one processing, one that finishes makes it processed, one that fails makes it failed |
| CvEffects.FileGoesIff | backend/app/modules/cvs/service.py:96-230 | which files go |
| CvEffects.FileComesIff | backend/app/modules/cvs/service.py:95 | which come; a key that is taken is not overwritten |
| CvEffects.LeaksIff | backend/app/modules/cvs/service.py:96-106 | which are left behind unnamed: those of an upload without a row that would not be taken back |
| CvEffects.SkillGoesIff | backend/app/modules/cvs/skills.py:60-113 | which skills go |
| CvEffects.SkillComesIff | backend/app/modules/cvs/skills.py:60-113 | which come, and that a skill keeps the source it came by |
| CvEffects.OnlyTheLatestTakesSkills | backend/app/modules/cvs/service.py:207-238 | deleting the only latest CV takes the inferred skills; deleting an earlier one takes none |
| CvEffects.AccountsChangeIff | backend/app/modules/accounts/service.py:106-144 | which accounts and profiles come and go |
| CvService.CvService.TransitionTo | backend/app/modules/cvs/models.py:120-134 | the row moves iff the table allows it |
| CvService.CvService.Unlink | backend/app/modules/cvs/storage.py:145-150 | the file goes unless storage fails; one that is not there counts as gone |
| CvService.CvService.BeginUpload | backend/app/modules/cvs/service.py:95 | the bytes are stored under a key not taken |
| CvService.CvService.EndUpload | backend/app/modules/cvs/service.py:96-106 | the row is committed, or the file is taken back |
| CvService.CvService.RemoveSuperseded | backend/app/modules/cvs/service.py:119-165 | exactly the CVs created before the kept one go, files first, except those whose file will not go |
| CvService.CvService.BeginRead | backend/app/modules/cvs/processing.py:62-67 | a read begins iff the row is pending or failed |
| CvService.CvService.FailRead | backend/app/modules/cvs/processing.py:79-83 | a failed read marks a row that is still there and touches no skill |
| CvService.CvService.StoreCvSkills | backend/app/modules/cvs/skills.py:60-113 | inferred skills are replaced, and added and already chosen partition what was found |
| CvService.CvService.FinishRead | backend/app/modules/cvs/processing.py:85-104 | a finished read writes its concepts and its state together, or nothing if the row is gone |
| CvService.CvService.DeleteCv | backend/app/modules/cvs/service.py:183-230 | file, then row and, for the newest, inferred skills; nothing changes for another owner or when the file will not go |
| CvService.CvService.DeleteAccount | backend/app/modules/accounts/service.py:106-144 | files one by one, then everything; stops at the first that will not go |
| CvService.ConceptsIn | backend/app/modules/cvs/skills.py:39-57 | exactly the concepts the mentions resolve to, ascending, without repeats |
| BoundedCopy.CopyUploadBounded | backend/app/modules/cvs/service.py:43-63 | however the bytes arrive, what is copied is the upload up to one byte past the limit, its size passes the limit iff the upload does, and the sample is its first bytes |

## Left out

- CatalogueStore.Store.PersistJob: the time-zone check on the sighting and the column constraints other than the date order are not modelled; any other constraint failure is the same refusal.
- CatalogueStore.Store.ApplyRetention: models the pass with nobody else writing; skipped locks and concurrent writers are in RowLocks.
- CatalogueStore.Store.SweepPage: skill and mention rows that go with a job are not tables of the model; the locks between selecting and acting are in RowLocks.
- CatalogueStore.Store.EnsureCompany: of a company only its name is kept, of a source its key and precedence, and of a raw payload the partial flag and the stated count.
- IngestionRun.Execute: skill enrichment after a write is not modelled; its failure never reaches the counts it does model.
- IngestionRun.Gather: a page is a list and how it was fetched (HTTP, retries, quotas) is the feed's ending.
- LifecycleLaws.ResendingIsASkip: asks that the first write was stored and that the clock did not go back; a rolled-back write may succeed when sent again.
- Convergence.TwoVoicesConverge: two sources with fixed records, no write of theirs rolled back and no row of theirs retired in the run, as in Pairs.TheOwnerIsHeard and, for any number of sources, Voices.TheOwnerIsHeardByAll; which of several first stated a field the owner does not depends on the order of the sends.
- WholeRun.ExhaustedRunLeavesWhatItSaw: no other run of the same source writes meanwhile, and the clock does not go back.
- RowLocks.PagesNeverWait: deadlock between two ingestion writers is not claimed impossible; a page has no part in one.
- RowLocks.EveryInterleavingIsSound: writers are any transactions that keep rows on their jobs and commit as one step; RowLocks.InterleavedPagesKeepValid asks that each commit keeps the lifecycle invariant, which is not shown of a reconciliation taken apart into statements.
- Listing.BatchIsTheFirstRows: the reader's filters are any predicate; an unknown source key is refused before and is not modelled.
- Cursor.RoundTripIffZoned: the UTF-8, ISO 8601 and UUID text formats are assumed to read back what they wrote and to be free of the separator.
- Extraction.ExtractMentions: normalization and the token pattern are parameters; tokens are assumed non-empty and in order.
- Crawl.Crawler.Run: what the roots lead to is finite, writing the checkpoint file is one step, a slice's concurrent requests happen in order, and each either answers or fails.
- Boilerplate.StripEmployerBoilerplate: folding, the employer's marker and name normalization are parameters.
- StoredBoilerplate.RewriteStored: reading the postings and writing the changed ones is one step.
- Throttle.WaitingClears: exact real arithmetic; clock rounding is not modelled.
- Ndcg.ScoreIsARatio: the discount is any positive decreasing sequence; grades are non-negative and sums exact.
- Ranking.Rank: the score that replaces the overlap is any function of the two skill sets; how tf-idf computes it, `evaluate` and its reporting are not modelled.
- Allocation.Allocate: shares are exact; floating-point rounding of shares and remainders is not modelled, nor is the random draw.
- CvLaws.EveryRunIsValid: each transaction is one step; statements of two transactions interleaved within their row locks are not modelled, so what one reads without a lock is what it commits against.
- CvService.CvService.DeleteAccount: the password check before it and the sessions it ends are not modelled.
- CvService.CvService.FinishRead: parsing and the checksum are the choice between finishing and failing; the vocabulary version on a skill row is not modelled.
- CvService.CvService.BeginUpload: file names, media types and format checks reject an upload before it, and are not modelled.
- HTTP routes, scheduling, provider clients, migrations, analytics, password and token handling, and the frontend are not part of this model.
