# nMEMORY: a verified model of its derived structures

nMEMORY keeps a store of capsules in one SQLite file that several processes write at once. Much of its code keeps a
fast or incremental structure in step with a simple one: an inverted index beside a scan, a table of read times and a
table of serve counts beside the traffic they summarize, a cached verdict beside the plan it spares, a hash chain beside
the ledger it seals. This project models those structures and proves that they agree, over every run where a run is what
the code promises.

## How the model reads the code

- One `with write(conn)` block is one atomic step; a read transaction is one snapshot; triggers are part of the
  statement that fires them. Tables are maps, and `coalesce(max(seq), 0)` and `ORDER BY seq` are the functions of
  `Tables`. `TermIndex.Db.floor` is a history variable: no branch reads it.
- State the source updates in place is a class: `TermIndexBuild.StoreFile` (the build loops and their cursor),
  `LastRead.TrafficFile`, `ToolBoundary.Database` (the fields of `_State`), `ConsolidationWorker.EmbeddingWorker`,
  `Groups.GroupedCandidates`; the `parent` list of the union-find is an array. Loops stay loops, proved against
  functions or properties stated without them.
- Other processes are adversaries: they commit anything their own contracts allow between any two transactions of the
  code under proof. A class method takes what they will do as data (`others`, `early`, `late`, `after`), so a proof for
  every value of it is a proof for every interleaving.
- The tokenizer, the taint scanner, digests, logarithms, `trim` and diacritic folding are function parameters, so the
  theorems hold for any of them. Scores in BM25 use an arbitrary `add` with no laws at all: equal means the same
  additions in the same order. Elsewhere scores are reals.

- Where a fast form and a simple one share a definition, equality alone would not say what the definition is. Those
  definitions are told apart from their bodies, on the plainest data there is: `Bm25Reals`, `DuplicateMeasure`,
  `GroupsByHit`, `HandleText`, `JournalForms`, `LastReadByRow`, `MarkdownByLine`, `RetrieveByItem` and `TermIndexSteps`,
  and sections of `AuditLine`, `ConsolidationWorker`, `Dag`, `Served`, `TierMoves` and `ToolBoundary`.

## Where the code and its promise part

- `term_index` may trust an index that misses capsules. A raw statement can number a capsule 0 or below; the build asks
  for rows above `coalesce(max(seq), 0)` and so never writes it, yet completes. The index has a floor: 0, or the newest
  seq of the store the build was begun on where that is negative. `TermIndexRuns.ExactIffNoneBelow` proves that the
  trusted index is the index of every live capsule exactly when none is at or below its floor, so always when all are
  numbered from 1, and `TermIndexRuns.LowCapsuleIsMissed` gives the run for every seq below 1. The repository numbers a
  capsule one above the highest, which is below 1 only on a table of negatives; such a capsule is indexed
  (`TermIndexRuns.NextCapsuleIsIndexed`).
- An index of negative seqs whose capsules are all deleted covers less than the empty table's `coalesce(max(seq), 0)`,
  so build and catch-up, left alone, end without making it readable, exactly when they find such a store and no need
  to reset it (`TermIndexBuild.StoreFile.AddTermIndex`). `TermIndexBuild.EmptiedIsReached` gives the run. Recall scans.
- Skipping consolidation is sound while recalls only grow. Revoking a row of `read_traffic`, which the schema allows by
  hand, moves neither the journal nor the generation: `ConsolidationWorker.RevokedRecallIsMissed` runs the worker into a
  skip over a due move, and `ConsolidationWorker.SettledIffNoneReleased` proves exactly which losses of recalls matter.
- `trim_to_budget` reports a negative `trimmed_by_budget` exactly when the limit lets nothing in, something is eligible
  and the budget is positive (`Retrieve.TrimmedIsNegativeIff`): it serves the first item anyway and takes one from a
  count of zero.
- `at_canonical`'s comment says `format_rfc3339` always prints six digits of a second; the code prints none for a whole
  second. The model follows the code.
- The middle era's tab-separated line determines its fields exactly when none of them holds a tab, and tells no reason
  from an empty one exactly when there is a reason to print (`LedgerSeal.PortLineDeterminesIff`); the two JSON eras
  always do both.

## Model

| member | source | states |
|---|---|---|
| `TermIndexInvariant.FreshIsExact` | nmemory/database.py:740-749 | the empty index a new store is given is complete and exact |
| `TermIndexInvariant.RawInsertKeeps` | nmemory/database.py:186-192 | a raw insert keeps the index invariant: the trigger invalidates what it would falsify, and an insert above `covered_seq` leaves the index behind |
| `TermIndexInvariant.RawUpdateKeeps` | nmemory/database.py:193-202 | a raw text change or move of seq keeps it |
| `TermIndexInvariant.RawDeleteKeeps` | nmemory/database.py:203-208 | a raw delete keeps it |
| `TermIndexInvariant.IndexDocumentExact` | nmemory/database.py:764-783 | adding one capsule's postings, length and totals keeps an exact index exact |
| `TermIndexInvariant.InsertKeeps` | nmemory/repositories/capsules.py:326-360 | an ingestion keeps the invariant: it indexes the new capsule only when the index covers every older one |
| `TermIndexInvariant.UnindexExact` | nmemory/database.py:786-816 | removing a capsule's rows by its own words leaves exactly the other capsules' rows and totals |
| `TermIndexInvariant.ForgetKeeps` | nmemory/repositories/capsules.py:841-848 | unindexing and then nulling the text in one transaction keeps the invariant, whatever tokenizer the index has |
| `TermIndexInvariant.FillKeeps` | nmemory/database.py:874-898 | a document transaction of a build keeps the documents a prefix-closed set of the live covered capsules, and inserts no seq twice |
| `TermIndexInvariant.DropKeeps` | nmemory/database.py:896-898 | a batch of only forgotten capsules is passed over without losing a live one |
| `TermIndexInvariant.NothingPending` | nmemory/database.py:882-884 | when no row is pending every live covered capsule is a document |
| `TermIndexInvariant.PostSliceKeeps` | nmemory/database.py:906-931 | a posting transaction leaves exactly the entries through its cursor, skips none, repeats none, and keeps the rest to write |
| `TermIndexInvariant.CatchUpKeeps` | nmemory/database.py:941-958 | a catch-up chunk keeps a complete index exact up to its new `covered_seq` |
| `TermIndexRuns.StepKeeps` | nmemory/database.py:156-169 | every transaction of every process keeps the invariant, whatever the builders hold in memory, a reset after others' commits included |
| `TermIndexRuns.RunKeeps` | nmemory/database.py:830-931 | so does every run of builds, crashes, resumes, inserts, forgets and raw statements |
| `TermIndexRuns.InsertsNeverCollide` | nmemory/database.py:893-895 | in every run no build transaction inserts a document or a posting whose key is there |
| `TermIndexRuns.EveryRunLeavesAResumableBuild` | nmemory/database.py:830-843 | in every run, while `valid` is 2, the documents are the live capsules up to some seq and the postings are theirs through the cursor in (word, seq) order |
| `TermIndexRuns.RecallIsRecomputed` | nmemory/database.py:719-729 | when `term_index` answers, postings, documents and totals are those recomputed from the live capsules above the index's floor, which is never above 0 |
| `TermIndexRuns.EveryRunReadsTheTruth` | nmemory/database.py:156-169 | so over every run of every mix of builders and writers; and from all live capsules where all are numbered from 1 |
| `TermIndexRuns.ExactIffNoneBelow` | nmemory/database.py:713-729 | and they are those of every live capsule exactly when none is at or below the floor |
| `TermIndexRuns.LowCapsuleIsMissed` | nmemory/database.py:876-884 | for every seq below 1 a run: a capsule there, a completed build, and a trusted index without it |
| `TermIndexRuns.NextCapsuleIsIndexed` | nmemory/repositories/capsules.py:313-360 | the next ingestion numbers its capsule one above, even below 1, and that one is indexed |
| `TermIndexSteps.AnswersIff` | nmemory/database.py:719-729 | the index answers exactly if its objects stand, it is complete, its tokenizer is the reader's, and it covers every capsule, and 0 where there is none; with its totals |
| `TermIndexSteps.FreshAnswers` | nmemory/database.py:740-749 | the index of a new store answers, for nothing |
| `TermIndexSteps.TriggersAre` | nmemory/database.py:186-208 | a trigger invalidates the index on an insert of a text it says it covers, on an update that changes a row and leaves a text or takes a document's, on a delete of a document, and else never |
| `TermIndexSteps.InsertAnswers` | nmemory/repositories/capsules.py:326-360 | an ingestion into an index that answers adds one document and its words, and it answers on exactly if the new capsule is numbered above those it says it covers |
| `TermIndexSteps.ForgetAnswers` | nmemory/repositories/capsules.py:841-848 | forgetting a document takes it, its words and its length away, and the index answers on |
| `TermIndexSteps.ForgetUntrusted` | nmemory/database.py:786-816 | forgetting leaves a damaged or invalid index to its triggers and invalidates one of another tokenizer |
| `TermIndexSteps.ObjectsAdded` | nmemory/database.py:752-761 | missing or foreign objects are replaced by empty ones that do not answer, intact ones are left alone |
| `TermIndexSteps.BatchTakes` | nmemory/database.py:874-931 | a build's transaction takes two hundred thousand rows, or all where fewer are left |
| `TermIndexSteps.CatchUpTakes` | nmemory/database.py:941-958 | a catch-up takes five hundred capsules above those covered, the least first, or all where fewer are left |
| `TermIndexBuild.ReadDocuments` | nmemory/database.py:863-872 | one pass gives the lengths of the live capsules through the target and the postings above the cursor, nothing else |
| `TermIndexBuild.Ordered` | nmemory/database.py:900-904 | the generator yields exactly those postings in (word, seq) order |
| `TermIndexBuild.StoreFile.FillTransaction` | nmemory/database.py:874-898 | one turn of the first loop is the machine's document step, and pays part of what the build owes |
| `TermIndexBuild.StoreFile.Documents` | nmemory/database.py:874-898 | the first loop makes only machine steps and ends, even when whole batches were forgotten |
| `TermIndexBuild.StoreFile.Posts` | nmemory/database.py:906-931 | so does the second, and left alone it ends with `valid` 1 |
| `TermIndexBuild.StoreFile.BuildTermIndex` | nmemory/database.py:830-931 | the whole build refines the machine under any interference, between its state read and its reset too, and completes when there is none |
| `TermIndexBuild.StoreFile.AddTermIndex` | nmemory/database.py:934-958 | build and catch-up end; left alone they keep the capsules, and end with an index recall may read exactly unless they found an empty store under an index of negatives not to be reset |
| `TermIndexBuild.EmptiedIsReached` | nmemory/database.py:719-729 | for every seq below 0 a run to such a store: no build resets it, no catch-up reads a row, and the index does not answer |
| `Bm25.Bm25Scores` | nmemory/lexical.py:123-164 | the scan gives each eligible match its left fold over the query words, and no other document a score |
| `Bm25.TermMatches` | nmemory/lexical.py:167-178 | intersecting and uniting postings gives the documents that hold every word of some query |
| `Bm25.AddWord` | nmemory/lexical.py:206-217 | either side of the shorter-side loop adds the same |
| `Bm25.Bm25PostingsScores` | nmemory/lexical.py:181-218 | the postings scorer gives each match the fold its postings determine |
| `Bm25.HoldsIsMatches` | nmemory/lexical.py:149-150 | a document holds a query in an inverse index exactly when the scan matches it |
| `Bm25.PostingsAreScan` | nmemory/lexical.py:188-196 | on the inverse of a corpus the two scorers make the same additions in the same order |
| `Bm25.IndexedScores` | nmemory/repositories/capsules.py:771-790 | matching, lengths and scoring over the index give the scan's result map |
| `Recall.StoredIsInverse` | nmemory/repositories/capsules.py:772-777 | the stored rows of the query words are the inverse of the live texts |
| `Recall.SearchScores` | nmemory/repositories/capsules.py:737-753 | whichever lane answers, a search gives the scores of the scan |
| `Bm25Reals.AverageIsMean` | nmemory/lexical.py:141-143 | under real division the average length times the number of documents is the number of tokens, and it is one without tokens |
| `Bm25Reals.MeanBetween` | nmemory/lexical.py:141 | the average of a corpus with tokens lies between any bounds of its documents' lengths |
| `Bm25Reals.OneWordScore` | nmemory/lexical.py:152-163 | one query word adds a term of how often the document holds it, how many documents do, how many there are, its length, and the mean length |
| `Bm25Reals.AbsentWordScore` | nmemory/lexical.py:158-160 | a word the document lacks adds nothing |
| `Bm25Reals.ScoresAddUp` | nmemory/lexical.py:156-163 | the words of a query add up |
| `Dag.FindCycle` | nmemory/relation.py:98-118 | on Kahn's leftover the walk always closes a simple cycle that follows `blocks` forward from its least id; neither its `break` nor its last line is reached |
| `Dag.Kahn` | nmemory/relation.py:173-191 | what Kahn leaves is the greatest set of active ids that block themselves |
| `Dag.Unresolved` | nmemory/relation.py:173-194 | nothing is left exactly when no cycle of `blocks` runs among the active ids |
| `Dag.ProjectExcluding` | nmemory/relation.py:144-196 | a projection is refused exactly when such a cycle exists, with one simple cycle and every entangled id in order |
| `Dag.ReadyIsUnblocked` | nmemory/relation.py:201-206 | the ready ids are exactly the active ones no active id blocks |
| `Dag.ActiveIff` | nmemory/relation.py:80-82 | an id is active exactly if it ends a `blocks` edge and is neither witnessed, nor superseded, nor dead besides |
| `Dag.PlacedByEdges` | nmemory/relation.py:144-171 | told by the edges alone: the universe, the dead, the done (witnessed and not dead), and the blockers that still hold |
| `Dag.ReadyIff` | nmemory/relation.py:201-206 | an id is ready exactly if it is open and no blocker of it is |
| `Dag.WitnessingReadies` | nmemory/relation.py:161-171 | witnessing every blocker of an open id makes it ready |
| `Dag.CycleIff` | nmemory/relation.py:173-191 | the cycles that refuse are those of `blocks` edges between ids that no edge closes and that are not dead |
| `Dag.WitnessingDissolves` | nmemory/relation.py:181-182 | one edge that witnesses a member dissolves the cycle |
| `Dag.SomethingIsReady` | nmemory/relation.py:201-206 | an accepted projection with anything active has something ready |
| `Dag.ClosingNeverRefuses` | nmemory/relation.py:85-95 | adding `witnesses` or `supersedes` edges never turns an accepted projection into a refusal |
| `Dag.OneClosingNeverRefuses` | nmemory/relation.py:85-95 | appending one such edge is such an addition |
| `UnionFind.Find` | nmemory/consolidate.py:122-126 | `dsu_find` ends with the root, and its halving changes nobody's root |
| `UnionFind.RootsAreComponents` | nmemory/consolidate.py:179-185 | two indices have one root exactly when the edges so far connect them, and the root is the component's least index |
| `UnionFind.Union` | nmemory/consolidate.py:181-185 | linking the higher root under the lower adds exactly the edge |
| `Consolidate.SignificantTokens` | nmemory/consolidate.py:94-101 | each token of three characters or more, once |
| `Consolidate.Containment` | nmemory/consolidate.py:108-112 | between 0 and 1, and 1 exactly for equal vocabularies that are not empty |
| `Consolidate.ReportedScore` | nmemory/consolidate.py:115-119 | within half a hundredth of a score that rounds below 1 and 0.99 for any other, so below 1, and never pulled below the threshold |
| `Consolidate.LinkPair` | nmemory/consolidate.py:169-185 | one turn of the double loop lists and links the pair exactly when it is similar |
| `Consolidate.NearDuplicateProposals` | nmemory/consolidate.py:158-216 | the proposals are exactly the connected components of two or more, in order of their least member, each with its best edge |
| `Consolidate.OneTaint` | nmemory/consolidate.py:171-174 | no proposal mixes taint, and every member has the tokens to be compared |
| `Consolidate.PerfectScoreIsTwins` | nmemory/consolidate.py:177-179 | a proposal scores 1.0 exactly when two of its members have identical content |
| `Consolidate.OneProposalEach` | nmemory/consolidate.py:187-200 | two members share a proposal exactly when they are connected |
| `Consolidate.ProposedIffSimilar` | nmemory/consolidate.py:176-180 | a capsule is proposed exactly when it is similar to another |
| `Consolidate.NoIdTwice` | nmemory/consolidate.py:145-155 | over records of distinct ids no id is in two proposals, or in one twice |
| `DuplicateMeasure.SimilarIff` | nmemory/consolidate.py:169-176 | two records are similar exactly if they share their taint, each has four different words of three characters or more, and half of the larger vocabulary is common to both |
| `DuplicateMeasure.PairScoreIs` | nmemory/consolidate.py:177-179 | identical texts score one, others as reported the share of the larger vocabulary they have in common |
| `DuplicateMeasure.ReportedHundredths` | nmemory/consolidate.py:115-119 | the reported score is the share in whole hundredths, the nearest and of two as near the even one, or 0.99 |
| `DuplicateMeasure.PoolIsActive` | nmemory/consolidate.py:161 | the pool is the active records not superseded, in order |
| `TierMoves.ProtectiveTierMoves` | nmemory/consolidate.py:231-282 | the planner's loop gives one move at most a record, in order |
| `TierMoves.PlanInOrder` | nmemory/consolidate.py:231-282 | the plan of two lists is their plans one after the other |
| `TierMoves.QuarantinesIff` | nmemory/consolidate.py:237-255 | a record is quarantined, with its findings, exactly if it is tainted, imported, trips a rule and is not in quarantine |
| `TierMoves.ReactivatesIff` | nmemory/consolidate.py:257-260 | otherwise it is reactivated exactly if it was archived for a supersession that is gone |
| `TierMoves.ArchivesIff` | nmemory/consolidate.py:262-281 | and archived exactly if active, superseded, unpinned, and expired, or never recalled in thirty days; as expired if it is |
| `TierMoves.TierAfter` | nmemory/consolidate.py:231-282 | the tier its move leaves it in, by its fields |
| `TierMoves.QuietIff` | nmemory/consolidate.py:219-265 | exactly when a record calls for no move at any time up to a due time |
| `TierMoves.MovedIsQuiet` | nmemory/consolidate.py:231-282 | after a planned move is applied, the record calls for no other, ever |
| `ConsolidationWorker.SameStampOnlyRecalls` | nmemory/embedding_index.py:91-96 | a watermark and generation that read the same twice prove that only recalls landed in between |
| `ConsolidationWorker.PresentIsRead` | nmemory/store.py:313-345 | the counts read after the recall mark count zero exactly when the store now does |
| `ConsolidationWorker.EmbeddingWorker.ApplyTierMoves` | nmemory/store.py:303-353 | the moves applied are exactly those still planned under the lock, one tier and one journal event each |
| `ConsolidationWorker.StillPlannedIff` | nmemory/store.py:313-345 | a move is still planned by the text, taint and dates of the plan and the tier, pin, supersession and bond the store holds now; a stale archive only if no recall came before the plan or since |
| `ConsolidationWorker.ReadCountsBoth` | nmemory/queries/sidecars.py:14-41 | a capsule has no recall exactly if no retrieve counted it and no ranking row lists it |
| `ConsolidationWorker.LandedIsPlannedTwice` | nmemory/store.py:313-343 | under an unchanged stamp they are exactly those both the snapshot and the present plan |
| `ConsolidationWorker.TierLeft` | nmemory/store.py:303-353 | the tier a pass leaves each capsule in, by what the snapshot and the locked store say of it |
| `ConsolidationWorker.PassIsAFixpoint` | nmemory/embedding_index.py:138-149 | an applied pass leaves nothing to move up to the due time it sets |
| `ConsolidationWorker.EmbeddingWorker.Consolidate` | nmemory/embedding_index.py:86-153 | a cycle skips exactly when the stamp it reads, in two reads others may commit between, is the one remembered and the due time has not passed, and then nothing was to move; it defers only when the stamp moved, changing nothing; one that acts leaves the store with the plan's surviving moves applied and committed as one generation, between what others commit, and a stamp and a due time under which skipping is sound |
| `ConsolidationWorker.SkipsIff` | nmemory/embedding_index.py:91-96 | alone with the store, a cycle skips exactly when it remembers the watermark and generation it reads and no due time has passed |
| `ConsolidationWorker.DroppedIffRecalled` | nmemory/store.py:337-343 | a planned move is dropped exactly when it archives for disuse a capsule recalled since |
| `ConsolidationWorker.SettledIffNoneReleased` | nmemory/embedding_index.py:91-96 | whatever happens to the recalls of a store with nothing to move, it still has nothing to move exactly when no old, superseded, active, unpinned capsule lost its last recall |
| `ConsolidationWorker.RevokedRecallIsMissed` | nmemory/embedding_index.py:86-153 | a run of the worker: a cycle acts, a recall is revoked by hand, and the next cycle skips with a capsule due |
| `LastRead.UpsertIsUnion` | nmemory/database.py:151-154 | upserting the maxima of some rows into those of others gives the maxima of both |
| `LastRead.WriteKeeps` | nmemory/database.py:1328-1350 | a traffic write keeps the table the maxima of a row set that holds every covered row |
| `LastRead.ChunkKeeps` | nmemory/database.py:641-677 | so does any chunk of any builder, on its first turn or a later one, from any state |
| `LastRead.EveryRunReadsTheScan` | nmemory/database.py:538-545 | in every run, a state that reads complete up to the newest row means the table is a scan of the whole traffic |
| `LastRead.LastReadTimes` | nmemory/database.py:567-612 | one pass gives the maximum time of each id in a stretch, or refuses a row it cannot read |
| `LastRead.TrafficFile.WriteTraffic` | nmemory/database.py:1316-1350 | the write appends its rows and takes along only a complete table that was up to date |
| `LastRead.TrafficFile.Turn` | nmemory/database.py:641-677 | one turn of the build is the machine's chunk |
| `LastRead.TrafficFile.AddLastRead` | nmemory/database.py:633-677 | the build commits nothing but chunks and ends whatever the others do; left alone it keeps the traffic and ends up to date exactly if every row can be read |
| `LastReadByRow.TimesIff` | nmemory/database.py:567-612 | an id's time is the latest of the rows that are not revoked and list it |
| `LastReadByRow.AppendedNumbers` | nmemory/database.py:1319-1334 | rows are numbered upwards from the newest, in order, and no other row is touched |
| `LastReadByRow.WriteFollows` | nmemory/database.py:1328-1350 | a write keeps a table up to date exactly if its rows can be read, and does not touch one that is not complete |
| `LastReadByRow.BegunIs` | nmemory/database.py:647-656 | a turn begins again from nothing without a state, after an invalidation, past the newest row, or first on another builder's rebuild |
| `LastReadByRow.ChunkTakes` | nmemory/database.py:657-677 | a turn takes the thousand rows next in order, or all where no more are left, and then completes |
| `LastReadByRow.ChunkAdds` | nmemory/database.py:664-676 | it invalidates only where a row cannot be read, and else upserts the times of the rows it took |
| `LastReadByRow.EditsInvalidate` | nmemory/database.py:139-146 | an edit or deletion of a row invalidates the table and changes nothing else of it |
| `Served.FireKeeps` | nmemory/database.py:91-116 | each trigger keeps the counts those of a scan |
| `Served.EveryRunCounts` | nmemory/database.py:81-86 | so does any run of inserts, deletes, revokes, un-revokes and edits |
| `Served.BackfillIsExact` | nmemory/database.py:119-128 | the grouped backfill counts what replaying the triggers would |
| `Served.RowCountIs` | nmemory/database.py:91-96 | a row counts an id once for each place of its array, a revoked one not at all |
| `Served.ServedIff` | nmemory/database.py:81-86 | an id's count is positive exactly if a row that is not revoked lists it |
| `ToolBoundary.Database.BeginWrite` | nmemory/database.py:1204-1227 | the lock is taken once a boundary, over whatever others committed before it |
| `ToolBoundary.Database.Perform` | nmemory/database.py:1125-1150 | a body up to the first exception it lets through, nested boundaries and caught exceptions included |
| `ToolBoundary.Database.Boundary` | nmemory/database.py:1125-1190 | the outermost boundary keeps its writes all together or not at all, adds a generation exactly for a kept canonical write that changed a row, and hands each recorded row out once or defers it |
| `ToolBoundary.CloseByFate` | nmemory/database.py:1155-1172 | a body that raised, a failed bump or a failed commit leaves the file and its generation to the others' commits; any other call adds all its writes, and one generation exactly if a canonical write was declared and a row changed |
| `ToolBoundary.SmoothCall` | nmemory/database.py:1146-1172 | told by the actions: a call without failures commits every statement in order, over what its first lock found, as one generation exactly if it declares a canonical write and changes a row |
| `ToolBoundary.StoppedCall` | nmemory/database.py:1151-1172 | a call that raises after such a start commits nothing, whatever follows |
| `ToolBoundary.UndeclaredLeavesAll` | nmemory/database.py:1155-1158 | a call that declares no write that takes its lock leaves the file as it found it |
| `ToolBoundary.RaisesIffStops` | nmemory/database.py:1204-1227 | an action raises exactly if it is an exception, a statement before any declaration, a declaration in a read-only store, or a first one that meets a held lock |
| `ToolBoundary.CaughtGoesOn` | nmemory/database.py:1141-1145 | a nested boundary whose exception is caught keeps what it did |
| `ToolBoundary.Database.FlushTraffic` | nmemory/database.py:1192-1202 | the deferred rows go out in one write and are forgotten |
| `ToolBoundary.NestingIsTransparent` | nmemory/database.py:1125-1145 | a nested boundary is as if it were not there |
| `ToolBoundary.EveryRowIsHandedOnce` | nmemory/database.py:1136-1140 | over every run each recorded row is in exactly one traffic write, or in the one deferred batch, and none overtakes an earlier one |
| `ToolBoundary.Database.RecordAlone` | nmemory/database.py:1261-1274 | a row recorded outside any call goes out at once, after the deferred batch |
| `ToolBoundary.ReadOnlyChangesNothing` | nmemory/database.py:1211-1212 | a store open read-only keeps nothing a tool tries |
| `AuditLine.AtCanonicalDetermines` | nmemory/journal.py:23-35 | the canonical time text names one instant |
| `AuditLine.AtCanonicalIs` | nmemory/journal.py:23-35 | a text is the canonical time exactly if it is the second and, unless the microseconds are none, a dot and one to six digits, the last not a zero, that say them in six places; and a `Z` |
| `AuditLine.FormatRfc3339Is` | nmemory/capsule.py:25-35 | it is the formatted time exactly if it is the second and, unless they are none, a dot and the six digits that say them; and a `Z` |
| `AuditLine.JsonLineDetermines` | nmemory/journal.py:57-76 | one JSON line has one reading: every field, with null apart from the empty text |
| `AuditLine.JsonLineText` | nmemory/journal.py:64-75 | the six keys in order, with nothing between them but what JSON asks for |
| `AuditLine.EscapeSpells` | nmemory/journal.py:64-75 | only control characters, the quote and the backslash are escaped: seven by one character, the others by the four hexadecimal digits of their code |
| `AuditLine.PlainQuote` | nmemory/journal.py:64-75 | a text without them is quoted as it is |
| `Journal.Infer` | nmemory/journal.py:284-295 | the loop finds the first era still open that reproduces the hash |
| `Journal.ReplayIsSound` | nmemory/journal.py:244-301 | whatever the greedy verifier accepts, some non-decreasing assignment of eras explains |
| `Journal.ReplayIsComplete` | nmemory/journal.py:244-301 | whatever some assignment explains, it accepts, in an era no later |
| `Journal.AcceptableIsPrefixClosed` | nmemory/journal.py:244-301 | acceptance is prefix-closed |
| `Journal.VerifyChain` | nmemory/journal.py:244-301 | a ledger is accepted exactly when such an assignment exists, the boundary row is not counted, and a refusal names the row after the longest acceptable prefix |
| `JournalForms.EraBytes` | nmemory/journal.py:162-182 | what each era hashes, byte by byte: JSON under the stored time, tabs after a newline, JSON under the shortest time or else the stored one |
| `JournalForms.ReservedByFields` | nmemory/journal.py:191-224 | the boundary is a row of four exact fields, an impostor one with its action or the other three but not both |
| `JournalForms.OneRowAccepted` | nmemory/journal.py:244-301 | a ledger of one plain row is accepted exactly when its hash is of its JSON object or, after a newline, of its tabbed line |
| `LedgerSeal.SameHeadSameChain` | nmemory/journal.py:79-86 | two chains ending in one hash are one chain |
| `LedgerSeal.SameHeadSameLedger` | nmemory/journal.py:171-182 | two accepted ledgers ending in one hash have one length and hash one text at every row, across the eras |
| `LedgerSeal.SameLedgerSameFields` | nmemory/journal.py:126-182 | in the JSON eras that is one seq, time text, actor, action, subject and reason; in the middle era the same, none and empty reasons apart, of a row without tabs in its fields |
| `LedgerSeal.AcceptedLedgersAgree` | nmemory/journal.py:244-301 | two ledgers the verifier accepts that end in one hash have one length, one hash at every row and, however their eras are read, every signed field in common |
| `LedgerSeal.PortLineDeterminesIff` | nmemory/journal.py:144-155 | the middle era's line determines its fields exactly when none of them holds a tab, and the lack of a reason exactly when there is one to print besides |
| `Markdown.BodyStart` | nmemory/bridge.py:30-39 | the body starts past front matter that closes, at its first closing line, else at the first line |
| `Markdown.Annotate` | nmemory/bridge.py:47-60 | each body line's flag: inside a fence, or one of its markers |
| `Markdown.SplitLevel` | nmemory/bridge.py:70-84 | the highest level that occurs twice or more, else the highest that occurs |
| `Markdown.HeadingRegions` | nmemory/bridge.py:86-94 | the regions leave out nothing, none begins inside a fence, each split heading begins one, and every one but the first begins at a split heading |
| `Markdown.BlockRegions` | nmemory/bridge.py:95-106 | the blocks leave out only blank lines, at least one between two of them, and hold none outside a fence |
| `Markdown.Pack` | nmemory/bridge.py:108-149 | a region's lines, whole while they fit and in slices where one does not, cut only where the limit cuts |
| `Markdown.SplitMarkdown` | nmemory/bridge.py:42-149 | the chunks are at most 4096 characters and tile the body, leaving out only blank lines at their ends; they are cut at every heading of the split level, or over every gap of blank lines outside a fence, and nowhere else but where the limit cuts |
| `Markdown.EveryLineIsHeld` | nmemory/bridge.py:108-149 | every body line that says something is in some chunk |
| `Markdown.NoLineTwice` | nmemory/bridge.py:108-149 | and in one only, but for the slices of a line too long |
| `Markdown.SlicesRejoin` | nmemory/bridge.py:127-139 | the slices of such a line stand together, and joined they are the line |
| `Markdown.FenceIsCutBySizeOnly` | nmemory/bridge.py:1-7 | a fenced block is cut only where the size limit cuts it |
| `MarkdownByLine.FenceIff` | nmemory/bridge.py:14-16 | a line is a fence marker exactly if three backquotes or three tildes follow white space, if any |
| `MarkdownByLine.HeadingIff` | nmemory/bridge.py:19-27 | a heading of a level exactly if it begins with so many hashes, one to six, and a blank, a tab or nothing follows |
| `MarkdownByLine.MarkersIff` | nmemory/bridge.py:33-38 | front matter opens with three hyphens and closes with three hyphens or three dots, white space aside |
| `MarkdownByLine.InsideIsOdd` | nmemory/bridge.py:48-60 | a line continues a fence exactly if the body has an odd number of markers above it |
| `MarkdownByLine.SplitLevelIs` | nmemory/bridge.py:70-84 | the split level is the highest two headings share, else the highest of any, else none |
| `MarkdownByLine.JoinedLines` | nmemory/bridge.py:137-147 | joined lines stand one after another with a line feed between two |
| `MarkdownByLine.ChunkSays` | nmemory/bridge.py:122-147 | a chunk numbers its first line from one and says whole lines from there, or 4096 characters of that line, fewer only at its end |
| `MarkdownByLine.ForcedIff` | nmemory/bridge.py:136-141 | the size limit cuts exactly beside a slice, or where the next line would take a chunk past 4096 characters |
| `Groups.TakenScores` | nmemory/context.py:618-667 | merging loses and adds no score |
| `Groups.TakenHolds` | nmemory/context.py:618-667 | merging loses no provenance and repeats none |
| `Groups.RestIsStrange` | nmemory/context.py:645-667 | a group left in place shares no location with the merged one, though overlap is not transitive |
| `Groups.EveryRunConserves` | nmemory/context.py:824-967 | over any sequence of memory, corpus and adapter hits no two groups hold one location, the scores add up to the hits' weights, and the provenances are the hits' |
| `Groups.EveryRunServesOneHit` | nmemory/context.py:597-643 | a group's id, text, confidence and birth are always one hit's, a capsule's where it holds one |
| `Groups.GroupedCandidates.TakeGroupedCandidate` | nmemory/context.py:645-667 | the scan of the dict, the sort and the merge give the group of the least key, and remove every group merged |
| `Groups.GroupedCandidates.AddHit` | nmemory/context.py:824-967 | each lane's hit changes the dict as the model's insertion does |
| `GroupsByHit.SamePlaceIff` | nmemory/context.py:539-559 | two places are one exactly if they share their address and are both of git, or share a revision and a line |
| `GroupsByHit.OnlyReachedMerge` | nmemory/context.py:645-667 | a group stays as it is exactly if the hit does not reach it by its text or, found elsewhere, by a place; one reached goes into the group of the least key |
| `GroupsByHit.ExtendsInOrder` | nmemory/context.py:610-613 | new places go to the end, in order, each once |
| `GroupsByHit.EveryRunShares` | nmemory/context.py:585-643 | over every run the hits are shared out among the groups, and each group is what its hits make together: the sum of their weights, all their providers and places, tainted if one of them is |
| `GroupsByHit.TakenFace` | nmemory/context.py:618-643 | a merged group wears the face of the first in key order that holds a capsule, or else of the first |
| `GroupsByHit.CapsuleFaces` | nmemory/context.py:824-862 | a capsule gives its group its kind, and its identity unless the group has a capsule's |
| `GroupsByHit.FoundFaces` | nmemory/context.py:904-967 | what is found elsewhere gives kind and identity to a group of its own only |
| `GroupsByHit.EveryRunFaces` | nmemory/context.py:585-643 | over every run a group has a confidence and a birth exactly if it holds a capsule |
| `Handles.ValidSlugIffShape` | nmemory/capsule_ref.py:132-146 | a slug is valid exactly when it is 1 to 48 lower-case letters, digits and single inner hyphens |
| `Handles.CutIsValid` | nmemory/capsule_ref.py:255-282 | every text gives a slug the grammar accepts |
| `Handles.Slugify` | nmemory/capsule_ref.py:255-282 | the slug is the text's runs of letters and digits joined by hyphens, cut to the limit, or `memory` |
| `HandleText.RunsApart` | nmemory/capsule_ref.py:262-274 | the runs of two texts, with a character between them that no slug holds, stand side by side |
| `HandleText.RunsWhole` | nmemory/capsule_ref.py:262-274 | letters and digits alone are one run |
| `HandleText.CutIs` | nmemory/capsule_ref.py:262-282 | a slug within the limit stays as it is, a longer one is cut there, less a hyphen at its end, and none is `memory` |
| `HandleRefs.ParseIffSpelled` | nmemory/capsule_ref.py:157-194 | a reference parses exactly when it spells a known prefix, a positive number without leading zero and an optional valid slug, and parses to them |
| `HandleRefs.ParseCompose` | nmemory/capsule_ref.py:336-340 | a composed handle parses to the parts it was composed from |
| `HandleRefs.ResolvesIffNamed` | nmemory/capsule_ref.py:304-333 | a reference resolves to a stored capsule exactly when it is its id, its short typed form or its handle |
| `HandleText.InvalidIff` | nmemory/capsule_ref.py:304-310 | a reference is invalid exactly if it spells none |
| `HandleText.NotFoundIff` | nmemory/capsule_ref.py:311-314 | it is not found exactly if no capsule has its number |
| `HandleText.MismatchIs` | nmemory/capsule_ref.py:319-333 | one of a stored capsule's number that is none of its spellings is told the handle, and whether the kind or only the slug differs |
| `Retrieve.TrimToBudget` | nmemory/retrieve.py:923-953 | the loop and its fallback serve what the packing says, and the counts add up |
| `RetrieveByItem.PackedGreedily` | nmemory/retrieve.py:937-949 | the packing is the greedy one from the head of the ranking: with no room left the rest is late, else an item is taken if the rest of the budget pays for it |
| `RetrieveByItem.FallsBackIff` | nmemory/retrieve.py:950-952 | the first item is served though nothing was packed exactly where the limit lets nothing in or each item costs more than a positive budget |
| `Retrieve.Cost` | nmemory/retrieve.py:944 | a token for every four characters begun, and at least one |
| `Retrieve.ServedFits` | nmemory/retrieve.py:923-953 | what is served is a subsequence of the ranking within limit and budget, unless nothing fits and the first is served alone; a positive budget never grounds an empty answer |
| `Retrieve.TrimmedIsNegativeIff` | nmemory/retrieve.py:950-952 | exactly when the count trimmed by budget goes negative |
| `Retrieve.CutVectorMargin` | nmemory/retrieve.py:1174-1208 | the bar is the best finite similarity among the eligible less the margin, and what stays clears it, is infinite, or stands by its own term lane |
| `RetrieveByItem.CutByMarginIff` | nmemory/retrieve.py:1184-1208 | an item is cut exactly if it neither stands by its term lane nor comes within the margin of the best finite similarity nor has an infinite one |
| `RetrieveByItem.UnmeasuredStay` | nmemory/retrieve.py:1184-1192 | without a margin or a finite similarity none is |
| `Retrieve.CapVectorLane` | nmemory/retrieve.py:889-909 | the cap keeps the nearest the limit allows, and whatever the term lane brought |
| `RetrieveByItem.CapKeepsIff` | nmemory/retrieve.py:889-909 | an item clears the cap exactly if its term lane is active or fewer than the limit are nearer |
| `Retrieve.FenceAll` | nmemory/retrieve.py:1436-1449 | each candidate is dropped under one name, skipped for want of a capsule, or eligible, and the counters count the drops |
| `Retrieve.PlacesAreCounted` | nmemory/retrieve.py:923-953 | the two trimming counters count the matches past the limit and over the budget, the fallback's move included |
| `Retrieve.Retrieve` | nmemory/retrieve.py:1380-1590 | each stage keeps what it should, the counters tally every drop, what matched is served or trimmed in order of relevance, and the candidates are the excluded, the skipped, the returned, those past the limit and those over the budget |
| `RetrieveByItem.EveryDropExplained` | nmemory/retrieve.py:1436-1516 | the name a candidate is dropped under says which stage left it out, and why |
| `RetrieveByItem.TallyCounts` | nmemory/retrieve.py:1436-1516 | a counter is how many drops go by its name |
| `RetrieveByItem.RankedIff` | nmemory/retrieve.py:1541 | the ranking is by relevance, and of two alike the older seq comes first |
| `RetrieveByItem.RankingWeighs` | nmemory/retrieve.py:1529-1541 | weighing and ranking neither lose nor invent an item |
| `RetrieveByItem.FilterInOrder` | nmemory/retrieve.py:1193-1208 | what a stage keeps stays in its order |
| `RetrieveByItem.StandingIff` | nmemory/retrieve.py:1457-1467 | the standing fence leaves out exactly the items that lapsed |
| `Retrieve.OnePlaceEach` | nmemory/retrieve.py:1436-1590 | so a candidate listed once ends in exactly one of those five places |

## Left out

- SQLite itself: transactions, the write lock, snapshots, trigger firing and key order are taken as the step relation; `INSERT OR REPLACE`, which fires no delete trigger, is not among the raw statements.
- The `reason` columns of `term_index_state` and `last_read_state`: explanatory text that no decision reads.
- Elections: one term-index builder runs at a time; crashed and resumed builders are modelled, two at once are not.
- Bm25.Bm25PostingsScores: the arithmetic of one word's contribution and the logarithm are parameters; ranking by score and the limit after it are not part of the equality.
- Recall.SearchScores: the project, session, effort and topic fences are one set of kept capsules.
- LastRead.EveryRunReadsTheScan: rows are appended above the newest seq, as the schema's key assigns them; a row placed at or below the covered seq by hand is not among the events.
- Served.BackfillIsExact: a zero count and a missing row read alike, as the inbox reads them.
- ConsolidationWorker.EmbeddingWorker.Consolidate: the retry for a capsule listed without its sidecar is not modelled, because one snapshot holds both; the journal's binding of an archive to its event is an arbitrary answer.
- Consolidate.NearDuplicateProposals: the sort of `canonical_order` is not modelled; the records come in the order the caller gives, and containment is an exact ratio.
- ToolBoundary.Database.Boundary: opening a connection and the failure of a traffic write, which the source swallows, change nothing in the model.
- LedgerSeal.SameHeadSameLedger: SHA-256 is any function to 64 hexadecimal digits under which the texts the two ledgers hashed do not collide.
- AuditLine.AtCanonicalDetermines: a time is its text to the second and its microseconds; the calendar is not modelled.
- Markdown.SplitMarkdown: works on the lines of a document; the byte-order mark, `splitlines` and Unicode white space are not modelled.
- Groups.GroupedCandidates.AddHit: candidates are values in the dict, so aliasing of a candidate object is not captured; score explanations and provider lists of the rendering are left out.
- Groups: equal content hashes need not meet in one group, because a merged group keeps only its least key; no claim is made.
- Handles.Slugify: takes the first non-empty line stripped and in lower case, and an arbitrary folding of one character to one.
- HandleRefs.ParseIffSpelled: digits and letters are ASCII; Python's `isdigit` also passes other digits.
- Retrieve.Retrieve: the fences' verdict on one capsule, the standing query and the blend's weights are inputs; the miss ledger, receipts and recall recording are writes around the decision.
- Network, subprocess and model calls, adapters' readers, rendering, reports, configuration and the word lists of the classifiers: I/O or tables with nothing to prove in a closed model.
- The rest of the repository classes (pins, anchors, classifications, embeddings): they appear only as what other processes may commit.
