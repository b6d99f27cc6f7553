# Verified model of the orchestration backend's state-changing cores

These modules model nine parts of the repository whose correctness does not show in any single branch, and prove what
each of them is there for. `dafny verify dfyconfig.toml` checks the whole project.

| Part | Modules |
|---|---|
| Task-chain identity backfill (migration 0070) | `Graphs`, `ComponentSearch`, `TaskChains`, `ChainBackfill` |
| Event persistence, dead-letter retries and broadcast | `EventProtocol`, `EventSafety`, `EventDrain` |
| Review endpoints: response cache, milestone replay, merge confidence | `RecencyCache`, `Timeline`, `MergeConfidence` |
| Layered TOML configuration | `KeyedMerge`, `KeyedLaws`, `LayeredConfig` |
| The memlog file format and its commands | `PyText`, `TextWords`, `OrderedDict`, `MemlogDocument`, `MemlogFields`, `MemlogEntry`, `Memlog` |
| Cost attribution backfills | `Ledger`, `ActivitySplit`, `Spans`, `ActivityBackfill`, `PurposeHeuristic`, `AttributionTables` |
| Collapse of legacy activity buckets (migration 0040) | `FilterMaps`, `BucketMerge`, `BucketMoves`, `BucketCollapse` |
| Turn ids on telemetry spans (migration 0018) | `RankJoin`, `TurnIds` |
| Cursor pagination of a worktree listing | `Pagination`, `DirectoryOrder` |

`Common` holds options, results and Python's string order.

How the source appears here:

- Objects that the source changes in place are classes (`TaskLinkTable`, `EventPipeline`, `StructuralCache`, `LogFile`,
  `AttributionTable`, `SpanTable`), and its loops are loops. Each method is tied to a function or relation on values, and
  the promises are proved about that function or relation.
- Concurrency in the event pipeline is a state machine whose steps are the stretches between two awaits. All results
  about it hold for every sequence of steps, that is for every interleaving. The class methods are shown to have the
  effect of the corresponding steps.
- A database table is a list of rows in id order. A choice that SQL leaves open (which source row an `UPDATE ... FROM`
  uses) is left open here too.
- Costs, ratios and risks are reals; `int()` of a non-negative real is its floor.
- Regular expressions and the labels that other classifiers produce are data of a span.

Where the code and its own words disagree, the code is modelled, and the difference is a lemma:

- `_cache_get` says it evicts stale entries of the same job and endpoint; it does not (`RecencyCache.StaleCommitStays`).
  `RecencyCache.LeavesIff` says exactly when an entry leaves.
- The attribution backfill gives a turn a context only from a tool span or a phase, so a turn without either has cost but
  no attribution; the activity backfill counts every turn. `AttributionTables.AllAttributedIff` gives the exact condition
  under which nothing is lost, and `AttributionTables.UnattributedUsage` the amount.
- The bucket merge keeps totals only under a condition that the schema does not enforce
  (`BucketMerge.TotalsKeptIffPaired` gives the exact condition).
- Migration 0018 speaks of the closest preceding tool span; its query takes the earliest of the turn, which may also come
  later (`TurnIds.DonorMayComeLater`). `TurnIds.ClosestIffNoChoice` says exactly when the two are the same.
- Printing a memlog document, parsing it and printing it again need not give the same text for values with outer blanks
  or colliding keys: `MemlogFields.SecondPrintSameIffStable` gives the exact condition, and one reading always settles it.
- The key `repo_path::story_node_id` of a task link is not injective, so two rows that the unique index tells apart may
  share it; row order then decides who is in whose chain (`TaskChains.CollidingKeysFollowOrder`).
  `TaskChains.OrderIrrelevantIffUniqueKeys` shows that unique keys are exactly what is needed.
- A smaller cache keeps a subsequence of a larger one, but not always its newest part, because a get that misses is no
  touch (`RecencyCache.SmallerCacheMayDisagreeOnNewest`). `RecencyCache.SmallerIsNewestIffLocal` gives the exact
  condition on the operations.

## Model

| member | source | states |
|---|---|---|
| `ComponentSearch.Explore` | alembic/versions/0070_review_identity_and_jira_email.py:77-85 | The stack search ends, and from an unvisited row it collects exactly the rows connected to it, each once; what was visited stays closed under links |
| `ChainBackfill.BuildAdjacency` | alembic/versions/0070_review_identity_and_jira_email.py:54-70 | The adjacency sets are exactly the resolved dependencies taken in both directions |
| `ChainBackfill.ChooseRoot` | alembic/versions/0070_review_identity_and_jira_email.py:87-102 | The chosen id is of the component; members that come before it in dictionary order depend on some row while it does not, and it depends on some row only if every member does |
| `TaskChains.IdentityIffFirst` | alembic/versions/0070_review_identity_and_jira_email.py:87-102 | A chain's identity is its first root in dictionary order, or its first member if it has no root, and nothing else is |
| `Common.StringLeqMeaning` | alembic/versions/0070_review_identity_and_jira_email.py:102 | The order of strings: `a` is at most `b` exactly when it is a prefix, or smaller in the first character in which they differ |
| `ChainBackfill.InnerDependencyMeansAny` | alembic/versions/0070_review_identity_and_jira_email.py:91-99 | The in-component test filters nothing: a dependency that resolves at all resolves inside the component |
| `ChainBackfill.BackfillProject` | alembic/versions/0070_review_identity_and_jira_email.py:72-117 | Every row of a project is written exactly once, with its chain's identity |
| `ChainBackfill.TaskLinkTable.Upgrade` | alembic/versions/0070_review_identity_and_jira_email.py:48-117 | After the migration every row of every project holds the identity of its chain within its own project: the first root in dictionary order, or the first member of a chain without roots |
| `TaskChains.SameIdentityIffConnected` | alembic/versions/0070_review_identity_and_jira_email.py:62-117 | Two rows get the same identity exactly when resolved dependencies, taken undirected, connect them |
| `ChainBackfill.SameIdentityAcrossProjects` | alembic/versions/0070_review_identity_and_jira_email.py:49-117 | Over the whole table, equal identities mean one project and connected in it |
| `TaskChains.RootIsItsOwnRoot` | alembic/versions/0070_review_identity_and_jira_email.py:102-117 | A chain's identity is one of its rows, and that row's identity is itself |
| `TaskChains.AcyclicChainRoot` | alembic/versions/0070_review_identity_and_jira_email.py:88-102 | In an acyclic chain a root exists and the identity is the least id with no resolved dependency |
| `TaskChains.SameNodeKey` | alembic/versions/0070_review_identity_and_jira_email.py:54-58 | Within a repository the composite key tells nodes apart; rows of two repositories share a key exactly when the longer name begins with the shorter one and the rests of the keys are the same |
| `TaskChains.IndexIgnoresOrderIffUniqueKeys` | alembic/versions/0070_review_identity_and_jira_email.py:54-58 | The key index is independent of row order exactly when no two rows of the project share a key |
| `TaskChains.IdentityIgnoresOrder` | alembic/versions/0070_review_identity_and_jira_email.py:53-117 | If no key that some row names is carried by two rows, every row's identity is the same for every order of the rows |
| `TaskChains.OrderIrrelevantIffUniqueKeys` | alembic/versions/0070_review_identity_and_jira_email.py:53-117 | Whatever the rows of a project depend on, their identities survive every reordering exactly when no two rows share a key |
| `TaskChains.CollidingKeysFollowOrder` | alembic/versions/0070_review_identity_and_jira_email.py:54-58 | Two rows that differ in repository and node may share a key, and then row order decides whose chain, and so which identity, a dependent gets |
| `EventSafety.StepKeepsInv` | backend/lifespan.py:432-543 | Every atomic step of any publisher or of the retry loop keeps conservation, single broadcast, right cursors and bounded attempts |
| `EventSafety.SettledEventIsInOnePlace` | backend/lifespan.py:446-503 | A durable event whose first persist has ended is in exactly one of: stored, queued with attempt below ten, in flight, lost, aborted by an unexpected exception |
| `EventSafety.UnsettledEventIsNowhere` | backend/lifespan.py:436-464 | Before that, and for broadcast-only events always, it is in none of them |
| `EventSafety.StoredAndSentOnce` | backend/lifespan.py:432-503 | Every event is stored at most once, and broadcast once when its publish step is done and never before |
| `EventSafety.CursorIffFirstPersistSucceeded` | backend/lifespan.py:446-464 | A durable event's message carries a cursor exactly when no persist of it failed, and the cursor names the event's own row |
| `EventSafety.LostOnlyAfterElevenFailures` | backend/lifespan.py:487-503 | An event is lost only after its first persist and all ten dead-letter rounds failed, and then it is not stored |
| `EventSafety.AtMostThirtyThreeTries` | backend/lifespan.py:387-390 | No event sees more than 33 append tries |
| `EventDrain.WorkerStepSpends` | backend/lifespan.py:466-503 | Each step of the retry loop uses up part of the sum of remaining rounds |
| `EventDrain.QueueDrains` | backend/lifespan.py:466-503 | Without new events the loop takes at most the sum of (10 - attempt) over the queue, and stops only with an empty queue or an unexpected exception |
| `EventDrain.QueueIsFifo` | backend/lifespan.py:446-503 | Over any interleaving the dead-letter queue is first in, first out: what is taken, followed by what is left, is what was queued, followed by what entered |
| `EventDrain.QueuedAheadGoesFirst` | backend/lifespan.py:487-490 | An event that is queued or queued again is taken only after every item that stood ahead of it, whatever happens in between |
| `EventDrain.PersistWithRetry` | backend/lifespan.py:528-543 | How the counted loop ends for every sequence of outcomes; it returns None exactly when no attempt is allowed |
| `EventDrain.PersistIsItsVerdict` | backend/lifespan.py:446-464 | The tries of one first persist have the effect of its verdict alone |
| `EventDrain.RoundIsItsVerdict` | backend/lifespan.py:476-503 | The tries of one dead-letter round have the effect of its verdict alone |
| `EventDrain.EventPipeline.PersistAndBroadcast` | backend/lifespan.py:432-464 | For every sequence of outcomes: which of store, back of the dead-letter queue, broadcast with or without cursor, and abort the event goes to, everything else unchanged; the same as the corresponding run of atomic steps |
| `EventDrain.EventPipeline.RetryRound` | backend/lifespan.py:468-503 | For every sequence of outcomes: the head leaves the queue and is stored, lost or aborted, or goes to the back with one more attempt exactly when its round gave up below ten; the same as its run of atomic steps, with the loop idle or stopped |
| `RecencyCache.StructuralCache.Get` | backend/api/job_artifacts.py:100-108 | A get returns what is cached under (job, endpoint, commit) and moves a hit to the new end; a missing commit touches nothing |
| `RecencyCache.StructuralCache.Put` | backend/api/job_artifacts.py:111-119 | A put makes its entry the newest and trims from the old end to the capacity |
| `RecencyCache.CacheIsNewestTouched` | backend/api/job_artifacts.py:96-119 | After any run the cache is the newest part of the unbounded list of last touches |
| `RecencyCache.RecencyIsLastTouchOrder` | backend/api/job_artifacts.py:105-119 | That list holds exactly the keys ever touched, in the order of their last touch, with the value of that touch |
| `RecencyCache.RunIsValid` | backend/api/job_artifacts.py:116-119 | The cache never exceeds its capacity and never holds a key twice |
| `RecencyCache.HitReturnsLatestPut` | backend/api/job_artifacts.py:100-117 | A hit returns the value last put under its key |
| `RecencyCache.LargerCacheKeepsHits` | backend/api/job_artifacts.py:96-119 | For the same operations a larger capacity keeps every hit, with the same value, and in the same order |
| `RecencyCache.SmallerIsNewestIffLocal` | backend/api/job_artifacts.py:96-119 | At every moment of a run a cache is the newest part of every larger one, exactly when no get asks for a key that as many other keys as the cache holds have been touched after |
| `RecencyCache.SmallerCacheMayDisagreeOnNewest` | backend/api/job_artifacts.py:100-119 | A run of three operations on which the smaller cache is not the newest part of the larger one |
| `RecencyCache.LeavesIff` | backend/api/job_artifacts.py:100-119 | An entry leaves exactly when a new key is put into a full cache whose oldest entry it is; a get never evicts anything |
| `RecencyCache.StaleCommitStays` | backend/api/job_artifacts.py:100-119 | Looking up and then storing a newer commit of the same job and endpoint leaves the superseded commit cached |
| `Timeline.Replay` | backend/api/job_artifacts.py:581-597 | The endpoint's loop computes the forward replay |
| `Timeline.OneMoreEvent` | backend/api/job_artifacts.py:581-597 | A positive count takes that many milestones from the end, or all there are; zero or less takes none |
| `Timeline.BackwardPassAgrees` | backend/api/job_artifacts.py:581-597 | Dropping a number of milestones from the forward replay is one right-to-left pass with that many still to drop |
| `Timeline.ReplayKeepsSurvivors` | backend/api/job_artifacts.py:581-597 | The timeline is an order-preserving selection of the events that ends with the last one |
| `Timeline.SurvivesIffNeverReached` | backend/api/job_artifacts.py:585-587 | An event survives exactly when, through every later event, what has been collapsed since is no more than the milestones added in between |
| `MergeConfidence.ClassifyCategory` | backend/api/job_artifacts.py:874-890 | A change is breaking exactly when it removes something referenced or modifies a known signature; what is moved or otherwise modified is body, what is added additive, an unreferenced removal non-structural |
| `MergeConfidence.TranslateRefTiers` | backend/api/job_artifacts.py:893-909 | No reference is lost or counted twice between the four raw tiers and the three labels |
| `MergeConfidence.ComputeRisk` | backend/api/job_artifacts.py:912-921 | The score before rounding lies in [0,1] and is 1 exactly for an untested breaking change all of whose references are unverified |
| `MergeConfidence.RiskAddsUp` | backend/api/job_artifacts.py:864-921 | In hundredths the score is 40, 20, 4 or 0 for the category, 25 without a test, and the unverified part of 35 |
| `MergeConfidence.RiskIsMonotone` | backend/api/job_artifacts.py:912-922 | More severe, less tested or less verified never lowers the rounded risk |
| `MergeConfidence.RiskIsOneIff` | backend/api/job_artifacts.py:912-922 | The returned, rounded risk is 1 exactly for an untested breaking change with at least 69 of every 70 references unverified |
| `MergeConfidence.BuildStructuralChanges` | backend/api/job_artifacts.py:925-962 | Each built change accounts for every reported reference, the gap as unverified, and its risk stays in [0,1] |
| `MergeConfidence.ComputeMergeConfidence` | backend/api/job_artifacts.py:973-1000 | The flag loop computes the worst verdict of any single change, or LOW on a new cycle |
| `MergeConfidence.WorstConcat` | backend/api/job_artifacts.py:973-1000 | The verdict on two lists together is the minimum of their verdicts |
| `MergeConfidence.WorstIgnoresOrder` | backend/api/job_artifacts.py:973-1000 | Order and repetition of changes do not matter |
| `MergeConfidence.MoreChangesNeverRaise` | backend/api/job_artifacts.py:973-1000 | Adding changes never raises the verdict |
| `MergeConfidence.HighMeansEverythingVerified` | backend/api/job_artifacts.py:925-1000 | HIGH exactly when nothing is unknown, every reference is proven, strong or anchored, and every breaking change has a test, in terms of the raw analysis |
| `MergeConfidence.LowMeansUnverifiedBreaking` | backend/api/job_artifacts.py:925-1000 | LOW exactly on a new cycle or a breaking change with an unaccounted reference |
| `MergeConfidence.Verdict` | backend/api/job_artifacts.py:1645-1650 | Blockers are non-empty exactly when the confidence is LOW, and each blocker has its own cause |
| `KeyedMerge.MergeByKey` | _bmad/scripts/resolve_customization.py:115-138 | The index-driven loop replaces the last item with the key or appends, and its index stays right; it fails exactly on an unhashable key. A base table that no override item names is kept, and so is an override item that no later one names |
| `KeyedMerge.SameKeyIff` | _bmad/scripts/resolve_customization.py:120-136 | Two identifiers are one key exactly when they are equal texts, equal dates, or numbers of one value, true being 1 and false 0; arrays and tables are no keys |
| `KeyedMerge.UniqueKeysOverride` | _bmad/scripts/resolve_customization.py:115-138 | On unique keys it is ordered-map override: base order, override wins, new keys at the end in their order |
| `KeyedLaws.KeyedMergeAssociative` | _bmad/scripts/resolve_customization.py:115-138 | Keyed merge is associative when all items of the later lists carry the field, duplicates included |
| `KeyedLaws.KeyedMergeIdempotent` | _bmad/scripts/resolve_customization.py:115-138 | Applying the same keyed override twice is applying it once, also with duplicate keys |
| `LayeredConfig.MergeFailsIffUnhashable` | _bmad/scripts/resolve_customization.py:152-168 | Deep merge raises exactly when some keyed array it reaches has an unhashable key |
| `LayeredConfig.KeyedFieldIs` | _bmad/scripts/resolve_customization.py:98-112 | Arrays merge by `code` exactly when all items are tables with it, by `id` when all have it and one lacks `code`, otherwise by neither |
| `LayeredConfig.UnkeyedOrUnlike` | _bmad/scripts/resolve_customization.py:141-168 | Arrays without such a field are concatenated, base first, and values of unlike kinds are replaced |
| `LayeredConfig.ExtractKey` | _bmad/scripts/resolve_customization.py:171-179 | The walk over a dotted key returns the value at the path or nothing |
| `LayeredConfig.ExtractCommutesWithMerge` | _bmad/scripts/resolve_config.py:114-136 | Extracting a path from a merge is merging what the two layers hold there: both, only the override, only the base, or blocked by a non-table |
| `LayeredConfig.ExtractFromLayers` | _bmad/scripts/resolve_config.py:161-163 | The same for the fold over any number of layers |
| `LayeredConfig.HighestLayerDecides` | _bmad/scripts/resolve_config.py:161-170 | The highest layer that says anything about a path decides it when it holds a scalar or blocks the path |
| `LayeredConfig.EmptyLayerIsNeutral` | _bmad/scripts/resolve_customization.py:224-225 | A missing optional layer changes nothing |
| `LayeredConfig.LayersRegroup` | _bmad/scripts/resolve_customization.py:152-168 | Layers of compatible shape may be regrouped |
| `LayeredConfig.ScalarBetweenTables` | _bmad/scripts/resolve_customization.py:152-168 | A scalar layer between two tables breaks regrouping |
| `LayeredConfig.TablesRegroupIff` | _bmad/scripts/resolve_customization.py:152-168 | Around a middle layer that is no table, two tables regroup exactly when the last absorbs the first, key by key |
| `MemlogDocument.Read` | _bmad/scripts/memlog.py:90-107 | The line loop parses a file as the specification of the format says, or reports which fence is missing |
| `TextWords.WordsIffCut` | _bmad/scripts/memlog.py:167 | `split()` gives exactly the words that white space separates: none empty, none with white space, nothing else dropped, never two where no white space stands |
| `TextWords.LinesIffBroken` | _bmad/scripts/memlog.py:96 | `splitlines()` breaks at every line break, a carriage return with its newline as one, and nowhere else |
| `MemlogDocument.RenderedLines` | _bmad/scripts/memlog.py:110-113 | A printed document is the fence, one line per field, the fence, an empty line and the body |
| `MemlogDocument.SplitRender` | _bmad/scripts/memlog.py:90-113 | Parsing a printed document gives its fields, normalised, and its body without outer blank lines |
| `MemlogFields.SetReadsBack` | _bmad/scripts/memlog.py:116-119 | Setting a field, stamping and reading back gives the stripped key its one-line value, with the stamp last |
| `MemlogFields.SecondPrintSameIffStable` | _bmad/scripts/memlog.py:90-113 | Printing, parsing and printing again gives the same text exactly when no key or value prints with blanks that parsing strips and no two keys collide |
| `MemlogFields.RereadSettles` | _bmad/scripts/memlog.py:90-113 | A document read back from print prints stably from then on |
| `Memlog.LogFile.CmdInit` | _bmad/scripts/memlog.py:145-161 | Init creates the file, or leaves it alone when it exists or a field has no `=` |
| `Memlog.InitFieldsHold` | _bmad/scripts/memlog.py:151-156 | After a successful init each key holds the stripped value of its last argument |
| `Memlog.LogFile.CmdAppend` | _bmad/scripts/memlog.py:164-177 | Append replaces the contents in one step, or fails and leaves them. Whatever the body of a readable file holds, its lines stay and one line follows: a dash, the tag, and the words of the text one blank apart |
| `MemlogEntry.TagIsOneOfFour` | _bmad/scripts/memlog.py:168-171 | The tag is empty, `(kind) `, `(by author) ` or `(kind by author) `, without outer white space where there is an author |
| `MemlogEntry.EntryRecords` | _bmad/scripts/memlog.py:167-172 | An entry is a dash, that tag and the words of the text with one blank between any two |
| `Memlog.CountsEntryLines` | _bmad/scripts/memlog.py:132-133 | The acknowledged count is the number of lines that open with a dash and a blank |
| `Memlog.LogFile.CmdSet` | _bmad/scripts/memlog.py:180-187 | Set replaces the contents in one step with the field set and the body kept |
| `Memlog.AppendStep` | _bmad/scripts/memlog.py:164-177 | On a readable log, append adds exactly one line that records the text, at the end, and acknowledges the new count, whatever the text holds |
| `Memlog.SetStep` | _bmad/scripts/memlog.py:180-187 | On a readable log, set changes one field to its normalised value and keeps every entry |
| `Memlog.RunKeepsEntries` | _bmad/scripts/memlog.py:145-187 | After any run of commands the file reads back as exactly the appended entries, in order, one line each |
| `Memlog.RunKeepsFields` | _bmad/scripts/memlog.py:180-187 | After any run each field holds the last value set for it |
| `Memlog.RunKeepsUpdatedLast` | _bmad/scripts/memlog.py:116-119 | The stamp stays the last field through any run |
| `Memlog.LogAfterInit` | _bmad/scripts/memlog.py:145-187 | From a fresh init, any run gives a readable file whose body lines are the appended entries |
| `ActivitySplit.SplitTurn` | tools/backfill_activity.py:150-173 | The grouping and crediting loops split a turn as the specification does, also with zero total weight and without tools |
| `ActivitySplit.ActivityReceives` | tools/backfill_activity.py:159-169 | Each activity of a turn, and no other, gains its calls, a cost in proportion to its weight and as many tokens rounded down, or equal parts without weight |
| `ActivitySplit.WeightsAddUp` | tools/backfill_activity.py:151-158 | Weights and calls per activity add up over the tool calls of a turn, wherever they are cut |
| `ActivitySplit.FractionsSumToOne` | tools/backfill_activity.py:159-160 | The fractions of a turn add up to one |
| `ActivitySplit.TokenLoss` | tools/backfill_activity.py:161-167 | Flooring loses between 0 and (number of activities - 1) tokens of a column |
| `ActivitySplit.TurnConserves` | tools/backfill_activity.py:150-173 | A turn raises the totals by its exact cost and calls, and by its tokens up to that loss |
| `ActivityBackfill.BuildTurnData` | tools/backfill_activity.py:78-131 | Costs and contexts per turn are those of its spans; any LLM span, tool span or phase creates a context |
| `ActivityBackfill.SplittingConserves` | tools/backfill_activity.py:143-173 | Over all turns of a job cost and calls are conserved and the token loss is bounded, whatever label a turn without tools receives |
| `ActivityBackfill.BackfillActivities` | tools/backfill_activity.py:139-173 | The job's buckets are the turns with a context, in ascending order, split one after the other |
| `ActivityBackfill.GivenBySpans` | tools/backfill_activity.py:78-173 | What goes in is the usage of every LLM span with a turn, one call per tool span with a turn, and one per turn without tools |
| `PurposeHeuristic.ClassifyPurposeHeuristic` | tools/backfill_attribution.py:144-239 | The cascade of early exits, with its two range scans, gives the purpose that the named conditions on this and earlier turns describe |
| `PurposeHeuristic.PurposeIs` | tools/backfill_attribution.py:144-239 | Exactly when a turn is recovering, verifying, housekeeping or building; it verifies exactly when it runs a test, does not recover, and a write is recorded in the last three turns from turn 1 on |
| `PurposeHeuristic.ActionIs` | tools/backfill_attribution.py:72-111 | Exactly when each action names a turn: its own sign is there and none of a higher rung |
| `PurposeHeuristic.ContextHolds` | tools/backfill_attribution.py:486-513 | A turn's context holds the category of each of its tool spans and each of its shell commands, and nothing else |
| `PurposeHeuristic.ClassifyWork` | tools/backfill_attribution.py:197-239 | The set differences and inclusions of the last signals decide between housekeeping, building and orienting as those conditions do |
| `PurposeHeuristic.ScanMeansEarlierWrite` | tools/backfill_attribution.py:190-193 | The scan from the first recorded turn is true exactly when some earlier recorded turn wrote |
| `PurposeHeuristic.PurposeReadsThePast` | tools/backfill_attribution.py:144-239 | Recorded actions of later turns have no influence on a purpose |
| `PurposeHeuristic.PurposesAreOnline` | tools/backfill_attribution.py:242-264 | Cutting spans and trail nodes after a turn leaves its purpose unchanged |
| `AttributionTables.BuildTurnContexts` | tools/backfill_attribution.py:463-517 | Costs and contexts per turn are those of its spans; only a tool span or a phase creates a context |
| `Spans.TurnCostsAreRecorded` | tools/backfill_attribution.py:479-485 | A turn's bucket holds what its LLM spans recorded, the same column in the same column |
| `AttributionTables.AggregateRows` | tools/backfill_attribution.py:352-365 | The loop groups every turn under its action, and those with a purpose under purpose and cross key |
| `AttributionTables.CrossKeySplits` | backend/api/analytics.py:627-632 | An `action:purpose` key splits back into its action and its purpose |
| `AttributionTables.CrossSumsToActions` | tools/backfill_attribution.py:352-365 | Summing the cross table over the purposes of an action gives the action's row, column by column |
| `AttributionTables.CrossSumsToPurposes` | tools/backfill_attribution.py:352-365 | Summing it over the actions of a purpose gives the purpose's row |
| `AttributionTables.AttributeJob` | tools/backfill_attribution.py:535-566 | Each row holds the LLM usage of exactly the turns with its label, the three tables agree, and their total is the usage of the turns with a tool span or a phase |
| `AttributionTables.UnattributedUsage` | tools/backfill_attribution.py:479-515 | The action table falls short of the job's LLM usage by exactly the usage of the turns without a tool span or a phase |
| `AttributionTables.AllAttributedIff` | tools/backfill_attribution.py:479-515 | Whatever the LLM spans have used, all of it is attributed exactly when every turn with an LLM span has a tool span or a phase |
| `BucketMerge.TotalsKeptIffPaired` | alembic/versions/0040_collapse_legacy_activity_buckets.py:23-67 | The merge keeps the totals of every (job, dimension), for all values and whichever source the database takes, exactly when each one that holds both buckets holds one row of each |
| `BucketMerge.OtherBucketsUntouched` | alembic/versions/0040_collapse_legacy_activity_buckets.py:38-67 | Rows of a third bucket are the same, in the same order |
| `BucketMerge.NoLegacyRowLeft` | alembic/versions/0040_collapse_legacy_activity_buckets.py:52-67 | No row of the legacy bucket is left |
| `BucketMerge.SecondMergeIsIdentity` | alembic/versions/0040_collapse_legacy_activity_buckets.py:23-67 | Running the merge again changes nothing |
| `BucketMerge.MergeIsDetermined` | alembic/versions/0040_collapse_legacy_activity_buckets.py:38-67 | With unique buckets the result is the same whichever source rows the database takes |
| `BucketMerge.MergeKeepsUnique` | alembic/versions/0040_collapse_legacy_activity_buckets.py:23-67 | With unique (job, dimension, bucket) before, they are unique after |
| `BucketMerge.MergesCommute` | alembic/versions/0040_collapse_legacy_activity_buckets.py:70-86 | With unique buckets the two bucket merges on a table may run in either order |
| `BucketMoves.RowsMove` | alembic/versions/0040_collapse_legacy_activity_buckets.py:23-67 | A group has a row of the target bucket afterwards exactly when it had one of either bucket |
| `BucketMoves.BalancesMove` | alembic/versions/0040_collapse_legacy_activity_buckets.py:38-67 | With unique buckets the target bucket of each group holds what both buckets held |
| `BucketCollapse.AttributionTable.MergeBucket` | alembic/versions/0040_collapse_legacy_activity_buckets.py:23-67 | UPDATE, DELETE and UPDATE in sequence lead to one of the tables the merge relation allows |
| `BucketCollapse.Upgrade` | alembic/versions/0040_collapse_legacy_activity_buckets.py:70-91 | On both tables delegation rows end as investigation and feature_dev rows as implementation, with their values where buckets are unique; no legacy label is left, unrelated rows stay, and unique buckets mean kept totals and kept uniqueness |
| `RankJoin.JoinFindsRankMatch` | alembic/versions/0018_add_turn_id_to_spans.py:37-78 | The join on key and row number has at most one row per span: the event of the same rank |
| `RankJoin.Consume` | alembic/versions/0018_add_turn_id_to_spans.py:30-36 | Scanning spans by id and taking the earliest unused event with the same key gives the same pairs as the join |
| `RankJoin.MatchIsOrderedInjection` | alembic/versions/0018_add_turn_id_to_spans.py:37-78 | No event is used twice, and partners keep the order of the spans within a key |
| `RankJoin.UnmatchedIffRankExceeds` | alembic/versions/0018_add_turn_id_to_spans.py:37-78 | A span stays unmatched exactly when its rank exceeds the number of events with its key |
| `TurnIds.SpanTable.Upgrade` | alembic/versions/0018_add_turn_id_to_spans.py:26-98 | Each tool span ends with its partner's turn id, each LLM span with the earliest turn id of its job and turn, all other columns unchanged |
| `TurnIds.JoinedMeans` | alembic/versions/0018_add_turn_id_to_spans.py:37-78 | The join, column by column: a tool span and a tool-call event with a turn id, of one job, name and arguments, that are equally many-th among their like |
| `TurnIds.TurnIdsComeFromTheJob` | alembic/versions/0018_add_turn_id_to_spans.py:37-98 | Every turn id on a span is that of a tool-call event of the same job |
| `TurnIds.LlmSpansOfATurnAgree` | alembic/versions/0018_add_turn_id_to_spans.py:84-98 | All LLM spans of one turn of a job get the same turn id |
| `TurnIds.ClosestIffNoChoice` | alembic/versions/0018_add_turn_id_to_spans.py:80-98 | Whatever the turn ids, an LLM span gets the id of the closest preceding tool span, as the comment says, exactly when no tool span of its turn is matched or exactly one before it is |
| `TurnIds.DonorMayComeLater` | alembic/versions/0018_add_turn_id_to_spans.py:80-98 | A backfill of two spans and one event in which an LLM span takes the id of a tool span that comes after it |
| `Pagination.ListWorkspace` | backend/api/workspace.py:49-67 | The endpoint's loop returns the first visible items after the cursor in the listing, up to the limit |
| `Pagination.ListForMcp` | backend/mcp/server.py:603-632 | The MCP loop returns those after the cursor among the visible items, with the limit clamped to 1..200 |
| `Pagination.Clamp` | backend/mcp/server.py:603 | Limits in 1..200 stand, smaller ones become 1 and larger ones 200 |
| `Pagination.NthPageIsKthRun` | backend/api/workspace.py:49-67 | The k-th request of a client that follows cursors gets the k-th run of visible items, in either loop |
| `Pagination.CursorsVisitEverything` | backend/api/workspace.py:65-67 | Following cursors visits every visible item once, in order, in exactly n / limit + 1 requests |
| `Pagination.LoopsAgreeIff` | backend/mcp/server.py:603-627 | The two loops give the same page exactly when the cursor does not name an item that the MCP tool skips with a shown one after it, and no item on the REST page escapes the worktree |
| `DirectoryOrder.SortedListingIsUnique` | backend/api/workspace.py:43-46 | Sorting by (not directory, name) leaves one listing, whatever order the directory is read in |
| `DirectoryOrder.SortedMeansDirectoriesFirst` | backend/api/workspace.py:43-46 | A listing is sorted exactly when all directories stand ahead of all files, each kind in dictionary order |

## Left out

- HTTP routes, dependency injection, the ORM, plain column-adding migrations, CLI process control, tunnels, subprocesses and the frontend: no behaviour of their own to prove.
- Triage counts, step de-duplication and the session partition of the review endpoints: single-pass bookkeeping that would add easy members only.
- JSON parse errors of `depends_on` and dependency keys that are not strings: the dependency list of a row is given as strings.
- Migration 0039: its DELETE subquery does not compare dimensions across rows, so the totals claim of 0040 does not carry over.
- Sleeps, wall-clock time, task cancellation at shutdown, and an exception raised by a broadcast: steps are untimed and a broadcast succeeds.
- Event ids taken by other writers of the events table: a cursor is the position among the rows this pipeline stores, and a failed append is taken to store nothing.
- NaN as a merge key and the order of keys inside a merged table: tables are maps, keys compare by equality.
- The exact shape of two keyed arrays of which the second absorbs the first: `LayeredConfig.TablesRegroupIff` leaves it as the merge giving back the second.
- The universal-newline decoding of a read memlog file, the temporary file and fsync of a write: contents change in one step. Init's creation of the parent directory is not modelled.
- `LayeredConfig.MergeFailsIffUnhashable`: the error carries no message, and it is not modelled which array raises first.
- SQL NULL in value columns of the attribution tables, and models of the two tables with different columns: a latency row uses the same record with its unused columns at zero.
- Which column values `json_extract` yields for a payload: a call is a tool name with its arguments, and NULL in either takes the row out of the join.
- `classify_tool`, `classify_tool_activity`, `_classify_turn_intent` and the shell patterns: their results are data of a span or a parameter, so nothing is claimed about the labels themselves.
- `PurposeHeuristic.PurposesAreOnline`: a trail node carries the one turn number the grouping uses, not the two fields it is chosen from.
- Floating-point rounding: costs and ratios are reals; rounding of risk to two decimals is modelled as to the nearest hundredth, ties to even.
- The worktree and job look-ups and their error replies before a listing, and the file-reading action: foreign calls. A directory that cannot be read is an empty listing.
- REST limits outside 1..200 are rejected by the framework before the modelled loop runs.
