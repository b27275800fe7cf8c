# AgentCAD: verified models

AgentCAD is a CAD service driven by people and by language models, with a bench that scores what a
model built. This project models six of its parts in Dafny and proves what each is there to
guarantee. One module models one component, and a module beside some of them, named `...Meaning` or
`ScriptResolution`, says in terms of the inputs alone what the component's functions compute. Each
module's file has its name.

- **Path compaction** (`ChordDistance`, `PathCompaction`, `SvgPath`). The iterative Douglas-Peucker of the bench's
  drawing helper, with its explicit stack and flag array, refines the recursive definition whatever
  order intervals are popped in; every dropped vertex is within epsilon of its surviving chord, and a
  path compacts to its two ends exactly when every vertex is; and compacting, or rewriting a whole path
  body, twice changes nothing. `TextMeaning` says what the readers of path bodies and of script lines
  make of a text.
- **The chat turn** (`Transcript`, `SkillIndex`, `ChatTurn`, `TurnSequences`, `ChatEngine`, `BenchRun`). A turn
  appends to a transcript, books the skills it loads, and rewrites old tool results when the skill
  budget is exceeded. The index and the transcript agree at every turn boundary, every call is
  answered, eviction removes the shortest oldest-first run, and the bench's budgeted client and stop
  reason mean what they say. `ChatEngine` holds the mutable objects; each of its methods is proved
  equal to the function the other modules reason about, and `TurnMeaning` says what those functions
  mean in terms of the messages themselves.
- **The identity store** (`StoreLock`, `Sessions`, `SessionPruning`, `SessionLifetime`, `Accounts`,
  `TokenScope`, `IdentityStore`). Threads of several processes interleave inside a re-entrant scope, a
  cross-process file lock and a stat-keyed cache, and no interleaving shuts a thread out
  (`LockProgress`); sessions slide and expire under a monotone clock,
  with slides in flight; enrolment links, passkeys, linked identities and tokens keep their invariants
  over every run. `IdentityStore` holds the mutable guard and documents and keeps those invariants
  through every operation. `SessionMeaning`, `AccountMeaning` and `ScopeMeaning` say of every operation
  when it is refused, what it changes and what it leaves alone.
- **Anchors** (`MeshAdjacency`, `FaceMatch`, `FaceMeaning`, `ScriptRange`, `ScriptResolution`). Counting
  neighbouring faces by sorting and grouping, re-identifying a face by its signature, and re-locating a
  range of script lines by exact search and by a line map. `FaceMeaning` states the verdict on a face
  without its ranking, `ScriptResolution` the answer owed for a range of lines without the search.
- **Bench arithmetic** (`Scoring`, `ScoreMeaning`, `Interference`, `Sabotage`, `LostMeasurements`,
  `ReleaseGate`, `GateMeaning`). The renormalised total, the closed formula for clean pairs, when
  breaking one's own parts or losing their measurements pays, and the release gate with its
  zero-folding and its printed report; when each row is left out and what each status means.
- **Generation and audit** (`GenerationLoop`, `GenerationMeaning`, `FrozenVerdict`, `AuditFilter`,
  `AuditArgs`, `AuditMeaning`). The budgeted candidate loop with best-so-far, the server's fail-closed
  verdict on a frozen intent, the escaped LIKE prefix of the audit query, and the redacted arguments
  behind the audit digest.

`Options`, `Integers` and `Arith` hold the two result datatypes and the small arithmetic facts the
modules share.

Distances, scores, weights and clock readings are real numbers. Everything the code cannot decide -
model replies, tool results, kernel results, the clock, random draws - is an input, so every theorem
holds for all of them.

## Where the code does not do what one would expect

Each of these is proved, with the exact condition under which the code does meet the property.

- A model whose text begins with `[chat error] ` and ends its own turn is reported as a failed,
  over-budget run (`BenchRun.HonestVerdict`, `BenchRun.QuotedErrorIsMisjudged`).
- A late `_slide` can bring an idle-dead session back, and pruning first prevents it
  (`SessionPruning.LandRevivesIff`, `SessionPruning.PruneVisibleInFlight`). Pruning changes no present
  or future answer exactly when the document holds no dead row, or no slide in flight revives one and
  every live session reaches its cap before it can die idle (`SessionPruning.PruneInvisibleIff`).
- `_slide` writes the time of its own resolve unconditionally, so a late one moves `last_seen` back:
  a session that answered three days ago is dead fourteen days before its cap
  (`SessionLifetime.StaleSlideKills`). Given how late slides may land, the gaps between uses that keep
  every session alive until its cap are known exactly (`SessionLifetime.KeepsAliveIff`).
- A hand edit of a document between `os.replace` and the `os.stat` after it leaves the program's own
  text in the cache under the editor's stat key (`StoreLock.RestatTruthfulIff`,
  `StoreLock.EditorPoisonsTheCache`). The caches and reads of a run are truthful at every moment exactly
  when no writer finds the file changed when it stats it again (`StoreLock.TruthfulThroughoutIff`),
  which holds whenever edits keep out of that window (`StoreLock.ReadsAreCurrent`).
- `link_oidc` accepts an issuer made of slashes and links nothing (`Accounts.LinkThenFind`,
  `Accounts.SlashIssuerIsAccepted`).
- A face whose stored area share is off by two thirds or more can be taken for another one, when the
  part leaves room for that other face (`FaceMatch.NeverMistakenIff`, `FaceMatch.RoomIff`). Rounding to
  nine decimals does that only to shares it stores as zero: with any other stored share the answer is
  the face itself or a refusal, normal and position rounded too (`FaceMatch.StoredSignatureOwnFace`), and
  a share stored as zero can be mistaken unless it is below two thirds of a trillionth
  (`FaceMatch.StoredNeverMistakenIff`).
- Stored context loses a trailing blank line, so an unchanged script can look disputed
  (`ScriptRange.UnchangedLooksDisputed`); and a range is still answered `ok` at its own address
  after the file was cut short inside it (`ScriptRange.HomeMayEndBeyondTheFile`), in exactly one family
  of cases (`ScriptRange.AnswersInsideFile`).
- A timeout or a dead worker while a part that built is being measured leaves that row out of the
  total, with no budget in force. Losing the overlap request turns a total of a fifth into full marks in
  `LostMeasurements.DeadOverlapGains`, and raises it exactly when the `geometry` row lay below the total
  of the rest (`LostMeasurements.DeadOverlapPaysIff`); for any set of lost measurements
  `LostMeasurements.LostMeasurementsPayIff` says exactly when it pays, and
  `LostMeasurements.SabotagePaysIff` does for a part that is broken along with them.
- A crash or a timeout of the interference check is such a case, so one part that reliably takes the
  worker down can raise the total: from a fifth to a half in `Sabotage.CrashGains`, and in general
  exactly as `Sabotage.CrashPaysIff` says. While the rubric and the interference check come out no
  better, no way of making a build fail pays (`Sabotage.SabotageNeverPays`).
- With a budget already spent, crashing the worker excludes every subscore that reads that build, which
  is a gain exactly when those scored less together than the rest (`Sabotage.SpentBudgetPaysIff`,
  `Sabotage.SpentBudgetLeavesTwoRows`).
- Deleting a part with its script takes its rubric checks out of the denominator, which raises `specs`
  exactly when those checks pass less often than the others (`Scoring.DeletedRubricPaysIff`), and the
  total exactly when that gain outweighs what the part itself costs (`Sabotage.BrokenPartPaysIff`).
- A prompt sent while a cancelled turn's calls are still open leaves them open for good
  (`TurnSequences.CutThenPromptStaysOpen`); over every sequence of turns, cancelled or not, that is
  the only way to get an unanswered call into the middle of a transcript (`TurnSequences.TurnsPairedIff`).
- A rostered task that never ran is a zero row, not a coverage regression
  (`ReleaseGate.OnlyUnrosteredIsMissing`, `ReleaseGate.RosterHidesOnlyCoverage`).
- A green generation run hands back another snapshot than the one that went green unless that one
  strictly beats every earlier score (`GenerationLoop.GreenReturnsItselfIff`,
  `GenerationLoop.GreenMayReturnAnother`).
- A measurement that is not a number passes every mass, volume and size bound
  (`FrozenVerdict.BoundedPassIff`, `FrozenVerdict.NotANumberPassesAnyMass`).
- The audit query's principal clause ignores ASCII case for device rows but not for the person's own
  rows (`AuditFilter.SelectsPersonAndDevices`, `AuditFilter.OthersDevicesSelectedIff`), and does not find
  a name longer than the 128 characters that are stored (`AuditFilter.EveryDeviceSelected`).

## Model

| member | source | states |
|---|---|---|
| ChordDistance.DeviationIsLeast | agentcad/bench/author.py:125-129 | that distance is no more than the one to any point of the infinite line through the chord |
| ChordDistance.DeviationIsReached | agentcad/bench/author.py:125-129 | and it is reached, at the foot of the perpendicular |
| ChordDistance.TooFarIff | agentcad/bench/author.py:123-131 | the code finds a vertex too far exactly when no point of the chord, or not its first end on a degenerate chord, is within epsilon |
| PathCompaction.Farthest | agentcad/bench/author.py:123-131 | the first of the farthest vertices strictly between the ends |
| PathCompaction.Scan | agentcad/bench/author.py:123-131 | the inner loop finds exactly that vertex and its distance |
| PathCompaction.Split | agentcad/bench/author.py:115-136 | the recursive definition keeps an increasing run of vertices strictly between its ends |
| PathCompaction.Kept | agentcad/bench/author.py:107-137 | the indices kept are strictly increasing from 0 to n-1 |
| PathCompaction.DroppedWithinBound | agentcad/bench/author.py:107-137 | for any metric, no dropped vertex is too far off the chord between its two surviving neighbours |
| PathCompaction.CodeWithinEpsilon | agentcad/bench/author.py:107-137 | every dropped vertex is within epsilon of the chord between its surviving neighbours, said by a point of that chord's line, or its first end when the two ends are one |
| PathCompaction.StraightPathsOnly | agentcad/bench/author.py:107-137 | a path compacts to its two ends exactly when every vertex is within epsilon of their chord |
| PathCompaction.NegativeKeepsAll | agentcad/bench/author.py:107-137 | a negative epsilon keeps every vertex |
| PathCompaction.SurvivorsSurvive | agentcad/bench/author.py:107-137 | splitting the survivors of an interval keeps every one of them |
| PathCompaction.CompactionIdempotent | agentcad/bench/author.py:107-137 | compacting the survivors drops nothing |
| PathCompaction.ProcessKeepsOutcome | agentcad/bench/author.py:116-136 | one round changes neither what is kept nor what will be, whichever interval it takes |
| PathCompaction.ProcessDecreases | agentcad/bench/author.py:116-136 | each round makes the termination measure smaller, splits included |
| PathCompaction.AnyOrderKeepsKept | agentcad/bench/author.py:115-137 | any pop order ends and keeps exactly the set of the recursive definition |
| PathCompaction.Flagged | agentcad/bench/author.py:137 | the flagged indices, each once and in order |
| PathCompaction.CompactWith | agentcad/bench/author.py:113-137 | the stack loop terminates and returns exactly the recursive definition's indices, for any metric |
| PathCompaction.CompactPath | agentcad/bench/author.py:107-137 | the same with the code's own distance; so the result is within epsilon, and is the two ends alone exactly when every vertex is that near their chord |
| SvgPath.CutGlue | agentcad/bench/author.py:162-177 | splitting at the separator undoes joining pieces that do not hold its letter |
| SvgPath.RewriteBody | agentcad/bench/author.py:161-177 | a path body of three or more number pairs is rewritten to its surviving pieces, any other stays as it is |
| SvgPath.RewriteKeepsPieces | agentcad/bench/author.py:171-176 | the result's pieces are the surviving pieces of the input, character for character |
| SvgPath.RewriteIdempotent | agentcad/bench/author.py:140-179 | rewriting a rewritten path body changes nothing |
| TextMeaning.CutLosesNothing | agentcad/bench/author.py:162-164 | the pieces of a body join to it again and none holds the separator |
| TextMeaning.CutAtFirst | agentcad/bench/author.py:162-164 | the leftmost separator cuts first |
| TextMeaning.WordsOfNext | agentcad/bench/author.py:163-164 | a piece is read word by word, and blanks are nothing |
| TextMeaning.NumbersIff | agentcad/bench/author.py:163-166 | a piece reads as exactly the numbers its words spell, in order |
| TextMeaning.PointMeans | agentcad/bench/author.py:163-169 | a piece of two numbers is the point across by the first and down by the second |
| TextMeaning.UnreadableStays | agentcad/bench/author.py:165-168 | a body with any other piece stays as it is |
| Transcript.RepairRestores | agentcad/agent/chat.py:616-644 | repair answers a dangling last message, is idempotent, adds at most one message, and touches nothing that was paired |
| Transcript.RepairOnlyTheEnd | agentcad/agent/chat.py:616-644 | a call left open before the last message stays open |
| Transcript.UnloadKeepsPairs | agentcad/agent/chat.py:375-395 | rewriting a result keeps every call paired with its results |
| Transcript.UnloadHeld | agentcad/agent/chat.py:375-395 | exactly the content under one id changes, and no id at all |
| TurnMeaning.PairedMeans | agentcad/agent/chat.py:616-644 | in a paired transcript the message behind a reply holds one result for each of its calls and none for anything else |
| SkillIndex.RecordAgrees | agentcad/agent/chat.py:309-373 | recording a load keeps index and transcript in agreement |
| SkillIndex.LiveLoadsAreIndexed | agentcad/agent/chat.py:309-373 | a recorded load is held in full exactly when the index names it, else it is a stub |
| SkillIndex.DropAgrees | agentcad/agent/chat.py:347-395 | replacing an entry's result by a stub and forgetting the entry keeps the agreement |
| SkillIndex.EvictAgrees | agentcad/agent/chat.py:347-373 | eviction keeps the agreement and terminates |
| SkillIndex.EvictOldest | agentcad/agent/chat.py:347-373 | eviction removes the shortest oldest-first run that restores both caps, never the entry just loaded |
| SkillIndex.RecordWithinBudget | agentcad/agent/chat.py:309-373 | after a load both caps hold, or only that load is left |
| SkillIndex.ReloadEvictsNothing | agentcad/agent/chat.py:331-345 | loading again moves the entry to the end and stubs the older copy, evicting nothing within budget |
| SkillIndex.RecordFrame | agentcad/agent/chat.py:309-395 | recording touches no result never recorded and no call |
| SkillIndex.RecordReplacesTheSameThing | agentcad/agent/chat.py:309-345 | within budget a load replaces exactly the entry of the same name and asset and stubs its result; every other entry stays, its result as it was |
| SkillIndex.EvictLeavesBooked | agentcad/agent/chat.py:347-395 | eviction changes no result the index does not name |
| TurnMeaning.FitsIff | agentcad/agent/chat.py:347-373 | an index with one more entry fits exactly when there is room under both caps |
| ChatTurn.SettleSound | agentcad/agent/chat.py:479-550 | a round whose calls all return leaves calls answered and index and transcript in agreement |
| ChatTurn.LoopSound | agentcad/agent/chat.py:451-562 | however the loop ends, calls are answered and the index agrees; after a cancellation once repaired |
| ChatTurn.TurnSound | agentcad/agent/chat.py:439-582 | the same for one whole turn, with exceptions anywhere |
| ChatTurn.TurnsSound | agentcad/agent/chat.py:430-582 | over every sequence of turns that are not cancelled the conversation stays sound |
| ChatTurn.FreshIsSound | agentcad/agent/chat.py:442 | every session starts sound |
| TurnSequences.TurnsPairedIff | agentcad/agent/chat.py:430-644 | over every sequence of turns, cancelled or not, the calls of the whole transcript are answered exactly when no prompt was put behind open calls and the last turn left none open; repair supplies exactly the latter |
| TurnSequences.CutThenPromptStaysOpen | agentcad/agent/chat.py:563-573 | a turn started on top of calls a cancellation left open leaves them open after every sequence of later turns, repaired or not |
| TurnMeaning.LoadsIff | agentcad/agent/chat.py:527-550 | exactly the successful calls of the skill tool are booked, each under its own id, name and non-empty asset |
| TurnMeaning.ResultsAreHeld | agentcad/agent/chat.py:479-541 | after a round every result that is not a load is held as it was returned |
| TurnMeaning.RoundGoesOn | agentcad/agent/chat.py:451-562 | a reply all of whose calls return is answered and the turn goes on, unless it has reached thirty calls; a reply without calls ends it |
| ChatEngine.CountInMessages | agentcad/bench/runner.py:133-149 | the number of tool_use blocks in the conversation |
| TurnMeaning.CountMeans | agentcad/bench/runner.py:133-149 | one more message counts for as many calls as it has tool_use blocks, a user message for none |
| ChatEngine.BudgetedClient.CheckRequest | agentcad/bench/runner.py:190-215 | refuses for the first ceiling reached, in the stated order, and counts the request otherwise |
| ChatEngine.ChatEngine.UnloadInHistory | agentcad/agent/chat.py:376-395 | the first result under the id gets the new text, in place |
| ChatEngine.ChatEngine.Evict | agentcad/agent/chat.py:347-373 | the loop computes the eviction the index lemmas are about |
| ChatEngine.ChatEngine.RecordSkill | agentcad/agent/chat.py:309-345 | books a load, stubs an older copy, and evicts |
| ChatEngine.ChatEngine.RepairHistory | agentcad/agent/chat.py:617-644 | appends synthetic results for a dangling last message |
| ChatEngine.ChatEngine.Execute | agentcad/agent/chat.py:482-541 | runs calls in order up to the first that does not return |
| ChatEngine.ChatEngine.Follow | agentcad/agent/chat.py:477-562 | results are appended before the loads among them are recorded, then the call limit is tried |
| ChatEngine.ChatEngine.RunRound | agentcad/agent/chat.py:451-562 | one pass of the loop, refusals and exceptions included |
| ChatEngine.ChatEngine.RunTurn | agentcad/agent/chat.py:439-582 | the whole turn, on mutable state, equals the turn function |
| BenchRun.LoopCaps | agentcad/bench/runner.py:190-215 | every request let through was within every ceiling when it was made |
| BenchRun.LoopAccounted | agentcad/agent/chat.py:451-562 | every turn ends, with at most as many requests as calls were left and an overshoot below one round |
| BenchRun.RunWithinBudget | agentcad/bench/runner.py:190-215 | at most the allowed requests, none after the deadline or at the tool-call ceiling, overshoot below one round |
| BenchRun.HonestVerdict | agentcad/bench/runner.py:432-455 | within budget exactly when the model ended its turn and no reply text began like an engine error |
| TurnMeaning.MarkedIff | agentcad/bench/runner.py:329-341 | a run is marked as failed by its text exactly when some reply in its transcript has a text that begins with the error prefix |
| TurnMeaning.WithinBudgetIff | agentcad/bench/runner.py:419-455 | so a run is within budget exactly when the model ended its turn and no reply in the transcript reads like that |
| BenchRun.QuotedErrorIsMisjudged | agentcad/bench/runner.py:329-341 | a model that quotes the error prefix is reported as an error |
| BenchRun.VerdictMeans | agentcad/bench/runner.py:432-450 | each stop reason is true of the run that reports it |
| BenchRun.RunTranscriptPaired | agentcad/bench/runner.py:419-431 | the transcript written down answers every call, even of a turn cut short |
| StoreLock.StepLocked | agentcad/core/authstore.py:218-255 | every step keeps the file lock held exactly while depth is positive and views inside the scope |
| StoreLock.OneInScope | agentcad/core/authstore.py:218-255 | at most one thread of all processes is inside the scope |
| StoreLock.InnerScopesLeaveTheFileLock | agentcad/core/authstore.py:218-255 | nested scopes neither take nor release the file lock |
| StoreLock.InScopeWhileOpen | agentcad/core/authstore.py:221-251 | over every run a thread is in scope exactly while it has opened more scopes than it has closed, and its process holds the file lock for as long, whatever other threads do |
| StoreLock.CacheServes | agentcad/core/authstore.py:257-322 | after a fresh read, a miss or a write under the file's own stat key, the next unlocked read of the process answers that document from the cache |
| StoreLock.NoLostUpdate | agentcad/core/authstore.py:218-322 | over every interleaving the document is all committed updates in commit order |
| StoreLock.ReadsAreCurrent | agentcad/core/authstore.py:257-322 | every read, cached or not, answers a version current between its stat and its return, over every run in which no edit by hand falls between a write and its stat |
| StoreLock.NoEditorWaits | agentcad/core/authstore.py:296-322 | a document nobody edits by hand is never edited there |
| StoreLock.TruthfulThroughoutIff | agentcad/core/authstore.py:257-322 | over every run, editor or not, caches and reads are truthful at every moment exactly when each writer's second stat finds what it wrote |
| StoreLock.RestatTruthfulIff | agentcad/core/authstore.py:296-322 | a write leaves the cache truthful exactly when the file still holds what it wrote at the second stat |
| StoreLock.DegradedLosesAnUpdate | agentcad/core/authstore.py:228-241 | without a working file lock two processes lose an update in some run |
| LockProgress.EveryUpdateCanBeMade | agentcad/core/authstore.py:218-322 | after every run, wherever the threads stopped, some way of going on lets any thread make any update of the document as it is then and leave both locks free: no deadlock, and nobody is shut out |
| LockProgress.WalksOut | agentcad/core/authstore.py:242-255 | a thread in scope, at whatever depth and with a write unfinished or not, can leave and free its locks without writing |
| StoreLock.EditorPoisonsTheCache | agentcad/core/authstore.py:954-971 | an unlocked edit at the wrong instant leaves a false cache entry |
| SessionPruning.PruneInvisibleIff | agentcad/core/authstore.py:1265-1278 | pruning changes no present or future answer over any run, slides in flight included, exactly when nothing is dead, or nothing in flight revives and every live session's cap comes before it can die idle |
| SessionPruning.PruneInvisible | agentcad/core/authstore.py:1265-1278 | over one run it changes no answer when no slide lands on a dead session |
| SessionPruning.LandRevivesIff | agentcad/core/authstore.py:562-569 | exactly when a late slide brings a dead session back |
| SessionPruning.PruneVisibleInFlight | agentcad/core/authstore.py:562-569 | a run from an empty store after which pruning first changes the answer |
| SessionLifetime.LiveUntilTheCap | agentcad/core/authstore.py:530-569 | with slides landing within a delay and uses, overlapping ones included, at gaps that fit, a session is live exactly until its cap |
| SessionLifetime.CreateIsInUse | agentcad/core/authstore.py:511-528 | a new session meets that invariant with its cap 30 days on |
| SessionLifetime.KeepsAliveIff | agentcad/core/authstore.py:530-569 | a gap and a delay keep every session alive until its cap exactly when they fit: the delay and the gap within SLIDING minus GRANULARITY, or for slower slides the gap and twice the delay below SLIDING |
| SessionLifetime.LongGapDies | agentcad/core/authstore.py:530-551 | for every longer gap some run from sign-in uses its session that often and loses it before its cap |
| SessionLifetime.SlowSlidesDie | agentcad/core/authstore.py:562-569 | and so for slides that land later than GRANULARITY, however small the gap |
| SessionLifetime.StaleSlideKills | agentcad/core/authstore.py:562-569 | a slide that lands late takes back a later stamp, and the session is dead three days after its last use |
| Sessions.NeverPastTheCap | agentcad/core/authstore.py:511-569 | no session outlives its creation by more than the absolute cap, slides in flight included |
| Sessions.GoneForGood | agentcad/core/authstore.py:562-585 | a row that is gone stays gone, even against slides in flight |
| Sessions.RevokedNeverResolves | agentcad/core/authstore.py:441-595 | revoked, signed-out or pre-enrolment sessions never resolve again |
| SessionMeaning.AnswerIff | agentcad/core/authstore.py:530-560 | a session answers exactly before its cap, less than fourteen days after it was last seen, and for an enabled account; with that account's role |
| SessionMeaning.SlideIff | agentcad/core/authstore.py:554-555 | and it slides exactly when it was last seen a day ago or more |
| SessionMeaning.CreateMeans | agentcad/core/authstore.py:511-528 | signing in adds one row, capped thirty days on, and drops dead rows alone |
| SessionMeaning.StampMeans | agentcad/core/authstore.py:562-569 | a slide changes when its row was last seen, and drops dead rows alone |
| SessionMeaning.UseIsLookAndLand | agentcad/core/authstore.py:554-569 | a resolve with its slide is the resolve and then the slide, landed at once |
| SessionMeaning.LandMeans | agentcad/core/authstore.py:562-569 | a slide in flight lands with the key and the time it was made with |
| Accounts.UpdateCounts | agentcad/core/authstore.py:848-860 | the loop never lowers a counter, touches only the named credential, and says whether it found it |
| Accounts.ReachableSane | agentcad/core/authstore.py:326-950 | every reachable store has unique passkeys, unique links, and at most one enrolment row per handle |
| Accounts.DormantUntilEnrolled | agentcad/core/authstore.py:326-357 | an account that has not enrolled stays disabled and without a password, whatever else happens |
| Accounts.MintedLinkIsTheOnlyOne | agentcad/core/authstore.py:359-481 | the minted link works exactly until it expires, and no other link of the handle works |
| Accounts.PasskeyOwned | agentcad/core/authstore.py:771-876 | a registered credential has exactly one owner, a removed one has none |
| Accounts.EmptySane | agentcad/core/authstore.py:257-270 | the empty store is such a store |
| Accounts.SpentAtMostOnce | agentcad/core/authstore.py:441-481 | every mint of a link buys at most one enrolment over every run |
| Accounts.CountersNeverDecrease | agentcad/core/authstore.py:833-862 | a sign count never goes down while its credential is there |
| Accounts.RevokedForGood | agentcad/core/authstore.py:704-748 | a revoked token never resolves again |
| Accounts.TokenResolvesIff | agentcad/core/authstore.py:599-748 | over every run after its mint a token resolves to its own name, role and normalised scope exactly for its secret, until it expires and unless revoked |
| Accounts.BearerReachesTheListed | agentcad/core/authstore.py:599-748 | a scoped token that resolves may reach exactly the projects its mint listed |
| Accounts.SaneStep | agentcad/core/authstore.py:326-950 | every operation keeps those three uniqueness rules |
| Accounts.LinkThenFind | agentcad/core/authstore.py:880-937 | after a link the identity signs in as this account and no other, exactly when the issuer is more than slashes |
| Accounts.SlashIssuerIsAccepted | agentcad/core/authstore.py:888-893 | such an issuer is accepted |
| Accounts.AtMostOneHolder | agentcad/core/authstore.py:921-937 | finding an account by identity is unambiguous |
| AccountMeaning.HandleIff | agentcad/core/authstore.py:976-1010 | a handle is 1 to 32 lower-case letters, digits, dots, underscores and hyphens that start with a letter or a digit, and may end in one line feed |
| AccountMeaning.CredentialIff | agentcad/core/authstore.py:1178-1190 | a credential id is 1 to 512 characters of base64url, with the same line feed |
| AccountMeaning.AddUserMeans | agentcad/core/authstore.py:326-357 | an account is created exactly for a valid free handle and a known role; it cannot sign in, and its link is good for seven days |
| AccountMeaning.MintMeans | agentcad/core/authstore.py:359-382 | minting drops the handle's old links, keeps all others, and touches no account |
| AccountMeaning.EnrolMeans | agentcad/core/authstore.py:441-481 | a link is spent exactly while it is there, unspent, unexpired and its account exists, for a password of 8 to 1024 characters; the account then holds exactly that password and is enabled, and nothing else changes |
| AccountMeaning.SpentLinkIsDead | agentcad/core/authstore.py:441-481 | spending one link twice fails |
| AccountMeaning.SetUserMeans | agentcad/core/authstore.py:404-428 | enabling, disabling and a role change set that one field of that one account |
| AccountMeaning.AddPasskeyMeans | agentcad/core/authstore.py:771-809 | a credential is added exactly when well formed, with a key, for an account that is there, and held by nobody; it goes to the end of that account's list |
| AccountMeaning.CountMeans | agentcad/core/authstore.py:833-862 | an assertion leaves the larger of the stored and the reported counter on that credential, and all else as it was |
| AccountMeaning.LinkMeans | agentcad/core/authstore.py:880-914 | a link is refused exactly for an empty half, a missing account or an identity another account holds, and changes that account's link alone |
| AccountMeaning.LinkedIff | agentcad/core/authstore.py:916-937 | an account signs in by an identity exactly when its row names both halves and neither is empty |
| AccountMeaning.UnlinkMeans | agentcad/core/authstore.py:939-950 | unlinking leaves that account without a link and changes nothing else |
| AccountMeaning.TokenLives | agentcad/core/authstore.py:599-748 | a token is minted exactly for a name like a handle, a known role and a scope that reads as one, and resolves for its secret until revoked, for the days it was minted for |
| AccountMeaning.TokenFrame | agentcad/core/authstore.py:599-713 | minting and revoking touch no account, no link and no other token |
| IdentityStore.Guard.Enter | agentcad/core/authstore.py:234-247 | only the outermost scope takes the file lock, held exactly inside a scope |
| IdentityStore.Guard.Leave | agentcad/core/authstore.py:248-255 | the lock goes with the last scope |
| IdentityStore.AuthStore.constructor | agentcad/core/authstore.py:204-214 | opens the documents that are there, and is valid exactly when they are |
| IdentityStore.AuthStore.AddUser | agentcad/core/authstore.py:326-357 | creates a disabled account and its link, or changes nothing and says why; the store stays valid |
| IdentityStore.AuthStore.MintEnrolment | agentcad/core/authstore.py:359-382 | drops every outstanding link of the handle for the new one; the store stays valid |
| IdentityStore.AuthStore.DisableUser | agentcad/core/authstore.py:404-407 | from then on no session of the handle answers |
| IdentityStore.AuthStore.EnableUser | agentcad/core/authstore.py:409-410 | exactly its sessions that have not run out answer again |
| IdentityStore.AuthStore.SetRole | agentcad/core/authstore.py:412-413 | a session that answers has the new role, and a bad role changes nothing |
| IdentityStore.AuthStore.Enrol | agentcad/core/authstore.py:441-481 | spends the link, enables the account and signs it out everywhere under one file lock; the store stays valid |
| IdentityStore.AuthStore.AddPasskey | agentcad/core/authstore.py:771-809 | refuses a credential any account holds, else appends it, so no credential has two owners |
| IdentityStore.AuthStore.UpdateSignCount | agentcad/core/authstore.py:833-862 | counts an assertion, and writes nothing when the credential is gone |
| IdentityStore.AuthStore.RemovePasskey | agentcad/core/authstore.py:864-876 | removes the credential and says whether one went |
| IdentityStore.AuthStore.LinkOidc | agentcad/core/authstore.py:880-914 | refuses an identity linked elsewhere, writes nothing when nothing changed, so no identity has two accounts |
| IdentityStore.AuthStore.UnlinkOidc | agentcad/core/authstore.py:939-950 | drops the link and says whether one went |
| IdentityStore.AuthStore.AddToken | agentcad/core/authstore.py:599-640 | checks name, role and scope, draws ids until one is free and never overwrites a token |
| IdentityStore.AuthStore.RevokeToken | agentcad/core/authstore.py:704-713 | marks the row revoked and keeps it |
| IdentityStore.AuthStore.CreateSession | agentcad/core/authstore.py:511-528 | a row with its absolute cap, for an existing account only |
| IdentityStore.AuthStore.ResolveSession | agentcad/core/authstore.py:530-560 | answers as the session model does at the time of the read, and its slide is written at a later one |
| IdentityStore.AuthStore.Slide | agentcad/core/authstore.py:562-569 | stamps the row with the resolve's time if it is still there |
| IdentityStore.AuthStore.RevokeSession | agentcad/core/authstore.py:571-585 | the row goes, an unknown secret changes nothing |
| IdentityStore.AuthStore.RevokeSessionsFor | agentcad/core/authstore.py:587-595 | every row of the handle goes, and the count is right |
| TokenScope.QualifyAll | agentcad/core/authstore.py:1071-1088 | every entry qualified, or refused for the first bad one |
| TokenScope.CheckTokenScope | agentcad/core/authstore.py:1030-1090 | the normalised scope or its refusal |
| TokenScope.NormaliseIdempotent | agentcad/core/authstore.py:1030-1090 | normalising a stored scope changes nothing, in any listing order |
| TokenScope.ReadBack | agentcad/core/authstore.py:1104-1130 | a written scope reads back as written |
| TokenScope.PairInjective | agentcad/core/authstore.py:1087-1088 | a stored pair names one workspace and project only |
| TokenScope.AllowsExactlyTheListed | agentcad/core/authstore.py:1133-1170 | a scope allows exactly the listed pairs in its organisation |
| TokenScope.AllowsUnqualified | agentcad/core/authstore.py:1133-1170 | asked without a workspace it allows a project listed under any |
| ScopeMeaning.ValidNameIff | agentcad/core/authstore.py:1093-1101 | a name is a letter and up to thirty-nine letters, digits and underscores, and may end in one line feed |
| ScopeMeaning.SlashedIff | agentcad/core/authstore.py:1077-1088 | an entry with a slash is stored as written exactly when it is two names around the first one |
| ScopeMeaning.UnslashedIff | agentcad/core/authstore.py:1077-1088 | any other entry is a project of the scope's workspace, and is refused without one |
| ScopeMeaning.AcceptedIff | agentcad/core/authstore.py:1030-1090 | a scope is accepted exactly when its organisation and workspace are names, its role is one of the four, and it lists 1 to 200 projects that can be stored |
| ScopeMeaning.NormalisedMeans | agentcad/core/authstore.py:1051-1090 | it keeps organisation, role and workspace and holds the stored form of every entry and nothing else |
| ScopeMeaning.ScopeRowIff | agentcad/core/authstore.py:1104-1130 | a stored row reads as a scope exactly with one of the four roles and a project that is not empty |
| ScopeMeaning.AllowsIff | agentcad/core/authstore.py:1133-1170 | a readable scope answers for its own organisation, then for the pair listed, or for the project under any workspace when none is named |
| MeshAdjacency.KeepLone | agentcad/core/anchors.py:459-466 | keeps exactly the edges without a twin in their own face |
| MeshAdjacency.LoneIsUsedOnce | agentcad/core/anchors.py:462-466 | having no twin is being counted once |
| MeshAdjacency.SameEndsCoincide | agentcad/core/anchors.py:470-478 | ordered endpoints are equal exactly when the edges coincide in space in either direction |
| MeshAdjacency.GroupPairs | agentcad/core/anchors.py:487-498 | one group contributes the pairs among its own faces |
| MeshAdjacency.RunEnd | agentcad/core/anchors.py:483-486 | where a run of equal numbers ends |
| MeshAdjacency.GroupedStep | agentcad/core/anchors.py:482-495 | a run closes exactly the pairs among its own faces |
| MeshAdjacency.AllPairs | agentcad/core/anchors.py:482-500 | the grouping loop finds exactly the pairs of different faces with edges in one group |
| MeshAdjacency.GroupedTouch | agentcad/core/anchors.py:470-500 | faces in one group share a coincident boundary edge |
| MeshAdjacency.TouchGrouped | agentcad/core/anchors.py:470-500 | faces that share one are in one group |
| MeshAdjacency.CountFirsts | agentcad/core/anchors.py:496-502 | the count of partners per face |
| MeshAdjacency.Boundary | agentcad/core/anchors.py:436-502 | per face, how many other faces have a boundary side with coincident ends, counted over the triangles' own corners |
| MeshAdjacency.SeamAddsNothing | agentcad/core/anchors.py:436-502 | a face never counts itself |
| MeshAdjacency.NeighboursSymmetric | agentcad/core/anchors.py:436-502 | neighbourhood is mutual |
| MeshAdjacency.UsesCountsSides | agentcad/core/anchors.py:459-470 | an edge is used once for every side of a triangle of its face with the same two ends |
| MeshAdjacency.TouchMeans | agentcad/core/anchors.py:436-502 | two faces touch exactly when a side used once in the one has ends that coincide with those of a side used once in the other |
| FaceMatch.AreaRel | agentcad/core/anchors.py:686-693 | a relative difference between nothing and one, nothing for equal areas |
| FaceMatch.Candidates | agentcad/core/anchors.py:672-697 | exactly the present rows within both radii, with their scores |
| FaceMatch.RankRanked | agentcad/core/anchors.py:701 | the ranking is sorted by score, then index |
| FaceMatch.RankingUnique | agentcad/core/anchors.py:701 | what is ranked determines the ranking when indices differ |
| FaceMatch.MatchFace | agentcad/core/anchors.py:639-715 | the loop computes the verdict the lemmas are about |
| FaceMatch.AnswerIff | agentcad/core/anchors.py:639-735 | a row is the answer exactly when it is a candidate, clears every other candidate by the margin, and passes the area and neighbour gates that apply |
| FaceMeaning.CandidateIff | agentcad/core/anchors.py:676-685 | a candidate is a present row whose normal agrees to 0.99 and whose place to 0.15 |
| FaceMeaning.RowRelMeans | agentcad/core/anchors.py:686-693 | the area difference is the gap between the shares, or the areas when the signature has no share, as a part of the larger |
| FaceMeaning.ScoreLosses | agentcad/core/anchors.py:694-696 | a row scores one less what its turn, its area and its place cost it |
| FaceMeaning.NoCandidateIff | agentcad/core/anchors.py:699-700 | there is no face, no score and no margin exactly when no row is a candidate |
| FaceMeaning.LoneVerdict | agentcad/core/anchors.py:711-735 | a lone candidate is refused above three tenths of area difference, then when both neighbour counts are known and differ, and is the answer otherwise |
| FaceMeaning.RivalledVerdict | agentcad/core/anchors.py:699-715 | with rivals the foremost is refused when less than a fifth ahead of the next, then above half of area difference, and neighbours are not asked |
| FaceMeaning.LoneOrRivalled | agentcad/core/anchors.py:699-715 | with a candidate one of these two is the case |
| FaceMatch.ScoreAtMostOne | agentcad/core/anchors.py:694-696 | no row scores above one (Cauchy-Schwarz) |
| FaceMatch.ScoreInPlace | agentcad/core/anchors.py:694-696 | a row at the signature's place and orientation scores one less three tenths of its area difference |
| FaceMatch.OwnFaceOrRefusal | agentcad/core/anchors.py:639-715 | a face's own signature on its own table answers that face or a refusal when its share is within two thirds |
| FaceMatch.RoundedOwnFaceOrRefusal | agentcad/core/anchors.py:624-629 | the same with normal and position stored to six decimals and the share within a hundred-thousandth less |
| FaceMatch.RivalWins | agentcad/core/anchors.py:639-715 | a face with area of its own for which the stored share leaves room is the answer in its place, wherever within the radii the signature puts the face |
| FaceMatch.NeverMistakenIff | agentcad/core/anchors.py:639-715 | no table of that area whose faces have some area mistakes the face exactly when there is no room for such a rival |
| FaceMatch.RoomIff | agentcad/core/anchors.py:686-696 | there is room exactly when the stored share, or what the face leaves of the part if that is less, is two thirds nearer to it than the real one |
| FaceMatch.RoundedShareIsClose | agentcad/core/anchors.py:627 | a share that nine decimals do not round to zero is within half of the real one, however small |
| FaceMatch.StoredSignatureOwnFace | agentcad/core/anchors.py:609-632 | a signature as stored, every number rounded, answers its own face or a refusal whenever the stored share is not zero |
| FaceMatch.StoredNeverMistakenIff | agentcad/core/anchors.py:609-632 | no table mistakes a face for another by its stored signature exactly when the stored share is not zero or the real one is below two thirds of a trillionth |
| FaceMatch.RowOrderDoesNotMatter | agentcad/core/anchors.py:639-715 | answer, score and margin do not depend on row order |
| ScriptRange.LinesOfJoin | agentcad/core/anchors.py:751-761 | joining and splitting again loses exactly one trailing blank line |
| TextMeaning.BreakIff | agentcad/core/anchors.py:751-761 | a line ends at one of ten code points |
| TextMeaning.LinesOfNext | agentcad/core/anchors.py:751-761 | whichever it is, it ends the line and is not part of it, and a carriage return takes its line feed along |
| TextMeaning.WidthIsLeast | agentcad/core/anchors.py:752-754 | a character counts for the fewest bytes of UTF-8 it fits into |
| ScriptRange.SnippetOf | agentcad/core/anchors.py:741-761 | the stored evidence, with the loop that drops lines until the text fits |
| ScriptRange.CappedIsLongest | agentcad/core/anchors.py:752-754 | the snippet is the longest head of the range within both caps |
| ScriptResolution.KeptIsLongest | agentcad/core/anchors.py:749-755 | that is at most 40 lines and 4096 bytes |
| ScriptResolution.ContextStands | agentcad/core/anchors.py:756-761 | the stored context is the up to three lines right above the range and right below it |
| ScriptRange.FindSnippet | agentcad/core/anchors.py:764-826 | computes the hits the lemmas are about |
| ScriptRange.FoundHoldsSnippet | agentcad/core/anchors.py:764-826 | every hit holds the snippet, a lone one contradicts no stored context, one of several agrees at least as well as any other copy |
| ScriptResolution.FoundIff | agentcad/core/anchors.py:764-826 | the search finds exactly the copies no stored context speaks against when alone, and of several those with the most sides for them |
| ScriptRange.LineMap | agentcad/core/anchors.py:829-849 | the mapping loops and the range they answer |
| ScriptRange.MappingFaithful | agentcad/core/anchors.py:839-844 | the map never reorders lines and pairs each with an equal one |
| ScriptRange.LineMapEnds | agentcad/core/anchors.py:845-849 | the answer runs from the image of the first surviving line to that of the last |
| ScriptRange.LineMapMeans | agentcad/core/anchors.py:829-849 | there is an answer exactly when a line survived, inside the file, with confidence one exactly when all did |
| ScriptRange.DiffAnswersIff | agentcad/core/anchors.py:1378-1396 | the diff answers exactly when at least six in ten lines of the range survived |
| ScriptResolution.MappingIff | agentcad/core/anchors.py:829-844 | the map knows exactly the lines of the equal blocks, each where its block puts it |
| ScriptResolution.ResolveAnswersAsOwed | agentcad/core/anchors.py:1310-1396 | every answer is the one owed: at home, at the lone copy, or from the image of the first surviving line to that of the last with the surviving share as confidence, in place exactly when both ends are the anchor's own, or none |
| ScriptRange.RoundTrip | agentcad/core/anchors.py:1310-1396 | an anchor resolved against unchanged text is in place, disputed or not, exactly when it stored a line |
| ScriptRange.StoredNothing | agentcad/core/anchors.py:752-755 | it stored none exactly when what fits the caps is nothing or one blank line |
| ScriptRange.UnchangedLooksDisputed | agentcad/core/anchors.py:1349-1358 | exactly when unchanged text looks disputed |
| ScriptRange.MovedHoldsSnippet | agentcad/core/anchors.py:1359-1364 | a range found by exact search lies in the file and starts with the snippet, when that is no longer than the anchor's range |
| ScriptRange.MadeMovedHoldsSnippet | agentcad/core/anchors.py:1359-1364 | and so for every anchor the code makes, whose snippet is the head of the range it was made from |
| ScriptRange.AnswersInsideFile | agentcad/core/anchors.py:1310-1396 | every answered range is non-empty, and it ends beyond the file exactly when the stored text is at home, no diff is asked and the anchor's own end lies beyond the file |
| ScriptRange.HomeMayEndBeyondTheFile | agentcad/core/anchors.py:1351-1358 | cutting a file behind a truncated snippet makes such a case |
| Scoring.TotalOf | agentcad/bench/scoring.py:247-265 | the total and the published weights over the included rows |
| Scoring.TotalInUnit | agentcad/bench/scoring.py:247-265 | effective weights sum to one and the total lies between nothing and one |
| Scoring.TotalMonotone | agentcad/bench/scoring.py:247-265 | lowering values never raises the total |
| Scoring.TotalIgnores | agentcad/bench/scoring.py:255-256 | an excluded row has no part in it |
| Scoring.BuiltAndValidMean | agentcad/bench/scoring.py:683-723 | `built` is the share of target parts that built, `valid` the share that built a valid solid |
| ScoreMeaning.GeometryFullMarks | agentcad/bench/scoring.py:868-975 | full marks mean every target part has a reference, built, and fills it exactly |
| ScoreMeaning.MetricsFullMarks | agentcad/bench/scoring.py:1034-1082 | full marks mean every window is met by a part that built, each bound on its own |
| Scoring.Geometry | agentcad/bench/scoring.py:868-906 | mean overlap over every target part, or excluded for a failure of ours |
| Scoring.MetricsScore | agentcad/bench/scoring.py:1034-1082 | share of satisfied windows, or excluded |
| Scoring.DestroyingNeverPays | agentcad/bench/scoring.py:568-723 | turning a part that did not fail by the harness's fault into a failed one never raises the total while the other two rows are no better |
| Scoring.TotalIsMean | agentcad/bench/scoring.py:247-265 | the total is the mean of the included values weighted by weight |
| Scoring.LeavingOneOutPaysIff | agentcad/bench/scoring.py:247-265 | leaving one row out raises the total exactly when its value lies below the total of the rest |
| Scoring.LeavingOutPaysIff | agentcad/bench/scoring.py:247-265 | leaving several out raises it exactly when they weigh something and scored less together than the rest |
| ScoreMeaning.ClassifyIff | agentcad/bench/scoring.py:568-681 | a failed build is ours exactly for a kernel timeout or crash or an unforeseen error raised, or a timeout or crash answered with the budget spent |
| ScoreMeaning.BuiltLeftOutIff | agentcad/bench/scoring.py:683-723 | `built` and `valid` are left out exactly without weight or when some build failed by the harness's fault |
| ScoreMeaning.GeometryLeftOutIff | agentcad/bench/scoring.py:868-975 | `geometry` exactly without weight, without any reference, or when a reading of a part with one was lost |
| ScoreMeaning.MetricsLeftOutIff | agentcad/bench/scoring.py:1034-1082 | `metrics` exactly without weight, without windows, or when a window's part failed by the harness's fault |
| ScoreMeaning.SpecsLeftOutIff | agentcad/bench/scoring.py:750-842 | `specs` exactly without weight, when no rubric was shipped, or when an attached one could not be run for our reasons |
| ScoreMeaning.InterferenceLeftOutIff | agentcad/bench/scoring.py:987-1032 | `interference` exactly without weight or when the check broke for the harness's reasons; a tree that resolves to no assembly is a measured zero |
| ScoreMeaning.PassesIff | agentcad/bench/scoring.py:268-305 | a window is met exactly by a built part whose reading lies within every bound stated |
| ScoreMeaning.MetricsMean | agentcad/bench/scoring.py:1034-1082 | `metrics` is the share of windows met |
| ScoreMeaning.SpecsMean | agentcad/bench/scoring.py:727-842 | the value of `specs` is the share of passed checks among those passed and those held against the candidate, of the rubric alone |
| ScoreMeaning.TotalOfAll | agentcad/bench/scoring.py:247-265 | with every row measured the total is the mean of the six values weighted as the task says |
| Sabotage.SabotageNeverPays | agentcad/bench/scoring.py:568-681 | while the budget lasts no way of making a part's build fail raises the total, unless the rubric or the interference check comes out better for it |
| Sabotage.BrokenPartPaysIff | agentcad/bench/scoring.py:568-681 | while both are still measured, it raises the total exactly when what the rubric's and the interference check's rows gain outweighs what the failed build costs with both as they were |
| Sabotage.DeadCheckPaysIff | agentcad/bench/scoring.py:995-1008 | taking the interference check down raises the total exactly when the check's own score lies below the total of the rest |
| Sabotage.CrashPaysIff | agentcad/bench/scoring.py:995-1008 | breaking a part and the check with it pays exactly when the lost row's share times its distance below the total exceeds what the broken part costs |
| Sabotage.CrashGains | agentcad/bench/scoring.py:995-1008 | one reliable crasher lifts a total of a fifth to a half with no budget in force |
| Sabotage.SpentBudgetPaysIff | agentcad/bench/scoring.py:660-681 | a budget that runs out on some builds leaves out exactly the rows that read one, and that is a gain exactly when they weigh something and scored less together than the rest |
| Sabotage.CrashTruncates | agentcad/bench/scoring.py:660-681 | a crash or a hang with the budget spent is such a case, whatever the part did before |
| Sabotage.SpentBudgetLeavesTwoRows | agentcad/bench/scoring.py:660-681 | for a part that every build row reads, only the other two rows are left |
| LostMeasurements.LostMeasurementsPayIff | agentcad/bench/scoring.py:788-1008 | losing overlaps of parts that built, the interference check or the spec run leaves the total to the rows that remain, a gain exactly when those lost weigh something and scored less together than the rest |
| LostMeasurements.DeadOverlapPaysIff | agentcad/bench/scoring.py:938-963 | a part that builds and whose overlap is never answered raises the total exactly when the `geometry` row lay below the total of the rest |
| LostMeasurements.DeadOverlapGains | agentcad/bench/scoring.py:938-963 | such a part turns a total of a fifth into full marks with no budget in force |
| LostMeasurements.SabotagePaysIff | agentcad/bench/scoring.py:568-1008 | a failed build with any such losses on top pays exactly when the lost rows' share times their distance below the total outweighs what the failed build costs with everything measured |
| Scoring.CollectOwned | agentcad/bench/scoring.py:727-748 | the rows the injected rubric owns |
| Scoring.Bucket | agentcad/bench/scoring.py:801-842 | the buckets with induced skips among the failures, and the value |
| Scoring.UnownedRowsDoNotCount | agentcad/bench/scoring.py:727-748 | rows from unowned parts change nothing |
| Scoring.InducedSkipNeverPays | agentcad/bench/scoring.py:803-842 | making an owned check unmeasurable never raises the value |
| Scoring.HonestSkipOfAFailure | agentcad/bench/scoring.py:803-842 | any other skip of a failing check raises it exactly when some check passes |
| Scoring.UnownedRowsKeepTheRow | agentcad/bench/scoring.py:727-842 | the `specs` row is the same whatever a candidate declares on parts of its own |
| Scoring.InducedSkipIsNoBetter | agentcad/bench/scoring.py:803-842 | the `specs` row stays in the total and never rises when a rubric check becomes unmeasurable |
| Scoring.DeletedRubricPaysIff | agentcad/bench/scoring.py:205-242 | handing in fewer parts, with the checks of the others as they were, raises the `specs` row exactly when the checks that go pass less often than those that stay |
| Interference.ScoreCountsCleanPairs | agentcad/bench/scoring.py:308-328 | the formula is the share of pairs both measurable and not overlapping; none without a pair |
| Interference.FractionMeans | agentcad/bench/scoring.py:308-328 | whatever is reported, the value is what is left of the measurable pairs when the overlapping ones are taken off, as a part of all pairs; nothing without a pair |
| Interference.HidingAnInstanceNeverPays | agentcad/bench/scoring.py:308-328 | marking one more instance a mesh never raises it |
| Interference.FullMarks | agentcad/bench/scoring.py:308-328 | full marks mean everything measured and nothing overlapping |
| ReleaseGate.Means | agentcad/bench/report.py:302-322 | category means and the mean of means, with the bucket loops |
| GateMeaning.CategoryIff | agentcad/bench/report.py:302-322 | a task's category is what stands before the first slash of its id, or all of it |
| ReleaseGate.FoldingLowersCategories | agentcad/bench/report.py:351-372 | folding missing tasks in as zeros raises no category mean |
| ReleaseGate.FoldingLowersTotal | agentcad/bench/report.py:351-372 | nor the mean of means |
| ReleaseGate.NothingMissingNothingChanges | agentcad/bench/report.py:351-372 | with nothing missing the gate's means are those of the rows it is given |
| ReleaseGate.PrintedCategoryWithin | agentcad/bench/report.py:342-372 | worked out again from rows printed to six decimals, a category mean is within a millionth of the printed one |
| ReleaseGate.PrintedTotalWithin | agentcad/bench/report.py:342-372 | and so is the total |
| ReleaseGate.MeetsItsOwnBaseline | docs/bench.md:455-462 | a run gated against the baseline made from its own printed report meets it for every epsilon of a millionth or more |
| ReleaseGate.GateCategories | agentcad/bench/report.py:444-465 | exactly the gated categories that drop, in order |
| ReleaseGate.CompareBaseline | agentcad/bench/report.py:375-482 | the status in the stated order of tests, and every regression listed |
| GateMeaning.StatusIff | agentcad/bench/report.py:375-482 | each status in the documents' own terms; met exactly when no task, total or category was lost |
| GateMeaning.ListedIff | agentcad/bench/report.py:435-467 | exactly what was lost is listed |
| GateMeaning.ExitIff | agentcad/bench/report.py:485-497 | exit code 1 exactly for a regression, 2 exactly when nothing could be compared |
| ReleaseGate.NothingListedIff | agentcad/bench/report.py:435-467 | nothing is listed exactly when no baseline task is missing and no gated scope drops by more than epsilon |
| ReleaseGate.LeavingATaskOutFails | agentcad/bench/report.py:375-497 | leaving out a baseline task is regressed and exit code 1 for every epsilon |
| ReleaseGate.OnlyUnrosteredIsMissing | agentcad/bench/report.py:280-286 | missing to the gate exactly when neither scored nor rostered |
| ReleaseGate.RosterHidesOnlyCoverage | agentcad/bench/report.py:280-286 | being rostered changes no gated number, only the coverage entry |
| ReleaseGate.BetterTasksKeepTheGate | agentcad/bench/report.py:375-482 | raising task totals never turns a met gate into a regression |
| GenerationLoop.CallsWithinBudget | agentcad/agent/generate.py:271-302 | at most the smaller of max_iterations and 40 model calls |
| GenerationMeaning.CallsAtMost | agentcad/agent/generate.py:271-302 | at most forty, and none beyond the iterations allowed |
| GenerationMeaning.RunMeans | agentcad/agent/generate.py:539-664 | every run ends for the reason it gives, having measured exactly the scripts its replies wrote, in order, and paid for exactly the replies it got |
| GenerationMeaning.EndsAtOnce | agentcad/agent/generate.py:539-664 | a reply without calls, one that dies and a script that wins are each the last thing a run sees, and its terminal state says which |
| GenerationLoop.NoCallOnceSpent | agentcad/agent/generate.py:286-295 | no call after the deadline or once the token spend is reached |
| GenerationLoop.Generate | agentcad/agent/generate.py:539-664 | every run ends in exactly one terminal state |
| GenerationLoop.AbandonedIff | agentcad/agent/generate.py:639-649 | abandoned for build errors exactly when the last three script-writing rounds were invalid |
| GenerationLoop.KeptIsFirstMaximum | agentcad/agent/generate.py:868-898 | the kept snapshot is the first lexicographic maximum of all measured |
| GenerationMeaning.BeatsIff | agentcad/agent/generate.py:868-898 | a snapshot beats another exactly when its tuple of validity, verdict, checks and distance is the larger |
| GenerationMeaning.OutranksIff | agentcad/agent/generate.py:921-935 | a candidate outranks another exactly when its tuple is the larger, any green one any that is not |
| GenerationLoop.GreenIff | agentcad/agent/generate.py:650-659 | green exactly when the last measurement is valid, spec-green and frozen-ok |
| GenerationLoop.GreenReturnsItselfIff | agentcad/agent/generate.py:895-918 | the green snapshot is handed back exactly when it strictly beats every earlier one |
| GenerationLoop.GreenMayReturnAnother | agentcad/agent/generate.py:895-918 | otherwise a green run can hand back a part that misses the frozen contract |
| GenerationLoop.BudgetedGenClient.Create | agentcad/agent/generate.py:260-268 | a refused call costs nothing, an answered one an iteration and its tokens |
| GenerationLoop.Candidate.LookAndMeasure | agentcad/agent/generate.py:765-782 | keeps what it saw and replaces the best only on a strictly higher score |
| GenerationLoop.Candidate.Round | agentcad/agent/generate.py:560-664 | one time round the loop |
| GenerationLoop.Candidate.CandidateLoop | agentcad/agent/generate.py:539-664 | the loop on mutable state computes the run function |
| GenerationLoop.PickBest | agentcad/agent/generate.py:921-935 | the first candidate nobody outranks, a green one if there is any |
| FrozenVerdict.Clean | agentcad/agent/intent.py:643-665 | an admitted size has three numbers |
| FrozenVerdict.CleanReads | agentcad/agent/intent.py:643-665 | each measurement is read from its own field and only when that is a number |
| FrozenVerdict.CleanReadsSize | agentcad/agent/intent.py:643-665 | a size only when it is a list of exactly three |
| FrozenVerdict.Verdict | agentcad/agent/intent.py:732-760 | the row loop: ok, the names of failing checks in order, and each row |
| FrozenVerdict.PassNeedsMeasurement | agentcad/agent/intent.py:683-729 | no check passes without its measurement |
| FrozenVerdict.LosingMeasurementsNeverPasses | agentcad/agent/intent.py:643-760 | removing or mistyping measurements never turns a failure into a pass |
| FrozenVerdict.NoMeasurementsNoPass | agentcad/agent/intent.py:732-760 | with no result at all only an empty contract passes |
| FrozenVerdict.WallOnlyWhenNeeded | agentcad/agent/intent.py:634-640 | without a frozen wall check the wall measurement does not matter |
| FrozenVerdict.BoundedPassIff | agentcad/agent/intent.py:674-708 | a bounded check passes exactly when measured and within the slack, infinities included, or not a number |
| FrozenVerdict.BoxPassIff | agentcad/agent/intent.py:701-708 | the same of the size of the bounding box, axis by axis |
| FrozenVerdict.WallPassIff | agentcad/agent/intent.py:709-714 | a wall check passes exactly when the wall was measured and is at or above the floor less its slack; a floor refuses not-a-number |
| FrozenVerdict.ThatPassIff | agentcad/agent/intent.py:715-729 | a check of the server's own passes exactly when known, given a size, and answered yes; raising fails |
| FrozenVerdict.NotANumberPassesAnyMass | agentcad/agent/intent.py:691-695 | any mass contract is passed by one |
| AuditFilter.EscapesEachOnce | agentcad/core/audit.py:555-559 | the three sequential replacements escape each special character exactly once |
| AuditFilter.LikePrefixMatches | agentcad/core/audit.py:555-559 | the escaped pattern matches exactly the texts that start with the prefix up to ASCII case |
| AuditMeaning.AnyRunIff | agentcad/core/audit.py:405-408 | a percent sign stands for any run of characters, whatever follows it |
| AuditFilter.SelectsPersonAndDevices | agentcad/core/audit.py:405-408 | the clause selects the name itself and what stands under it |
| AuditFilter.EveryDeviceSelected | agentcad/core/audit.py:338-408 | every stored device of a person is selected exactly when the name itself fits into what is stored |
| AuditFilter.OthersDevicesSelectedIff | agentcad/core/audit.py:399-408 | another name's devices are selected exactly when the names agree up to case |
| AuditMeaning.SameLetterIff | agentcad/core/audit.py:405-408 | two characters are the same to LIKE exactly when equal or one ASCII letter in both cases |
| AuditArgs.CanonicalIff | agentcad/core/audit.py:164-187 | two calls have one canonical form exactly when they differ only in secrets, below the depth cap, or in what is not shown of an object |
| AuditArgs.CanonicalTwice | agentcad/core/audit.py:164-187 | the canonical form is idempotent |
| AuditArgs.IdentifiersSurvive | agentcad/core/audit.py:190-206 | a key is redacted exactly when it holds one of the hints and does not end in id |
| AuditMeaning.SecretIff | agentcad/core/audit.py:190-206 | a key is hidden exactly when it holds one of the eleven words in any case of letters and neither is nor ends in an `id` segment |
| AuditMeaning.LowerMeans | agentcad/core/audit.py:190-206 | lowering replaces each capital by its small letter and leaves the rest |
| AuditMeaning.OpenIsUnchanged | agentcad/core/audit.py:164-187 | plain data within eight levels and without such keys is digested as it is |
| AuditMeaning.ShownMeans | agentcad/core/audit.py:187 | an object counts by the first two hundred characters of its repr |

## Left out

- Floating-point rounding and six-decimal rounding: arithmetic is over reals; the gate's rounding is
  any order-preserving function, the printed report's any that rounds to a nearest six-decimal number,
  and the face signature's any that rounds its share to a nearest nine-decimal number and the rest
  within half a unit.
- Square roots in path compaction and the generation score: distances are compared as squares, and
  the metric distance of a snapshot is a number it comes with.
- Kernel calls, geometry, rendering, git, subprocesses, SQLite storage and retention: their results
  are arbitrary inputs.
- The regular expression that finds path bodies in an SVG document: one matched body is modelled.
- The event bus, and exceptions it might raise: publishing changes nothing.
- Clearing a session's history while a turn runs: history is only extended by turns.
- Rows that are not objects, or fields of a wrong type, in the identity documents: rows are well
  formed; that a half-written link or scope reads as none is modelled.
- The mesh cache keys and the face table: a table of rows is an input, and a resolved face's index is
  not compared with the stored ordinal.
- `np.unique` and `np.argsort`: any functions that number equal rows equally and sort.
- `difflib`: its equal blocks are trusted to increase in both texts, to pair equal lines, and to be
  one full block on equal texts.
- Names and lists in score details, notes and warnings: values, statuses and counts are modelled.
- Keys whose case changes under Unicode lower-casing: audit keys and LIKE fold ASCII letters.
- Prompt parsing, task-bundle validation, HTML and Markdown rendering, argument parsing and the HTTP
  and MCP front ends: they move and format text, and no state or arithmetic of the modelled parts
  depends on them.
- StoreLock.NoLostUpdate: taking the in-process lock is one step and taking the file lock together
  with opening the scope another, and a document is a map that an update maps to a map.
- StoreLock.ReadsAreCurrent: a stat key is never reused, which the code calls a good discriminator
  and not a proof.
- IdentityStore.AuthStore.AddUser: the cache and the staging file are in `StoreLock`; here a write is
  an assignment. The store stays valid when the minted digest is a new key.
- IdentityStore.AuthStore.MintEnrolment: the same.
- IdentityStore.AuthStore.ResolveSession: the two unlocked reads happen at one instant and nothing else
  happens before the slide; interleavings are the run model's.
- Accounts.ReachableSane: freshly minted secrets are distinct, so their digests are new keys.
- TokenScope.CheckTokenScope: unknown fields are not refused, and the sorted list of projects is a set.
- Sabotage.SabotageNeverPays: what breaking a part makes of the other parts' rubric checks and of the
  assembly is an input; `LostMeasurements` has the parts that build and lose a measurement.
- ReleaseGate.NothingMissingNothingChanges: speaks of the rows before they are rounded to six decimals
  for printing; `ReleaseGate.PrintedCategoryWithin` and `PrintedTotalWithin` say what rounding adds.
- ReleaseGate.CompareBaseline: task deltas, warnings and the refusal of a non-finite epsilon are left
  out.
- ChatTurn.TurnsSound: tool_use ids are non-empty and never repeated, and no turn is cancelled;
  `TurnSequences.TurnsPairedIff` needs neither.
- FaceMatch.OwnFaceOrRefusal: here the stored normal and position are the row's own and only the area
  share may be off; `FaceMatch.RoundedOwnFaceOrRefusal` rounds them too, at the cost of a
  hundred-thousandth of the bound.
- FaceMatch.RoundedOwnFaceOrRefusal: the share's difference is a condition here;
  `FaceMatch.StoredSignatureOwnFace` discharges it for every stored share that is not zero.
- FaceMatch.NeverMistakenIff: exact for unrounded normals and positions;
  `FaceMatch.StoredNeverMistakenIff` is the statement for stored ones.
- FaceMatch.StoredNeverMistakenIff: real shares within a hundred-thousandth of two thirds of a trillionth
  are not covered, because there the answer depends on which way normal and position were rounded.
