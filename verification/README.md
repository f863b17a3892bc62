# Verification of the gof cache, token, log and RPC protocols

A Dafny model of four parts of gof and proofs of what they keep. The laws are stated for all inputs,
all runs or all reachable states; where the code does not meet an expectation, a run or an input of
which that is shown stands beside them. `dafny verify dfyconfig.toml` checks the whole project.

- **Read-through cache with broadcast invalidation.** `Rows` gives rows, unique columns, unique
  compound indexes and the lookups a bean yields. `CacheKeys` and `KeyTexts` give the texts of those
  lookups. `CacheNode` is one process: a local cache filled under a per-key lock that is held across
  miss, load and store, a subscription queue, the message being handled and the delayed deletions.
  `Coherence` is the whole system: the committed rows and the token hash, open transactions that
  publish before they commit, token writers that write before they publish, verifications in
  flight, any number of nodes, a clock. `Runs` builds runs of it. `Clock` derives its timing rule from
  the clock, `Settling` shows that it can always settle, `CoherenceNeeds` holds runs that go wrong when
  one rule is dropped, and `LogoutRace` says when a removed token comes back.
  `Session`, `CacheMem` and `Subscription` are the imperative code of the same protocol: writes through
  a session, the cache as one caller uses it, and the loop over published messages.
  `SessionSafety` makes the effects of a session steps of the system and says when its commit is safe;
  `KeyImages` makes the cache of texts an image of a node's; on it, `CachedReads` makes a cached read a
  read of the committed rows, and `HandledMessages` makes the loop over messages the node's own work.
- **Token sessions.** `TokenSessions` is login, verification with sliding refresh, expiry and logout
  of one user over time, one after the other, with Redis failing or not; `TokenRuns` makes these runs of
  the whole system. `RefreshRace` is the refresh there, where verifications overlap.
- **Buffered, rotating, self-pruning log writer.** `LogWriter` is the writer with arbitrary failures
  of file write, archive creation, seek, copy and truncation; `Shutdown` is the ordered shutdown on top;
  `Subsequences` is what "at least once, in order" means.
- **RPC names and dispatch.** `NameCase` is the two name conversions and the path form built on them,
  `Arguments` the decoding of positional arguments, `Middleware` the chain a request passes,
  `Dispatch` registration, the request pipeline and the response. `Paging` is paged queries.

`Text` and `Wrappers` are shared helpers. Objects that the code updates in place are classes whose
methods are proved against reference functions; the laws are lemmas about those functions.

## The coherence theorem and its conditions

`Coherence.QuietIsCoherent` and the two lemmas before it hold of `REAL`, the rules of the design
together with these conditions, and `CoherenceNeeds` has, for each, a run that settles wrong without it:

- the delayed second deletion, and deletion under the lock, are there;
- a transaction ends before a delayed deletion of its own keys starts; `Clock.InTimeRunsSettleCoherent`
  shows that ending within two seconds of its first publication is enough;
- a commit has published all keys of the rows it changes, as they were and as they become
  (`SessionSafety.ChangeHarmsIff` says exactly when a session's has not, and that this does harm);
- a reader gives each unique compound index in full or not at all (`Rows.InvalidatedIffExact`);
- a restore stores the committed row.

The system works on keys; that different keys have different texts holds under a further condition, that
no string value in a lookup contains a quote followed by ` AND ` (`KeyTexts.KeyTextInjective`). A lookup's
text is also, unescaped, the condition the database is asked (g2db/cache.go:113-122, g2db/mysql.go:384).
That this condition means equality of values is taken as given, and true only of strings without quotes
and backslashes, and up to trailing blanks where the collation of the column ignores them.

Messages to a subscribed node are delivered reliably and in order, and a local cache deletes what it is
told to; that is part of the machine. Transactions have numbers that are not used again.

## Where the code does not do what is expected of it

Each is modelled as the code has it, with the exact condition under which the expectation holds.

- A session publishes the keys of the row it knows. An update that changes a unique column, an update of
  some columns only, or a removal from a stale cached row can change a row whose keys it did not
  publish, and then a node can stay wrong for good: `SessionSafety.ChangeHarmsIff`,
  `SessionSafety.StaleRemovalHarms`.
- A cached read decodes into the caller's bean and keeps what the encoding does not show; a non-zero
  column that the encoding hides is lost (`CacheMem.OverlayIsRowIff`, `CacheMem.ReadIsWholeIff`), and an
  update of all columns of what was read then writes it back as zero (g2db/session.go:107-109).
- Two lookups may have one memory key when a string value holds a quote followed by ` AND `; for column
  names without `=` and table names without a colon they never do otherwise:
  `KeyTexts.KeyTextInjective`, `KeyTexts.MarkedValueCollides`.
- A verification in flight, or one that starts from a copy still served, can bring a token back after a
  logout: `LogoutRace.ComesBackIff`.
- A refresh is an unlocked read, decision and write, so verifications that overlap can set the stored
  expiry back, and a client that keeps up can be refused, though every copy read is current:
  `RefreshRace.SetsBackIff`, `RefreshRace.CanTurnAwayIff`, `RefreshRace.GuaranteedIff`.
- A repeated login where several are allowed can hand back an expired token:
  `TokenSessions.LoginThenVerifyIff`.
- A failed receive ends the subscription for good: `Subscription.NothingAfterTheEnd`,
  `Subscription.AllHandledIff`.
- A rotation whose seek fails archives nothing and truncates all the same: `LogWriter.FlushLosesIff`.
- Two closes of a log writer that overlap close its channel twice, a panic: `LogWriter.ClosedOnceIff`.
- The log writer's `Write` reports 0 bytes, and success on a closed writer: `LogWriter.InnerIO.Write`.
- `SnakeString` is not injective, so one method can hide another: `NameCase.SnakeEqualIff`,
  `Dispatch.HiddenIff`.
- The dispatcher converts what follows the first dot as a whole, `snakePath` part by part:
  `NameCase.DispatchNameIsPathIff`.
- A namespace given by hand is not converted although requests are: `Dispatch.GivenNameReachableIff`.
- The refusal of `null` for a required argument never happens: `Arguments.NullIsLikeMissingIff`.
- A response can hold neither result nor error, or both, against section 5 of the JSON-RPC 2.0
  Specification: `Dispatch.NeitherIff`, `Dispatch.BothIff`.
- A page beyond the last reports no rows and no pages at all: `Paging.AnswerIsRightIff`.

## Model

| member | source | states |
|---|---|---|
| Rows.LookupIff | g2db/cache.go:23-94 | a bean's lookups are exactly: each unique column that is neither 0 nor empty nor absent, and of each unique compound index the columns that are not, if any; with the bean's values |
| Rows.ExactIsInvalidated | g2db/mysql.go:181-188 | a lookup by one unique column or a whole unique compound index is among the keys of every row that answers it |
| Rows.InvalidatedIffExact | g2db/mysql.go:112-126 | a lookup is invalidated by every row that answers it if and only if its columns are a unique column or a whole compound index: dropping zero columns is what breaks partial indexes |
| Rows.LookupIsRowKey | g2db/cache.go:78-111 | any lookup of a reader that gives compound indexes wholly or not at all is a key of any row answering it |
| Rows.PublishReachesRowIff | g2db/session.go:126-129 | publishing one bean's lookups reaches all of another row's if and only if the bean has the row's value in each unique column that is not zero in the row and in each compound index that is nowhere zero in the row |
| Rows.ChangeIsAnswered | g2db/mysql.go:384-392 | a direct lookup changes its answer only if a row it selects, before or after, is changed |
| Rows.CommitChangesOnlyAnnounced | g2db/session.go:119-129 | a commit whose rows' keys are all published changes the answers of published keys only |
| CacheNode.NodeStepKeepsInv | g2db/cache.go:130-198 | every step of a node, fill, deletion, timer, eviction or reset, keeps: a cached or loaded value that is stale has a deletion ahead |
| CacheNode.EitherDeletionRemoves | g2db/cache.go:158-163 | each of the two deletions of a key, without the lock and under it, removes the key and nothing else, at once |
| CacheNode.NodeStepKeepsOwedBy | g2db/cache.go:152-174 | while a transaction is open, every key it published keeps a delayed deletion ahead that has not started |
| CacheNode.ReceivedKeeps | g2db/redis.go:155-175 | a new message keeps every obligation and adds the deletion of its keys |
| Coherence.OutsideIsFree | g2db/redis.go:57-75 | the system holds up nothing from outside: time, publications by anyone, token writes, rollbacks and verifications that end unwritten are possible in every state |
| Coherence.CommitKeeps | g2db/mysql.go:336-338 | a commit after publication keeps the invariant although it changes what every cache should hold |
| Coherence.MessageKeeps | g2db/redis.go:57-75 | publications, those of transactions later rolled back included, keep the invariant |
| Coherence.TokenWriteKeeps | g2db/token.go:229-239 | a write to the token hash before its publication keeps the invariant |
| Coherence.StepKeepsInv | g2db/cache.go:130-198 | every step of the system keeps the coherence invariant |
| Coherence.ReachableInv | g2db/mysql.go:323-340 | the invariant holds in every state reachable from empty caches |
| Coherence.StaleRowIsOwed | g2db/cache.go:152-174 | in every reachable state a cached or in-flight row value that differs from the committed rows has a message or delayed deletion for its key at that node |
| Coherence.StaleTokenIsPending | g2db/token.go:152-160 | a cached token differs from the hash only while its writer has not published or a first deletion is queued or under way; no delay is needed |
| Coherence.QuietIsCoherent | g2db/cache.go:152-198 | once queues, timers and writers are empty every node agrees with the committed rows and the token hash |
| Coherence.StoresAreSeparated | g2db/cache.go:187-198 | over all interleavings, between two stores of a key at a node the key was removed there: one load per miss |
| Coherence.StepKeepsExclusive | g2db/atomic.go:13-16 | a key is never cached while a fill of it holds its lock |
| Coherence.SettledIsLoggedOut | g2db/token.go:66 | a logout whose publication is handled, with no older verification in flight, leaves no trace of the token at any node |
| Coherence.LogoutIsFinal | g2db/token.go:152-160 | from then on the token is neither stored nor served until a login, over every run |
| LogoutRace.ComesBackIff | g2db/token.go:120-133 | a removed token comes back into the store without a login, in some run, if and only if a verification has renewed it already, or the refresh window is positive and an unexpired copy is held by a verification or served at a node |
| LogoutRace.StepKeepsAway | g2db/token.go:121-132 | when none of that is so, no step other than a login changes it: expired copies are removed, never renewed |
| Clock.InTimeRunsSettleCoherent | g2db/cache.go:171 | a run in which every transaction ends within 2000 milliseconds of its first publication settles with every node agreeing |
| Settling.CanSettle | g2db/cache.go:130-174 | if every token writer's publication works in the end, from every reachable state some run without new writes settles, rows and tokens unchanged and every node agreeing: no deletion waits for ever for the lock of a fill |
| Runs.Fill | g2db/cache.go:146-149 | an undisturbed read-through, lock, load and store, leaves the committed value and nothing else changed |
| Runs.Settle | g2db/cache.go:152-174 | an undisturbed message, handled and its delayed deletion carried out, removes exactly its keys |
| CoherenceNeeds.NeedsSecondDelete | g2db/cache.go:171 | without the delayed deletion a run settles with a wrong entry |
| CoherenceNeeds.NeedsLock | g2db/cache.go:141-143 | the same if deletion did not wait for the fill's lock |
| CoherenceNeeds.NeedsTimeliness | g2db/mysql.go:323-340 | the same if a delayed deletion may start while its transaction is open |
| CoherenceNeeds.NeedsCommittedRestore | g2db/mysql.go:191-203 | the same if a restore stores anything but the committed row |
| CoherenceNeeds.NeedsWholeIndexes | g2db/mysql.go:117-122 | the same for a reader that gives part of a compound index |
| CoherenceNeeds.NeedsStableKeys | g2db/session.go:126-129 | the same for an update that changes a unique column |
| CoherenceNeeds.UnpublishedIsKept | g2db/mysql.go:219-221 | from any state with an idle node, whatever the other nodes, transactions and writers do and under any rules, a lookup whose answer a write or removal changes without publishing it can be cached at that node before the commit and is not corrected by the transaction's message after it |
| CoherenceNeeds.UnpublishedStaysWrong | g2db/mysql.go:219-221 | so if the rules let it commit, that node ends idle and wrong about the key, and if nothing else was under way the whole system settles so |
| Session.Session.Insert | g2db/session.go:45-67 | nil if and only if before hook, statement, count of inserted rows, publication and after hook are all good, else the error of the first that is not; the hooks that ran, the write and the publication stand in the effects once each, in this order, under exactly their conditions |
| Session.Session.Delete | g2db/session.go:17-42 | the same for a removal, which needs its row loaded and does nothing without a condition; the condition is a lookup of the bean as given, the keys published those of the row as loaded |
| Session.Session.Update | g2db/session.go:70-142 | the same for an update, with the requery last; condition and published keys are those of the merged row, the columns written all or those named |
| Session.Session.DelCache | g2db/mysql.go:219-221 | publishes all lookups of the row, or fails without publishing |
| Session.Session.Finish | g2db/mysql.go:329-339 | rolls back after an error of the body, else commits |
| Session.Session.InsertTx | g2db/mysql.go:276-278 | effects and error of an insert in its own transaction |
| Session.Session.DeleteTx | g2db/mysql.go:224-226 | effects and error of a removal in its own transaction |
| Session.Session.UpdateTx | g2db/mysql.go:343-353 | effects and error of an update in its own transaction |
| Session.InsertMeets | g2db/session.go:45-67 | the outcome of an insert, error and effects, from its hooks, statement, count and publication alone |
| Session.DeleteMeets | g2db/session.go:17-42 | the outcome of a removal, from loading, hooks, statement and publication alone |
| Session.UpdateMeets | g2db/session.go:70-142 | the outcome of an update, from merging, hooks, statement, count, publication and requery alone |
| Session.InsertCommitsIff | g2db/mysql.go:323-340 | an insert in its own transaction commits if and only if every stage goes well, and has written if and only if a row was inserted |
| Session.DeleteCommitsIff | g2db/mysql.go:323-340 | the same for a removal: a statement that fails leaves neither a write nor a commit |
| Session.UpdateCommitsIff | g2db/mysql.go:323-340 | the same for an update and its count and requery |
| Session.InsertPublishesFirst | g2db/session.go:51-60 | every run of an insert that commits has published all keys of the stored row first, and it commits if and only if it returns no error |
| Session.DeletePublishesFirst | g2db/session.go:30-35 | the same for a removal and the loaded row |
| Session.UpdatePublishesFirst | g2db/session.go:119-129 | the same for an update and the merged row |
| SessionSafety.AnnouncesIff | g2db/mysql.go:181-188 | publishing the lookups of one row announces another in its place if and only if it has the other's values in the other's key columns |
| SessionSafety.CommittableIff | g2db/session.go:119-134 | a transaction that published a row's lookups meets the commit rule if and only if the row it changes, as it was and as it becomes, has that row's values in its key columns |
| SessionSafety.UpdatedIs | g2db/session.go:105-111 | an update gives the columns named, or all if none are, the merged row's values and leaves the others |
| SessionSafety.CallIsRun | g2db/session.go:17-142 | the effects of any insert, removal or update that ends well are a run of the system up to its commit, with the writes, published keys and messages of that call and nothing else changed; the commit is then allowed if and only if the row changed has the key columns of the row the call knew |
| SessionSafety.ChangeHarmsIff | g2db/session.go:126-129 | such a transaction can leave a node wrong for good by committing if and only if the row it changes, as it was or as it becomes, differs in a key column from the row whose lookups were published |
| SessionSafety.AllowedIsHarmless | g2db/mysql.go:323-340 | a commit the rules allow leads to no settled state in which a node is wrong |
| SessionSafety.CallHarms | g2db/session.go:17-142 | from any idle system of one node, any insert, removal or update that ends well but knows other key columns than those of a row it changes can, after one lookup at the right time, leave the node wrong for good by committing |
| SessionSafety.StaleRemovalHarms | g2db/session.go:18-35 | in a reachable state a name is cached with the row that held it before; the removal call by that name that loads this row deletes the row holding the name now, and its commit can leave a node wrong for good |
| CacheKeys.MakeQuery | g2db/mysql.go:112-126 | the text of an index is that of its non-zero columns, whatever order the column map is visited in, and empty if the index is not unique |
| CacheKeys.TextIsCanonical | g2db/mysql.go:123-125 | sorting makes the text independent of the order |
| CacheKeys.FindAll | g2db/cache.go:23-60 | one clause for each non-zero unique column, no other |
| CacheKeys.FindCompounds | g2db/cache.go:85-94 | one text for each compound index that is not zero throughout |
| CacheKeys.Values | g2db/cache.go:78-111 | exactly the texts of the bean's lookups and the extra conditions, shortest first |
| CacheKeys.LookupTextIsPublished | g2db/mysql.go:355-361 | any text a reader may pick is in the list that a writer of a row agreeing with the reader's bean publishes |
| CacheKeys.MemKeyInjective | g2db/mysql.go:553 | distinct (table, column, value) triples have distinct memory keys, for integers and strings, any quotes included |
| KeyTexts.TextInjective | g2db/mysql.go:112-126 | distinct lookups, compound ones included, have distinct texts if no string value holds the mark |
| KeyTexts.KeyTextInjective | g2db/token.go:138 | so keys of rows and tokens have the same text only if they are the same key |
| KeyTexts.MarkedValueCollides | g2db/mysql.go:117-125 | with the mark in a value, followed by the clause of a column sorted behind it, two different lookups have one text |
| CacheMem.MarshalledUnambiguous | g2db/cache.go:18 | the not-found marker is never an encoded row, and equal bytes show equal rows |
| CacheMem.OverlayIsRowIff | g2db/mysql.go:397-400 | a cached read gives exactly the row if and only if the bean passed in agrees with the row on every column the encoding does not show |
| CacheMem.ReadIsWholeIff | g2db/mysql.go:392-400 | so an empty bean gets the whole row if and only if its encoding shows all its non-zero columns |
| CacheMem.CacheMem.GetOrStore | g2db/cache.go:187-198 | the loader runs only on a miss; its value is stored, its failure is not |
| CacheMem.CacheMem.Delete | g2db/cache.go:141-143 | removes the key if the cache does, and nothing else |
| CacheMem.CacheMem.DeleteAll | g2db/cache.go:158-163 | removes exactly the listed keys for which one of the two deletions works |
| CacheMem.CacheMem.HandleDelete | g2db/cache.go:152-174 | a message that decodes is carried out and armed once more, any other changes nothing |
| CacheMem.CacheMem.Reset | g2db/cache.go:177-185 | empties the cache, or on failure leaves it as it was |
| CacheMem.CacheMem.CacheGet | g2db/mysql.go:355-401 | with entries that agree with the direct lookups, the cached read finds what the direct lookup finds, not-found if and only if that finds nothing, and leaves them agreeing |
| CachedReads.CodeIsDistinct | g2db/mysql.go:553 | the way the code writes keys gives different plain keys different texts |
| CachedReads.CurrentImageAgrees | g2db/mysql.go:362-393 | the store of texts of a node whose entries are current agrees with the direct lookups of every table |
| CachedReads.CachedRead | g2db/mysql.go:355-401 | a cached read at such a node answers with the committed row, or not-found if and only if there is none, and leaves the store as the system's undisturbed read-through leaves the node |
| CachedReads.SettledIsCurrent | g2db/cache.go:152-198 | in every settled state the entries of every node are current |
| KeyImages.StoreOnImage | g2db/cache.go:196 | storing under a plain key's text is storing under the key |
| KeyImages.MessageOnImage | g2db/cache.go:152-165 | deleting the texts of a message's keys is the system's work through that message |
| HandledMessages.LeftByIsImage | g2db/redis.go:147-178 | what the loop leaves of the texts, given the messages on the wire, is the image of what the messages leave of the entries, resets included |
| HandledMessages.NodeHandles | g2db/cache.go:152-185 | an undisturbed node handles everything queued, and keeps exactly the entries the messages leave |
| HandledMessages.SubActionOnImage | g2db/redis.go:147-178 | the loop, given the messages queued at a node and a cache that deletes what it is told to, leaves the image of the entries the node has once it has handled them, and arms each deletion once more |
| KeyImages.ImageExists | g2db/cache.go:124-127 | every node's cache with plain keys has such a store |
| Subscription.Subscription.CloseRedisSub | g2db/redis.go:112-120 | the close channel is closed once however often it is called |
| Subscription.Subscription.Dispatch | g2db/redis.go:162-175 | one message removes exactly what its kind says; unreadable or foreign ones remove nothing |
| Subscription.Subscription.SubAction | g2db/redis.go:147-178 | after the loop the cache holds exactly the entries not removed by a reset or deletion message before which, and at which, no close signal and no failed receive stands; every deletion handled is armed once more, in order |
| Subscription.HandledIff | g2db/redis.go:147-178 | a delivery is handled if and only if neither a close signal nor a failed receive stands at its place or before; what is unreadable or foreign ends nothing |
| Subscription.DeletionIsCarriedOut | g2db/redis.go:163-175 | so a deletion message with neither before it is carried out and armed, whatever surrounds it |
| Subscription.ArmedIsDelivered | g2db/cache.go:171 | and every list armed is that of such a message |
| Subscription.NamesDiffer | g2db/redis.go:123-144 | applications and message kinds never take each other's messages |
| Subscription.NothingAfterTheEnd | g2db/redis.go:150-159 | after a close or a failed receive nothing delivered is ever handled |
| Subscription.AllHandledIff | g2db/redis.go:147-178 | all deliveries are handled if and only if none of them ends the loop |
| TokenSessions.Tokens.AfterLogin | g2db/token.go:205-217 | the stored token and the answer, whatever Redis does: with Redis fine a new token for the full timeout, or the stored one if several are allowed; a token that cannot be read counts as none, a write that is not published is an error; other users untouched |
| TokenSessions.Tokens.CacheVerify | g2db/token.go:92-135 | with Redis fine accepted if and only if a token is stored, is the one presented and has not expired; another token than the stored one is invalid, and nothing is stored or published; what is removed or renewed is published; an error if there is no cached copy and Redis cannot be read, or Redis fails in what the verdict needs |
| TokenSessions.Tokens.Logout | g2db/token.go:66 | the token is gone unless Redis refuses, an error if that or the publication fails; other users untouched |
| TokenSessions.Tokens.Write | g2db/token.go:229-239 | stores the token unless Redis refuses, and reports whether that and the publication worked |
| TokenSessions.Tokens.RemoveTokenData | g2db/token.go:152-160 | the same for a removal |
| TokenSessions.DecidedIsNext | g2db/token.go:120-133 | what a verification of the whole system makes of a token is what one user's sessions make of it |
| TokenSessions.VerdictIff | g2db/token.go:108-135 | each verdict if and only if its condition on what is stored, what is presented and the clock; the renewed token's expiry, and what becomes of the store |
| TokenSessions.LoginAndLogout | g2db/token.go:205-217 | what a login stores and returns, and that a logout leaves nothing |
| TokenSessions.OnlyHandedOutIsAccepted | g2db/token.go:117-119 | over every run from an empty store, a token text that no login handed out is never accepted |
| TokenRuns.SessionsAreRuns | g2db/token.go:92-239 | every run of complete logins, logouts and verifications of a user is a run of the whole system that leaves the token store as it says and nobody else's token changed |
| TokenSessions.ExpiryStaysBounded | g2db/token.go:255-258 | over every run the stored expiry never exceeds now plus the timeout |
| TokenSessions.RefreshNeverShortens | g2db/token.go:128-133 | a verification that nothing overlaps never brings the stored expiry forward, after any run of events one at a time and for any policy |
| TokenSessions.SlidingExpiry | g2db/token.go:120-133 | with logins and verifications one at a time, after a successful verification a client with gaps of at most the refresh window is never refused |
| TokenSessions.SlidesIff | g2db/token.go:54-63 | one at a time, a policy guarantees this if and only if its refresh window is not longer than its timeout, or is negative, so that no client keeps up |
| TokenSessions.GapIsTight | g2db/token.go:120-133 | a gap one tick longer is refused in a reachable state |
| RefreshRace.GuaranteedIff | g2db/token.go:120-133 | with verifications and logins that overlap, every decision on the stored copy and every write within `d` of its decision: a client with gaps of at most `g` is never refused, in any run after its first success in which nobody removes its token, if and only if `g` is within the refresh window and `g + d` within the timeout; nobody with the token is ever refused or removes it if and only if `g + d` is within the window and `g + 2 * d` within the timeout |
| RefreshRace.FairIsNeverRefused | g2db/token.go:120-133 | the first half over runs: from any state whose stored expiry is far enough from the client's last decision, the token stays stored and is never found expired |
| RefreshRace.SetsBackIff | g2db/token.go:128-132 | a verification that renews the current copy sets the stored expiry back, over any run between its decision and its write, if and only if the last write in between left a later expiry than its own, and by no more than the time since its decision |
| RefreshRace.CanTurnAwayIff | g2db/token.go:128-132 | in a run of verifications alone, every decision on the stored copy, a token stored for the full timeout can be found expired at the next tick if and only if the refresh window is positive or the timeout is not |
| TokenSessions.IdleExpires | g2db/token.go:121-126 | with no login or successful verification for more than the timeout the next verification fails |
| TokenSessions.LoginThenVerifyIff | g2db/token.go:206-213 | the token a login returns is accepted at once if and only if it is not an expired one handed back |
| TokenSessions.LogoutRefuses | g2db/token.go:99-111 | without a stored token every verification is refused until a login |
| LogWriter.InnerIO.CountFiles | g2util/auto_back_file.go:244-256 | counts the archives of a directory |
| LogWriter.InnerIO.FileCopyWithIndex | g2util/auto_back_file.go:228-276 | the new archive, in the directory of the flush's day, the live file and the outcome, for each failure |
| LogWriter.InnerIO.FlushBuffer | g2util/auto_back_file.go:293-308 | the buffer is emptied only by a complete write |
| LogWriter.InnerIO.Write | g2util/auto_back_file.go:161-178 | accepted by an open writer whatever the flush does; dropped without error by a closed one; the count is always 0 |
| LogWriter.InnerIO.Close | g2util/auto_back_file.go:129-137 | closes the channel unless the writer is closed |
| LogWriter.InnerIO.CloseLocked | g2util/auto_back_file.go:133-136 | past its check it closes the channel in any case |
| LogWriter.ClosedOnceIff | g2util/auto_back_file.go:129-137 | over a run the channel is closed at most once if and only if no close that passed its check before comes after another |
| LogWriter.InnerIO.AfterShutdown | g2util/auto_back_file.go:122-126 | an open writer takes the marker and is closed, a closed one is left alone |
| LogWriter.InnerIO.FlushAndCloseFile | g2util/auto_back_file.go:311-318 | the file is closed only if the last flush succeeds |
| LogWriter.InnerIO.LatestDays | g2util/auto_back_file.go:328-335 | exactly the last days to keep |
| LogWriter.InnerIO.AutoDelDir | g2util/auto_back_file.go:181-221 | removes every older day directory and nothing else |
| LogWriter.StepKeeps | g2util/auto_back_file.go:293-308 | one event whose flush is not blind loses nothing, and without failures repeats nothing |
| LogWriter.FlushLosesIff | g2util/auto_back_file.go:261-275 | a flush loses bytes if and only if it is blind: it rotates, the seek back fails, whose error is dropped, and the truncation happens |
| LogWriter.AtLeastOnce | g2util/auto_back_file.go:261-307 | in every run without a blind flush, whatever else fails of writes, archive creation, copies and truncations, every byte accepted survives in order in what pruning took, archives, live file and buffer |
| LogWriter.LinesStayWhole | g2util/auto_back_file.go:261-308 | in every such run each line there was or that is accepted later stays in one piece: in one archive, the live file or the buffer, or in an archive that pruning took |
| LogWriter.Conservation | g2util/auto_back_file.go:161-308 | without failures each accepted byte is there exactly once, in order, over every interleaving of writes, flushes, rotations, day changes, prunings and closing |
| LogWriter.PruneSplits | g2util/auto_back_file.go:181-221 | pruning takes whole days off the old end |
| LogWriter.DirAppend | g2util/auto_back_file.go:242-263 | with archives numbered 0 to n-1 the counted index is free and keeps them so |
| LogWriter.EventIsToday | g2util/auto_back_file.go:237-263 | no event but pruning touches another directory than its own day's, and there it adds at most one archive, under the next index |
| LogWriter.ArchiveStaysUntilPruned | g2util/auto_back_file.go:181-221 | over every run what is archived on a day stays as it is in that day's directory if and only if no pruning comes at a day for which it is no longer among the last days kept |
| LogWriter.FlushSucceedsIff | g2util/auto_back_file.go:293-318 | which failures a flush reports, exactly, and that the run loop closes the file unless its last flush fails |
| LogWriter.ShortIsBuffered | g2util/auto_back_file.go:165-170 | below the buffer's size a line is only buffered |
| LogWriter.ArchivesAreNeverOverwritten | g2util/auto_back_file.go:242-263 | no event but pruning touches an existing archive, whatever fails |
| LogWriter.ArchiveNamesDistinct | g2util/auto_back_file.go:261 | zero-padded names of distinct indices are distinct, past six digits too |
| LogWriter.ArchivesAreSized | g2util/auto_back_file.go:171-175 | without failures each archive, also of the closing flush, is at least the limit long and exceeds it by less than a buffer and one write |
| Shutdown.Graceful.RegProcessor | g2util/graceful.go:99-103 | appends, duplicates included |
| Shutdown.Graceful.RegHTTPServer | g2util/graceful.go:86-97 | appends the server |
| Shutdown.Graceful.ShutdownAction | g2util/graceful.go:106-127 | one stop for each registered server, in order, then one call for each registered process: first those that are not log writers, in registration order, then the log writers in theirs |
| Shutdown.CallsShutDown | g2util/graceful.go:106-127 | these calls place by place, and that to each writer they do what ShutdownText says |
| Shutdown.AbFile.MustNewIO | g2util/auto_back_file.go:49-95 | one writer for each path, registered for shutdown at every request; a file that cannot be opened is a panic that registers nothing |
| Shutdown.ShutdownText | g2util/graceful.go:112-125 | however often a writer is registered, what a shutdown logs to it before its first close is everything the others log while stopping and one marker |
| Shutdown.ShutdownTakesEverything | g2util/auto_back_file.go:122-137 | over every schedule of a shutdown among flush and pruning ticks and lines of others, an open registered writer takes all of that in order and is closed once; if nobody else logs, it takes nothing more |
| Shutdown.ShutdownReachesTheFile | g2util/auto_back_file.go:347-363 | over every such schedule, days included, if the flush on the close branch succeeds and no flush was blind, all of it is in what pruning took and the files, in order, at least once, and exactly once without failures and other lines |
| NameCase.SnakeString | j2rpc/functions.go:63-78 | the byte loop computes the recursive snake form |
| NameCase.CamelString | j2rpc/functions.go:38-60 | the flag-driven byte loop computes the recursive camel form |
| NameCase.SnakeIsSpelled | j2rpc/functions.go:63-78 | snake form of any text, character by character: lower case, and an underscore before exactly the capitals that have something other than underscores between them and the capital before, or the start |
| NameCase.CamelIsCameled | j2rpc/functions.go:38-60 | camel form of any text, character by character: which underscores are left out and which letters raised |
| NameCase.SnakePath | j2rpc/middleware.go:57-64 | converts each dotted part in place |
| NameCase.CamelUndoesSnakeIff | j2rpc/functions.go:38-78 | of alphanumeric names, camel form undoes snake form if and only if no two capitals meet and the name starts with a capital or is all digits |
| NameCase.SnakeUndoesCamelIff | j2rpc/functions.go:38-78 | of underscore-joined lower-case words, snake form undoes camel form if and only if no word but the last is a single letter |
| NameCase.SnakeInjective | j2rpc/functions.go:63-78 | hence snake form is injective on usual Go names |
| NameCase.AdjacentCapitalsCollide | j2rpc/functions.go:66-71 | two capitals in a row are enough for a collision |
| NameCase.SnakeEqualIff | j2rpc/functions.go:63-78 | alphanumeric names have the same snake form if and only if they have the same letters but for case and the same places where a capital follows a non-capital |
| NameCase.SnakeIdempotent | j2rpc/functions.go:63-78 | converting twice is converting once |
| NameCase.SnakeAtMostHalfLonger | j2rpc/functions.go:63-78 | the result is no shorter and at most half longer |
| NameCase.DispatchNameIsPathIff | j2rpc/middleware.go:44-64 | the dispatched name and the path form agree if and only if no later dot is followed by underscores and a capital |
| Middleware.GetMatchFunction | j2rpc/middleware.go:21-42 | the function applies if it is for all paths, or some include is the path and no exclude is |
| Middleware.DispatchOption.AddBeforeMiddleware | j2rpc/option.go:23-53 | from then on requests pass the function, last, if and only if no list was given, or the path is an entry of the first list and of no other |
| Middleware.AppliesIff | j2rpc/middleware.go:21-42 | a registered function applies to exactly the paths its own lists say |
| Middleware.ChainIsWanted | j2rpc/option.go:56-70 | a request passes exactly the functions registered for its path, in registration order |
| Middleware.EntryMatchesIff | j2rpc/middleware.go:44-55 | an entry of one dot is the path of the same text, the path of its snake forms, and what it matches as an expression, and no other |
| Middleware.DispatchOption.BeforeMiddlewareAction | j2rpc/option.go:56-70 | runs the matching functions in registration order up to the first error |
| Middleware.AddedRunsLast | j2rpc/option.go:52 | what is added later runs later and changes nothing before it |
| Middleware.RanIsPrefix | j2rpc/option.go:62-68 | all ran and succeeded, or a prefix ending with the one failure |
| Middleware.GoSpellingMatchesIff | j2rpc/middleware.go:44-55 | a path in Go spelling is for exactly the requests whose two parts have its snake forms, apart from what its text matches as an expression |
| Arguments.ParseArgumentArray | j2rpc/functions.go:95-113 | values in order up to the first fault; surplus elements are refused undecoded |
| Arguments.ParsePositionalArguments | j2rpc/functions.go:118-147 | the bound values or the refusal, for every form of the parameters |
| Arguments.BindsExactly | j2rpc/functions.go:118-147 | succeeds if and only if parameters are absent or a complete array, not too long, that decodes element by element; then there is exactly one value for each declared argument |
| Arguments.FirstFaultIsNamed | j2rpc/functions.go:97-104 | the error names the first element that has no type or does not decode |
| Arguments.DecodesThroughPointers | j2rpc/functions.go:98-111 | a text other than `null` becomes what the codec makes of it, behind as many pointers as the type has |
| Arguments.RefusalIff | j2rpc/functions.go:95-135 | which refusal each form of the parameters gets: a faulty element before the array's end |
| Arguments.NullIsLikeMissingIff | j2rpc/functions.go:105-107 | `null` in the last given place of any array is accepted whenever the array without it is, and equals leaving the argument out if and only if its type is not a pointer |
| Dispatch.RpcMessage.SetError | j2rpc/message.go:45-61 | the error member keeps an RPC error and gives each other kind its code |
| Dispatch.RpcMessage.Output | j2rpc/message.go:33-42 | id 1 for a missing id, version 2.0, no method, no parameters |
| Dispatch.SplitTwo | j2rpc/message.go:24-30 | the parts around the first dot, none without a dot |
| Dispatch.Server.SuitableCallbacks | j2rpc/j2rpc.go:262-299 | the callbacks of the suitable methods under their formatted names |
| Dispatch.Server.Register | j2rpc/j2rpc.go:82-129 | a new service is added under its name, a taken name is a panic, nothing else changes; from then on requests for it lead to its exposed methods and to nothing else |
| Dispatch.RegisteredIsReached | j2rpc/j2rpc.go:82-129 | a registered value is reached under the name it chose, or else the one given, or else its type's, and there in any spelling exactly the methods that are exported, not excluded by anyone and have usable results, the last of a name |
| Dispatch.Server.Call | j2rpc/j2rpc.go:219-248 | one call, its result or its error, a crash included |
| Dispatch.Server.Serve | j2rpc/j2rpc.go:214-248 | middleware, then arguments, then the call |
| Dispatch.Server.Handle | j2rpc/j2rpc.go:187-249 | the whole pipeline: what it sets in motion, what it leaves in the message, the error it ends with |
| Dispatch.Server.Handler | j2rpc/j2rpc.go:48-74 | a stopped server or an answered request does nothing at all; else the response is the finished message |
| Dispatch.Server.Stop | j2rpc/j2rpc.go:156-160 | the server is stopped |
| Dispatch.CalledOnceAfterMiddleware | j2rpc/j2rpc.go:209-232 | the callback runs once, after all matching middleware in order has succeeded, with as many arguments as declared; a request that does not get there calls nothing and ends in an error |
| Dispatch.CalledOnceAfterWanted | j2rpc/j2rpc.go:209-232 | the same with the middleware passed read off the lists given at registration |
| Dispatch.AnswerKeepsId | j2rpc/message.go:33-42 | a response has its request's id, 1 only if that has none, version 2.0 and neither method nor parameters |
| Dispatch.MembersOfAnswer | j2rpc/message.go:45-61 | result and error of the response, from the request and the callback's outcome: what the request brought stays unless it is replaced |
| Dispatch.BothIff | j2rpc/message.go:45-61 | both members if and only if the request brought the one that the outcome does not replace, or both and there is no outcome |
| Dispatch.NeitherIff | j2rpc/j2rpc.go:236-248 | neither if and only if the request brought none and its callback is reached and gives nothing or a zero value |
| Dispatch.AnswerNamesTheStage | j2rpc/error.go:5-12 | the error of the response, stage by stage: -32700 for a body that is no message, else -32600 for a bad id, else -32601 for a path that leads nowhere, else that of the first failing middleware, else -32602 for arguments that do not bind, else what the callback's failure, crash or unencodable result says; a token error is a 401, a forbidden one a 403, any other a -32000 |
| Dispatch.ExactlyOneIff | j2rpc/j2rpc.go:236-248 | a request without either gets exactly one unless its callback is reached and gives nothing or a zero value |
| Dispatch.SpellingIsIrrelevant | j2rpc/j2rpc.go:199-212 | requests whose parts have the same snake forms set the same things in motion and get the same response |
| Dispatch.NamesRegistered | j2rpc/j2rpc.go:278-297 | exactly the formatted names of suitable methods are registered |
| Dispatch.LastOfANameWins | j2rpc/j2rpc.go:291 | of methods with one formatted name the last is reached |
| Dispatch.HiddenIff | j2rpc/j2rpc.go:278-297 | a method of alphanumeric name is hidden by another if and only if one registered later has the same words |
| Dispatch.UsualNamesNeverCollide | j2rpc/j2rpc.go:278-297 | methods with distinct usual names are all reachable |
| Dispatch.CapitalsInARowHide | j2rpc/j2rpc.go:291 | a method can hide another whose name differs in the case of a capital |
| Dispatch.ReachedBySnakeForm | j2rpc/j2rpc.go:171-184 | a service under its default name, whatever its methods are called: a request in any spelling leads to a method if and only if a registered one has its snake form, and then to the last of these |
| Dispatch.ReachedBySameWords | j2rpc/j2rpc.go:171-184 | with alphanumeric, distinct names it leads to a given method if and only if the names have the same words and no method registered later has them too |
| Dispatch.UsualIsReached | j2rpc/j2rpc.go:171-184 | so with usual, distinct names every spelling of a method reaches it |
| Dispatch.GivenNameReachableIff | j2rpc/j2rpc.go:86-94 | under snake namespaces some request is led to a method of a service whose name was given by hand if and only if that name has no dot and no capital |
| Paging.QueryRows | g2db/mysql_query_rows.go:48-137 | defaults and limits of the parameters, and the rows, count and pages answered, with either query failing and the rows' hook |
| Paging.RunHooks | g2db/mysql_query_rows.go:129-135 | the hook is applied to every row in place |
| Paging.CountPages | g2db/mysql_query_rows.go:124-127 | the rounded-up quotient |
| Paging.PagesIsCeiling | g2db/mysql_query_rows.go:124-127 | just enough pages for all rows |
| Paging.PagesPartition | g2db/mysql_query_rows.go:73-79 | pages 1 to the last, one after the other, are the rows; all but the last are full; a page is empty if and only if it is beyond the last |
| Paging.AnswerIsRightIff | g2db/mysql_query_rows.go:114-127 | with a database that works, a query fails if and only if a parameter is negative, shows the page asked for, the first if none is, of 10 rows unless asked and 100 at most, and its count and pages are right if and only if the page exists or there are no rows |
| Paging.FailuresOfQuery | g2db/mysql_query_rows.go:110-135 | with a database that fails: what is answered when the search or the count fails, and that an empty page is not counted |

## Left out

- Library internals: the database and Redis are maps, caches lossy maps, publish and subscribe FIFO queues; SQL text, migrations, connection handling and client set-up are not modelled.
- Delivery to a subscribed node is taken as reliable and in order; late subscription, and a restart over an on-disk cache that kept old entries, are not modelled.
- Coherence.QuietIsCoherent: deletions of the local cache work in the system; in the code a failed one is logged or dropped, as `CacheMem.CacheMem.DeleteAll` has it, and leaves its entry.
- CacheKeys.Values: the extra conditions of a reader are part of its list but of no writer's, so nothing is claimed for a reader whose shortest text is one of them.
- KeyTexts.KeyTextInjective: one direction; whether a value that holds the mark has a partner with the same text depends on the columns there are, and `KeyTexts.MarkedValueCollides` gives a whole family that has.
- Session.Session.Update: the merged row is taken as given; merging of beans and time stamps are not modelled.
- Session.Session.Insert: hooks only succeed or fail; rows that a hook itself writes through the transaction are not tracked.
- Session.Session.Finish: a rollback that fails changes the text of the error only, which is not modelled.
- SessionSafety.ChangeHarmsIff: the row loaded or merged is any row, and the place of the row changed is a parameter; how a stale one comes about is the subject of `SessionSafety.StaleRemovalHarms`.
- CachedReads.CachedRead: the cache and the database work, and the read is undisturbed; disturbed reads are steps of the system.
- CacheMem.CacheMem.CacheGet: options that change the database session, such as reading deleted rows, are not modelled, and the class is single-threaded; concurrency is in `Coherence`.
- TokenSessions.SlidingExpiry: runs are those in which Redis works, the cache agrees with it and each login and verification is complete before the next; when they overlap this guarantee fails, and `RefreshRace.GuaranteedIff` is what holds.
- TokenSessions.RefreshNeverShortens: of verifications one at a time; overlapping ones do set the expiry back, as `RefreshRace.SetsBackIff` has it.
- TokenSessions.SlidesIff: of verifications one at a time; with overlapping ones the condition is that of `RefreshRace.GuaranteedIff`.
- RefreshRace.GuaranteedIff: a decision on a cached copy that is no longer stored is outside it; time passes in whole ticks and the client's gap is at least one.
- Settling.CanSettle: a token writer whose publication fails, which the code reports as an error, never publishes; until the next publication for that token nothing is claimed of it.
- Token extraction from headers, encryption and the JSON of tokens: a token's text is a function of the user's id.
- The lock table is not an object: a key's lock is the fill that holds it, and a panic while it is held is not modelled.
- Store registration in the cache package and the registration of tables: easy members.
- LogWriter.InnerIO.FlushBuffer: a size query of the live file that fails after the write, a panic in the code (g2util/auto_back_file.go:321-325), is not modelled.
- LogWriter.InnerIO.AutoDelDir: days are integers; directory walking, other files, and days that are not 24 hours long are not modelled.
- Shutdown.Graceful.ShutdownAction: the 30 second limit on each call is not modelled: a process that goes on after it may log to a writer already closed.
- NameCase.SnakeString: lower-casing is of ASCII letters only.
- Dispatch.HiddenIff: for names of letters and digits; names with underscores or other letters are not covered.
- Middleware.GoSpellingMatchesIff: regular expressions are an uninterpreted predicate, and one that does not compile, a panic in the code, is not modelled.
- Middleware.DispatchOption.AddBeforeMiddleware: that the code appends to the caller's second list in place is not modelled.
- Middleware.DispatchOption.BeforeMiddlewareAction: the conversion of arguments by reflection is not modelled; a middleware function succeeds or fails, and its panic is not modelled.
- Arguments.ParsePositionalArguments: the JSON decoder is known by its tokens, and its own error texts are left out of the messages.
- Dispatch.Server.Handler: the check of the HTTP request and the writing of bytes are parameters.
- Dispatch.Server.Register: the constructor hook and the registration of all tagged members of an application are not modelled.
- Dispatch.Server.Call: a callback is a function of its arguments; its side effects are not modelled.
- Paging.QueryRows: the conditions, the order and the two queries are given as one fixed list of rows.
