# Verification of the password manager's sync, limiter and session logic

The program keeps encrypted entries on any number of devices and on one server.
This project models the parts of it that carry state and proves what they keep.

**The sync protocol.** A device holds a map of entries and a separate map of
versions; the server holds one row per (user, entry). A round computes a
watermark (the largest local version), pulls every row above it in ascending
order, pushes every entry whose version is neither 0 nor -1, and asks the server
to delete the entries marked with -1. The protocol is modelled three times, and
the three are proved to agree:

- `LocalStore.Store` and `SyncServer.SyncService` are classes with the program's
  own loops, and `SyncClient` runs the three loops of a round over them, with a
  fate chosen for every remote call;
- `SyncRound` is a machine whose steps are single local writes and remote calls,
  with an abort possible between any two; every run of the code is a run of it,
  whose remote calls are exactly those the loops should make, in order, with the
  fates and the clock readings that belong to their numbers (`SyncCalls`);
- `SyncLocal` and `SyncRows` in `SyncRound` are one closed-form merge of maps.

`Recovery`, `SyncLaws` and `Convergence` prove the laws of the protocol on the
machine and the closed form: recovery from crashes, idempotence, the effect of a
delete, and convergence of server and devices.

**The local store.** `Buckets` models an ordered bucket of flat `user:id` keys
with a cursor, `VersionCodec` the eight-byte versions, and `LocalStore` shows
that together they behave as two independent (user, id) maps.

**The rate limiter.** `RateLimiting` models the window counters and the sweep
that runs beside them, gives the rule they implement and the exact maximum of
what they admit in an interval of any length.

**Refresh tokens.** `RefreshTokens` models login and rotation on the token table,
with its uniqueness constraint and tokens whose clock has whole seconds.

| file | content |
|---|---|
| `Wrappers.dfy` | an optional value |
| `ByteStrings.dfy` | byte-lexicographic order |
| `VersionCodec.dfy` | big-endian versions |
| `Buckets.dfy` | ordered buckets, cursor scans, user namespaces |
| `LocalStore.dfy` | the device's store |
| `SyncPolicy.dfy` | conflict policies |
| `SyncServer.dfy` | the server's table: upsert, pull, delete |
| `SyncRound.dfy` | the machine of a round and its closed form |
| `SyncCalls.dfy` | the remote calls of a round, their order, fates and times |
| `SyncTrace.dfy` | the machine's runs as the loops perform them; every state has a complete round |
| `SyncClient.dfy` | the loops of a round |
| `Recovery.dfy` | interrupted rounds and resumed pulls |
| `SyncLaws.dfy` | laws of complete rounds |
| `Convergence.dfy` | many devices, interleaved |
| `RateLimiter.dfy` | module `RateLimiting`: the limiter |
| `RefreshTokens.dfy` | login and rotation |

`dafny verify dfyconfig.toml` checks the project.

## What the proofs show about the code

Several properties one would expect hold only under a condition. The model keeps
the code as it is, and the condition is proved necessary as well as sufficient.

- Interrupted rounds are always recovered from if and only if no two rows still
  to be applied share a version (`RecoveryIff`). If two do, a cut between them
  leaves the watermark past the second (`TiesLoseARow`), and two devices adding
  under one version are enough for that (`TiesAreReached`). The device then stays
  without that row as long as it marks nothing for deletion, does not add that
  entry itself, and the server's row does not rise above that version
  (`PassedOverStays`).
- A cut pull may be resumed with exactly the rest if and only if the cut is not
  between two rows of one version and the last version before it was really
  taken by the resolver (`PullResumesIff`).
- On a device that equals the server, with all versions and row times positive,
  marking an entry for deletion takes effect if and only if another entry's
  version is at least as large (`DeleteTakesEffectIff`). Otherwise the mark lowers
  the watermark, and the next pull brings the entry back, as it does for a
  device's only entry (`MarkOfAnOnlyEntryIsUndone`).
- A row gone from the server stays gone while nobody adds it, provided no device
  holds it with a version to push and no pull under way carries it
  (`ForgottenStaysGone`); a device that does hold it brings it back with its next
  finished push phase (`HeldRowComesBack`).
- A complete round leaves any device equal to any server if and only if the store,
  once it has pulled, settles every entry (`RoundSyncsIff`): for a row, it overrules
  it, marks it, or has it; where there is no row, it has nothing or something to
  send. For a plain "add, then sync" with the largest version, as the terminal
  interface does it, that is a condition on the store before the add and on the
  other entries (`AddSettlesIff`; `AddMayMissARow` is a case where it fails).
- For a device complete below its watermark, with all versions and row times
  positive, that condition reads: a pull just before the add would have brought
  nothing but, at most, the entry itself (`PlainAddCatchesUpIff`). The command line
  syncs first and again afterwards, but ignores both outcomes: on such a device its
  "sync, add, sync" catches up if and only if the first sync left nothing to pull
  but, at most, the entry itself, and the last pushed the entry; complete syncs do
  both (`SyncAddSyncIff`). A device that an earlier add has made skip a row is not
  helped by them as long as no pull brings it that row (`PassedOverStays`); for it
  `SyncAddSyncSettlesIff` gives the condition.
- The client's conflict rule and the server's take the same side of a pulled row
  if and only if the row's time is positive (`ConflictRulesAgreeIff`), because
  the client offers its own side with time 0.
- A second complete round changes nothing at all, whatever the rows' times
  (`SyncIsIdempotent`): the condition that times be positive is not needed.
- The server converges entry by entry: deletes of other entries do no harm
  (`ServerConverges`).
- Two users' keys can collide if and only if one user's key prefix begins with
  the other's (`KeysCollideIff`); for names without a colon that is impossible.
- In a closed interval of length T the limiter admits at most
  cap * (ceil(T / (window + 1)) + 1) calls, one fewer unless T is a multiple of
  window + 1, where cap is the limit and at least 1 and times are whole units of
  the clock; and for every T some run attains that (`RunRateBound`,
  `BoundIsAttained`). The rounder cap * (ceil(T / window) + 1) follows
  (`RateInWindows`).
- A redeemed token is refused for ever if and only if its exp or its iat lies in
  an earlier second than the rotation's own (`SingleUseIff`). Otherwise the
  rotation stores the very same token again, as after a login and a refresh
  within one second (`SameSecondIsAcceptedTwice`).
- The logins under one name that take effect obey the limiter's bound
  (`LoginRate`).
- A rotation whose commit went through but whose acknowledgement was lost counts
  as a redemption: the caller is left with the old token, to which `SingleUseIff`
  applies just the same.

## Model

| member | source | states |
|---|---|---|
| `VersionCodec.VersionSurvivesStorage` | internal/client/store/store.go:169-177 | every 64-bit version, -1 included, is read back as it was stored |
| `VersionCodec.BytesSurviveDecoding` | internal/client/store/store.go:169-177 | the other direction: every eight-byte string encodes what it decodes to |
| `VersionCodec.BytesAreBigEndian` | internal/client/store/store.go:169-173 | byte k of a stored version is its k-th base-256 digit from the top, in two's complement for negative versions |
| `ByteStrings.LessIff` | internal/client/store/store.go:81 | the key order: a proper prefix is below, and otherwise the smaller byte at the first difference decides |
| `ByteStrings.PrefixIsConvex` | internal/client/store/store.go:81 | keys with a given prefix form an interval of the key order, which is why a cursor may stop at the first key without it |
| `Buckets.FindReadsContents` | internal/client/store/store.go:61 | a lookup in a sorted bucket agrees with the map the bucket stands for |
| `Buckets.InsertUpdatesContents` | internal/client/store/store.go:50 | an insert keeps the keys sorted and changes the map at one key |
| `Buckets.RemoveUpdatesContents` | internal/client/store/store.go:96 | a removal keeps the keys sorted and drops one key of the map |
| `Buckets.ScanIsExact` | internal/client/store/store.go:81-84 | seek, then advance while the prefix holds, visits every key with the prefix once, in order, and nothing else |
| `Buckets.KeysCollideIff` | internal/client/store/store.go:50 | two users' concatenated keys can be equal exactly when one prefix begins with the other |
| `Buckets.ColonFreeUsersAreSeparate` | internal/client/store/store.go:50 | different users without ':' in their names never share a key |
| `Buckets.FlatKeysRefinePairs` | internal/client/store/store.go:45-98 | any sequence of puts and deletes on flat keys reads back like the same sequence on a map of (user, id) pairs |
| `LocalStore.ListIsExact` | internal/client/store/store.go:73-88 | ids whose full keys are what the cursor visits are exactly the user's entries, ascending |
| `LocalStore.ScanFindsTheWatermark` | internal/client/store/store.go:155-162 | a bound on the visited versions that is attained (or 0) is the watermark of the user's versions |
| `LocalStore.Store.constructor` | internal/client/store/store.go:19-42 | opening a file, new or written before, shows every user what its two buckets hold |
| `LocalStore.NewFileIsEmpty` | internal/client/store/store.go:25-33 | the two buckets of a new file show every user two empty maps |
| `LocalStore.InsertChanges` | internal/client/store/store.go:50 | writing one key of a bucket changes one entry of what its user sees and nothing of what users with separate keys see |
| `LocalStore.RemoveChanges` | internal/client/store/store.go:96 | the same for removing one key |
| `LocalStore.Store.Put` | internal/client/store/store.go:45-52 | sets one entry of one user; the versions and all users with separate keys keep what they see |
| `LocalStore.Store.Get` | internal/client/store/store.go:55-70 | returns the entry, or nothing exactly when there is none |
| `LocalStore.Store.List` | internal/client/store/store.go:73-88 | returns exactly the user's ids, each once, in key order |
| `LocalStore.Store.Delete` | internal/client/store/store.go:91-98 | removes one entry and leaves its version and every separate user alone |
| `LocalStore.Store.PutVersion` | internal/client/store/store.go:106-113 | sets one version and leaves the entries and every separate user alone |
| `LocalStore.Store.GetVersion` | internal/client/store/store.go:115-132 | returns the version last stored, or nothing exactly when there is none |
| `LocalStore.Store.DeleteVersion` | internal/client/store/store.go:134-144 | removes one version only |
| `LocalStore.Store.GetMaxVersion` | internal/client/store/store.go:146-166 | the maximum of 0 and the user's versions |
| `SyncServer.SyncService.UpsertOne` | internal/server/sync/sync.go:31-40 | inserts the row, or replaces it only by a strictly larger version; other users' rows stay |
| `SyncServer.SyncService.Push` | internal/server/sync/sync.go:23-47 | folds the upsert over the batch; a failure at some entry leaves exactly what came before it |
| `SyncServer.PushIsAJoin` | internal/server/sync/sync.go:29-45 | per key the fold keeps the largest version offered, the start row included, with the data and time of its first carrier |
| `SyncServer.FoldIsTheJoin` | internal/server/sync/sync.go:29-45 | the table after any pushes is, id by id, the maximum of what it held and what was offered |
| `SyncServer.JoinIsUnique` | internal/server/sync/sync.go:29-45 | there is one such maximum for an id whose versions fix its data |
| `SyncServer.PushOrderIsIrrelevant` | internal/server/sync/sync.go:29-45 | reordering and duplicating pushes does not change the table when id and version fix the data |
| `SyncServer.BatchesCompose` | internal/server/sync/sync.go:29-45 | splitting a batch changes nothing, not even the stored times |
| `SyncServer.RetryIsSafe` | internal/server/sync/sync.go:29-45 | any prefix of a batch and then the whole batch, at later times, ends in the same revisions as the batch once |
| `SyncServer.SyncService.Pull` | internal/server/sync/sync.go:49-82 | returns exactly the user's rows above the given version, each once, in ascending version order |
| `SyncServer.SelectionExists` | internal/server/sync/sync.go:55-60 | such an answer exists for every table |
| `SyncServer.SyncService.Delete` | internal/server/sync/sync.go:84-101 | removes the row whatever its version and fails exactly when there is none |
| `SyncRound.RoundComputesTheMerge` | internal/client/sync/sync.go:101-175 | every uninterrupted round, in whatever order, ends with the closed form: rows above the watermark override the store, the server is joined by strict version with what may be pushed, and the surviving tombstones the server knows vanish from both |
| `SyncClient.ApplyRow` | internal/client/sync/sync.go:111-123 | one turn of the pull loop performs the machine's writes for that row, or none if the local side wins |
| `SyncClient.PullLoop` | internal/client/sync/sync.go:110-124 | the pull loop runs the machine through all pulled rows and touches no other user |
| `SyncClient.PushEntry` | internal/client/sync/sync.go:151-158 | a push of one entry is one conditional upsert |
| `SyncClient.PushTurn` | internal/client/sync/sync.go:132-160 | one turn skips an id with no version, 0 or -1, pushes its entry with the server's clock at its own call, or gives up when that call fails, with or without its effect |
| `SyncClient.PushLoop` | internal/client/sync/sync.go:131-161 | the calls made are one push for each listed entry with a version other than 0 and -1, in the listed order and numbered on from the pull; it succeeds only if all were delivered and otherwise stops at the first that was not |
| `SyncClient.DeleteEntry` | internal/client/sync/sync.go:169-173 | a delivered delete of a row the server has drops entry and version; a failed one, its effect lost or not, and one of an absent row leave the device as it was |
| `SyncClient.DeleteTurn` | internal/client/sync/sync.go:165-173 | one turn skips an entry that is not marked or tries its delete |
| `SyncClient.DeleteLoop` | internal/client/sync/sync.go:164-174 | the calls made are one delete for each listed tombstone, in order, with the fates of their numbers; a failed one stops none after it |
| `SyncClient.FullSync` | internal/client/sync/sync.go:89-175 | whatever the remote calls' fates it performs a run of the machine, complete, run to the end, or cut short by a failed pull or push, whose remote calls are exactly those due, each with its own fate and clock reading; without failures both sides equal the closed form; other users' entries, versions and rows are untouched |
| `SyncCalls.ChangedRowsAreStamped` | internal/server/sync/sync.go:31-40 | every row that a failure-free round changed bears the server's clock as the push of that row read it |
| `SyncTrace.CompleteRoundExists` | internal/client/sync/sync.go:101-175 | from every state of device and server a complete round is possible |
| `Recovery.RunKeepsOutcome` | internal/client/sync/sync.go:101-175 | at every moment of interrupted runs, an uninterrupted round from there would leave what one from the start would have left |
| `Recovery.CrashRecovery` | internal/client/sync/sync.go:101-175 | any attempts cut short anywhere and then a complete round leave the server's revisions and the live view of one uninterrupted round |
| `Recovery.RecoveryIff` | internal/client/sync/sync.go:101-124 | this holds for all attempts if and only if no two rows the pull would apply share a version |
| `Recovery.TiesLoseARow` | internal/client/sync/sync.go:118-123 | when two share one, an attempt cut between them leaves the watermark past the second and ends in a different outcome |
| `Recovery.PullResumesIff` | internal/server/sync/sync.go:55-60 | after the pull loop has handled k rows, each written only if the resolver takes it, the next pull may return exactly the rest if and only if a row that won reached the k-th version and the next row is above it |
| `SyncLaws.WatermarkCoversWinners` | internal/client/sync/sync.go:102-124 | after a round no row is left that a pull would apply |
| `SyncLaws.NothingLeftToSend` | internal/client/sync/sync.go:126-174 | after a round every push would be refused and every tombstone left is absent on the server |
| `SyncLaws.SyncIsIdempotent` | internal/client/sync/sync.go:101-175 | a second complete round changes neither store nor table |
| `SyncLaws.DeleteEffect` | internal/client/sync/sync.go:102-174 | which tombstones survive the pull, and what becomes of each kind on both sides |
| `SyncLaws.DeleteTakesEffectIff` | cmd/client/main.go:382-388 | on a device equal to the server, with positive versions and row times, marking an entry and syncing deletes exactly it if another version is at least as large, and changes nothing otherwise |
| `SyncLaws.MarkOfAnOnlyEntryIsUndone` | cmd/client/main.go:382-388 | a device that adds its first entry, syncs, marks it and syncs has it back on both sides |
| `SyncLaws.SyncCatchesUp` | internal/client/sync/sync.go:102-124 | a device complete below its watermark equals the server after one round, which leaves the server as it was |
| `SyncLaws.AddThenSync` | internal/client/sync/sync.go:101-161 | a sync right after an add with the largest version pulls nothing and pushes exactly the new entry |
| `SyncLaws.RoundSyncsIff` | internal/client/sync/sync.go:101-175 | a complete round leaves any device equal to any server if and only if the store, once it has pulled, settles every entry |
| `SyncLaws.AddSettlesIff` | internal/tui/components.go:445-495 | for any device, "add, then sync" with a version above the server's ends equal to the server if and only if the store settled every other entry before the add |
| `SyncLaws.PlainAddCatchesUpIff` | internal/tui/components.go:445-495 | for a device complete below its watermark, that is if and only if it was up to date, but for the added entry |
| `SyncLaws.SyncAddSyncSettlesIff` | cmd/client/main.go:71-74 | for any device, whatever became of the sync before the add, a complete sync after it ends equal to the server if and only if the store settled every other entry when the add was made |
| `SyncLaws.AddMayMissARow` | internal/tui/components.go:445-495 | an empty device that adds above another's row and syncs never receives that row, not in its next round either |
| `SyncLaws.RoundKeepsClosed` | internal/client/sync/sync.go:101-175 | a round cut anywhere, of a device complete below its watermark, changes no server row and leaves the device complete below its watermark; a complete one leaves nothing to pull |
| `SyncLaws.SyncAddSyncIff` | cmd/client/main.go:71-74 | "sync, add, sync" of a device complete below its watermark, where both syncs may fail or be cut, ends equal to the server if and only if the first left nothing to pull but, at most, the added entry, and the last pushed it |
| `SyncLaws.CommandDecides` | cmd/client/main.go:303-312 | what one such command does to devices complete below their watermarks: its own ends equal to the server exactly under that condition, and all stay complete exactly if no add skipped a row or was left unpushed |
| `SyncLaws.SerialisedClientsStayClosedIff` | cmd/client/main.go:71-74 | over any run of such commands by any devices, with syncs that may fail, all devices stay complete below their watermarks if and only if no add goes ahead over rows left unpulled and each is pushed by the sync after it |
| `SyncLaws.SerialisedClientsConverge` | cmd/client/main.go:303-312 | as long as they do, each command leaves its device equal to the server if and only if its first sync left nothing to pull but, at most, the added entry, and its last pushed that entry |
| `SyncLaws.CompleteCommandsConverge` | cmd/client/main.go:303-312 | when no round fails, every device equals the server after each of its commands |
| `Convergence.PositiveVersionsNeverFall` | internal/client/sync/sync.go:110-124 | in any interleaved run, with deletes, faults and aborts, a positive local version never falls or vanishes unless the entry is marked |
| `Convergence.ConflictRulesAgreeIff` | internal/sync/policy.go:22-27 | in any interleaved run, every row a pull is about to write is newer than the device's version, and choosing by time as the client does and by version as the server does agree on it exactly when its time is positive |
| `Convergence.RunsAreSound` | internal/client/sync/sync.go:101-161 | in any run, for an id that nobody marks: everything stored anywhere comes from an add or the start, its row only moves up, and each add of it is on the server or still owed |
| `Convergence.ServerHoldsTheJoin` | internal/client/sync/sync.go:126-161 | once each add of that id is followed by a finished push phase of its device, its row is the maximum of the start and all its adds |
| `Convergence.ServerConverges` | internal/client/sync/sync.go:101-161 | and then it equals what pushing all adds directly leaves, whatever the interleaving, the aborts, and the deletes of other ids |
| `Convergence.TableConverges` | internal/client/sync/sync.go:101-161 | without deletes the whole table equals that of pushing all adds directly |
| `Convergence.TombstonesAreNeverPushed` | internal/client/sync/sync.go:131-135 | in any interleaved run, with cut rounds and lost deletes, a device never pushes an entry it has marked unless it adds it again or a pull brings it back |
| `Convergence.MarkThenSync` | cmd/client/main.go:382-388 | a mark, then whatever other devices do, then a complete round: the row is gone from the server if and only if it is not above the watermark the mark has left (or would not win), no other row goes unless it was marked too, and on a device equal to the server it goes exactly under the condition of `DeleteTakesEffectIff` |
| `Convergence.MarkedRowIsRemoved` | internal/client/sync/sync.go:163-174 | with steps of other devices anywhere in between, once a round that loses no delete, and whose pull does not bring the marked entry back, has ended its deletes, the row was gone from the server at some moment |
| `Convergence.MarkedRowLeaves` | cmd/client/main.go:382-388 | from the empty start some run puts a row on the server and deletes it again by a mark |
| `Convergence.ForgottenStaysGone` | internal/server/sync/sync.go:90-93 | a row gone from the server stays gone through any run in which nobody adds the entry, if no device holds it to push and no pull under way carries it |
| `Convergence.HeldRowComesBack` | internal/client/sync/sync.go:131-161 | a device that still holds a deleted row to push brings it back with one finished push phase |
| `Convergence.PassedOverStays` | internal/client/store/store.go:155-162 | a row the watermark has passed over stays lost to the device through any run in which it marks nothing, does not add that entry, and the server's row stays at or below that version |
| `Convergence.TiesAreReached` | internal/client/sync/sync.go:102-124 | from the empty start two devices can reach a server state from which a third device's cut round does not recover |
| `RateLimiting.RateLimiter.constructor` | internal/server/middleware/ratelimit.go:25-34 | a new limiter has no counters |
| `RateLimiting.RateLimiter.Allow` | internal/server/middleware/ratelimit.go:74-94 | changes one key's counter and answers as the one-key counter does |
| `RateLimiting.RateLimiter.Sweep` | internal/server/middleware/ratelimit.go:42-49 | after it no counter older than the window is left, and every other one is kept as it was |
| `RateLimiting.SweepsAreInvisible` | internal/server/middleware/ratelimit.go:36-54 | sweeps at any moments change no answer |
| `RateLimiting.SweepsForget` | internal/server/middleware/ratelimit.go:42-49 | after any run a sweep leaves exactly the counters not older than the window, as they were |
| `RateLimiting.AnswersArePerKey` | internal/server/middleware/ratelimit.go:74-94 | an answer depends only on the times of that key's calls |
| `RateLimiting.AdmissionRule` | internal/server/middleware/ratelimit.go:74-94 | a call is admitted exactly when it opens a window or is among the first max of its window |
| `RateLimiting.RunAdmissionRule` | internal/server/middleware/ratelimit.go:36-94 | the same rule for runs that mix calls of all keys with sweeps |
| `RateLimiting.RateBound` | internal/server/middleware/ratelimit.go:74-94 | the bound on one key's admitted calls in a closed interval of any length |
| `RateLimiting.RunRateBound` | internal/server/middleware/ratelimit.go:36-94 | the bound for runs that mix calls of all keys with sweeps |
| `RateLimiting.BoundIsAttained` | internal/server/middleware/ratelimit.go:74-94 | for every limit, window and closed interval some run attains the bound exactly |
| `RateLimiting.RateInWindows` | internal/server/middleware/ratelimit.go:74-94 | so at most cap * (ceil(T / window) + 1) calls in any closed interval of length T |
| `RefreshTokens.AuthService.InsertToken` | internal/server/auth/auth.go:65-69 | stores a row for 72 hours, fails on a duplicate hash or a database error, and may fail after storing when only the acknowledgement is lost |
| `RefreshTokens.AuthService.Login` | internal/server/auth/auth.go:37-77 | what each outcome of a login leaves in the token table and in the limiter |
| `RefreshTokens.AuthService.RefreshToken` | internal/server/auth/auth.go:99-144 | replaces the redeemed row by a new one, or changes nothing and fails, unless all that failed is the acknowledgement of the commit |
| `RefreshTokens.LoginAnswers` | internal/server/auth/auth.go:37-77 | a login the limiter refuses is answered so and changes nothing, an unknown name is refused, and any other succeeds exactly when the database does not fail and the token is fresh, storing that token for its user for 72 hours |
| `RefreshTokens.FailuresChangeNothing` | internal/server/auth/auth.go:99-144 | no call succeeds over a database fault, and a failed one changes the table only if all that was lost is an acknowledgement |
| `RefreshTokens.NamesAreKept` | internal/server/auth/auth.go:86-95 | a registered name keeps its user through any run, and registering it again changes nothing |
| `RefreshTokens.LoginRate` | internal/server/auth/auth.go:37-69 | in any run whose logins the limiter answers, with sweeps at any moments, the logins under one name that take effect in a closed interval are at most the limiter's maximum for its length |
| `RefreshTokens.RowsCountLogins` | internal/server/auth/auth.go:65-143 | over any run a user's rows grow by exactly that user's logins that took effect |
| `RefreshTokens.EachLoginHasOneHead` | internal/server/auth/auth.go:119-143 | over any run the table is exactly the current heads of the login chains, one row each |
| `RefreshTokens.RedeemedOnce` | internal/server/auth/auth.go:102-143 | from any table, a redeemed token whose exp or iat second is earlier than the rotation's is refused after whatever calls follow |
| `RefreshTokens.SingleUseIff` | internal/server/auth/auth.go:99-143 | in any run from the empty table, a redeemed token is refused by every later call if and only if its exp or iat second is earlier than the rotation's, and otherwise some later call redeems it again |
| `RefreshTokens.SameSecondIsAcceptedTwice` | internal/pkg/jwt/jwt.go:40-48 | registered, logged in and refreshed within one second, a user can redeem one token twice |
| `RefreshTokens.IssuedIsRedeemable` | internal/server/auth/auth.go:99-144 | through any run that does not redeem it, and whatever the clock shows during the call, the refresh of a stored token is refused exactly from 72 hours after it was stored, and succeeds before that exactly when the renewed token is not another live row |
| `RefreshTokens.IdleSessionsExpire` | internal/server/auth/auth.go:102-108 | 72 hours after the last call that could store a row no token is accepted |

## Left out

- SyncClient.FullSync: a failing write of the device's own store is not modelled, neither where the program returns its error nor where it ignores it after a pull or a delete; an abort between any two writes is. The three loops and their turns are methods of their own, in the same order of calls.
- LocalStore.Store.constructor: errors of opening a file, and files not written by this store.
- LocalStore.Store.Put: the limit on key sizes.
- Column limits: the 255-character limit on entry ids and the not-null ciphertext, which make single pushes fail, appear only as failed calls.
- The row time is kept as the Unix second that a pull reports, not as the stored timestamp.
- encrypted_meta and the entry-type probe of the push loop: the client never sends the first and the server never stores the second.
- LocalStore.Store.Get: the copy of the value and the bucket's page memory are not modelled; values are sequences.
- LocalStore.Store.GetVersion: a missing bucket is not told apart from a missing key.
- SyncServer.SyncService.Pull: the query is a loop that takes a least row at a time; rows of equal version may come in any order.
- Convergence.ServerConverges: an add is one step of an idle device; a crash between its two writes and a sync running beside it are not modelled. Marking the id itself is excluded: a delete removes its row whatever the version.
- SyncLaws.SerialisedClientsConverge: the commands are syncs and adds; marks for deletion are covered by `DeleteEffect`, `ForgottenStaysGone` and `HeldRowComesBack` instead.
- SyncLaws.SyncAddSyncSettlesIff: the sync after the add is taken to complete; for devices complete below their watermarks `SyncAddSyncIff` lets it fail.
- RateLimiting.RateLimiter.Allow: counts do not overflow, and the counter behind the key is a value, not a shared pointer.
- RateLimiting.RateLimiter.Sweep: the ticker and the stop channel are not modelled; sweeps happen at arbitrary moments.
- RefreshTokens.AuthService.RefreshToken: each call is one atomic step, so nothing is claimed about overlapping refreshes of one token.
- RefreshTokens.AuthService.Login: access tokens, secrets and salts in the reply are not modelled; registration appears only in the runs, as a new user.
- Deleting users, which would cascade to their rows.
- Hashing and signing are injective by construction; cryptography, gRPC, TLS and the authentication interceptor are not part of this model.
- The server- and client-authoritative policies are defined but no sync uses them.
- The repository layer in internal/repository/postgres/entries.go, which the sync service does not use and whose rules differ.
- The user interfaces, session files and process start-up, except for their add, delete-mark and pre-command sync steps.
