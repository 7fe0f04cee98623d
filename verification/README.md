# Model of the client library's pool, IO collection, codecs and configuration

The library puts HTTP clients on top of an asynchronous network layer. This
project models the parts of it that are algorithms and protocols of their own
and proves what they keep over every input, every interleaving or every run.
`dafny verify dfyconfig.toml` checks all of it.

- **Connection pool** (`ConnectionPool`, `PoolInvariant`, `PoolLaws`,
  `PoolObjects`). Every operation is posted to one strand, so acquire, release
  and reap are atomic steps. `ConnectionPool` says what each step may do to the pool, as a function
  or, where the order of a hash map decides, as a relation. `PoolObjects.Pool`
  has the fields and loops of the class and is proved to take those steps.
  `PoolInvariant` proves what the steps keep, `PoolLaws` what they do to every
  single connection.
- **Pooled sessions** (`PooledSessions`, `PooledRuns`, `SessionLaws`,
  `RecklessRun`). Any number of sessions, each run any number of times, share
  the pool: strand steps, I/O completions, the reap timer, connections dying
  and time passing interleave in any order.
- **IO collection** (`CollectParallel`, `CollectResults`, `Pieces`,
  `CollectBounded`, `BoundedRuns`, `CollectProgress`). Each atomic access of each
  callback is one step; items call back once, at any time, with any outcome.
- **Polling and retry** (`Polling`, `PollingLaws`, `PollingMeaning`). Three loops
  that claim to do similar things, what each delivers, and exactly how far they
  agree. What the i-th execution calls back with and whether the i-th wait
  fails are arbitrary functions.
- **Base64** (`Base64`, `Base64Forms`), on bytes, with wrapping position
  arithmetic.
- **Configuration** (`Placeholders`, `PlaceholderMeaning`, `TwoPasses`,
  `ConfigMerge`, `ConfigTree`, `EnvFile`, `EnvLines`): the two placeholder passes,
  the layer merge and the `.properties` parser.
- **Rate limiter and proxy rotation** (`RateLimiter`, `RateDebt`, `RateWindows`,
  `ProxyRotation`), with every clock reading a parameter. `ProxyRotation.Mod`
  is the remainder written by subtraction; `ModIsRemainder` proves it is `%`,
  which the class uses.

Where the code does something other than its documentation or its twin, the
model follows the code:

- `poll_if` schedules one more wait after the last allowed attempt when that
  attempt gave a value that does not satisfy, and a timer error in that wait
  replaces the exhaustion error (`PollingLaws.PollIfAgrees` says exactly when,
  `DeliveriesDiffer` gives an input).
- `retry_exponential_if` executes once even for a limit below one, where
  `poll_with_state` executes nothing (`PollingLaws.RetryAgrees`).
- For `${VAR:-}` with VAR undefined, `expand_env_in_string` drops the
  placeholder and `replace_env_var` keeps it (`Placeholders.RewritesAgree`).
- An empty substitution in the first pass can form a placeholder that the
  second pass replaces (`TwoPasses.EmptySubstitutionGlues`); exactly when the
  second pass is harmless is said by `PipelineExact`.
- Merging layers is not associative when a path is an object, then a
  non-object, then an object that does not cover the first
  (`ConfigMerge.MergeAssociative` gives the exact condition).
- The rate limiter charges denied requests, so a user that goes on asking can be
  denied for ever: `RateDebt.StarvingRun` is such a run, `SteadyPaceStarves` and
  `DeniedExactly` say exactly when, `AbsenceRestores` how it ends.
- A pooled session keeps its connection when it is done. Run again, it releases
  that connection a second time if the new acquire fails, even while another
  session is using it (`RecklessRun.ReleasedTwice`, `PooledRuns.CarefulExactly`).

## Model

| member | source | states |
|---|---|---|
| `ConnectionPool.Connection.SetBusy` | include/beast_connection_pool.hpp:114-117 | marking idle stamps the time of last use, marking busy does not; nothing else changes |
| `ConnectionPool.Connection.Close` | include/beast_connection_pool.hpp:126-143 | afterwards the socket is not open; flags and stamp stay |
| `PoolObjects.Pool.constructor` | include/beast_connection_pool.hpp:219-227 | an empty pool: nothing idle, the reaper not armed, no wait outstanding |
| `PoolObjects.Pool.Acquire` | include/beast_connection_pool.hpp:239-259 | the new pool state is the one that popping from the back until a usable connection turns up must give: everything popped before is closed, the one handed out is busy, a fresh connection is created only if none was usable |
| `PoolObjects.Pool.PopUsable` | include/beast_connection_pool.hpp:243-253 | the pop loop finds the last usable connection of the deque or empties it |
| `PoolObjects.Pool.Release` | include/beast_connection_pool.hpp:262-282 | dead or unwanted connections are closed; others are stamped and filed, the origin's oldest pushed out at the cap, the global cap applied, the reaper armed if needed |
| `PoolObjects.Pool.ShrinkGlobalIfNeeded` | include/beast_connection_pool.hpp:465-484 | the loop terminates, never takes its early break, drops exactly the surplus, only from fronts, only from largest deques; what it drops is closed |
| `PoolObjects.Pool.LargestDeque` | include/beast_connection_pool.hpp:473-477 | an origin whose deque is at least as long as every other |
| `PoolObjects.Pool.CountIdle` | include/beast_connection_pool.hpp:467-468 | the sum of all deque lengths |
| `PoolObjects.Pool.ScheduleReap` | include/beast_connection_pool.hpp:428-436 | re-arming cancels the outstanding wait and adds one that ends an interval later; a non-positive interval disarms |
| `PoolObjects.Pool.ArmReapIfNeeded` | include/beast_connection_pool.hpp:497-505 | armed only if enabled, not armed already and something is idle |
| `PoolObjects.Pool.Reap` | include/beast_connection_pool.hpp:434-462 | after the prune loops, the cap and the re-arming, the pool is in a state the reaper step allows |
| `PoolObjects.Pool.TimerFires` | include/beast_connection_pool.hpp:434-462 | an outstanding wait completes: from a pool that keeps the invariant the same step results |
| `PoolObjects.Pool.PruneAll` | include/beast_connection_pool.hpp:437-452 | the nested erase loops keep exactly the alive and unexpired connections, in order, close the rest and drop emptied deques |
| `PoolObjects.Pool.PruneDeque` | include/beast_connection_pool.hpp:439-447 | one deque after its erase loop: the survivors in order |
| `PoolInvariant.NeverTwice` | include/beast_connection_pool.hpp:494 | no connection occurs at two positions of the idle table |
| `PoolInvariant.AcquireKeeps` | include/beast_connection_pool.hpp:243-253 | acquire keeps the pool invariant: deques distinct, non-busy, under their own origin and sorted by last use; both caps; one wait iff armed; non-empty implies armed; waits early enough for every idle connection |
| `PoolInvariant.AcquireLeaves` | include/beast_connection_pool.hpp:244-253 | what acquire removes is handed out alive and unexpired, or closed |
| `PoolInvariant.AcquireMostRecent` | include/beast_connection_pool.hpp:244-253 | the connection handed out is at least as recently used as every one left; none is handed out only if none was usable |
| `PoolInvariant.ReleasedKeeps` | include/beast_connection_pool.hpp:262-281 | release keeps the pool invariant |
| `PoolInvariant.ReleasedLeaves` | include/beast_connection_pool.hpp:265-279 | whatever release pushes out or does not keep is closed; a kept one is open and stamped now |
| `PoolInvariant.ReapedKeeps` | include/beast_connection_pool.hpp:434-462 | the reaper step keeps the pool invariant and leaves one wait iff armed |
| `PoolInvariant.ReapedLeaves` | include/beast_connection_pool.hpp:441-446 | everything dead or expired goes and is closed; a usable one goes only to the global cap |
| `PoolInvariant.ShrinkIsFair` | include/beast_connection_pool.hpp:471-483 | if the global cap cost an origin a connection, no origin ends more than one larger, and what was lost is no more recently used than anything kept |
| `PoolInvariant.SuffixIsNewer` | include/beast_connection_pool.hpp:271-277 | dropping from the front drops the least recently used |
| `PoolInvariant.FrontThereExactly` | include/beast_connection_pool.hpp:272-275 | release finds a front to drop in every pool exactly when the cap per origin is at least one |
| `PoolInvariant.OutsideKeeps` | include/beast_connection_pool.hpp:114-124 | time passing and busy connections changing keep the pool invariant |
| `PoolLaws.AcquireReuses` | include/beast_connection_pool.hpp:244-253 | a connection is handed out exactly if some idle one of the origin is open and no longer idle than the keep-alive |
| `PoolLaws.AcquireCuts` | include/beast_connection_pool.hpp:244-253 | the deque is cut at the one handed out: those before it stay as they were, it is busy, those behind it were of no use and are closed, nobody else is touched |
| `PoolLaws.AcquireEmpties` | include/beast_connection_pool.hpp:243-253 | if none is handed out, the whole deque was of no use and is closed and emptied, nobody else is touched |
| `PoolLaws.ReleasedFiled` | include/beast_connection_pool.hpp:269-279 | a reusable open connection is appended to its deque, which gives up its front exactly at the cap per origin; without the global cap nothing else changes |
| `PoolLaws.ReleasedLast` | include/beast_connection_pool.hpp:269-281 | in every case it ends idle, stamped now and last in its deque, unless the global cap emptied that deque |
| `PoolLaws.ReleasedStay` | include/beast_connection_pool.hpp:271-279 | whoever was idle stays idle, but for the front of a deque at the cap per origin and for what the global cap takes |
| `PoolLaws.ReleasedOthers` | include/beast_connection_pool.hpp:262-281 | a connection that was not idle, or still is, is as it was |
| `PoolLaws.ReleasedRefused` | include/beast_connection_pool.hpp:265-268 | one that may not be reused or is dead is closed, and that is all |
| `PoolLaws.ReleasedArms` | include/beast_connection_pool.hpp:497-505 | the release that leaves something idle arms the reaper for one interval; an armed one is left alone |
| `PoolLaws.ReapedExactly` | include/beast_connection_pool.hpp:437-452 | the reaper keeps exactly the idle connections that are open and not idle for longer than the keep-alive, in order, and closes exactly the others |
| `PoolLaws.ReapedGoesOn` | include/beast_connection_pool.hpp:454-461 | it goes on, with one wait of one interval, exactly while something is idle |
| `PooledRuns.StepKeeps` | include/http_session_pooled.hpp:56-94 | every step of every session, of the strand, the timer, the network or the clock keeps the system invariant: exclusive ownership, no leaked open connection, one release per grant, the pool invariant; but for the one reckless step |
| `PooledRuns.CarefulExactly` | include/http_session_pooled.hpp:56-94 | the invariant holds throughout a run exactly when in no step the acquire of a session that still has an earlier connection fails |
| `PooledRuns.RecklessBreaks` | include/http_session_pooled.hpp:66-69 | such a failure always posts a release that answers no grant |
| `PooledRuns.RecklessHarms` | include/http_session_pooled.hpp:89-93 | it closes the earlier connection whoever has it now and queues its release, which makes two owners exactly when somebody has it |
| `RecklessRun.ReleasedTwice` | include/http_session_pooled.hpp:56-94 | a run of eleven steps in which that happens: the connection another session is using is closed and released twice for one grant |
| `PooledRuns.RunKeeps` | include/http_session_pooled.hpp:56-94 | the system invariant holds at every point of every such run, for any number of sessions, each run any number of times |
| `PooledRuns.RunExclusive` | include/beast_connection_pool.hpp:243-281 | at every point of every careful run an idle connection is non-busy, filed once and under its own origin, held by no session, in no pending release, and newer than those before it |
| `PooledRuns.ExclusiveKept` | include/http_session_pooled.hpp:66-94 | no connection is ever idle and held, held twice, or held and being returned |
| `PooledRuns.NoLeakKept` | include/http_session_pooled.hpp:81-94 | an open connection is always idle, held by a session or on its way back |
| `PooledRuns.ReleasedOnceKept` | include/http_session_pooled.hpp:81-94 | every grant of a connection to a session is answered by exactly one release of that connection before the next grant, reusable only after a success |
| `PooledRuns.LeavingTable` | include/beast_connection_pool.hpp:243-282 | in any step from a state that keeps the invariant, a connection that leaves the idle table is handed to the acquiring session alive and unexpired, or closed |
| `PooledRuns.IdleAgeBound` | include/beast_connection_pool.hpp:433-462 | if timer steps run at their deadline, no idle connection is ever older than keep-alive plus reap interval |
| `PooledRuns.WaitsStayAhead` | include/beast_connection_pool.hpp:433-436 | in such runs no outstanding wait is ever overdue |
| `SessionLaws.PostMeans` | include/http_session_pooled.hpp:89-92 | a session that ends after it got a connection posts one release of the one it held, for reuse exactly after a response with keep-alive; otherwise that connection is closed by then |
| `SessionLaws.IdleKeptAlive` | include/http_session_pooled.hpp:89-92 | at every point of every careful run each idle connection, or one queued to be, last ended in a response with keep-alive and has been held by nobody since |
| `SessionLaws.RunHosts` | include/http_session_pooled.hpp:58-66 | in every careful run a session with a proxy holds only plain connections to the host and port of the proxy, one without only connections to its own origin |
| `SessionLaws.RunBusy` | include/beast_connection_pool.hpp:248-249 | in every careful run what a session is using is marked busy |
| `SessionLaws.StageEntered` | include/http_session_pooled.hpp:70-76 | the stages follow one another as CONNECT written, its answer read, handshake, request written, response read; without a tunnel the request comes first |
| `SessionLaws.TunnelBeforeRequest` | include/http_session_pooled.hpp:96-201 | before a request goes out through a tunnel, on that same connection the CONNECT was written, its answer read and the handshake done, in this order |
| `SessionLaws.NoTunnelStages` | include/http_session_pooled.hpp:72-76 | without a tunnel there is only writing and reading |
| `SessionLaws.EndsWith` | include/http_session_pooled.hpp:83-87 | which code a session ends with in which stage: 0 exactly for a response, 1 without a connection, 2 to 8 as listed there |
| `SessionLaws.CanGoOn` | include/http_session_pooled.hpp:144-201 | a session using a connection can go on to its next stage |
| `SessionLaws.CanRespond` | include/http_session_pooled.hpp:237-246 | it can get its response, with either keep-alive |
| `SessionLaws.CanFail` | include/http_session_pooled.hpp:144-246 | it can fail in every stage with every code of that stage |
| `CollectParallel.StepKeeps` | include/io_monad.hpp:1327-1361 | every atomic step of every callback keeps the protocol invariant: the counter counts the callbacks not counted down, a filled slot holds its item's value, one winner raises the flag |
| `CollectParallel.ParallelDelivery` | include/io_monad.hpp:1311-1363 | in every interleaving at most one delivery and no read of an empty slot; exactly one once all callbacks are over; Ok only with all values in item order, Err only with the error of a failed item |
| `CollectParallel.NothingAfterSuccess` | include/io_monad.hpp:1348-1359 | a success is delivered only when every callback is over |
| `CollectProgress.ParallelEnds` | include/io_monad.hpp:1311-1363 | no run is longer than six atomic steps an item; one that can go no further has delivered exactly once, the values if all items succeeded and otherwise the error of one that failed |
| `CollectProgress.DeliveredBy` | include/io_monad.hpp:1333-1341 | a delivered error is that of a callback that has entered and is over |
| `CollectProgress.LateIsSilent` | include/io_monad.hpp:1331 | a callback that comes after the flag is up stores, counts and delivers nothing |
| `CollectProgress.AllInFlight` | include/io_monad.hpp:1327-1330 | all items can be in flight at once |
| `CollectProgress.ResultsEnd` | include/io_monad.hpp:1476-1518 | collect_result_parallel: no run is longer than four steps an item, and one that can go no further has delivered every result |
| `CollectResults.ResultsDelivery` | include/io_monad.hpp:1476-1518 | collect_result_parallel: in every interleaving at most one delivery, of every item's own result in item order, and it has happened exactly when all callbacks are over |
| `CollectResults.RunSimulated` | include/io_monad.hpp:1476-1518 | the flagless protocol is simulated by the flagged one over items that all succeed |
| `CollectBounded.CollectIo` | include/io_monad.hpp:1258-1298 | sequential collection delivers the first error or all values, running nothing after the first failure |
| `CollectBounded.SequentialMeaning` | include/io_monad.hpp:1251-1256 | a success iff all items succeed; otherwise the error of the first that fails |
| `CollectBounded.MakeBatches` | include/io_monad.hpp:1383-1397 | the batching loop cuts the items into consecutive chunks of the given size |
| `Pieces.ChunksMeaning` | include/io_monad.hpp:1386-1397 | chunks are non-empty, all but the last full, and joined they are the items |
| `CollectBounded.Join` | include/io_monad.hpp:1399-1414 | joining the batches' values keeps their order |
| `CollectBounded.ChunkRunKeeps` | include/io_monad.hpp:1373-1415 | in every interleaving of the chunked run: chunks before the current one all succeeded with their values kept, and whatever is delivered is right |
| `CollectBounded.EarlierOver` | include/io_monad.hpp:1399-1414 | a chunk that delivered its values has nothing left to run |
| `BoundedRuns.SerialRunKeeps` | include/io_monad.hpp:1267-1296 | collect_io step by step: only the item after the values so far is running, and what is delivered is the first error or all values |
| `BoundedRuns.BoundedAgrees` | include/io_monad.hpp:1373-1415 | for every bound, 0 and 1 included: Ok is delivered exactly when all items succeed, with their values in order, as the sequential run does; an error comes from the first chunk that has one |
| `BoundedRuns.BoundedOnce` | include/io_monad.hpp:1373-1415 | for every bound at most one delivery, and exactly one when all that was started is over |
| `BoundedRuns.BoundedInFlight` | include/io_monad.hpp:1371-1397 | for every bound, in every state of every run, the items started and not over, of all chunks together, are at most max(1, bound) |
| `CollectProgress.SerialEnds` | include/io_monad.hpp:1267-1296 | collect_io: at most one call back an item, and when nothing runs it has delivered the sequential outcome |
| `CollectProgress.ChunkedEnds` | include/io_monad.hpp:1373-1415 | no chunked run is longer than six steps an item, and one that can go no further has delivered exactly once |
| `Polling.PollWithState` | include/io_monad_poll_with_state.hpp:80-217 | the attempt loop, its errors and its throwing hooks, against the recursive specification |
| `Polling.PollIf` | include/io_monad.hpp:422-531 | the attempt loop with its own extra wait, against its specification |
| `Polling.RetryExponentialIf` | include/io_monad.hpp:323-388 | the retry loop with the doubled delay, against its specification |
| `PollingMeaning.JobThrows` | include/io_monad_poll_with_state.hpp:204-213 | a job that throws ends the polling with its message |
| `PollingMeaning.DecideThrows` | include/io_monad_poll_with_state.hpp:121-127 | so does a decision that throws |
| `PollingMeaning.DoneDelivers` | include/io_monad_poll_with_state.hpp:129-152 | done delivers what the attempt called back with |
| `PollingMeaning.FailDelivers` | include/io_monad_poll_with_state.hpp:154-167 | fail delivers the error it names, else that of the attempt, else one that says there was none; never a success |
| `PollingMeaning.RetryGoesOn` | include/io_monad_poll_with_state.hpp:183-187 | a retry with attempts left waits for the delay it names, else the interval, and goes on in the state the decision left; a failed wait is delivered |
| `PollingMeaning.ExhaustionDelivers` | include/io_monad_poll_with_state.hpp:169-181 | a retry on the last attempt delivers what the exhaustion hook returns for its state and result, or its message if it throws |
| `PollingMeaning.RetriesThread` | include/io_monad_poll_with_state.hpp:96-217 | over any number of retries each attempt gets the state the decision before it left, and all waits are as decided |
| `PollingMeaning.ThreeTries` | include/io_monad_poll_with_state.hpp:169-181 | three attempts all retried and a hook with its own error: that error is delivered |
| `PollingMeaning.RetryDelivers` | include/io_monad.hpp:356-384 | retry_exponential_if delivers what the first attempt called back with that succeeds, is not to be retried or is the last allowed, or the error of the first failed wait |
| `PollingMeaning.PollIfDelivers` | include/io_monad.hpp:500-529 | poll_if delivers the first satisfying value, the first error not to be retried or on the last attempt, the error of the first failed wait, or exhaustion |
| `PollingLaws.PollRun` | include/io_monad_poll_with_state.hpp:80-217 | with at least one attempt allowed a run ends at the first attempt that gives a verdict, exhausts the limit or loses its timer: attempts 1..k with k at most the limit, one delivery, and the refusal at the head of do_attempt never reached; otherwise nothing runs |
| `PollingLaws.PollRunOnce` | include/io_monad_poll_with_state.hpp:190-196 | exactly one delivery for every limit; the default-exhausted branch is reached iff the limit is below one |
| `PollingLaws.RetryAgrees` | include/io_monad.hpp:356-384 | retry_exponential_if is the instance of poll_with_state with delays initial*2^(i-1) and limit max(1, limit): same executions, waits and delivery |
| `PollingLaws.RetryRun` | include/io_monad.hpp:356-384 | attempts 1..k, k at most the limit or one, the wait after attempt i is initial*2^(i-1), one delivery |
| `PollingLaws.PollIfAgrees` | include/io_monad.hpp:476-529 | poll_if is an instance of poll_with_state but for one more wait, exactly when nothing ends the polling before the last allowed attempt and that gives an unsatisfying value; the deliveries differ exactly when that wait then fails |
| `PollingLaws.DeliveriesDiffer` | include/io_monad.hpp:500-507 | an input on which they differ: one attempt, an unsatisfying value, a wait that fails |
| `Base64.CharRoundTrip` | src/base64.cpp:44-77 | looking up the character of a sextet gives the sextet back, in both alphabets |
| `Base64.PosOfChar` | src/base64.cpp:55-77 | a character of either alphabet maps below 64 |
| `Base64Forms.AlphabetIs` | src/base64.cpp:44-53 | A to Z, a to z and 0 to 9 in this order, then + and /, or - and _ in the form for URLs (sections 4 and 5 of RFC 4648) |
| `Base64Forms.PadIs` | src/base64.cpp:122 | the padding is =, but . in the form for URLs |
| `Base64Forms.EmittedOnly` | src/base64.cpp:133-164 | only characters of the form asked for are emitted, and padding only at the end in the amount that fills the last group |
| `Base64Forms.SameBits` | src/base64.cpp:141-150 | three bytes and their four sextets are the same 24 bits |
| `Base64Forms.TestVectors` | src/base64.cpp:118-165 | the vectors f, fo, foo and foobar of section 10 of RFC 4648 |
| `Base64Forms.AlphabetsOnly` | src/base64.cpp:55-77 | decoding knows exactly the characters of the two alphabets |
| `Base64Forms.DecodesExactly` | src/base64.cpp:198-249 | a text decodes exactly if no group is a single character and every character looked up, that is up to padding in its group, is of an alphabet |
| `Base64.Encode` | src/base64.cpp:118-165 | the loop with its wrapping 32-bit position, for every input shorter than 2^32 bytes, against the specification |
| `Base64.LoopEndsExactly` | src/base64.cpp:138-162 | with its 32-bit position the loop comes to an end exactly for lengths below 2^32 |
| `Base64.DecodeLoop` | src/base64.cpp:185-252 | the decode loop with its bounds check and its invalid-character error, against the specification |
| `Base64.EncodedLength` | src/base64.cpp:120 | the length is (n+2)/3*4 |
| `Base64.RoundTrip` | src/base64.cpp:118-252 | decoding undoes encoding, for every byte string and both alphabets (sections 4 and 5 of RFC 4648) |
| `Base64.StrippedRoundTrip` | src/base64.cpp:221-246 | also after the trailing padding is stripped |
| `Base64.DecodeConcat` | src/base64.cpp:198-249 | decoding splits at every multiple of four characters, padding in the first part included, and fails with the first failure |
| `Base64.InsertLinebreaks` | src/base64.cpp:79-95 | the in-place insertion loop, against the specification |
| `Base64.BrokenLines` | src/base64.cpp:79-95 | the lines are the text cut every distance characters; removing the breaks restores the text |
| `Base64.BrokenLineLengths` | src/base64.cpp:79-95 | every line but the last has exactly distance characters, the last at most that and at least one |
| `Base64.BrokenRoundTrip` | src/base64.cpp:97-110 | PEM and MIME encodings (and any other line length) decode back with line breaks removed (section 6.8 of RFC 2045) |
| `Placeholders.ExpandEnvInString` | include/simple_data.hpp:401-432 | the one-pass builder is the left-to-right rewrite with its own substitution rule |
| `Placeholders.ReplaceEnvVar` | src/json_util.cpp:228-274 | the in-place edit, which may grow its buffer, terminates because what lies behind the position shrinks, and is the same rewrite with its own rule |
| `PlaceholderMeaning.PlainToken` | include/simple_data.hpp:409-415 | a token without :- is a name without a default |
| `PlaceholderMeaning.DefaultToken` | src/json_util.cpp:244-247 | the first :- parts the name from the default |
| `PlaceholderMeaning.InText` | src/json_util.cpp:233-272 | a placeholder after plain text becomes what its token stands for, the text stays and the rest is treated in the same way |
| `PlaceholderMeaning.DefinedWins` | include/simple_data.hpp:417-418 | a defined variable is replaced by its value, with or without a default, by both passes |
| `PlaceholderMeaning.DefaultUsed` | src/json_util.cpp:262-263 | an undefined one by its default if that is not empty, by both |
| `PlaceholderMeaning.EmptyDefaultParts` | src/json_util.cpp:262-268 | with an empty default the builder drops it and the rewrite keeps it |
| `PlaceholderMeaning.UndefinedStands` | include/simple_data.hpp:421-423 | without a default it stands, in both |
| `PlaceholderMeaning.NeverClosed` | src/json_util.cpp:236-237 | an opening that is never closed is copied with all that follows it |
| `PlaceholderMeaning.LookupOrder` | src/json_util.cpp:255-261 | the command line wins, then a non-empty environment value, then the properties |
| `PlaceholderMeaning.PortDefined` | src/json_util.cpp:244-259 | a defined PORT with a default: the defined value is used |
| `Placeholders.RewritesAgree` | src/json_util.cpp:254-268 | for the same lookup the two agree exactly when no undefined variable with an empty default is met |
| `TwoPasses.PassExact` | src/json_util.cpp:228-274 | a pass changes nothing exactly when it replaces nothing, if no replacement has more dollar signs than its token |
| `TwoPasses.OwnPlaceholderStands` | src/json_util.cpp:270-271 | without that a variable whose value is its own placeholder is replaced and nothing changes |
| `TwoPasses.PipelineExact` | include/simple_data.hpp:401-432 | whatever the first pass put in, the second changes nothing exactly when it can look up none of the placeholders now in the text and none has a default |
| `TwoPasses.TokensAfter` | include/simple_data.hpp:401-432 | after a pass that puts in only inert text (not empty, not starting with {, no $) the placeholders are exactly those left standing, in order |
| `TwoPasses.SecondPass` | src/json_util.cpp:228-274 | after inert text was put in, the second pass changes nothing exactly when it replaces none of what was left standing |
| `TwoPasses.ExpandThenReplace` | include/http_client_config_provider.hpp:271-278 | the two passes as the HTTP client configuration runs them, with the real lookup order: the second does nothing exactly when the properties define none of the variables left standing |
| `TwoPasses.EmptySubstitutionGlues` | include/simple_data.hpp:417-420 | wherever something empty stands between $ and {NAME}, a placeholder forms that the text did not have |
| `Placeholders.ExpandedNotLonger` | src/json_util.cpp:262-268 | the builder's output is never longer, and shorter whenever an undefined variable with an empty default is met |
| `ConfigMerge.DeepMerge` | include/simple_data.hpp:360-380 | the key loop and its recursion, against the specification |
| `ConfigMerge.MergeByPath` | include/simple_data.hpp:360-380 | exactly what stands at every path after a merge: source leaves win, destination leaves survive unless defined or cut off, nothing else appears |
| `ConfigMerge.CutOffMeaning` | include/simple_data.hpp:366-378 | a path is cut off iff a proper prefix of it is a non-object |
| `ConfigMerge.MergeAgain` | include/simple_data.hpp:360-380 | merging a layer again changes nothing |
| `ConfigMerge.MergeAssociative` | include/simple_data.hpp:360-380 | grouping does not matter exactly when wherever the layers have an object, a non-object and an object at one path, the last covers the first |
| `ConfigMerge.CoveredVanishes` | include/simple_data.hpp:360-380 | a layer disappears under another iff the other defines or cuts off all of it |
| `ConfigMerge.FoldGroups` | include/simple_data.hpp:511-516 | layers that agree on which paths are objects may be merged in any grouping |
| `ConfigMerge.FoldLastAgain` | include/simple_data.hpp:511-516 | reading the last layer twice changes nothing |
| `ConfigMerge.SecondPassOverTree` | src/json_util.cpp:277-319 | over a whole JSON tree a pass only turns the strings true and false into booleans exactly when it replaces nothing |
| `ConfigMerge.BothPassesOverTree` | src/json_util.cpp:277-319 | over a whole JSON tree, after inert text was put in, the second pass does no more than that exactly when its rule replaces nothing left standing |
| `ConfigTree.CoercedMeaning` | src/json_util.cpp:302-308 | the strings true and false become the booleans they read as, any other string stays |
| `ConfigTree.ReplacedAndCoerced` | src/json_util.cpp:297-308 | also when a string reads so only after its placeholder was replaced, by a value or by a default |
| `ConfigTree.ExpandedAt` | include/simple_data.hpp:434-448 | expanding keeps the shape of the tree, and what stands at a path is expanded by itself |
| `ConfigTree.SubstitutedAt` | src/json_util.cpp:277-319 | so does substituting |
| `ConfigTree.LeavesTreated` | src/json_util.cpp:288-318 | strings are rewritten, arrays treated item by item, all else stays |
| `EnvFile.ParseEnvFile` | include/env_file_parser.hpp:39-107 | the line loop: later assignments overwrite earlier ones |
| `EnvFile.ScanLine` | include/env_file_parser.hpp:42-54 | carriage return, blanks, comments and the export prefix of one line |
| `EnvFile.ScanAssignment` | include/env_file_parser.hpp:56-102 | key, the += form, quoted and unquoted values of one line |
| `EnvFile.ScanQuoted` | include/env_file_parser.hpp:77-93 | the escape-aware quote scanner |
| `EnvFile.QuotedBack` | include/env_file_parser.hpp:80-93 | scanning an escaped value gives the value back, whatever follows the quote |
| `EnvFile.ParsedKey` | include/env_file_parser.hpp:56-71 | a parsed key is empty or free of blanks and =, and does not start with # |
| `EnvFile.PrintedWord` | include/env_file_parser.hpp:56-71 | a printed word comes back less one + at its end |
| `EnvFile.LineRoundTrip` | include/env_file_parser.hpp:41-105 | a printed line comes back iff the key is legal, for every value and either quote |
| `EnvFile.FileRoundTrip` | include/env_file_parser.hpp:41-105 | a printed list of pairs parses to their assignments in order, the last of a repeated key standing |
| `EnvFile.MapRoundTrip` | include/env_file_parser.hpp:41-105 | every map of legal keys to newline-free values comes back, in whatever order it is printed |
| `EnvLines.BareLine` | include/env_file_parser.hpp:42-99 | KEY=value # note and export KEY=value, with blanks wherever they may stand and with either line ending: the key is assigned the bare value |
| `EnvLines.QuotedLine` | include/env_file_parser.hpp:42-93 | the same for a quoted value with anything behind the closing quote |
| `EnvLines.BareValue` | include/env_file_parser.hpp:95-98 | an unquoted value ends before a comment, less the blanks there |
| `EnvLines.SilentLine` | include/env_file_parser.hpp:42-44 | blank lines and comments say nothing |
| `EnvLines.NoAssignment` | include/env_file_parser.hpp:65-69 | nor does a word that no = follows |
| `EnvLines.PlusDropped` | include/env_file_parser.hpp:71 | one plus at the end of a key is dropped |
| `RateLimiter.Limiter.RemoveOlderThan300s` | include/misc_util.hpp:75-88 | exactly the users idle for more than 300 whole seconds go |
| `RateLimiter.Limiter.AllowRequest` | include/misc_util.hpp:97-118 | the answer and the whole new table: eviction, first request, refill by whole seconds, and the charge, denied requests included |
| `RateLimiter.CountKeepsBooks` | include/misc_util.hpp:97-118 | one request of anyone keeps a user's books: tokens in hand plus what was allowed stay within one bucket per residence plus the refill |
| `RateLimiter.ThroughputBound` | include/misc_util.hpp:63-118 | over any run, consumeRate*(allowed-m) < m*maxTokens + refillRate*T with m at most 1 + floor(T/301s) residences; nothing is allowed before the first |
| `RateLimiter.OneResidence` | include/misc_util.hpp:63-118 | a user seen for less than 301 seconds has one residence, and for one residence consumeRate*(allowed-1) < maxTokens + refillRate*T |
| `RateWindows.WindowBound` | include/misc_util.hpp:63-118 | for every window of every run: what a user is allowed from one of its requests on costs less than a bucket for the window and for each new entry, plus the refill of the window and one second, one request a bucket aside |
| `RateWindows.ServedCapped` | include/misc_util.hpp:69-70 | no entry ever holds more than a bucket |
| `RateWindows.FullAgain` | include/misc_util.hpp:68-72 | after a quiet time that refills a bucket a resident has exactly one |
| `RateWindows.BurstExactly` | include/misc_util.hpp:97-118 | of any burst exactly those requests are allowed before which the bucket, charged for each earlier one, is not empty |
| `RateDebt.Isolation` | include/misc_util.hpp:75-118 | what a user is allowed depends on its own requests only, whoever else is served or evicted in between |
| `RateDebt.AllowedExactly` | include/misc_util.hpp:63-117 | a user in the table is allowed exactly when its tokens and the refill of the whole seconds since its stamp are positive together |
| `RateDebt.DeniedExactly` | include/misc_util.hpp:63-117 | a resident is denied all along exactly when the refills never catch up with the charges, for any times of asking |
| `RateDebt.SteadyPaceStarves` | include/misc_util.hpp:114-117 | a denied user that goes on asking every g whole seconds (1 to 300) is denied for ever exactly when g*refillRate is at most consumeRate, because denials are charged |
| `RateDebt.PaceSlowEnough` | include/misc_util.hpp:114-117 | otherwise it is allowed within a number of requests known from its tokens |
| `RateDebt.ImpatientAmongOthers` | include/misc_util.hpp:97-118 | the same among the requests of any other users |
| `RateDebt.StarvingRun` | include/misc_util.hpp:97-118 | a run: one token, one a second, asked twice in the first second and then every second, for as long as one likes, allows one request |
| `RateDebt.AbsenceRestores` | include/misc_util.hpp:75-106 | whoever stays away for 301 seconds is allowed again |
| `ProxyRotation.ProxyPool.Next` | include/proxy_pool.hpp:85-106 | the call returns the first entry in cyclic order not blacklisted when looked at, or nothing; index, list and blacklist afterwards |
| `ProxyRotation.ProxyPool.MergeEntries` | include/proxy_pool.hpp:51-73 | the seen-set loop gives the merged list; the index is unchanged and stays in range |
| `ProxyRotation.ProxyPool.ReplaceEntries` | include/proxy_pool.hpp:44-49 | the new list, index zero, the blacklist kept |
| `ProxyRotation.ProxyPool.Ban` | include/proxy_pool.hpp:108-116 | the entry expires after the timeout; list and index stay |
| `ProxyRotation.ProxyPool.CleanExpired` | include/proxy_pool.hpp:142-154 | exactly the expired entries go |
| `ProxyRotation.FirstTry` | include/proxy_pool.hpp:91-101 | the first try not refused: every earlier one is |
| `ProxyRotation.CleaningIsSilent` | include/proxy_pool.hpp:136-154 | cleaning never changes the answer of a later look |
| `ProxyRotation.CleanedExactly` | include/proxy_pool.hpp:142-154 | exactly the expired entries are forgotten |
| `ProxyRotation.BanLasts` | include/proxy_pool.hpp:111-112 | a ban lasts for its timeout and concerns nobody else |
| `ProxyRotation.FruitlessRound` | include/proxy_pool.hpp:91-105 | a call that finds nothing leaves the index where it was |
| `ProxyRotation.NextIsHonest` | include/proxy_pool.hpp:85-106 | nothing is returned only if every entry was blacklisted when the call began, always if all are when it ends; what is returned is not blacklisted when the call ends |
| `ProxyRotation.CyclicOrder` | include/proxy_pool.hpp:85-106 | while nothing expires, call t returns the eligible position number (rank + t) mod m |
| `ProxyRotation.EachOncePerRound` | include/proxy_pool.hpp:85-106 | any m consecutive calls return each of the m eligible positions exactly once |
| `ProxyRotation.EveryEligibleOnce` | include/proxy_pool.hpp:85-106 | the same in terms of the list alone: every eligible position is returned exactly once in as many calls as there are eligible positions |
| `ProxyRotation.MergedHolds` | include/proxy_pool.hpp:51-67 | the merged list holds exactly the entries of both |
| `ProxyRotation.MergedLonger` | include/proxy_pool.hpp:51-67 | the old list is a prefix of the merged one |
| `ProxyRotation.MergedAddsOnce` | include/proxy_pool.hpp:61-65 | nothing added repeats an old or a new entry |
| `ProxyRotation.MergedInOrder` | include/proxy_pool.hpp:61-65 | new entries keep the order of their first occurrence |
| `ProxyRotation.MergedTwice` | include/proxy_pool.hpp:51-67 | merging two lists one after the other is merging them joined |
| `ProxyRotation.MergedAgain` | include/proxy_pool.hpp:51-67 | merging the same entries again changes nothing |
| `ProxyRotation.MergeKeepsRotation` | include/proxy_pool.hpp:67-72 | eligible entries keep their place in the cycle, newcomers stand behind them, and the next one due is the same |

## Left out

- Sockets, TLS, DNS, HTTP parsing, proxies' replies: choices of the environment (success, error code, keep-alive, a connection dying).
- The stream kind of a connection: after a tunnel is upgraded it no longer matches the scheme of its origin, and nothing is claimed about it.
- A pool with `max_idle_per_origin` of zero: `release` reads the front of an empty deque there (`PoolInvariant.FrontThereExactly`), so at least one is required.
- A session run again before its earlier run is done: two acquires would then race for one field. A session is run again only when done.
- The request and the parser a session keeps from an earlier run.
- Several clock readings in one strand step: the source reads the clock in every expiry test, at each stamp and when the timer is set; the model takes one reading a step. If a step lasts longer, the age bound grows by that time.
- Null entries in the idle deques: the pool never files one, so the deques hold connections; a null passed to `release` is modelled.
- The order in which hash maps are walked: which of several largest deques the global cap shortens is left open by the model, so the proofs hold for every choice.
- `async_request` as code of its own: in `PooledSessions` it is a session without a tunnel, with the same release discipline.
- `collect_result_io`, `all_ok_io`, `zip_io`, `map`, `then`, timeout and delay combinators: short sequential loops or one-branch facts.
- Exceptions from user callbacks in `collect_*`, `poll_if` and `retry_exponential_if`; those of the hooks of `poll_with_state` are modelled.
- Memory: shared and weak pointers of the IO lambdas, the deferred cleanup of `poll_if`; a step is assumed alive while its callback is pending.
- Polling.RetryExponentialIf: does not model the overflow of 64-bit milliseconds, delays are unbounded.
- RateLimiter.Limiter.AllowRequest: does not model overflow of int, tokens are unbounded; readings are positive, because a zero reading is the mark of a first request.
- RateLimiter.ThroughputBound: speaks of non-negative rates and a positive bucket.
- ProxyRotation.ProxyPool.Next: does not model that the returned pointer keeps its list alive; it returns the entry.
- Base64.Encode: requires an input shorter than 2^32, because on longer ones the loop does not end (`Base64.LoopEndsExactly`).
- Base64.InsertLinebreaks: requires a positive distance, as all callers pass.
- Placeholders.ReplaceEnvVar: does not model that `getenv` and `c_str` stop at a NUL character; names, values and texts have none.
- ConfigMerge.DeepMerge: does not model the order of keys in an object, nor doubles beyond an opaque scalar.
- ConfigMerge.BothPassesOverTree: does not model command-line parsing, it takes the two rules as given.
- TwoPasses.PassExact: speaks of replacements with no more dollar signs than their token; for looked-up values without any, this always holds.
- RateDebt.SteadyPaceStarves: speaks of whole seconds; `DeniedExactly` of any times.
- EnvFile.ParseEnvFile: starts where the lines have been read; opening the file and its error are left out.
- YAML conversion, file discovery, logging, thread start and stop, backoff, the in-flight counter and the task deduplicator: small or foreign next to the rest.
