# A verified model of nyro

nyro is a Go cache library: one `Cache` interface over many backends, with stampede protection in
`GetOrSet`. This project models the parts where it is hard to be right and proves what they keep.

## What is modelled

**The single-loader protocol** (`protocol.dfy` and the modules that build on it). A call reads the
cache; on a miss it joins the one flight its process runs for that key; the flight takes a leased lock,
reads again, runs the loader under a heartbeat, writes back and releases; a flight that finds the lock
taken polls. The model is a step machine over one server table, a clock, and any number of processes,
calls and flights. Every remote command is one atomic step and anything may happen in between: other
processes' steps, time, external writes and deletes, a wipe, an extension that lands after its heartbeat
was cancelled. A cancelled caller abandons its flight or a flight fails; a crashed process simply takes no
further step. `exclusion.dfy` proves mutual exclusion by lease and that stale owners are harmless,
`loader_bound.dfy` bounds how often a loader starts, `provenance.dfy` says where returned values come
from and `outcomes.dfy` what every call gets, `two_step.dfy` relates the read-then-write locks to the atomic ones, `heartbeat.dfy` settles when
the lease stays alive and `prompt_heartbeat.dfy` what that means for whole runs, `wait.dfy` how long
losers poll, `backends.dfy` what Redis and Memcached make of a lock duration, `surreal_locks.dfy` what
becomes of locks that never end. Redis, Dragonfly and KeyDB share
the Redis cart. Valkey runs the same machine without singleflight (give each of its calls a process
number of its own) and aborts on an errored second read (the move `SecondGetAbort`). SurrealDB runs it
with leases that never end and two-step lock commands; it takes every read error for a miss
(carts/surrealdb/surrealdb.go:168-171, the turn `FirstGetErrorAsMiss`) and every create error for a taken
lock (carts/surrealdb/surrealdb.go:300-304, the move `AcquireErrorAsTaken`). Its Clear
(carts/surrealdb/surrealdb.go:257-264) deletes data records only, so it is a number of external deletes
there and not the step `Wipe`, which on Redis, Valkey and Memcached takes the locks as well.

**The carts as code** (`redis_cart.dfy`, `valkey_cart.dfy`, `memcached_cart.dfy`, `pebble_cart.dfy`).
Classes whose methods change the server or database in place, each proved against a specification
function, and lemmas about those functions. What a Set leaves behind is stated in a reader's terms: until
when Get answers, and that what it gives decodes to the value that was stored.

**The in-memory cache** (`memory.dfy`, `memory_flights.dfy`). A class over the entry map; a command
language that specifies it; and the concurrent flights of `GetOrSet`.

**Keys and values** (`keys.dfy`, `redis_adapter.dfy`, `typed.dfy`). The string form of a key, the
translation to it and back, and a typed value's way through JSON and float64. A float64 is printed as
the shortest decimal that reads back as it (`decimals.dfy`, `doubles.dfy`), which for large integers is
not the integer itself.

## Assumptions

- Tokens are fresh: no token is drawn twice. Randomness itself is not modelled.
- No application key is the lock key of another application key (`Keyspace.NoCollision`); locks share the
  keyspace with data. `Exclusion.CollisionDestroysLock` shows why.
- `FLUSHALL` takes the locks with it; exclusion is stated for leases granted since the last wipe.
  `Exclusion.WipeBreaksExclusion` shows why.
- An entry is live up to and including its deadline. `EXPIRE` with 0 deletes the key. The Redis client
  sends `SET` and `SETNX` with whole seconds if it can and else in milliseconds, and `EXPIRE` (as a client
  command) in whole seconds, at least one; the scripts get the seconds they are given.
- The clock of the server is the only one in the protocol; instants and durations are integers in
  nanoseconds, and each operation reads the clock once.
- Each server command is atomic and lands before its reply is dealt with. The exceptions are modelled: an
  acquire whose reply is lost, an extension that is late, and a failed write-back or release that never
  landed.

## What turned out false, and exactly when it holds

- *The heartbeat protects any lock.* `ExtendLock` renews for whole seconds, so below one second the first
  renewal deletes the lock (carts/redis/redis_test.go:508-545 relies on the opposite with a TTL of 200 ms).
  `Heartbeat.LeaseKeptExactly` gives the exact timing condition, `Backends.BeatKeepsLockExactly` the TTL,
  and `PromptHeartbeat.LostLeasesBounded` shows what the condition gives in every run of the protocol.
- *`LockMaxWait` bounds the wait.* Zero means no limit; `Wait.WaitingBoundedExactly`. When the budget runs
  out the caller gets a not-found error, not the time-out text of carts/redis/redis.go:517-518, which only
  a context deadline produces.
- *`SetMulti` is repeated `Set`.* On Redis the two round durations differently; `RedisCart.SetMultiEqualsSets`
  gives the durations for which they agree.
- *A hit equals a miss.* Only if every integer in the value is the shortest decimal of the float64 it
  reads as; `Typed.HitEqualsMiss`, with `Doubles.SurvivesExactly` for the single integer. All integers up to
  2^53 and all 64-bit ones with at most 15 significant digits are; 2^56 is a float64 and is not
  (`Typed.PowerOfTwoDrifts`), 72057594037927940 is not a float64 and is (`Typed.NonDoubleReturns`), and the
  smallest int64 cannot be decoded any more (`Typed.SmallestInt64Fails`).
- *`GetMulti` returns every live key.* Of keys with one string form only the last is answered; all are
  exactly when no two keys asked for share a live form; `RedisAdapter.PointwiseExactly`.
- *A memory miss means the key was absent.* The entry may be replaced between the read and the expiry
  check; `Memory.MissCanBeFalse`. `Memory.FalseMissExactly` says for which command sequences.
- *Two-step release and extension do what the scripts do.* Exactly when the second half meets no other
  owner's lock (release) or still its own (extension); `TwoStep.ReleaseWriteExactly`,
  `TwoStep.ExtendWriteExactly`.
- *Two-step locks keep flights apart.* A run keeps the invariant behind mutual exclusion exactly when no
  second half goes through while another flight for the key is within its lease;
  `TwoStep.RunKeepsInvExactly`. And a late extension can revive a released lock;
  `TwoStep.LateRewriteRevivesLock`.
- *A SurrealDB lock expires, and carries its owner's token.* It never expires, and late extensions change
  its token. What holds instead: two flights for one key are never both in their sections, with no condition
  on the second halves (`SurrealLocks.ExclusionWithoutExpiry`); a record goes only by the delete of the
  flight in the section (`SurrealLocks.RecordRemovedExactly`); and a record left without such a flight
  blocks its key for good (`SurrealLocks.StuckForGood`), after a failed release
  (`SurrealLocks.FailedReleaseSticks`), a lost reply (`SurrealLocks.LostAcquireSticks`) or a stolen token
  (`SurrealLocks.StolenTokenSticks`).
- *Memcached honours every expiration.* From one second to thirty days; `MemcachedExpiry.FaithfulExactly`.
- *Pebble's `Exists` depends on writes alone.* A `Get` changes it; `PebbleCart.GetChangesExists`. The
  delete on read can also hit a record written meanwhile; `PebbleCart.LateDeletionExactly`.
- docs/architecture.md:28 and :142 describe the memory adapter as a `sync.Map` stopped by a context; the
  code has a locked map and a close-once channel, and the model follows the code.

## Model

| member | source | states |
|---|---|---|
| Exclusion.StepKeepsInv | carts/redis/redis.go:312-441 | Every step of every process keeps: tokens distinct, one active flight per process and key, and each flight within its lease backed by exactly its own lock on the server |
| Exclusion.MutualExclusion | carts/redis/redis.go:312-346 | In every reachable world, of the flights between acquire and release for one key at most one owns the lock, and any that is within its lease does own it |
| Exclusion.OneFlightPerProcess | carts/redis/redis.go:366-380 | Singleflight: a process never runs two unfinished flights for one key |
| Exclusion.LossIsFinal | carts/redis/redis.go:34-48 | A flight that lost or released its lock never owns it again, whatever any process does |
| Exclusion.LateExtensionIsInert | carts/redis/redis.go:421-426 | After its release, or any loss of the lock, a flight's late extension or release leaves the server exactly as it was |
| Exclusion.OtherLocksUntouched | carts/redis/redis.go:34-48 | No move of a flight removes, shortens, prolongs or overwrites another flight's live lock |
| Exclusion.WipeBreaksExclusion | carts/redis/redis.go:280-286 | After FLUSHALL another flight gets an overlapping lease |
| Exclusion.CollisionDestroysLock | carts/redis/redis.go:501-503 | Storing under a data key that is some key's lock key takes the lock from an owner within its lease |
| LoaderBound.StepPays | carts/redis/redis.go:349-441 | One step of any process: a loader start is paid for by a potential or by one recorded reason |
| LoaderBound.LoaderStartsBounded | carts/redis/redis.go:349-441 | Over every run, loader starts of a key <= 1 + disappearances of its value + failed or nil loads + failed write-backs + leases lost before write-back + errored second reads; without the 1 if the value is there at the start |
| LoaderBound.LostOnlyToTime | carts/redis/redis.go:34-48 | A flight that has not written back loses its lock only to time, to a wipe, or to its own extension by zero seconds |
| LoaderBound.LoadedOnce | carts/redis/redis.go:349-441 | With none of these events a key is loaded at most once by all processes together, and not at all if it is there |
| Provenance.ReturnedValuesWitnessed | carts/redis/redis.go:356-380 | Every returned value was live under its key during the call, or during the flight the call joined, or was loaded by that flight |
| Provenance.SharedOutcome | carts/redis/redis.go:366-380 | All calls that receive a flight's outcome receive the same one |
| Provenance.OnlyLoadedValuesWritten | carts/redis/redis.go:425-440 | A flight changes a data entry only by writing, under its own key, a value its own loader returned |
| Provenance.FailedLoadNeverWrites | carts/redis/redis.go:428-434 | A flight whose load fails or gives nil never writes the cache and does not load again |
| Outcomes.LoadDelivered | carts/redis/redis.go:425-440 | In every run, what the loader returned is the outcome of the flight when it is done, and what every call has that received from it, however the write-back and the release went |
| Outcomes.SecondGetDelivered | carts/redis/redis.go:412-414 | So is a value that is live when the flight reads again under the lock |
| Outcomes.PollDelivered | carts/redis/redis.go:455-461 | A value that is live at a poll ends the wait, and the flight and its calls get it |
| Outcomes.FirstGetDelivered | carts/redis/redis.go:356-364 | A call whose first read meets a live value returns it with no flight; one that meets none goes on |
| Outcomes.FailureExactly | carts/redis/redis.go:394-434 | A flight has failed if and only if its acquire, its loader, its wait or an aborted read has |
| Outcomes.CallFailureHasCause | carts/redis/redis.go:361-379 | A call fails only with its flight, by an error of its own first read, or by being given up |
| Outcomes.WriteBackServes | carts/redis/redis.go:436-438 | What a flight writes back is the value its loader returned, readable exactly as long as its expiration says |
| Outcomes.AcquireExactly | carts/redis/redis.go:394-401 | Whoever asks for a lock gets and owns it if and only if nobody has it; otherwise it waits and the server is unchanged |
| Outcomes.LoaderHasHeartbeat | carts/redis/redis.go:421-426 | No loader runs without a heartbeat having been started beside it |
| Outcomes.FlightGoesOn | carts/redis/redis.go:383-441 | Every unfinished flight has a next move |
| Outcomes.CallGoesOn | carts/redis/redis.go:366-380 | In every run, a call that missed can join an unfinished flight, and one that joined a finished flight can receive |
| Outcomes.EnvironmentActs | carts/redis/redis.go:181-188 | External writes, deletes, wipes and time, by what a reader sees of any key at any later instant |
| Heartbeat.LeaseKeptExactly | carts/redis/redis.go:312-346 | The lease is alive at every instant of every execution with the given delay and tick lateness if and only if delay + interval + lateness <= ttl in the client's milliseconds and interval + lateness <= ttl in whole seconds |
| Durations.SetDurationExactly | carts/redis/redis.go:174 | SET and SETNX get the whole milliseconds of a duration, one for anything shorter |
| Durations.ExpireDurationExactly | carts/redis/redis.go:257 | EXPIRE gets the whole seconds, one for anything shorter |
| Heartbeat.DefaultIntervalSuffices | carts/redis/redis.go:416-419 | With the interval ttl/3 and ttl >= 1s, a delay up to ttl/3 and lateness up to ttl/6 keep the lease |
| Heartbeat.SubSecondLeaseNotKept | carts/redis/redis.go:340 | Below one second no timing keeps the lease |
| Heartbeat.FirstBeatGivesUpLock | carts/redis/redis.go:42-48 | With ttl < 1s the first extension deletes the lock and no later one brings it back; with ttl >= 1s the lock is alive after it |
| Heartbeat.RefusedForGood | carts/redis/redis.go:491-496 | After one refused extension all later ones would be refused, so stopping the heartbeat loses nothing |
| Heartbeat.BeatsTouchOnlyLock | carts/redis/redis.go:337-346 | Any number of extensions leaves all other keys alone and never changes the lock's token |
| PromptHeartbeat.GrantTracked | carts/redis/redis.go:394-426 | In every run without a wipe, the lease of a flight in its section is that of its last acquire or extension |
| PromptHeartbeat.ScheduleIsPrompt | carts/redis/redis.go:483-490 | Between any landing of the ticker's schedule and the next, no more time has passed since the last grant than interval + lateness, plus the delay before the first |
| PromptHeartbeat.LostLeasesBounded | carts/redis/redis.go:421-426 | With safe timing and no wipe, every run loses leases before the write-back at most once for each flight that was late: that crashed, or whose extensions or whose write-back did not come in time |
| PromptHeartbeat.OnTimeIsPrompt | carts/redis/redis.go:483-490 | A flight whose own extensions in the run have landed on the ticker's schedule, the next one not being overdue, is not late |
| PromptHeartbeat.NoLeaseLost | carts/redis/redis.go:421-426 | With safe timing and no wipe, if the extensions of every flight land on schedule and its write-back too comes before the next extension is overdue, no lease is lost before its write-back |
| PromptHeartbeat.LoaderStartsBoundedByTiming | carts/redis/redis.go:349-441 | Then loader starts of a key <= 1 + disappearances + failed or nil loads + failed write-backs + errored second reads + late flights |
| TwoStep.ReleaseWriteExactly | carts/memcached/memcached.go:253-274 | The second half of a release does what the atomic script does if and only if it meets no other owner's lock |
| TwoStep.ExtendWriteExactly | carts/memcached/memcached.go:277-299 | The second half of an extension does what the atomic script does if and only if the lock is still its own |
| TwoStep.CleanRunRefines | carts/memcached/memcached.go:253-299 | Every run whose second halves are clean is a run of the atomic protocol |
| TwoStep.Step2KeepsInvExactly | carts/memcached/memcached.go:265-298 | From a good state, a step of the two-step machine leads to a good state if and only if it is not a second half that goes through while another flight for the key is within its lease |
| TwoStep.RunKeepsInvExactly | carts/memcached/memcached.go:253-299 | A whole run is good throughout if and only if it has no such step |
| TwoStep.MutualExclusionIfNoneMet | carts/memcached/memcached.go:336-395 | If no second half meets another owner's live lock, flights within their leases own their locks and two for one key are never both within their leases |
| TwoStep.ReleaseBetweenHalves | carts/memcached/memcached.go:281-298 | A release between the two halves of an extension leaves a rewrite under way for a finished flight and a free lock |
| TwoStep.LateRewriteRevivesLock | carts/memcached/memcached.go:293-298 | That rewrite re-creates the lock under the dead token, where the atomic script would change nothing |
| TwoStep.UncleanReleaseBreaksExclusion | carts/memcached/memcached.go:265-273 | A delete that hits another owner's lock lets a third flight into an overlapping lease |
| TwoStep.UncleanExtensionBreaksExclusion | carts/memcached/memcached.go:293-298 | A rewrite that hits another owner's lock puts two flights within their leases at once |
| Backends.BeatKeepsLockExactly | carts/redis/redis.go:478-499 | A heartbeat step of the Redis cart keeps the lock if and only if the lock TTL is at least one second |
| Backends.MemcachedConfigAdmissible | carts/memcached/memcached.go:234-238 | From one second to thirty days Memcached's locks have real leases of whole seconds, as TwoStep assumes |
| SurrealLocks.Step2KeepsSafe | carts/surrealdb/surrealdb.go:287-356 | With locks that never end, every step but a wipe of the lock table, all second halves included, keeps: a flight in its section has a lock record and has the section of its key to itself |
| SurrealLocks.ExclusionWithoutExpiry | carts/surrealdb/surrealdb.go:287-356 | In every run of the two-step machine two flights for one key are never both between acquire and release |
| SurrealLocks.RecordRemovedExactly | carts/surrealdb/surrealdb.go:325-328 | A step removes a lock record if and only if it is the delete of the flight that has the section of its key |
| SurrealLocks.RecordStays | carts/surrealdb/surrealdb.go:287-307 | In every run a record stays, whatever anybody does and however much time passes, until such a delete |
| SurrealLocks.RecordBlocks | carts/surrealdb/surrealdb.go:299-304 | While there is a record, every flight that asks for the lock is sent to wait |
| SurrealLocks.StuckForGood | carts/surrealdb/surrealdb.go:287-356 | In every run, a record whose key has no flight in its section stays for good, and no flight for the key gets into its section again |
| SurrealLocks.FailedReleaseSticks | carts/surrealdb/surrealdb.go:310-331 | A release that does not reach the server leaves such a record |
| SurrealLocks.LostAcquireSticks | carts/surrealdb/surrealdb.go:300-304 | So does a create that lands while its reply is lost |
| SurrealLocks.StolenTokenSticks | carts/surrealdb/surrealdb.go:320-323 | So does a late extension of a flight that is gone: the flight in the section then finds a foreign token and leaves the record |
| MemcachedExpiry.FaithfulExactly | carts/memcached/memcached.go:136-140 | For every duration, negative and overflowing ones included, and whatever the platform makes of an overflow: the server honours it, less at most a fraction of a second, if and only if it is from one second to thirty days |
| MemcachedExpiry.OutOfRangeExactly | carts/memcached/memcached.go:136-140 | Outside the range: already expired for minus a second and below, never ending from there to one second, and beyond thirty days an absolute Unix time, which is in the past or ends the entry then |
| MemcachedCart.Cart.Get | carts/memcached/memcached.go:112-128 | Hit, miss, text that cannot be decoded, and server error |
| MemcachedCart.Cart.Set | carts/memcached/memcached.go:130-147 | An error exactly for what cannot be encoded or does not reach the server; else Get answers until the deadline, with what decodes to the value |
| MemcachedCart.Cart.AcquireLock | carts/memcached/memcached.go:230-250 | ADD: SETNX with the lease Memcached makes of the TTL; an unreachable server changes nothing and is an error |
| MemcachedCart.Cart.ReleaseLock | carts/memcached/memcached.go:253-274 | Nothing happens unless the lock is its own; then the delete equals the script's exactly when it meets nobody else's lock, and every other key stays as found; errors of either command |
| MemcachedCart.Cart.ExtendLock | carts/memcached/memcached.go:277-299 | True exactly when the read finds its token and both commands succeed; then the rewrite equals the script's exactly when the lock is still its own; an error exactly when a command it sends fails |
| MemcachedCart.Cart.SetMulti | carts/memcached/memcached.go:189-197 | Exactly the items before the first one that fails, in encoding or at the server, are stored, each answered by Get with what decodes to its value; success means all |
| Wait.WaitForCache | carts/redis/redis.go:443-476 | Polls go on exactly as long as they miss within the budget and the context; the first that does not decides the result, and an error that wraps the end of the context is reported as that |
| Wait.HitStops | carts/redis/redis.go:455-461 | The first poll that hits ends the wait at once and its value is the answer |
| Wait.FoundWasHit | carts/redis/redis.go:471-475 | A value is the answer only when the last poll hit it |
| Wait.ErrorStops | carts/redis/redis.go:463-473 | The first error other than a miss ends the wait at once, as a time-out or a cancellation if it wraps one |
| Wait.MissIsFollowed | carts/redis/redis.go:443-476 | A miss is followed by the end of the context, by the end of the budget, or by another poll after exactly the Get, the sleep and the oversleep; each end with its error |
| Wait.IntervalGrows | carts/redis/redis.go:445-449 | The interval starts at the initial one and is multiplied after each poll, rounded down, up to the maximum |
| Wait.EverySleepPossible | carts/redis/redis.go:449 | Every whole sleep from half the interval to one and a half times the interval can be drawn |
| Wait.PollsStartInTime | carts/redis/redis.go:447 | With a budget, every poll that the loop makes starts within it, but for its own timer's oversleep |
| Wait.PollsBounded | carts/redis/redis.go:444-449 | With a budget and a multiplier of at least 1, the loop makes at most 1 + LockMaxWait / (half of the smaller interval) polls |
| Wait.WaitingBoundedExactly | carts/redis/redis.go:447 | With a multiplier of at least 1 the number of polls is bounded if and only if the budget is positive |
| RedisCart.Cart.Get | carts/redis/redis.go:149-165 | Hit, miss and error; text that is not JSON is returned as it is |
| RedisCart.Cart.Set | carts/redis/redis.go:168-179 | An error exactly for what cannot be encoded or does not reach the server, with the server as it was; else Get answers until the client's rounding of the expiration, with what decodes to the value |
| RedisCart.Cart.GetMulti | carts/redis/redis.go:201-232 | The positional MGET loop returns exactly the decoded values of the live keys asked for |
| RedisCart.Cart.SetMulti | carts/redis/redis.go:235-264 | All or nothing up to MSET; if an EXPIRE fails, every key holds its new value and exactly the keys processed so far carry the TTL; Get then answers each key with what decodes to its value, exactly so long |
| RedisCart.Cart.AcquireLock | carts/redis/redis.go:312-322 | Acquired exactly when no live lock is there; otherwise the server is unchanged |
| RedisCart.Cart.ReleaseLock | carts/redis/redis.go:325-333 | Deletes the lock exactly when it carries the token |
| RedisCart.Cart.RunFlight | carts/redis/redis.go:383-441 | One flight with its heartbeat, or its wait when the lock is taken: result, an error for a failed or nil load, whether the loader ran, the written entry, a free lock afterwards, or the lock as the heartbeat left it when the release is lost |
| RedisCart.Cart.LoadUnderLock | carts/redis/redis.go:421-440 | The loader with its heartbeat and the write-back: result, what is written, that Get then answers with what decodes to the loaded value, and the lock as the heartbeat leaves it |
| RedisCart.Cart.GetOrSetWithLock | carts/redis/redis.go:349-380 | A hit or an error of the first read ends the call; a taken lock gives the result of the wait, the value itself when a poll hits; a value stored by another process before the lock is taken is returned without loading; after a load Get answers with what decodes to the loaded value; a failed or nil load leaves the observable store as it was |
| RedisCart.Cart.StartLockHeartbeat | carts/redis/redis.go:478-499 | The loop that stops at the first refusal leaves the server as the full list of extensions would |
| RedisCart.SetMultiEqualsSets | carts/redis/redis.go:235-264 | Without errors SetMulti equals repeated Set, in any key order, if and only if the expiration is zero or whole seconds (up to what the client drops) |
| RedisCart.GetMultiEqualsGets | carts/redis/redis.go:201-232 | GetMulti equals the fold of single Gets, in any order and with any repetitions of the keys |
| RedisCart.StoredValueDecodes | carts/redis/redis.go:149-179 | A typed value, set and read back before expiry, decodes to itself if and only if each of its integers is the shortest decimal of its float64 |
| ValkeyCart.Cart.SetMulti | carts/valkey/valkey.go:232-244 | Items are set in turn up to the first failure; on success Get answers each with what decodes to its value; no empty string is ever stored |
| ValkeyCart.Cart.Set | carts/valkey/valkey.go:150-162 | An error exactly for what cannot be encoded, a TTL below a second or a server error; else Get answers for the whole seconds of the TTL with what decodes to the value |
| ValkeyCart.Cart.GetMulti | carts/valkey/valkey.go:192-229 | Exactly the live keys whose string is not empty, or the error of MGET |
| ValkeyCart.AgreesExactly | carts/valkey/valkey.go:215-218 | GetMulti equals the pointwise Get if and only if no key asked for holds a live empty string |
| ValkeyCart.RenderedIsNotEmpty | carts/valkey/valkey.go:150-156 | JSON text is never the empty string |
| ValkeyCart.ReachableAgrees | carts/valkey/valkey.go:124-162 | GetMulti agrees with Get in every state that the cart's own commands, lock commands included, reach from an empty server |
| Memory.SweepsInvisible | adapters/memory/adapter.go:91-156 | Command sequences that differ only in sweeps give the same replies and the same final reads |
| Memory.ReadsLastWrite | adapters/memory/adapter.go:110-140 | Every read gives the last value written to the key in the whole history, as long as it has not expired |
| Memory.RepliesExplained | adapters/memory/adapter.go:110-207 | Every reply of Get, Exists, GetMulti and GetOrSet is what the history of writes alone gives |
| Memory.LivesExactly | adapters/memory/adapter.go:122-140 | A value stored by Set, SetMulti or a loading GetOrSet is found, by every way of reading, exactly for the requested TTL, else the default if there is one, else for good |
| Memory.HitLinearizable | adapters/memory/adapter.go:110-120 | A hit of the two-step Get was live at the instant the entry was read |
| Memory.MissLinearizable | adapters/memory/adapter.go:110-120 | A miss is linearizable at the read or at the check unless the entry was replaced in between |
| Memory.MissCanBeFalse | adapters/memory/adapter.go:135-137 | A replaced entry can make Get miss a key that was live throughout |
| Memory.FalseMissExactly | adapters/memory/adapter.go:110-120 | For every sequence of commands from an empty cache, a miss between two instants is false if and only if the last write before the first has expired by the second while at every instant in between the last write by then has not |
| Memory.FalseMissWasOverwritten | adapters/memory/adapter.go:135-137 | No miss is false unless a Set or SetMulti of the key came between the two steps |
| Memory.Adapter.EvictExpired | adapters/memory/adapter.go:91-100 | The in-place sweep leaves exactly the live entries, and as many as are live |
| Memory.Adapter.Set | adapters/memory/adapter.go:122-140 | Zero TTL takes the default; what is still not positive means no expiry |
| Memory.Adapter.GetOrSet | adapters/memory/adapter.go:171-195 | A live value is returned unchanged; a loaded one is stored; a failed load stores nothing |
| Memory.Adapter.GetMulti | adapters/memory/adapter.go:197-207 | The loop answers each key as one Get does, under the key as given |
| Memory.Adapter.SetMulti | adapters/memory/adapter.go:209-217 | All items are put in some order |
| Memory.Adapter.DeleteMulti | adapters/memory/adapter.go:219-227 | Exactly the listed string forms are gone |
| MemoryFlights.LoaderStartsBounded | adapters/memory/adapter.go:171-195 | Over every interleaving, loader starts of a key <= 1 + disappearances of its value + failed loads + false misses of the second read |
| MemoryFlights.OutcomeIsFinal | adapters/memory/adapter.go:178-194 | A caller stays with the flight it joined, and what that flight returned never changes |
| MemoryFlights.ValueDelivered | adapters/memory/adapter.go:178-194 | What the loader returns, or what the second read finds, is what the flight returns, over every interleaving |
| MemoryFlights.LoadEnds | adapters/memory/adapter.go:184-191 | A loaded value is readable once stored; a failed load is the outcome and leaves the cache alone |
| PebbleCart.Cart.Get | carts/pebble/pebble.go:48-73 | The answer by expiry and origin; only an expired record asked for is deleted; a read error changes nothing |
| PebbleCart.Cart.Set | carts/pebble/pebble.go:76-92 | An error exactly for what cannot be encoded or fails to be written; else Get answers until the deadline, with what decodes to the value |
| PebbleCart.Cart.GetMulti | carts/pebble/pebble.go:119-136 | All hits, or the first error that is not a miss with the reads before it done |
| PebbleCart.Cart.SetMulti | carts/pebble/pebble.go:139-164 | All items, each answered by Get with what decodes to its value, or none: one that cannot be encoded, or a failed commit, changes nothing |
| PebbleCart.Cart.DeleteMulti | carts/pebble/pebble.go:167-182 | Exactly the listed keys are gone, or nothing |
| PebbleCart.Cart.Clear | carts/pebble/pebble.go:185-211 | Exactly the iterated keys are deleted; what others add meanwhile under new keys stays |
| PebbleCart.DeletionOnReadInvisible | carts/pebble/pebble.go:64-70 | Over every history, deleting on read changes no answer of Get and can only turn Exists false for an expired record |
| PebbleCart.LateDeletionExactly | carts/pebble/pebble.go:64-70 | A delete that comes late is invisible if and only if the key was not written anew |
| PebbleCart.ExistsAgainstGet | carts/pebble/pebble.go:104-116 | A hit implies Exists, no Exists implies a miss, and a miss of an existing key is an expired one |
| PebbleCart.GetMultiEqualsGets | carts/pebble/pebble.go:119-136 | GetMulti equals the fold of single Gets |
| PebbleCart.GetChangesExists | carts/pebble/pebble.go:104-116 | A Get can change what Exists says |
| PebbleCart.BatchEqualsSets | carts/pebble/pebble.go:139-164 | A committed batch equals one Set after the other, in any order |
| Typed.HitEqualsMiss | pkg/decode.go:39-64 | Over all bool, integer, string, list and record types: a hit decodes to what a miss gives if and only if every integer in the value is the shortest decimal of its float64 |
| Typed.StoredReadsBack | pkg/decode.go:39-64 | Exactly what JSON can encode can be stored; a typed value then decodes to itself if and only if its integers survive float64, and a generic one is itself if and only if its numbers are float64 values |
| Typed.ReadIsDouble | carts/redis/redis.go:159-164 | Every value that comes out of the cache is of that kind |
| Typed.DecodeExactly | pkg/decode.go:39-64 | Decode of any value at any type: itself at its own type, an error for what cannot be encoded, otherwise success if and only if its JSON fits the type, always with a value of the type; nil gives the zero value |
| Typed.DecodesExactly | pkg/decode.go:59-61 | Unmarshalling succeeds if and only if the JSON fits the type; null gives the zero value |
| Typed.FieldsDecode | pkg/decode.go:59-61 | Absent fields are zero, present ones are what they decode to |
| Typed.RegeneratedDecodes | pkg/decode.go:52-63 | The value after encoding, generic decoding and encoding again decodes to itself under the same condition, by induction on the type |
| Typed.SmallIntegersSurvive | typed_cache.go:70-82 | That is so for values of any shape whose integers are at most 2^53 in magnitude, which covers the interoperable range of section 6 of RFC 8259 |
| Typed.HitOnInteger | pkg/decode.go:52-63 | A hit on any value of any Go integer type gives its printed float64, or a type error when that leaves the type |
| Doubles.SurvivesExactly | pkg/decode.go:54 | An integer comes back from float64 if and only if no decimal that reads as the same float64 ends in more zeros and none that ends in as many is nearer |
| Doubles.PrintedIsShortest | pkg/decode.go:54 | What is printed for a float64 is that shortest decimal, and reads back as the same float64 |
| Doubles.RoundIsNearest | carts/redis/redis.go:159-164 | No float64 is nearer to an integer than the one it reads as |
| Doubles.RoundTiesToEven | carts/redis/redis.go:159-164 | A tie goes to the even multiple of the spacing |
| Doubles.PrintReadsBackExactly | pkg/decode.go:54-59 | What is printed reads back as the same number if and only if that is a float64 |
| Doubles.ExactRange | typed_cache.go:70-82 | Every integer up to 2^53 in magnitude is a float64 and comes back |
| Doubles.FifteenDigitsSurvive | typed_cache.go:70-82 | So does every 64-bit integer, signed or unsigned, with at most 15 significant digits |
| Typed.PowerOfTwoDrifts | pkg/decode.go:54-59 | 2^56 is a float64 and comes back as 72057594037927940 on a hit |
| Typed.SmallestInt64Fails | pkg/decode.go:54-61 | -2^63 is a float64 and a hit on it is a type error |
| Typed.NonDoubleReturns | pkg/decode.go:54-59 | 72057594037927940 is not a float64 and comes back on a hit |
| Typed.LargeIntegerDrifts | typed_cache.go:70-82 | 2^53 + 1 comes back as 2^53 on a hit |
| Typed.DecodeMulti | typed_cache.go:86-102 | All values decoded under their keys, or the error of one that fails |
| Keys.ParseFormatInt | internal/keyutil/keyutil.go:14-33 | Parsing undoes decimal printing, and what is printed is canonical: no leading zero, no minus sign before zero |
| Keys.FormatParseInt | internal/keyutil/keyutil.go:14-33 | Printing undoes parsing exactly on canonical numerals |
| Keys.IntegerKeysFaithful | internal/keyutil/keyutil.go:10-39 | Integer keys of any width have one string form if and only if they are the same number |
| Keys.TextCollidesWithInteger | internal/keyutil/keyutil.go:12-33 | A text key collides with an integer key exactly when it is a canonical numeral that parses to that number |
| Keys.TextKeysFaithful | internal/keyutil/keyutil.go:12-13 | A text key is its own string form, so distinct text keys never collide |
| Keys.CollideExactly | internal/keyutil/keyutil.go:10-39 | Any two keys collide if and only if they are the same number, show the same text, or one shows the canonical numeral of the other |
| RedisAdapter.Adapter.GetMulti | adapters/redis/adapter.go:131-156 | The live values, each under the last key asked for with its string form |
| RedisAdapter.Adapter.SetMulti | adapters/redis/adapter.go:158-171 | Each string form is stored with the value of a key of that form, and answered with what decodes to it for the effective TTL; a refused MSET changes nothing |
| RedisAdapter.EffectiveTTL | adapters/redis/adapter.go:210-220 | The requested TTL before the configured one before the default; always positive |
| RedisAdapter.PointwiseExactly | adapters/redis/adapter.go:131-156 | GetMulti answers exactly the live ones of the keys asked for if and only if no two of them share a live form; every answer is that of a single Get |
| RedisAdapter.TextKeysAnswered | adapters/redis/adapter.go:131-156 | Of text keys GetMulti answers every live one, with what the cart holds under that very text |
| RedisAdapter.TextKeysStored | adapters/redis/adapter.go:158-171 | Of text keys SetMulti stores every one under that very text |
| RedisAdapter.CollidingKeyIsDropped | adapters/redis/adapter.go:139-153 | The earlier of two colliding keys gets no answer |
| RedisAdapter.ItemsWithoutCollisions | adapters/redis/adapter.go:158-171 | Without colliding keys every value is stored as given |

## Left out

- The concurrent protocol is a state machine on values, not a class with goroutines; the carts as classes show one call at a time with what others do in between handed in.
- Commands that time out at the client and land later, except extensions and acquires; retries inside the clients.
- Clock differences between processes and the server, a system clock that is set back, and the server's own rounding of the clock to milliseconds.
- Valkey's waiting path: its AcquireLock reports a taken lock as an error (carts/valkey/valkey.go:297-302), so losers may fail instead of waiting; the client is not part of this model.
- SurrealDB's data operations, and whether its update re-creates a record deleted meanwhile: TwoStep takes the update as a plain write.
- carts/olric/olric.go: correctness rests on the locks of the DMap, which is not part of this model.
- The other adapters (Dragonfly, KeyDB, Valkey, Memcached, SurrealDB, Pebble): the key translation is modelled once, for Redis.
- Delete, DeleteMulti, Exists and Clear of the Redis cart, DeleteMulti of the adapters, GetMulti of Memcached: they add only easy members.
- Memory.MissLinearizable: sufficient condition only, for any states; Memory.FalseMissExactly has the exact one for states that commands lead to.
- Wait: the multiplier and the draw are reals where the backoff library uses float64; the bounds on polls assume a multiplier of at least 1, and multipliers that are not positive are excluded.
- Typed: numbers are integers (no fractions, and no magnitudes from 10^21 on, which print with exponents), records have exactly their declared fields (no omitempty, tags or unexported fields), strings are valid UTF-8, and a loader's panic is not modelled.
- Keys: keys that are neither text nor integers appear only through their printed form; the memory adapter's use of `%v` agrees with it for the modelled keys.
- MemcachedExpiry: above 2^23 seconds a Duration's float64 seconds may round a fraction up to the next whole second; that is far outside the honoured range.
- Negative expirations and negative lock TTLs of the remote carts, and a renewal interval that is not positive, on which Go's ticker panics.
- The randomness of lock tokens; the GC ticker and Close of the memory adapter; configuration, options, registry, client delegation, statistics, health checks, logging and error texts.
