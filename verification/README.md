# A verified model of the proxy's scheduler, registry, heartbeats and register payload

The proxy lends the network addresses of phones and other devices to SOCKS5 users. A user is bound to one
device for a while (a *lease*), a device serves one user at a time, and everything happens concurrently:
requests, devices coming and going, heartbeats, a background sweeper. This project models the parts where
that has to go right and proves what they promise.

**The scheduler.** `LeaseTable` is the lease table as a value, with its two indexes, lazy expiry, reference
counts and handles. `Leases` is the same table as the program keeps it: a class with two maps onto shared,
mutable lease objects, whose loops delete from the map they range over, in any order. Every method is proved
to do exactly what the value-level operation says. `PickProgram` is `Scheduler.Pick` as a program of steps,
one for each locked region; `Scheduler` is the method itself, run while other goroutines may change
everything between two of its calls, and its ghost trace is proved to follow those steps. `Interleaving`
puts any number of such streams, the dial path, the sweeper, heartbeats and a nondecreasing clock into one
transition system. About all its runs, `Exclusivity`, `Ownership`, `FreshPicks`, `Accounting`, `Retry`,
`Stickiness` and `Misses` prove that lifetimes of rival leases are disjoint, that connected streams hold their own user's
lease on their own device, that every grant is justified by what its Pick saw, that reference counts are
conserved, that `ErrDeviceTaken` always has a culprit, that users stay on their device, and when the sticky
path comes too late. `Weaving` proves that the steps of a stream in a run are a trace of the method `Pick`,
and that a trace with events in between is a run. `LazyExpiry` proves that the sweeper cannot be
observed, but for AcquireRef on a lease that has run out.
`Selector`, `Sorting`, `Pool`, `Freshness`, `Username`, `Text` and `Credentials` are what feeds the scheduler;
`Dial` is the callback and the wrapped connection around it.

**The session registry.** `Registry`: last registration wins, over every order of registrations, late
cleanups and closings. `Watchdog`: when a silent connection is closed.

**The heartbeat statistics.** `Heartbeat`: a window of samples shifted in place, a tumbling loss count, and
the loop that drives both, proved against the history of outcomes.

**The register payload.** `Base64`, `Pkcs7`, `AesCbc` and `Payload`: the device's encoder and the admin
service's decoder, which are separate programs, are inverse to each other.

Times are integers, in nanoseconds unless a name says otherwise, and the clock never goes back. Where a
64-bit result can wrap around, the model wraps it (`Int64.Wrap64`).

## Where the code departs from its comments

The model follows the code.

- `AcquireRef` does not panic on an evicted lease (server/scheduler/lease.go:84) but returns a no-op handle,
  and `Pick` does not pick again, as the comment at server/scheduler/lease.go:89-91 says it will: it returns
  that device (server/scheduler/scheduler.go:146). `MissWitness.MissHappens` is a run in which this happens,
  `Misses.MissIff` says exactly when it does, and `Misses.MissBeforeExpiryIff` that before the lease runs out
  it takes an acquisition by the same user in between. So no claim is made that the device is leased at the
  moment `Pick` returns; the claims are about the locked steps.
- Not every public method checks expiry (server/scheduler/lease.go:41): `AcquireRef` hands out a real handle
  on a lease that has run out but still lingers. `MissWitness.LateHappens` is a run in which a Pick gets one,
  `Misses.MissIff` says exactly when a real handle is handed out, and `LazyExpiry.AcquireRefSeesSweep` that
  this is how the sweeper can be noticed.
- The clamp of the duration (server/scheduler/username.go:100-106) comes after a 64-bit product that can
  wrap around. The result is always between 5 and 90 minutes, but a request of more than 153722867 minutes
  may be held for 5 minutes instead of 90, or for a time that is not a whole number of minutes
  (`Username.WindowExactIff`, `Username.WindowOverflows`, `Username.FractionalWindow`). That is why parsing after printing is the identity
  exactly when the window is a whole number of minutes.
- The freshness stamp of a device is not always advanced (server/scheduler/pool.go:63-64). Heartbeats reach
  the pool on goroutines of their own (server/hub/device.go:188-192), and one with an older receive time moves the
  stamp back, which can make an eligible device stale (`Freshness.StampGoesBack`). The stamp never goes back
  exactly if the heartbeats carry their times in order (`Freshness.NeverBackIff`).
- The average round-trip time (client/core/heartbeat.go:87-94) is the true one exactly when the sum of the
  window fits in 64 bits (`Heartbeat.AverageExactIff`).

## Model

| member | source | states |
|---|---|---|
| `LeaseTable.Evict` | server/scheduler/lease.go:174-182 | keeps the two indexes mutually inverse; exactly the given lease leaves the table, and an index entry that has moved on to another lease is left alone |
| `LeaseTable.GetActive` | server/scheduler/lease.go:64-81 | returns the user's lease exactly if there is an unexpired one (dead at exactly `Expires`); the unexpired view does not change |
| `LeaseTable.AcquireRef` | server/scheduler/lease.go:83-96 | a real handle if the lease is still in the table, the no-op handle otherwise; no lease enters or leaves |
| `LeaseTable.Vacate` | server/scheduler/lease.go:107-116 | after the evictions of Acquire neither the user nor the device has a lease, and exactly the leases of that user or device are gone |
| `LeaseTable.Acquire` | server/scheduler/lease.go:98-128 | refuses exactly if another user holds the device unexpired, changing nothing; otherwise adds exactly the new lease with one open handle and drops exactly the user's own lease and the one on the device |
| `LeaseTable.TakenMeans` | server/scheduler/lease.go:107-113 | a device is refused exactly if some lease in the table is on it, is another user's, and has not reached its expiry |
| `LeaseTable.HeldDeviceIDs` | server/scheduler/lease.go:130-149 | the result is exactly the devices an Acquire by this user would be refused; the unexpired view does not change |
| `LeaseTable.Sweep` | server/scheduler/lease.go:151-165 | keeps the indexes consistent and the unexpired view unchanged |
| `LeaseTable.Close` | server/scheduler/lease.go:193-206 | keeps the indexes consistent; closing a handle never frees a lease |
| `Leases.StickyLeases.constructor` | server/scheduler/lease.go:52-62 | a fresh table is empty and valid |
| `Leases.StickyLeases.EvictLocked` | server/scheduler/lease.go:174-182 | on the maps of shared lease objects, does what `LeaseTable.Evict` says |
| `Leases.StickyLeases.GetActive` | server/scheduler/lease.go:64-81 | the class method agrees with the value-level operation, result and state, at the time it reads |
| `Leases.StickyLeases.AcquireRef` | server/scheduler/lease.go:83-96 | likewise; a real handle is new, open and counted |
| `Leases.StickyLeases.Acquire` | server/scheduler/lease.go:98-128 | likewise, with up to two clock readings, the second no earlier than the first; None stands for ErrDeviceTaken |
| `Leases.StickyLeases.HeldDeviceIDs` | server/scheduler/lease.go:130-149 | deleting while ranging, in any order the map may yield, gives the order-independent result |
| `Leases.StickyLeases.Sweep` | server/scheduler/lease.go:151-165 | deleting while ranging, in any order, gives the order-independent table and count |
| `Leases.StickyLeases.Size` | server/scheduler/lease.go:167-172 | the number of leases in the table |
| `Leases.LeaseHandle.Close` | server/scheduler/lease.go:193-206 | decrements the count of the shared lease object once and only once, as `LeaseTable.Close` says |
| `Leases.VisitDevice` | server/scheduler/lease.go:137-147 | after looking at any set of devices plus one more, exactly the expired leases on them are gone |
| `Leases.VisitUser` | server/scheduler/lease.go:158-163 | the same for ranging over the users |
| `Leases.WithoutStale` | server/scheduler/lease.go:130-165 | whichever index was ranged over, what remains is the table with exactly the expired leases dropped |
| `RefCounts.CloseAlwaysDecrements` | server/scheduler/lease.go:202-204 | in a table with exact counts, closing an open handle finds a positive count, so the guard never saves a decrement |
| `RefCounts.CountedClose` | server/scheduler/lease.go:192-206 | Close keeps every count equal to the number of open handles, and a second Close changes nothing |
| `RefCounts.CountedAcquire` | server/scheduler/lease.go:103-128 | Acquire keeps every count equal to the number of open handles |
| `RefCounts.CountedAcquireRef` | server/scheduler/lease.go:85-96 | AcquireRef keeps every count equal to the number of open handles |
| `RefCounts.TotalIsOpen` | server/scheduler/lease.go:185-206 | in a table with exact counts, they add up to the number of open handles |
| `LazyExpiry.PerformAgrees` | server/scheduler/lease.go:41-43 | on two tables with the same unexpired view every call but Sweep gives the same answer and leaves tables with the same unexpired view |
| `LazyExpiry.SweepsUnobservable` | server/scheduler/lease.go:41-43 | dropping all Sweep calls from any legal run changes no answer |
| `LazyExpiry.SweepPlacementUnobservable` | server/scheduler/lease.go:41-43 | runs that differ only in where Sweep is called, from tables with the same unexpired view, give the same answers |
| `LazyExpiry.AcquireRefSeesSweep` | server/scheduler/lease.go:85-96 | the exception: AcquireRef tells a swept table from an unswept one exactly if the lease has run out and still lingers |
| `LazyExpiry.SweepCountsDrop` | server/scheduler/lease.go:151-165 | Sweep leaves exactly the unexpired leases, and its count is the drop in Size |
| `PickProgram.SoloReuses` | server/scheduler/scheduler.go:143-147 | an uninterrupted Pick of a user with an unexpired lease on an online device returns that device with a real handle, and only adds the reference |
| `PickProgram.SoloRefines` | server/scheduler/scheduler.go:127-190 | with nothing to reuse, an uninterrupted Pick fails with ErrNoDevice exactly if no device is online, of the country, fresh and not held by others, leaving the unexpired leases alone; otherwise it returns the one with the least (score, id) and installs exactly that lease |
| `PickProgram.SoloRefusals` | server/scheduler/scheduler.go:128-139 | a cancelled context, a bad username and an empty online set are refused in that order, changing nothing |
| `PickProgram.SoloFresh` | server/scheduler/scheduler.go:156-190 | uninterrupted, the device chosen is not taken when Acquire looks, so the retry is never entered |
| `Scheduler.Scheduler.Pick` | server/scheduler/scheduler.go:127-190 | with anything happening between its calls, Pick returns what its trace of steps ends with, each step being exactly one of PickProgram's on the shared state it finds, in clock order; the handle it returns is open |
| `Scheduler.Scheduler.Attempt` | server/scheduler/scheduler.go:157-187 | one attempt: what is held is read, a device is chosen and its Acquire tried; ErrDeviceTaken leads to the retry the first time and is final the second |
| `Scheduler.Scheduler.Reuse` | server/scheduler/scheduler.go:143-153 | the sticky path is taken exactly if the active lease's device is in the online set, even if the lease has been evicted since |
| `Scheduler.UndisturbedIsSolo` | server/scheduler/scheduler.go:127-190 | if nothing changed between the calls of a Pick, its result and the state it leaves are those of the uninterrupted program |
| `Scheduler.UndisturbedPickRefines` | server/scheduler/scheduler.go:127-190 | so such a Pick of a parsed username returns the leased online device, or the best usable one, and fails only when there is neither |
| `Dial.DialAndRequest` | server/main.go:319-348 | with a scheduler, a handle returned by Pick is closed if the dial fails and held by exactly one wrapped, still open connection to the picked device if it succeeds; without one, as `DialDirectly` |
| `Dial.DialDirectly` | server/main.go:327-334 | a username that is not blank names the device that is dialed, whatever is online; a blank one means the only device online, and if there is not exactly one, the error says that there is none or lists them |
| `Dial.DialChosen` | server/main.go:339-345 | after a successful Pick: either a wrapped connection that owns the still open handle, or an error with the handle closed |
| `Dial.LeasedConn.Close` | server/scheduler/scheduler.go:210-222 | the first Close closes the connection once and then the handle; every later Close repeats the answer and changes nothing |
| `Interleaving.Effect` | server/scheduler/scheduler.go:127-190 | every event of the whole system either is a successful Acquire and adds exactly one lease, or adds none and drops only expired ones |
| `Interleaving.OkayPreserved` | server/scheduler/lease.go:33-39 | every event keeps the two indexes mutually inverse, and every stream's leases and handles existing |
| `Interleaving.RunExtends` | server/scheduler/scheduler.go:23-25 | every run can be continued by any event that can happen, so the run theorems are about runs of every length |
| `Exclusivity.HistoryAlways` | server/scheduler/lease.go:103-128 | in every reachable state, of two leases on one device or of one user the older had left the table before the newer was made |
| `Exclusivity.LifetimesDisjoint` | server/scheduler/lease.go:103-128 | in every interleaving the lifetimes [created, min(Expires, evicted)) of any two leases on the same device, or of the same user, are disjoint |
| `Exclusivity.HoldsIsActive` | server/scheduler/lease.go:69-81 | the lifetimes are those of the table: a lease is in force now exactly if the table says so |
| `Exclusivity.LeasesImmutable` | server/scheduler/lease.go:19-28 | in every run a lease's user, device, country and expiry never change after its creation |
| `Exclusivity.HoldBound` | server/scheduler/username.go:96-107 | in every run a lease's expiry is 5 to 90 minutes after its creation and is never extended |
| `Accounting.RefcountExact` | server/scheduler/lease.go:184-206 | in every interleaving each lease's count, evicted or not, is the number of its open handles |
| `Accounting.RefcountsConserved` | server/main.go:335-345 | in every interleaving the counts add up to the dials in flight plus the wrapped connections not yet closed that have a real handle |
| `Accounting.AllReleased` | server/scheduler/scheduler.go:119-121 | nothing leaks: once no stream is dialing or connected, every count is zero |
| `Accounting.ClosedForGood` | server/scheduler/lease.go:193-206 | in every run a handle once closed stays closed |
| `Accounting.ReleasedOnce` | server/scheduler/scheduler.go:212-222 | however often and however interleaved connections are closed, at most one event of a run releases a given handle |
| `Retry.RefusalIsOvertaking` | server/scheduler/scheduler.go:168-172 | a refused Acquire of a Pick implies that another user's successful Acquire of that same device fell between this attempt's HeldDeviceIDs and the refusal |
| `Retry.SurfacedErrorOvertakenTwice` | server/scheduler/scheduler.go:168-187 | a Pick that surfaces ErrDeviceTaken was overtaken by two such Acquires, one in the window of each attempt |
| `Retry.LiveEarlier` | server/scheduler/lease.go:174-182 | a lease in the table has been in it ever since it was made |
| `Retry.MadeBy` | server/scheduler/lease.go:118-126 | every lease stems from a successful Acquire step for its user and device |
| `Stickiness.RemovedOnlyByOwnUser` | server/scheduler/lease.go:103-128 | no event but a successful Acquire by the same user can remove an unexpired lease |
| `Stickiness.StaysUntilExpiry` | server/scheduler/lease.go:12-14 | over any run, until it expires, a lease whose user acquires nothing new stays in force with its device and expiry |
| `Stickiness.PicksStick` | server/scheduler/scheduler.go:143-153 | while the leased device stays online and the lease has not run out, every Pick the user starts is bound for that device and a real handle on that lease, whatever scores, country, duration and interleaving; overlapping Picks included |
| `Stickiness.LaterPickGetsLeasedDevice` | server/scheduler/scheduler.go:143-153 | such a Pick, once over, was given the leased device with a real handle on the lease, unless it had been cancelled beforehand |
| `Misses.RemovesExact` | server/scheduler/lease.go:64-182 | which events take a given lease out of the table, exactly: a sweep, the user's GetActive or anyone's HeldDeviceIDs once it has run out, and a granted Acquire by its user or on its device |
| `Misses.LiveUntilRemoved` | server/scheduler/lease.go:174-182 | over any run a lease stays in the table exactly until the first such event, and never comes back |
| `Misses.MissIff` | server/scheduler/scheduler.go:143-147 | in every run, the lease referenced was in force when it was found; Pick returns its device in any case, with the no-op handle exactly if some event in between removed the lease, and otherwise with an open handle on it |
| `Misses.MissCauses` | server/scheduler/lease.go:88-92 | such a removal means that the lease has run out or that the same user acquired another in between, and the latter always is one |
| `Misses.MissBeforeExpiryIff` | server/scheduler/scheduler.go:143-147 | before the lease runs out, the handle is the no-op one exactly if the same user acquired another lease in between; with no such overlap it is an open handle on the lease |
| `MissWitness.MissHappens` | server/scheduler/lease.go:88-92 | for every accepted username that asks for no country, and every device, a run from the initial state in which Pick returns the device with the no-op handle while the table is empty |
| `MissWitness.MissExample` | server/scheduler/lease.go:88-92 | the same with a username spelled out |
| `MissWitness.LateHappens` | server/scheduler/lease.go:85-96 | without the sweep, the same Pick gets an open handle on a lease that has run out |
| `Ownership.OwnedAlways` | server/scheduler/scheduler.go:117-121 | in every run, every stream that dials or is connected with a real handle has it on a lease of its own user on its own device |
| `Ownership.ConnectedByOwnLease` | server/main.go:335-345 | the same for one stream, naming the lease |
| `Ownership.StreamsExclusive` | server/scheduler/lease.go:33-39 | two streams of different users that are connected through one device never have their leases in force at the same time |
| `FreshPicks.GrantJustified` | server/scheduler/scheduler.go:134-187 | in every interleaving a granted device was in the online set its Pick had read, was not held by others when its Pick asked, matched the country and was not stale when it was chosen, and was the best candidate of which all that is true |
| `Weaving.RunIsTrace` | server/scheduler/scheduler.go:127-190 | in every run, all the steps a stream has made since some point of its Pick are a trace of the method, with the shared state around each as the run has it |
| `Weaving.PickIsTrace` | server/scheduler/scheduler.go:127-190 | up to and including its last step, so that the stream goes on with what the trace ends with |
| `Weaving.TraceIsRun` | server/scheduler/scheduler.go:127-190 | conversely a trace of the method, with any events of others in between that leave each step the shared state it was found to start from, is played by a run |
| `Selector.Pick` | server/scheduler/selector.go:62-102 | filtering, scoring, sorting and taking the head returns a candidate of the country, fresh and not held, whose round-trip time plus penalty for loss is least, and whose id is least of those; None exactly if there is no such candidate |
| `Selector.Choice` | server/scheduler/selector.go:30-38 | the declarative choice, defined without an algorithm; None exactly if no candidate is eligible |
| `Selector.ChoiceMeans` | server/scheduler/selector.go:62-102 | the choice over any set of candidates, written out: filter, score, order and tie-break |
| `Selector.BestExists` | server/scheduler/selector.go:95-101 | a nonempty set of candidates has a least one |
| `Selector.BestUnique` | server/scheduler/selector.go:38 | ties are broken completely: any two least candidates have the same id |
| `Selector.LoserIrrelevant` | server/scheduler/selector.go:62-102 | removing a candidate that does not win does not change the choice |
| `Selector.OrderIrrelevant` | server/scheduler/selector.go:62-102 | any permutation of the candidates gives the same choice |
| `Text.LessIff` | server/scheduler/selector.go:99 | the order of ids is decided at the first place where they differ, a proper prefix coming first |
| `Sorting.SortSlice` | server/scheduler/selector.go:95-100 | sorts in place: ordered by the given "less", and a permutation |
| `Pool.DevicePool.Update` | server/scheduler/pool.go:63-92 | each stored field is what the update has or else what was there, statistics count as known from the first metric on, the stamp is the update's or else the clock's; other devices and, for an empty id, all are untouched |
| `Pool.DevicePool.Forget` | server/scheduler/pool.go:94-101 | exactly that device's entry is gone |
| `Pool.OnHeartbeat` | server/main.go:46-69 | the device's stored fields after a heartbeat, one by one: the country of its address if there is a database, an address and it parses, its network type and metrics if it has them, the receive time in milliseconds unless that is the zero time; other devices, and an empty id, change nothing |
| `Pool.DevicePool.Snapshot` | server/scheduler/pool.go:103-148 | strictly sorted by id, and exactly one candidate per online device, or per known device if no online set is given, with exactly the fields stored for it or none, in whatever order the maps are ranged over |
| `Pool.SnapshotOnePerDevice` | server/scheduler/pool.go:107-110 | a device listed online appears exactly once in the snapshot, seen before or not |
| `Pool.PoolAgreesWithHistory` | server/scheduler/pool.go:63-101 | after any sequence of updates and forgets every stored field is the last non-empty value reported since the device was last forgotten |
| `Pool.NoStatsMeansZero` | server/scheduler/pool.go:79-86 | in a snapshot of any history, a candidate without statistics has zero round-trip time and zero loss |
| `Freshness.NeverBackIff` | server/scheduler/pool.go:63-92 | over any history, a device's stamp never goes back while it is known if and only if the times its updates carry are in order |
| `Freshness.StaysEligibleIff` | server/scheduler/pool.go:86-91 | a further heartbeat leaves an eligible device eligible exactly if it reports no other country than the one asked for and its own time is not too old; the latter happens only by putting the stamp back |
| `Freshness.StampGoesBack` | server/scheduler/pool.go:86-91 | two heartbeats in the wrong order after which the stamp is older and an eligible device stale |
| `Username.ParseUsername` | server/scheduler/username.go:64-117 | text without four fields is malformed; otherwise the first field in the order country, minutes, session, user id that does not fit is refused with its own error, and if all fit the token has the user id and session as they stand, the country with small letters made capitals or none, five minutes for less than that, ninety for more, and the minutes in between; it agrees with peeling three fields off the right |
| `Username.ParseAnswers` | server/scheduler/username.go:52-117 | the same of the reference parser, for every way to find four fields in the text |
| `Username.Parse` | server/scheduler/username.go:52-117 | every accepted username has a user id that is not empty and does not start with white space, an upper-case country or none, an eight-character session, and a hold of 5 to 90 minutes, whatever the duration asked for |
| `Username.SegmentsByPeeling` | server/scheduler/username.go:69-81 | the split has at least four pieces exactly if three fields can be peeled off, and names the same user id, country, duration and session |
| `Text.TrimPadded` | server/scheduler/username.go:65 | white space around a text does not change what trimming leaves |
| `Text.TrimSpaceIs` | server/scheduler/username.go:65 | trimming takes white space off both ends and nothing else |
| `Text.SpacesAre` | server/scheduler/username.go:65 | the characters that count as white space, one by one |
| `Text.AtoiIff` | server/scheduler/username.go:96 | a number is an optional sign and at least one digit, in the range of 64 bits, and nothing else is |
| `Text.ValuePlaces` | server/scheduler/username.go:96 | digits are worth their face, times ten for every place to their right |
| `Username.WindowExactIff` | server/scheduler/username.go:96-107 | the hold is the clamp of the minutes asked for exactly if the product does not wrap, or wraps to something past the upper bound |
| `Username.AskingAccepted` | server/scheduler/username.go:64-117 | a username is accepted for every positive 64-bit number of minutes, with the window that number gives |
| `Username.WindowOverflows` | server/scheduler/username.go:100-106 | the first username whose product wraps is accepted and held for five minutes instead of ninety |
| `Username.ParsePrint` | server/scheduler/username.go:52-117 | every well-formed token, underscores in the user id allowed, is parsed back from its printed form, cut to whole minutes |
| `Username.PrintParseRoundTrip` | server/scheduler/username.go:52-117 | printing and parsing is the identity on exactly the tokens with a user id that is not empty, does not start with white space, and a window of whole minutes |
| `Username.ParseIsCanonical` | server/scheduler/username.go:52-117 | parse, print, parse equals parse on exactly the accepted usernames with a window of whole minutes, hence on all that ask for at most 153722867 minutes |
| `Username.FractionalWindow` | server/scheduler/username.go:100-106 | a username for which it does not: 307445740 minutes are held for 326.29 seconds, and its printed form asks for five minutes |
| `Username.AuthKeyInjective` | server/scheduler/username.go:29-36 | over all parsed tokens the key determines user id and session, even if the user id contains a colon |
| `Username.AuthKeyTrimmed` | server/hub/credentials.go:95-99 | the cache's trimming is the identity on the keys of parsed tokens |
| `Credentials.CredentialCache.Refresh` | server/hub/credentials.go:70-84 | an error keeps the snapshot, anything else replaces it whole |
| `Credentials.LoginExact` | server/scheduler/auth.go:30-42 | a login succeeds exactly if the username parses, the password is not blank, and the cache has it under "user_id:session" |
| `Credentials.SameAccount` | server/scheduler/auth.go:17-21 | usernames that differ only in country or duration log in alike and share the lease key; different accounts never share one |
| `Registry.Registry.Put` | server/hub/registry.go:84-91 | the session replaces the one registered, which is closed |
| `Registry.Registry.Remove` | server/hub/registry.go:93-99 | removes the entry exactly if it is still this session |
| `Registry.Registry.OnlineSet` | server/hub/registry.go:38-49 | exactly the registered device ids |
| `Registry.Registry.ListOnline` | server/hub/registry.go:26-36 | the registered device ids in strictly ascending order |
| `Registry.Registry.ResolveDeviceForDial` | server/hub/registry.go:58-82 | the trimmed username if there is one; else the only device online, or the error that says whether there is none or which there are |
| `Registry.Registry.CloseAll` | server/hub/registry.go:109-123 | every registered session is closed, and no entry is removed |
| `Registry.ExactPreserved` | server/hub/registry.go:84-99 | every registration, cleanup and closing keeps the invariant that ties entries to latest registrations |
| `Registry.LastRegistrationWins` | server/hub/device.go:102-105 | over whole runs a device's session is c exactly if c is its latest registration and c's own cleanup has not run; a superseded session is closed unless its own cleanup came first |
| `Registry.LateCleanUpHarmless` | server/hub/device.go:102-105 | the late cleanup of a superseded session changes no entry, so the device stays online with the newer one |
| `Watchdog.Watch` | server/hub/device.go:114-138 | over any heartbeat times, the connection is closed at the first tick, at a third of the timeout each, before which neither the registration nor a heartbeat lies within the timeout, and at no other |
| `Watchdog.LastBeatIs` | server/hub/device.go:114-138 | the time compared with is the registration or a heartbeat, and no heartbeat lies between it and now |
| `Watchdog.ClosedInTime` | server/hub/device.go:117-138 | a connection is closed more than the timeout after its last heartbeat, and at most a third of the timeout later than that |
| `Watchdog.SilenceNoticed` | server/hub/device.go:117-138 | after a silence of the timeout and a third of it, some tick has found the connection stale |
| `Heartbeat.HeartbeatStats.constructor` | client/core/heartbeat.go:29-36 | a new tracker is in the state of an empty history; a window that is not positive becomes 5 |
| `Heartbeat.HeartbeatStats.AckOK` | client/core/heartbeat.go:57-68 | after any number of in-place shifts the samples are the old ones, without the oldest if the window was full, and the new one at the end, negative times counted as zero |
| `Heartbeat.HeartbeatStats.SnapshotForSend` | client/core/heartbeat.go:76-108 | the average exactly if the window is full, the loss rate exactly if the loss window is, which is then reset |
| `Heartbeat.SnapshotFollows` | client/core/heartbeat.go:76-108 | in a state reached by a history, the numbers read are those the history calls for, and lost <= sent <= window |
| `Heartbeat.OutcomeFollows` | client/core/heartbeat.go:50-75 | each further outcome leads to the state of the longer history |
| `Heartbeat.TracksBounded` | client/core/heartbeat.go:20-22 | lost <= sent <= window in every state of a tracker driven by the loop |
| `Heartbeat.HeartbeatLoop` | client/core/run.go:231-267 | every heartbeat carries the average of exactly the last `window` round-trip times once there are that many, and a loss rate exactly before heartbeats window+1, 2*window+1, ..., equal to the share of losses among the preceding window heartbeats; also across reconnections; afterwards the sample j places before the last is the j-th newest acknowledged time; the loop ends at the first failed write or read |
| `Heartbeat.BeatMeans` | client/core/heartbeat.go:76-108 | what a heartbeat carries, counted over the outcomes themselves: the newest acknowledged times, the wrapped sum of them divided with the fraction cut off, and the number not acknowledged |
| `Heartbeat.RttsNewest` | client/core/heartbeat.go:57-68 | an acknowledged time stands as far from the end as there are acknowledged heartbeats after it |
| `Heartbeat.LossesCount` | client/core/heartbeat.go:69-74 | the losses are the heartbeats not acknowledged |
| `Heartbeat.SumOfParts` | client/core/heartbeat.go:88-91 | the sum takes every sample once |
| `Heartbeat.AverageExactIff` | client/core/heartbeat.go:87-94 | the average is the true one rounded down exactly if the sum fits in 64 bits |
| `Heartbeat.AverageBetween` | client/core/heartbeat.go:87-94 | then it lies between the least and the greatest sample |
| `Heartbeat.AverageOverflows` | client/core/heartbeat.go:87-94 | two samples of the greatest value average to -1 |
| `Pkcs7.PadPKCS7` | common/crypto/aescbc/aescbc.go:35-48 | the buffer filled in place holds the text, then 1 to a block of bytes up to a multiple of the block, each of them their number |
| `Pkcs7.UnpadPKCS7` | common/crypto/aescbc/aescbc.go:50-65 | accepts exactly text whose last byte n is 1 to a block and whose last n bytes are all n, and takes those off; the length, the last byte and the padding are refused in that order |
| `Pkcs7.PadIs` | common/crypto/aescbc/aescbc.go:35-48 | padding is determined byte by byte by this description |
| `Pkcs7.PadLength` | common/crypto/aescbc/aescbc.go:38-41 | the pad length is between 1 and the block size and completes a block, so it is never 0 |
| `Pkcs7.PadUnpadIff` | common/crypto/aescbc/aescbc.go:35-65 | unpadding undoes padding exactly if the pad length fits in a byte |
| `Pkcs7.UnpadExact` | common/crypto/aescbc/aescbc.go:35-65 | for block sizes 1 to 255 unpadding returns q exactly on the padded form of q |
| `AesCbc.CbcInverse` | common/crypto/aescbc/aescbc.go:79-82 | chained decryption and encryption are inverse to each other on aligned texts, for every key and initial vector |
| `AesCbc.XorMeans` | common/crypto/aescbc/aescbc.go:80-82 | exclusive or bit by bit, with zero as its unit, every byte its own inverse, and either order |
| `AesCbc.EncryptBlocks` | common/crypto/aescbc/aescbc.go:80-82 | block by block into the buffer: each block of the result is the cipher of the block of the text combined with the block of the result before it, the first with the initial vector |
| `AesCbc.DecryptBlocks` | common/crypto/aescbc/aescbc.go:100-102 | block by block into the buffer: each block of the result is the deciphered block combined with the block of the input before it, the first with the initial vector |
| `AesCbc.NormalizeKey` | common/crypto/aescbc/aescbc.go:22-33 | a key of any length becomes one the cipher accepts, and a key of a proper length stays as it is |
| `AesCbc.Encrypt` | common/crypto/aescbc/aescbc.go:67-84 | fails only if the random source does; otherwise the vector and the chained blocks of the padded text, under the key itself or, if it is not of a proper size, its hash |
| `AesCbc.Decrypt` | common/crypto/aescbc/aescbc.go:86-104 | the short and misaligned cases are errors exactly as stated; otherwise the text whose padded form the chained blocks decipher to, under the same key, if there is one, and an error about the padding if there is none |
| `AesCbc.OpenExact` | common/crypto/aescbc/aescbc.go:67-104 | decryption succeeds with p exactly on what encryption of p under this key and the wire's own vector produces |
| `Base64.DecodeEncode` | client/register/crypto.go:17 | every byte sequence survives base64 |
| `Base64.EncodeSpells` | client/register/crypto.go:17 | every three bytes, or the rest of them, are the 24 bits of four digits of the standard alphabet in order, with `=` in place of digits past the rest, and there is nothing else |
| `Base64.DecodeIff` | admin/handler/register.go:149 | the decoder accepts exactly the encoded form of its result, but for line breaks anywhere and spare bits in the last digit |
| `Base64.ValueIs` | admin/handler/register.go:149 | a byte is a digit exactly if it is in the standard alphabet, and its value is its place there |
| `Base64.WithoutBreaksIs` | admin/handler/register.go:149 | line feeds and carriage returns are left out and nothing else is |
| `Base64.EncodeDecodeIff` | admin/handler/register.go:149 | accepted text is what the encoder would produce exactly if it has no line breaks and no spare bits |
| `Payload.PayloadRoundTrip` | client/register/crypto.go:16-23 | for every key of any length, every initial vector and every byte string, the admin service reads back what the device built |
| `Payload.AcceptedIff` | admin/handler/register.go:148-162 | a payload is accepted exactly if it is base64 of a sealed text that is itself base64 of the result |
| `Payload.AcceptedIsBuilt` | admin/handler/register.go:148-162 | an accepted payload is the sealed form, under this key, of a text for the result, and is exactly what the device would have built if and only if both base64 layers are canonical |

## Left out

- TLS, yamux, TCP dialing and relaying, the SOCKS5 library, NSQ, MongoDB, GeoIP, HTTP and logging: I/O and foreign libraries. `DialThroughDevice` is a step that succeeds or fails; address parsing and the geo database are functions the heartbeat sink is given, and what it publishes is not modelled.
- AES, SHA-256 and randomness: the cipher is any keyed permutation of 16-byte blocks with its inverse, the hash any function to 32 bytes, the initial vector any 16 bytes; whether they are secure is not modelled.
- Mutexes and goroutine scheduling: each locked region is one atomic step. `Scheduler.Elsewhere` stands for whatever runs between two of them.
- Floating point: scores and loss rates are real numbers, so rounding and NaN are not modelled.
- Strings that are not valid UTF-8: a string is a sequence of Unicode scalar values.
- `sort.Slice`'s own algorithm: `Sorting.SortSlice` is an insertion sort with the contract of `sort.Slice`.
- Saturation of very large time differences in the staleness test, and overflow when a time is computed from a receive time far from the present.
- The positions and texts of error messages; the kinds of errors are kept.
- The constant-time password comparison is modelled as equality.
- Jitter and dropped ticks of the watchdog's ticker: `Watchdog` has a tick at every third of the timeout. In `Registry`, a session may be closed at any time, for whatever reason.
- A timeout under three nanoseconds, for which the ticker cannot be made.
- Separate clocks: the scheduler and the lease table read the same clock here, as they do unless a test replaces one.
- The periodic refresh of credentials, the sweeper's ticker, reconnect backoff, configuration and the IP whitelist: plumbing that would only add easy members.
- `WaitSession`, `OnlineCount`, `DevicePool.Size`, `SetNetType`: lookups without a property of their own.
