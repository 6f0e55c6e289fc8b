# bblfshd: driver pools, control messages and image store, verified

This project models the parts of bblfshd that are hardest to get right, in Dafny, and proves
what they promise.

- **The driver pool** (`daemon/pool.go`, `daemon/service.go`) is a state machine
  (`PoolMachine.dfy`). The manager, the spawner, the policy goroutine and an unbounded set of
  clients have a program counter each; a step is one atomic load or store, one critical
  section, one branch of a select, or one rendezvous on an unbuffered channel. Every result in
  `PoolTheorems.dfy` is about every state of every interleaving. The invariants are in
  `PoolOwnership.dfy` (where a driver is), `PoolCounters.dfy` (what the counters count),
  `PoolBound.dfy` (how many instances there may be), `PoolRequests.dfy` (requests and answers)
  and `PoolSignals.dfy` (rescale signals and draining). `PoolCourse.dfy` and `PoolSupply.dfy` say
  exactly which steps leave the pool above or below its target with nobody to notice. `PoolCalls.dfy` says how calls end and what the
  manager's decisions rest on, `PoolStop.dfy` that a stopped pool can always get to draining.
  `PoolLeaks.dfy` and `PoolOffTarget.dfy` build the runs
  in which bounds are reached and promises fail.
- **The scaling policy** of the same file is specified over whole histories of inputs
  (`Policy.dfy`); the ring buffer and the stateful policy object (`MovingAverage.dfy`) are
  proved to compute it.
- **The control messages** (`daemon/protocol/generated.pb.go`): varints and skipping
  (`Wire.dfy`), the loop common to all Unmarshal methods (`Unmarshalling.dfy`), the messages
  (`Messages.dfy`, `Instances.dfy`, `PoolStates.dfy`), the writing and reading loops
  themselves (`Marshal.dfy`, `Reader.dfy`), and inputs that the code reads or rejects but does not
  write (`Encodings.dfy`). The format is that of the sections "Base 128
  Varints", "Message Structure", "Packed Repeated Fields", "Maps" and "Last One Wins" of the
  Protocol Buffers Encoding guide.
- **The image store** (`Storage.dfy`), with a failure possible at every filesystem call, **the
  registry of pools** (`Registry.dfy`) and **the installer of the command line**
  (`Installer.dfy`).

`dafny verify dfyconfig.toml` checks the whole project.

## What the code does not keep

Some promises of the code turn out to hold only under a condition. The code is modelled as it
is. For each there is an input on which the promise fails, and the condition under which it is
kept: an exact one, except that the repeated kills are a bound for what survives `Stop`.

- *Timeouts kill twice.* When a parse times out, `parseV1`/`parseV2` kill the driver
  (`daemon/service.go:134-136`), and the deferred `putDriver` (`daemon/pool.go:781`) finds it
  stopped and kills it again. `running` is then one too low for ever: it is "synced with
  len(drivers.all)" exactly when no driver was killed twice (`CountersAgree`). Each timeout
  lets one more instance live than the target allows (`InstancesWithinTarget`,
  `TimeoutsLeakInstances`), and that many instances survive a `Stop` that returns nil
  (`StopLeavesNothing`, `StopLeavesLeaks`).
- *Scaling down is forgotten.* A manager that takes the rescale signal while it serves a request,
  and finds that it has to scale down, returns to its loop when the request is cancelled
  (`daemon/pool.go:552-574`); the pool then stays above its target
  (`CancelledRequestForgetsTarget`). `Loses` in `PoolCourse.dfy` lists the steps that do this, the
  late delivery of an instance that nobody waits for among them; a step keeps the pool on course
  exactly if it is none of them (`StepKeepsCourse`, `ScalingFinishes`).
- *Scaling up stops short.* When an existing instance is put back while `scale` starts new ones, the
  difference is computed again but the count `i` of instances already started goes on
  (`daemon/pool.go:501-505`). If nothing is killed or given up after that, min(target - running, i)
  instances are missing at the end, so the loop ends short exactly if it had started any, and any
  was missing, when it read again (`ScaleUpEndsShortIff`, `ReturnedDriverStopsScaleUp`). Nor does a
  put-back have to happen: a manager that takes the signal while it serves a request starts the one
  instance that the request needs, and no more (`ServedRequestForgetsTarget`). `Starves` in
  `PoolSupply.dfy` lists all steps after which the pool is below its target and nobody notices; a
  step keeps the pool supplied exactly if it is none of them (`StepKeepsSupply`). A run with neither
  losing nor starving steps comes to rest with exactly as many instances as the target says
  (`TargetReached`).
- *Limits the wrong way round.* The clamp tries the upper limit first and checks neither against the
  other, and the pool raises every target below 1 to 1. Over all runs of a pool, its targets, and its
  instances, stay within the configured maximum exactly if the maximum is positive and the minimum
  not above it (`WithinMaximumIff`, `ExceedsMaximum`).
- *Removals leave pools behind.* `RemoveDriver` uninstalls whatever driver the name finds but drops the
  pool under the very string given; and it drops none if the store fails after the configuration is
  gone, when the driver is listed no more. Lookups stay right exactly if nothing was removed, the
  driver has no pool, or the removal succeeds by the driver's language itself (`HarmlessRemoval`,
  `Daemon.RemoveDriver`, `RemovalByAliasLeavesPool`, `HiddenRight`).
- *Updates do not reach the pools.* `InstallDriver` never touches the cache. Lookups stay right
  exactly if no driver that is replaced has a pool and every remembered alias, followed as a lookup
  does, leads to a name of the new driver exactly if it is one (`Daemon.InstallDriver`,
  `InstallAnswers`). Otherwise the old version goes on serving (`UpdateKeepsOldPool`), or an alias
  of a driver long removed hides the new one (`StaleAliasHidesDriver`).
- *An interrupted installation disables the daemon.* If an installation stops between its two renames,
  the store cannot be listed, and every operation of the daemon begins with a listing: from then on
  none of them changes anything, an installation that would repair the store included, and only
  names with a pool are answered (`Daemon.InstallDriver`, `BrokenForever`).
- *Languages in upper case.* Pools are kept under the language as written and looked up under the lowered
  one. A driver gets a single pool exactly if its language is lower case or the lowered language is
  one of its own aliases; otherwise every lookup starts another pool in the place of the running one
  (`OnePoolIff`).
- *Interrupted installations and removals.* Configuration and root directory are moved, and removed,
  one after the other. An installation that fails in between leaves a configuration alone, and then
  every `List` fails (`InterruptedInstallLeavesOrphan`, `OrphanForever`); a removal that fails in
  between leaves a root alone, which `RootFS` reports and `List` omits
  (`InterruptedRemovalHidesImage`). `OperationLeaves` says exactly when a single operation ends so.
  Over whole runs, `List` succeeds exactly if every such installation was followed by one of the
  same digest that made its last call (`ListSucceedsIff`), and it has one entry per image that
  `RootFS` reports exactly if, besides, every such removal was made up for (`ListIsCompleteIff`),
  which is to say on a matched store (`ListsIffMatched`).
- *Updates can uninstall.* The old version is removed before the new one is examined. An update leaves
  nothing installed exactly if it stops after the old root is gone and before the new one is in place
  (`UpdateLosesImageIff`); a package without a manifest always stops there
  (`MalformedUpdateUninstalls`). `Store.Install` states the same in terms of the filesystem calls
  that succeed.

## Assumptions

- After `killDriver` has been called on a driver, its `Status` is never `Running` again.
  Otherwise a status may be anything at any time. Every driver that the factory returns is a
  new one.
- `math.Ceil` of a float quotient or product is the exact ceiling.
- Atomic 32-bit counters and Go's `int` do not overflow in the pool.
- Base directories of different images differ (SHA-256 does not collide); `os.Rename` happens
  completely or not at all.
- The library codecs of timestamps and durations invert each other, and give less than 2^63
  bytes.

## Model

| member | source | states |
|---|---|---|
| PoolTheorems.InvariantStep | daemon/pool.go:277-815 | every atomic step of every goroutine, from any state that satisfies the invariant, keeps ownership, counters, the instance bound, the request protocol, the announcement of targets and the draining bound |
| PoolTheorems.InvariantRun | daemon/pool.go:218-858 | the same over every run of any length |
| PoolTheorems.DriversHaveOneOwner | daemon/pool.go:103-105 | in every reachable state a live driver is in exactly one place (idle map, manager, spawner or one client), idle drivers are live, no two clients hold the same driver, and a client only uses a live driver |
| PoolOwnership.OwnedClient | daemon/pool.go:670-815 | peekIdle, the slow path, checkStatus, timeouts and putDriver keep every live driver in exactly one place |
| PoolOwnership.OwnedMeeting | daemon/pool.go:522-528 | rendezvous on put and on the request's out channel move a driver from one holder to the other and lose none |
| PoolOwnership.OwnedManager | daemon/pool.go:382-423 | setIdle, peekIdle and killDriver by the manager keep ownership unique |
| PoolTheorems.CountersAgree | daemon/pool.go:153-160 | running + exited is the number of drivers ever registered; running is the number of live drivers minus the repeated kills, so they agree exactly when there is none; timeouts are the repeated kills plus the timed-out clients still before their putDriver; requests counts the clients on the slow path |
| PoolCounters.CountedClient | daemon/service.go:128-137 | a timeout adds one pending kill, and the deferred putDriver turns it into exactly one repeated kill |
| PoolCounters.CountedSpawner | daemon/pool.go:322-364 | registering and killing by the spawner keep the balance of running, exited and the maps, and spawning is 1 exactly inside spawnOne |
| PoolTheorems.InstancesWithinTarget | daemon/pool.go:432-548 | running plus the instance being started never exceeds the largest target ever set since Start, in spite of stale differences, cancelled requests with a spawn in flight and ignored spawn errors; live drivers exceed it by at most the repeated kills |
| PoolBound.BoundedManager | daemon/pool.go:448-518 | the manager's loop variables and stale reads never permit a spawn beyond the largest target, including the "pretend we are allowed to run one" case |
| PoolBound.BoundedMeeting | daemon/pool.go:531-548 | a spawn request and the hand-over of the new driver keep the bound |
| PoolTheorems.InstancesWithinMaximum | README.md:187-188 | with the default policy and a minimum not above a positive maximum (a minimum of 0 or less stands for the maximum), running and starting instances never exceed the configured maximum; the live ones never do without a repeated kill |
| PoolTheorems.StopLeavesNothing | daemon/pool.go:630-644 | when the manager has drained and the spawner has returned, at most as many drivers live as there were repeated kills; with none, both maps are empty and only clients that timed out and have not run their putDriver hold a driver, a dead one; with no timeout no client holds any, even if the spawner registered a driver after the drain |
| PoolTheorems.OneAnswerPerRequest | daemon/pool.go:177-186 | each request gets at most one answer, only after it was accepted, and sending the error never blocks |
| PoolTheorems.WaitingIsServed | daemon/pool.go:697-712 | a client in the second select of getIdle is being served, has an error waiting, or is cancelled |
| PoolTheorems.ReturnProgresses | daemon/pool.go:520-528 | in returnDriver the client takes the driver, or the driver goes to idle, or the client's own next step closes the cancel channel that unblocks the manager |
| PoolRequests.ServedManager | daemon/pool.go:552-626 | the manager gives up a request only when it is cancelled or answered |
| PoolTheorems.NoTargetMissed | daemon/pool.go:306-317 | until the pool drains, a target that the manager has not read is announced by the signal channel, about to be signalled, or about to be read |
| PoolSignals.AnnouncedManager | daemon/pool.go:437-445 | taking and re-queueing the rescale signal never loses an unread target |
| PoolCalls.CallEndsForAReason | daemon/pool.go:670-815 | over every run, a call that is over without having used a driver had its context done, saw the pool stopped or was sent an error; a stopped driver only makes it try again |
| PoolCalls.ExcuseHolds | daemon/pool.go:670-717 | it gives up only if its request is cancelled, the pool is stopped or its error channel is full |
| PoolCalls.UsesOnce | daemon/pool.go:772-791 | over every run, a call that has its driver uses no second one |
| PoolCalls.GivingUpIsFinal | daemon/pool.go:688-717 | over every run, a call that has given up gets no driver after all |
| PoolCalls.ChecksComeFirst | daemon/pool.go:721-815 | drivers are used, put back and handed over only right after they were found running, and the slow path is taken only when nothing idles |
| PoolCalls.InterruptedScaleResumes | daemon/pool.go:437-518 | over every run from a request that interrupts scaling up or down, the rescale signal is pending until the manager takes it |
| PoolCalls.SpawnErrorIsPassedOn | daemon/pool.go:531-575 | a failed spawn that the manager hears of while it serves a request goes to that request |
| PoolCalls.ScalingIsJustified | daemon/pool.go:446-626 | in every reachable state before draining, the manager kills only if it counted more instances than the target it read, and asks for one only if it did not |
| PoolCalls.NobodyWaitsForNothing | daemon/pool.go:588-619 | with nothing running and nothing being started, a request is given a new instance or an error |
| PoolCalls.ClientGoesOn | daemon/pool.go:670-732 | a client waits only in a select, and leaves it when cancelled, sent an error or stopped |
| PoolCalls.SelectsListen | daemon/pool.go:688-717 | both selects of getIdle listen to the stop, the context and the error |
| PoolCalls.SpawnerGoesOn | daemon/pool.go:322-378 | the spawner retries, gives up and leaves as it should, and keeps no driver when the pool stops |
| PoolCalls.SignalMeansChange | daemon/pool.go:306-317 | the policy signals exactly the changes of the target |
| PoolStop.DrainIsInReach | daemon/pool.go:580-664 | from every reachable state of a stopped pool there is a run in which the manager, helped only by the client that it serves, gets to draining |
| PoolCourse.StepKeepsCourse | daemon/pool.go:448-626 | a step of any goroutine leaves more instances than the target, with no signal under way and nobody set to kill them, exactly if it cancels or fails a request that is being served while scaling down, or delivers an instance for which there is no room any more |
| PoolCourse.ScalingFinishes | daemon/pool.go:446-518 | a run is on course throughout exactly if it has no such step; then, whenever the manager is back in its loop with no signal under way, no more instances are left than the target, but for one in the spawner's hand |
| PoolOffTarget.CancelledRequestForgetsTarget | daemon/pool.go:552-575 | a reachable state with the manager in its loop, the target read, no signal under way, target 1 and two instances |
| PoolSupply.StepKeepsSupply | daemon/pool.go:448-626 | a step of any goroutine leaves fewer instances than the target, with no signal under way and nobody set to start them, exactly if it is a kill or a spawn given up that nobody makes up for, a target read too late, for one request that needs one instance when more are missing, or for a loop that already counts some, or the loss of the request for which one was to be started |
| PoolSupply.RunKeepsSupply | daemon/pool.go:277-815 | a run from a supplied pool is supplied throughout exactly if it has no such step |
| PoolSupply.TargetReached | daemon/pool.go:446-518 | after a run without losing and without starving steps, a manager in its loop with no signal under way and nothing being started has exactly as many instances as the target |
| PoolSupply.ShortKept | daemon/pool.go:489-517 | while scaling up, puts, late deliveries, failed spawns and retries do not change how many instances will be missing |
| PoolSupply.ScaleUpEndsShortIff | daemon/pool.go:494-517 | from a re-read with i instances started to the end of the loop, whatever is started or put in between, min(target - running, i) are missing: the loop ends short exactly if i >= 1 and running < target at the re-read |
| PoolOffTarget.ReturnedDriverStopsScaleUp | daemon/pool.go:494-517 | a reachable state without any kill or failure, with the manager in its loop, no signal under way, target 3 and two instances, after a put-back |
| PoolOffTarget.ServedRequestForgetsTarget | daemon/pool.go:571-619 | such a state reached without a put-back: the signal was taken in scaleDown and one request served |
| PoolOffTarget.ExceedsMaximum | daemon/pool.go:295-306 | for every configuration with a maximum below 1 or below the minimum, a reachable pool whose target and instances exceed the maximum |
| PoolOffTarget.WithinMaximumIff | daemon/pool.go:888-904 | over all runs, targets and instances stay within the maximum if and only if it is positive and the minimum not above it |
| PoolLeaks.ServeNewCall | daemon/pool.go:670-717 | from any quiet reachable state with room below the target, a new call can be served by a new instance; the resulting state is reachable |
| PoolLeaks.TimeoutsLeakInstances | daemon/service.go:134-136 | for every n there is a run whose target never exceeds 1 and that has n live drivers, after exactly n - 1 timeouts |
| PoolLeaks.StopLeavesLeaks | daemon/pool.go:842-858 | for every n there is a run with n timeouts in which Stop completes and n drivers live on |
| Policy.CeilDivExact | daemon/pool.go:927 | the ceiling is the least integer not below the quotient, for negative sums too |
| Policy.TimesExact | daemon/pool.go:1019 | the product used for the downscale is the exact product |
| Policy.MeanBetween | daemon/pool.go:916-928 | a windowed mean lies between the bounds of the samples it averages |
| Policy.AimdGrows | daemon/pool.go:1010-1016 | with at least as many requests as idle instances, the pool grows by `add` or by the excess of requests, whichever is less |
| Policy.AimdShrinks | daemon/pool.go:1017-1025 | with more idle instances, it shrinks by the least integer not below the excess times `mul`, but not below 1 |
| Policy.AimdShift | daemon/pool.go:1010 | only the difference of requests and idle instances counts |
| Policy.AimdMonotone | daemon/pool.go:1009-1026 | more requests, fewer idle instances or more instances never lower the answer |
| Policy.MonotoneIff | daemon/pool.go:987-996 | after the clamp, this holds exactly if the limits are not the wrong way round |
| Policy.ScaleMonotone | daemon/pool.go:901-904 | after any history, more load or fewer idle instances never lower the answer of the whole policy |
| Policy.ScaleInLimits | daemon/pool.go:888-904 | one answer of the default policy lies in [min, max] whatever the inputs, where a non-positive min stands for max |
| Policy.AnswersInLimits | daemon/pool.go:899-904 | every answer to every history of inputs lies in [min, max] |
| Policy.MaximumKeptIff | daemon/pool.go:976-996 | every answer of the policy itself to every history, before the pool raises it to 1, stays within the maximum if and only if the minimum does not exceed it or the maximum is below 1 |
| Policy.UnsmoothedShrinks | daemon/pool.go:1009-1026 | one AIMD step, clamped, moves a confined pool strictly towards the minimum without load, and towards the maximum with load |
| Policy.SteadyDemandConverges | daemon/pool_test.go:208-210 | in the closed loop, without load the pool reaches exactly min, and with waiting load exactly max, within loadWindow + targetWindow * (max - min) ticks from any past, and stays there |
| Policy.NoDownscaleWithoutMultiplier | daemon/pool.go:1017-1020 | with a zero multiplier a quiet pool never shrinks, so the hypothesis on the multiplier is needed |
| MovingAverages.MovingAverage.AddSample | daemon/pool.go:906-928 | the ring buffer returns the rounded-up mean of the last min(k, window) samples of its history and keeps its meaning |
| MovingAverages.RingReplace | daemon/pool.go:922-925 | overwriting the slot next % cap drops the oldest sample, and the running sum stays the sum of the buffer |
| MovingAverages.RingMean | daemon/pool.go:927 | sum and length of the buffer give the windowed mean of the history |
| MovingAverages.DefaultPolicy.Scale | daemon/pool.go:945-967 | the stateful policy object answers and evolves as the history-based policy |
| Wire.VarintRoundTrip | daemon/protocol/generated.pb.go:909-917 | decoding undoes encoding for every 64-bit word, whatever follows |
| Wire.VarintAtMostTen | daemon/protocol/generated.pb.go:1132-1141 | a 64-bit word takes one to ten bytes |
| Wire.SkipExact | daemon/protocol/generated.pb.go:2789-2887 | skipGenerated takes exactly one well-formed field, padded varints and arbitrarily nested groups included, whatever follows |
| Wire.SkipStable | daemon/protocol/generated.pb.go:2789-2887 | what is skipped does not depend on what follows |
| Unmarshalling.Split | daemon/protocol/generated.pb.go:1787-1950 | for every message, unmarshalling a concatenation is unmarshalling the second part into the result of the first |
| Unmarshalling.UnknownInserted | daemon/protocol/generated.pb.go:1930-1943 | an unknown well-formed field inserted after any accepted part changes nothing |
| Messages.SovExact | daemon/protocol/generated.pb.go:1132-1141 | sovGenerated is the length of the varint |
| Messages.PoolSizeExact | daemon/protocol/generated.pb.go:1002-1024 | ProtoSize of DriverPoolState is the length of its encoding |
| Messages.PoolMerges | daemon/protocol/generated.pb.go:1787-1950 | unmarshalling an encoding into any receiver merges them field by field, negative numbers included |
| Messages.PoolRoundTrip | daemon/protocol/generated.pb.go:572-608 | every DriverPoolState round-trips |
| Messages.PoolConcatenation | daemon/protocol/generated.pb.go:1787-1950 | of two concatenated encodings, later non-zero values win |
| Messages.PoolUnknownField | daemon/protocol/generated.pb.go:1930-1943 | any unknown well-formed field between two encodings is harmless |
| Messages.InstallSizeExact | daemon/protocol/generated.pb.go:1073-1088 | ProtoSize of InstallDriverRequest is the length of its encoding |
| Messages.InstallMerges | daemon/protocol/generated.pb.go:2323-2450 | unmarshalling an InstallDriverRequest into any receiver merges them |
| Messages.InstallRoundTrip | daemon/protocol/generated.pb.go:742-770 | every InstallDriverRequest round-trips |
| Encodings.ReadFailsIff | daemon/protocol/generated.pb.go:1793-1806 | a varint overflows exactly if ten bytes go on, and is cut off exactly if fewer do and the input ends |
| Encodings.LastOneWins | daemon/protocol/generated.pb.go:1816-1929 | fields of a DriverPoolState in any order and number, into any receiver: of each the last value counts, an explicit zero included |
| Encodings.PartsRead | daemon/protocol/generated.pb.go:2323-2450 | the same for an InstallDriverRequest, with explicit empty strings and flags of any number |
| Encodings.InstancePartsRead | daemon/protocol/generated.pb.go:1428-1646 | the same for a DriverInstanceState, processes appending in any packing |
| Encodings.ResponsePartsRead | daemon/protocol/generated.pb.go:1951-2182 | the same for a DriverPoolStatesResponse: errors append, the last duration counts, and of entries with one key the last |
| Encodings.RejectedTag | daemon/protocol/generated.pb.go:1807-1815 | after any accepted part, an end-group tag, a field number 0 and what the switch refuses are rejected with their errors |
| Encodings.PoolRejectsType | daemon/protocol/generated.pb.go:1816-1929 | a numbered field with any wire type but varint is rejected |
| Encodings.InstallRejectsType | daemon/protocol/generated.pb.go:2352-2429 | so is a field of the request with another wire type than its own |
| Encodings.InstanceRejectsType | daemon/protocol/generated.pb.go:1457-1625 | and of an instance |
| Encodings.ResponseRejectsType | daemon/protocol/generated.pb.go:1980-2075 | a field of the response with any wire type but length-delimited is rejected |
| Encodings.PoolExample | daemon/protocol/generated.pb.go:572-608 | the very bytes of a message, field by field |
| Encodings.InstanceExample | daemon/protocol/generated.pb.go:458-507 | the very bytes of an instance around its timestamp |
| Encodings.EntryExample | daemon/protocol/generated.pb.go:645-675 | the very bytes of map entries with, with an empty, and without a value |
| Instances.InstanceSizeExact | daemon/protocol/generated.pb.go:956-980 | ProtoSize of DriverInstanceState is the length of its encoding |
| Instances.AnyPackingDecodes | daemon/protocol/generated.pb.go:1570-1627 | packed, unpacked and split encodings of the processes decode to the same list, appended to what was there |
| Instances.InstanceMerges | daemon/protocol/generated.pb.go:1428-1646 | later scalars win, the timestamp is replaced, processes append |
| Instances.InstanceRoundTrip | daemon/protocol/generated.pb.go:458-507 | every DriverInstanceState round-trips |
| PoolStates.ReadEntryExact | daemon/protocol/generated.pb.go:2085-2160 | a map entry round-trips, with a nil value, an all-zero message and an empty key included |
| PoolStates.EntrySizeExact | daemon/protocol/generated.pb.go:1039-1047 | the nested lengths agree with ProtoSize |
| PoolStates.ResponseSizeExact | daemon/protocol/generated.pb.go:1026-1051 | ProtoSize of DriverPoolStatesResponse is the length of its encoding |
| PoolStates.ResponseFitsBuffer | daemon/protocol/generated.pb.go:610-618 | the buffer sized in one iteration order of the map is filled exactly in any other |
| PoolStates.ResponseMerges | daemon/protocol/generated.pb.go:1951-2182 | unmarshalling into any receiver appends errors, replaces the duration and overwrites entries with equal keys |
| PoolStates.ResponseRoundTrip | daemon/protocol/generated.pb.go:620-677 | every DriverPoolStatesResponse round-trips in every iteration order |
| Marshal.EncodeVarint | daemon/protocol/generated.pb.go:909-917 | the loop writes exactly the varint at the offset and nothing else |
| Marshal.SizeOfVarint | daemon/protocol/generated.pb.go:1132-1141 | the loop of sovGenerated counts the bytes of the varint |
| Marshal.SizeOfPool | daemon/protocol/generated.pb.go:1002-1024 | ProtoSize, field by field, is the length of the encoding |
| Marshal.MarshalPoolTo | daemon/protocol/generated.pb.go:572-608 | the encoding is written at the given place of the buffer, the rest is untouched, and ProtoSize bytes are reported |
| Marshal.MarshalPool | daemon/protocol/generated.pb.go:562-570 | the buffer made with ProtoSize is exactly filled with the encoding |
| Marshal.PutErrors | daemon/protocol/generated.pb.go:625-639 | the loop over a repeated string writes all of them in order |
| Marshal.PutValue | daemon/protocol/generated.pb.go:665-675 | the nested message is measured by ProtoSize and then written in place after its length |
| Marshal.PutEntry | daemon/protocol/generated.pb.go:650-675 | the entry's length is computed before the entry is written, and what is written in place has that length |
| Marshal.MarshalResponseTo | daemon/protocol/generated.pb.go:620-677 | the buffer starts with the encoding in the given map order, nested entries written in place, the rest is untouched |
| Marshal.SizeOfResponse | daemon/protocol/generated.pb.go:1026-1051 | the loops of ProtoSize compute the specified size |
| Marshal.MarshalResponse | daemon/protocol/generated.pb.go:610-618 | with the map visited in one order for the size and in another for writing, the buffer is exactly filled with the encoding |
| Marshal.ReadVarint | daemon/protocol/generated.pb.go:1793-1806 | the shift-and-accumulate loop reads the specified value, with its overflow and end-of-input errors and its truncation to 64 bits |
| Reader.SkipField | daemon/protocol/generated.pb.go:2789-2887 | the loops and recursion of skipGenerated terminate and compute the specified length or error |
| Reader.UnmarshalPoolFrom | daemon/protocol/generated.pb.go:1787-1950 | the indexed loop of Unmarshal computes the specified message or error on every input |
| Reader.ReadPackedAt | daemon/protocol/generated.pb.go:1605-1623 | the inner loop over packed integers, whose last one may run past the announced length |
| Reader.ReadEntryAt | daemon/protocol/generated.pb.go:2064-2160 | the inner loop over a map entry computes the specified key and value or error |
| Reader.UnmarshalResponseFrom | daemon/protocol/generated.pb.go:1951-2182 | the indexed loop of Unmarshal computes the specified response or error on every input |
| Storage.DigestRoundTrip | runtime/common.go:16-37 | parsing the hexadecimal name of a digest gives it back |
| Storage.OperationKeepsClean | runtime/storage.go:34-97 | wherever a failure strikes in Install or Remove, an image keeps at most one root directory |
| Storage.NeverDirty | runtime/storage.go:103-117 | over every run with a failure anywhere in any operation, no image base is ever dirty |
| Storage.OthersUntouched | runtime/storage.go:165-171 | operations leave other images untouched |
| Storage.OperationRefines | runtime/storage.go:34-74 | an uninterrupted operation keeps configurations and roots matched and installs, keeps or removes the intended version |
| Storage.StoreRefinesMap | runtime/storage.go:30-143 | on runs without failures the store behaves as a map from images to versions |
| Storage.StatusAfterInstall | runtime/storage.go:119-128 | Status gives back reference, digest and manifest of what was installed |
| Storage.StatusIff | runtime/storage.go:103-128 | on every disk, Status succeeds exactly if there is one root, with manifest and configuration, and gives theirs; it is "not installed" exactly if there is no root and "dirty" exactly if there are several |
| Storage.StatusFollowsRun | runtime/storage.go:119-142 | on runs without failures, Status is that of the version intended last, and "not installed" if there is none |
| Storage.StatusAfterRemove | runtime/storage.go:131-142 | after a removal and operations on other images, Status says "not installed" |
| Storage.ParsePrefix | runtime/common.go:16-20 | a directory name is read as far as it is well formed |
| Storage.List | runtime/storage.go:145-163 | the loop lists the status of every configuration found, or fails if one is unreadable |
| Storage.ListMatchesStatus | runtime/storage.go:145-163 | without failures there is exactly one readable entry per installed image, equal to its Status |
| Storage.OperationLeaves | runtime/storage.go:84-96 | stopped anywhere, an operation leaves a configuration without its root, or a root without its configuration, exactly if it stopped right before the change that completes the pair, or found the pair so and did not come to that change |
| Storage.RunLeaves | runtime/storage.go:34-142 | the same over every run |
| Storage.ListSucceedsIff | runtime/storage.go:145-163 | after every run with failures, List succeeds if and only if every installation that stopped between its last two calls was followed by one of the same digest that made its last call |
| Storage.ListsIffMatched | runtime/storage.go:145-163 | the listing has exactly one readable entry per image that RootFS reports if and only if configurations and roots match |
| Storage.ListIsCompleteIff | runtime/storage.go:131-163 | after every run with failures, that is so if and only if every installation and every removal stopped between its two calls was made up for |
| Storage.InterruptedInstallLeavesOrphan | runtime/storage.go:91-96 | from any base, an installation or update that fails between the last two renames leaves a configuration without a root |
| Storage.OrphanForever | runtime/storage.go:151-160 | after that, every listing fails over every run that does not install that digest again |
| Storage.OrphanCleared | runtime/storage.go:91-96 | installing that digest to the end clears this configuration and no other one; the base is in order exactly if there was no other |
| Storage.InterruptedRemovalHidesImage | runtime/storage.go:131-142 | after a removal that fails between its two calls, RootFS still reports the image, Status fails, List succeeds without it, and Install without update does nothing |
| Storage.UpdateLosesImageIff | runtime/storage.go:50-74 | stopped anywhere, an update of an installed image leaves none installed if and only if the old root is gone and the new one not in place |
| Storage.MalformedUpdateUninstalls | runtime/storage.go:65-72 | a working driver updated to a package without a manifest is no longer installed |
| Storage.ViewAfter | runtime/storage.go:34-163 | of an image the daemon sees a listed version, a root that is not listed, nothing, or a listing that fails; any operation stopped after any change leads from one to exactly one of them, as the registry takes it |
| Storage.Store.Remove | runtime/storage.go:131-142 | step by step, with any number of filesystem calls succeeding, Remove makes a prefix of its changes, and succeeds exactly when one version is installed and no call fails |
| Storage.Store.Install | runtime/storage.go:34-97 | step by step, Install makes a prefix of its changes, all of them when it succeeds; with enough calls it fails only on a dirty store or a malformed package; and an update loses the installed version exactly if the removal succeeds and a later call fails or the package is malformed |
| Installer.InvariantStep | cmd/bblfshctl/cmd/driver_install.go:193-297 | every step of the loop and of the workers keeps each handed-out reference with one worker, in one answer or accepted, exactly once |
| Installer.MeasureDecreases | cmd/bblfshctl/cmd/driver_install.go:193-297 | every step lowers a measure over references, busy workers and answers |
| Installer.NeverStuck | cmd/bblfshctl/cmd/driver_install.go:269-297 | a state that is not finished always has a possible step |
| Installer.RunsAreBounded | cmd/bblfshctl/cmd/driver_install.go:177-307 | no interleaving is longer than 4n + 2 + workers steps |
| Installer.FinalState | cmd/bblfshctl/cmd/driver_install.go:177-307 | a run that cannot go on has accepted every reference exactly once, closed jobs, left no worker behind, and has todo = 0 and done + errors = n |
| Installer.ReportIsTrue | cmd/bblfshctl/cmd/driver_install.go:222-307 | over every run that has ended: the table shows each reference as its worker's answer says, the errors kept are those of the installations that failed, each once, "already installed" among them exactly without --force, and there is none exactly if no installation failed |
| Installer.LeavesOnlyWhenDone | cmd/bblfshctl/cmd/driver_install.go:263-291 | the loop ends only after jobs is closed and every answer is accepted |
| Registry.DriverWithLang | daemon/daemon.go:196-210 | the nested loops find the first driver with that language or alias, in any letter case |
| Registry.FindIsFirst | daemon/daemon.go:196-210 | of several drivers with a name, the first one listed is found |
| Registry.LowerIgnoresCase | daemon/daemon.go:167-200 | two names are lowered alike exactly if they differ in letter case only |
| Registry.LookupIgnoresCase | daemon/daemon.go:166-210 | the search and the lookup, and what it leaves behind, are the same for such names |
| Registry.ResolveKeepsMeaning | daemon/daemon.go:166-184 | resolving through the alias map does not change which installed driver is meant |
| Registry.CachedIsRight | daemon/daemon.go:166-176 | a cached answer is the pool of the driver that the search finds, and no two entries serve the same driver |
| Registry.NamesResolve | daemon/daemon.go:178-193 | every name of a driver that has a pool resolves to its language, so no second pool is started |
| Registry.ConsistentAnswersRight | daemon/daemon.go:166-194 | with a consistent cache, the two looks and the search give every name the driver that the search alone finds |
| Registry.Daemon.DriverPool | daemon/daemon.go:166-194 | from any state, the pool that the two looks and the search lead to, and the new state; from a right cache, the pool of exactly the driver that the search finds, cached pools kept, and an error only if there is no such driver, the store cannot be listed or the pool does not start |
| Registry.Daemon.NewDriverPool | daemon/daemon.go:230-268 | registering a pool and all aliases keeps the cache right |
| Registry.HiddenRight | daemon/daemon.go:155-157 | when a driver is listed no more and its removal fails, lookups stay right exactly if it has no pool |
| Registry.Daemon.RemoveDriver | daemon/daemon.go:147-164 | with any number of the store's changes succeeding, removes the driver found and, on success, the pool of that very name; the cache stays right, and every lookup answers right, if and only if nothing was removed, the driver has no pool, or it succeeds by the driver's language |
| Registry.InstallConsistent | daemon/daemon.go:124-145 | however the list changes, the unchanged cache stays consistent exactly if no driver that is gone has a pool and the aliases fit those that came |
| Registry.InstallAnswers | daemon/daemon.go:124-145 | however the list changes, every lookup answers right exactly if no driver that is gone has a pool and every remembered alias, followed twice, leads to a name of a new driver exactly if it is one |
| Registry.InstallInto | daemon/daemon.go:124-142 | step by step, with any number of its changes succeeding, the store is refused, replaced or added to as specified, an image with a root that is not listed counts as installed, and the store cannot be listed exactly if it could not before or the last rename failed |
| Registry.InstallEffect | daemon/daemon.go:124-142 | however far an installation comes, all drivers but the one found under the language and the one of the same image stay, in order, nothing but the new driver comes in, and roots are hidden or freed at those two images only; if it completes, the new driver is listed and those two are not; if it is refused or has nothing to do, nothing changes |
| Registry.RemovalEffect | daemon/daemon.go:147-164 | a removal unlists the driver found and no other, leaves its root exactly if the second change fails, and drops one pool exactly if both succeed |
| Registry.OneRootAlways | daemon/daemon.go:105-164 | over every run of the daemon, whatever fails in the store, no image has two roots |
| Registry.Daemon.InstallDriver | daemon/daemon.go:105-145 | changes the store as specified and keeps the cache right exactly under these conditions |
| Registry.BrokenForever | daemon/daemon.go:213-228 | once the store cannot be listed, no operation of the daemon changes anything |
| Registry.OnePoolIff | daemon/daemon.go:166-176 | one pool serves all lookups of a driver's language exactly if the language is lower case or its lowered form is one of its own aliases; otherwise n lookups start n pools |
| Registry.UpdateKeepsOldPool | daemon/daemon.go:128-145 | after the update of a driver that has a pool, its language still gets the old version |
| Registry.StaleAliasHidesDriver | daemon/daemon.go:263-282 | after removal by language, the old alias leads nowhere, and a new driver of that name gets no pool |
| Registry.Apply | daemon/daemon.go:105-194 | each operation has the specified effect, answers right, and keeps the cache right if and only if it is harmless |
| Registry.RunAll | daemon/daemon.go:105-282 | over every run of lookups and harmless removals and installations, whatever fails in the store, each lookup answers for exactly the driver that the search over the drivers listed at that time finds |
| Registry.RemovalByAliasLeavesPool | daemon/daemon.go:270-282 | after removal by a registered alias, that alias still gets the old pool although no driver has the name |

## Left out

- The pool's shared state is modelled on values in a step relation, not as objects with in-place update, because the properties are about interleavings; the memory model of Go's atomics is taken to be sequentially consistent.
- Termination of drain and Stop: drain may wait on the put channel while a client kills its driver instead; safety at completion is proved, not completion.
- Start's own waiting for a first instance is one of the clients; its error path, which calls Stop, is the environment's stop step.
- Execute's time budget, backoff intervals, tickers, metrics, logging and tracing: ticks, timeouts and cancellations are steps that may happen at any time.
- The branch of a select that has a default is allowed even when another branch is ready, which adds runs and removes none.
- PoolRequests.ErrorNeverBlocks: the "pool is draining" branch of waitOrScale is modelled but not shown unreachable, because its counters are read in separate steps.
- Bitwise operations of the codec are written as arithmetic on numbers: or-ing disjoint bits is addition, shifting is multiplication or division by a power of two.
- Overflow of Go's int in index arithmetic when a malformed length is close to 2^63; indices are unbounded here.
- The partly filled receiver that a failing Unmarshal leaves behind; results are values.
- The writing and reading loops of InstallDriverRequest and DriverInstanceState, except for packed integers: they have the same shape as those proved, and are covered on values.
- DriverImageState, the remaining responses and the empty requests: the same fields in other combinations.
- Contents of image archives, the runtime's containers and processes, and the registry client: runtime/unpack.go, runtime/container.go, runtime/runtime.go, runtime/image.go and daemon/driver.go are not part of this model.
- Concurrent access to one image store, and the temporary directory in which an image is unpacked.
- Interleavings of InstallDriver and RemoveDriver with lookups: the daemon's operations come one after the other. Asking the image for its language when none is given.
- The registry works on what ViewAfter says of each image, put together in one list; the disk itself is not part of it.
- Language normalisation, gRPC services, command-line printing and configuration: plumbing.
