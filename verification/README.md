# Verified model of the wallbox charging controller

This project models the parts of the repository that decide when a car charges and how that decision
survives an unreliable world, and proves laws about them with Dafny 4.11. `dafny verify dfyconfig.toml`
checks everything.

## What is modelled

**The decision engine** (`policy.dfy`, `runs.dfy`). `Decide` maps one tick's inputs, the previous state and
two dwell timers to the next state, timers, mode and reason. `Policy` states what one tick does as a state
diagram that does not depend on the order of the rules. `Runs` is about whole runs: any number of ticks
with any inputs. A run is valid if every decision is the engine's and the clock never runs back; nothing
else is assumed. Time is an integer number of nanoseconds, 0 is the zero time.

**The control loop** (`controller.dfy`). `Controller` is a class with the fields of the Go struct. A tick is
three methods (first critical section and decision, second critical section, everything after the locks)
so that operator calls may run between them, as they may when the mutex is released. Ghost fields hold the
history of all ticks, of every value handed to the two publishers, of every override operation and of every
metering step. `Valid` says that the small concrete state is where those histories end, and every method
keeps it. Each law about histories therefore holds of every state a controller can reach; the lemmas at the
end of the class draw the main conclusions for the live object.

**The histories.** `publish.dfy` is the publisher (change, edge, cadence) for any value type; the mode and
the SoC limit are two instances. `override.dfy` is the read/compute/write-back expiry of the manual override
against any number of operator calls. `metering.dfy` and `sessions.dfy` are the session accounting and its
table, with failing database calls, crashes between ticks and in mid-tick, and restarts. `settings.dfy` is
the persistent settings: key texts, number texts, the table, startup loading with reads that may fail, and
calls interleaving step by step. The controller's setters are those steps.

**The evcc side** (`evcc.dfy`, `inputs.dfy`, `failsafe.dfy`, `station.dfy`). `Store` keeps the latest value per metric; its
ghost `feed` is every message and connection change, and the invariant says that each metric equals its
channel's last well-formed message. `InputsMapping` turns that into readiness and staleness. `FailSafeRuns`
puts the pipeline together: any interleaving of messages, connection changes and ticks. `Station` holds one
live store and one live controller whose joint history is such an interleaving, and concludes the fail-safe
laws, and the answer to the broker link or evcc coming back, on these two objects. What the operator set and
what arrived on the wire determine what a tick does (`InputsMapping.OperatorIsObeyed`, `RulesOnReadings`).

**Storage of times** (`decimal.dfy`, `timestamps.dfy`, `samples.dfy`). The fixed-width timestamp text of
section 5.1 of RFC 3339, its order and its inverse over the Gregorian calendar, and the range query and
pruning of samples that compare those texts.

**The update path** (`semver.dfy`, `links.dfy`, `requests.dfy`, `compose.dfy`, `handshake.dfy`). Version
order, tag pagination, the Link header of section 5 of RFC 5988, and the request/status file protocol with
the sidecar: the text of the request and what is extracted from it, the line-wise version check, and the
substitution on the text of the compose file.

The configuration is assumed to have passed `Validate` (`config.dfy`) wherever a law needs it.

## Where the code falls short of its description

The model follows the code. These are places where a natural reading of its documentation is not met.

- `UpdateSessionMetrics` guards on an open row, `EndSession` does not. Closed rows are nevertheless
  never rewritten (`Metering.ClosedRowsFrozen`).
- When `EndSession` fails the row stays open and the next session opens a second one
  (`Metering.FailedCloseLeavesTwoOpen`). `Metering.OneOpenExactly` says exactly which step does that, and
  `Metering.RunOneOpenExactly` that a history has at most one open row throughout exactly if none of its
  steps does.
- Overlapping calls of the same setter can leave memory and table different until the next restart. Over any
  run, a setting no call is busy with agrees exactly if the last value written since startup is the last value
  put in memory (`Settings.System.AgreesExactly`).
- A status "done v" does not always mean that the compose file names v, for two reasons. `sed` succeeds also
  when its pattern matches nothing, for example a quoted reference
  (`Compose.QuotedReferenceIsOverlooked`), and then the update is reported done over an unchanged file
  (`Handshake.NothingPinnedYetDone`). And the sidecar calls `apply_update "$version" || true`; a POSIX shell
  suspends `set -e` inside such a call, so an announcement that cannot be written is skipped and "done a" can
  stand while the file already names b (`Handshake.LostAnnouncementLeavesStaleDone`). With requests of one
  line it does mean that throughout a run exactly if no step rewrites the file under an old "done" of another
  version, and either the file had a reference to begin with or nothing is ever reported done
  (`Handshake.RunNamesExactly`).
- The substitution takes everything up to the next blank or quote for the tag. Only the tag changes exactly if
  nothing but a tag stands there (`Compose.OnlyTagChangesExactly`); in a flow mapping the closing brace goes
  with it (`Compose.FlowMappingLosesItsBrace`). The dots of the image's name match any character
  (`Compose.NameIsExactly`).
- The sidecar checks a version line by line. A request of several lines is taken if one of them is X.Y.Z
  (`Requests.SecondLineIsTaken`, `Handshake.SecondLineIsApplied`). What is applied is X.Y.Z exactly if it is
  one line (`Handshake.AppliedAtMostOnceInOrder`), as everything wha places is
  (`Handshake.OneLineAppliesSemver`).
- A version component that does not fit an int reads as the largest int, so two different huge versions tie
  (`Semver.HugeComponentsTie`). A tag is ordered by precedence against every other tag exactly if all its
  components are strictly below the largest int (`Semver.PrecedenceExactlyBelowMax`).
- RFC 5988 allows commas and semicolons in a Link target and, within quotes, in a parameter. A next link is
  found exactly if its target has neither and a rel=next parameter stands before the first comma of its
  parameters (`Links.LinkReadsExactly`), so that a comma in an earlier title hides it
  (`Links.CommaInParameterIsMissed`). Pagination goes on to the first such link of the header and stops
  exactly if there is none (`Links.HeaderReadsExactly`).
- The target SoC of a latch profile is not clamped to the configured maximum; the limit stays within 1 to
  100 all the same, and exceeds the maximum exactly if the target does and no bypass is active
  (`Policy.LimitBounds`, `ControlLoop.Controller.TargetsInRange`).

## Model

| member | source | states |
|---|---|---|
| Policy.SurplusIsSolar | internal/controller/policy.go:9-21 | Where the readings balance, surplus is the production left over by the house and a charging battery: independent of what the car draws, and never fed by battery discharge |
| Policy.SurplusIgnoresProduction | internal/controller/policy.go:9-21 | Surplus reads neither production nor the house: whatever those two readings are, it is the same |
| Policy.DecideStep | internal/controller/policy.go:117-240 | One tick as a state diagram: each dwell state and the latch is entered exactly when fresh automatic inputs, SoC and that profile's own trigger say so, each timer runs exactly in its pending state, and automatic starts and stops end a full dwell |
| Policy.GatesComeFirst | internal/controller/policy.go:117-147 | Staleness beats the operator, the operator beats readiness and connection, any of them clears both timers; the mode charged with is the operator's power choice, or full power under a latch profile |
| Policy.LeftToItselfRules | internal/controller/policy.go:117-240 | On fresh inputs without an override in force: the target and its latch first; below it a charging wallbox goes on unless low surplus winds the surplus profile down, and one that is off starts exactly on its own profile's trigger, the thresholds and targets written out |
| Policy.LimitBounds | internal/controller/policy.go:66-84 | The limit is in 1..100, above the cap and at most SoCMax under a bypass (the operator's figure when in that range), exactly the cap under the surplus profile, and above SoCMax exactly if an unbypassed latch target is |
| Policy.BackstopAgrees | internal/controller/policy.go:66-84 | Without a bypass the limit sent to evcc equals the SoC at which the engine stops; an automatic charging tick is always below the limit requested in that tick |
| Runs.TimersRefineHistory | internal/controller/policy.go:117-240 | A timer is set exactly in its pending state, holds the time of the first tick of the current stretch, and every tick of that stretch met its own profile's trigger or stop threshold |
| Runs.StartAfterDwell | internal/controller/policy.go:190-225 | Every automatic start has at least the start dwell of uninterrupted trigger behind it, across profile switches |
| Runs.StopAfterDwell | internal/controller/policy.go:229-240 | Every stop by the profile is reported as low surplus and conversely, and has at least the stop dwell of uninterrupted low surplus behind it |
| Runs.DwellsAreDisjoint | internal/controller/policy.go:176-240 | Completed dwells and the one in progress never overlap in time |
| Runs.WearBound | internal/controller/policy.go:176-240 | N automatic starts and M profile stops take at least N start dwells plus M stop dwells of real time, under arbitrary faults, overrides and profile switches |
| Runs.StartsAndStopsAlternate | internal/controller/policy.go:176-240 | While the profile alone decides, starts and stops alternate |
| Runs.WearBoundUndisturbed | internal/controller/policy.go:176-240 | Undisturbed, N starts take N start dwells and N-1 stop dwells |
| Runs.LatchPersists | internal/controller/policy.go:149-171 | A reached target stays latched over any number of automatic ticks at or above each tick's own resume level |
| Runs.StartBetween | internal/controller/policy.go:149-225 | Between an off tick and a later charging one lies an automatic start with its whole dwell, whatever else happened in between, unless the operator switched charging on |
| Runs.LatchReleasedBeforeCharging | internal/controller/policy.go:149-181 | Between a SocReached tick and a later automatic charging tick some tick was below its own resume level or was decided by rules 1 to 4; unless the operator switched charging on, a fresh start dwell lies in between, also after unplugging or stale data |
| Runs.StartsExactlyAfterDwell | internal/controller/policy.go:173-225 | If every tick of a segment wants to start, every tick at or past the first plus the start dwell charges; from idle the bound is exact |
| Runs.StopsExactlyAfterDwell | internal/controller/policy.go:229-240 | If every automatic tick of a segment has low surplus under the surplus profile, every tick at or past the first plus the stop dwell is off; from charging below target the bound is exact |
| Runs.ChargesToCompletion | internal/controller/policy.go:190-211 | Under a latch profile charging never enters the stop dwell and goes on at full power until exactly the first tick that is diverted by rules 1 to 4 or at its target |
| Runs.StateChangesReplay | internal/controller/controller.go:202-211 | The state changes of a run form a gapless chain from idle to the current state |
| Runs.StateChangesTellTicks | internal/controller/controller.go:202-211 | Every state change is stamped with the time of the tick that made it, and names the states before and after that tick |
| OverrideProtocol.NoLostOverride | internal/controller/controller.go:154-190 | In every interleaving of ticks and operator calls the stored override is the last one set, or Auto after that very one expired at a tick |
| OverrideProtocol.WriteBackClearsOnlyExpired | internal/controller/controller.go:169-184 | A write-back changes the stored override only if that override, not just the one it read, is expired at the tick's own time |
| OverrideProtocol.ExpiryTakesEffect | internal/controller/controller.go:169-184 | An override that is expired at an undisturbed tick does end |
| OverrideProtocol.StoredWhileInForce | internal/controller/controller.go:424-438 | The last override set is the one stored at any later tick that finds it in force |
| OverrideProtocol.BypassBelongsToForceOn | internal/controller/controller.go:424-438 | At every step a cap bypass implies ForceOn, and no bypass implies no bypass target |
| Publish.MemoryIsLastDelivery | internal/controller/controller.go:222-268 | The publisher's memory is the last acknowledged value and when it was acknowledged |
| Publish.DeliveredOrFailedNow | internal/controller/controller.go:222-268 | Under arbitrary failures, after every connected tick evcc was last told the wanted value or an attempt failed in that very tick |
| Publish.EdgeResends | internal/controller/controller.go:193-230 | A send that an edge forces is attempted with the current value, whatever was sent before; what an edge is, is FailSafeRuns.EdgesAreAnswered |
| Publish.SilentExactly | internal/controller/controller.go:222-256 | A connected tick sends nothing exactly if no edge forces it and the last delivery carried the same value less than a republish interval ago |
| Publish.ReassertedInTime | internal/controller/controller.go:222-268 | Whatever evcc forgets at time t is sent again by t + republish + the gap before the first tick past t + republish, edge seen or not, however irregular the other ticks |
| Publish.EventsReplaySends | internal/controller/controller.go:231-268 | The audited commands are the acknowledged sends with consecutive repeats removed; for the limit, minus the first |
| Publish.EventsTellDeliveries | internal/controller/controller.go:231-268 | Every audited command tells an acknowledged send by its value and its very time |
| Evcc.TopicsAreDistinct | internal/evcc/topics.go:36-57 | No two metrics share a topic, for any prefix and loadpoint |
| Evcc.RoutesToOwnMetric | internal/evcc/state.go:83-120 | A message on a metric's topic reaches exactly that metric |
| Evcc.Feed.LastIsFromHistory | internal/evcc/state.go:83-120 | The value a metric shows came over the wire |
| Evcc.MessageReflected | internal/evcc/state.go:83-144 | Overwriting one metric per well-formed message keeps every metric equal to its channel's last well-formed message; malformed and unknown messages change nothing |
| Evcc.ConnectionReflected | internal/evcc/state.go:74-78 | A connection change moves the link flag and no metric |
| Evcc.AbsorbedReflected | internal/evcc/state.go:74-144 | The snapshot stays in step with the whole history over any event |
| Evcc.Store.constructor | internal/evcc/state.go:63-65 | A new store has seen nothing |
| Evcc.Store.SetBrokerConnected | internal/evcc/state.go:74-78 | The history grows by the connection change and the snapshot follows |
| Text.TrimSpaceTrims | internal/evcc/state.go:123-144 | Trimming a payload drops exactly the spaces around what is left |
| Evcc.Store.ParseFloat | internal/evcc/state.go:123-130 | A float metric is overwritten exactly by a payload that parses after trimming |
| Evcc.Store.ParseBool | internal/evcc/state.go:134-144 | A boolean metric is overwritten exactly by "true" or "false" after trimming |
| Evcc.Store.Dispatch | internal/evcc/state.go:88-119 | The topic switch overwrites the routed metric only, and reports whether it did |
| Evcc.Store.Apply | internal/evcc/state.go:83-120 | The history grows by the message, the snapshot follows, and the result says whether the message was well-formed on a known topic |
| InputsMapping.RoundsToNearest | internal/controller/inputs.go:42-43 | Rounding is to the nearest integer, halves away from zero |
| InputsMapping.InputsAreLastMessages | internal/controller/inputs.go:22-58 | The engine sees of each metric the last well-formed message on its own channel, and is ready exactly when the four required ones have been heard |
| InputsMapping.OnlyActiveProfileMatters | internal/controller/state.go:167-174 | The profile in force is the operator's, else the configured one; its own stored threshold and target are in force, else the configured ones, and another profile's have no influence |
| InputsMapping.StaleExactlyWhenUnheard | internal/controller/inputs.go:22-58 | Data is fresh exactly when the broker is connected, evcc did not report itself offline, and the last well-formed grid and PV messages are within the timeout |
| InputsMapping.ChargingNeedsFreshData | internal/controller/inputs.go:22-58 | Any decision that charges, override included, was made on fresh data in that sense |
| InputsMapping.SilenceIsStale | internal/controller/inputs.go:22-58 | Once well-formed grid or PV messages stop at t, every later tick past the timeout sees stale data |
| InputsMapping.OperatorIsObeyed | internal/controller/inputs.go:22-58 | On fresh data a stored ForceOff in force decides off and idle, a ForceOn in force decides charging, any other override is never the reason; the mode charged with is the operator's, else the configured one; a bypass in force lifts the limit to the operator's figure held between cap and maximum; in force means no expiry or now before it |
| InputsMapping.ExpiredObliges | internal/controller/policy.go:106-110 | An override that is no longer in force binds no more than none |
| InputsMapping.RulesOnReadings | internal/controller/policy.go:117-240 | What a tick left to itself decides, said on the last messages heard and the settings stored: latched exactly at the target or above the resume level, charging goes on or stops by spare power, starting exactly on the profile's own trigger |
| FailSafeRuns.SnapshotReflectsHistory | internal/evcc/state.go:74-144 | In any interleaving of messages, connection changes and ticks the snapshot says what the whole history says |
| FailSafeRuns.NeverChargesBlind | internal/controller/policy.go:117-121 | No tick of any such history commands charging, override included, without connection, against an offline status, or on power readings older than the timeout |
| FailSafeRuns.SilenceStopsCharging | internal/controller/controller.go:151-239 | When well-formed grid or PV messages stop at t, every tick past t plus the timeout decides fail-safe off, and evcc was last told off or this very tick tried to tell it and was not acknowledged |
| FailSafeRuns.StaysOff | internal/controller/controller.go:222-239 | Once told off during the silence, evcc is told nothing else while it lasts |
| FailSafeRuns.EdgesAreAnswered | internal/controller/controller.go:192-268 | In any interleaving, a tick sends the mode exactly if since the tick before it the broker link came up or the last status became "online", or else nothing was delivered, another mode was, or it is a republish interval old; and the limit exactly if the link is up and the same holds of limits |
| Station.Station.constructor | internal/controller/controller.go:102-127 | A store that has seen nothing and a started controller that has not ticked begin the joint history |
| Station.Station.Receive | internal/evcc/state.go:83-120 | A message is one step of the joint history |
| Station.Station.SetBrokerConnected | internal/evcc/state.go:74-78 | So is a connection change |
| Station.Station.RunTick | internal/controller/controller.go:151-217 | So is a tick of the live controller on the live store, with the settings of the moment |
| Station.Station.SetOverride | internal/controller/controller.go:424-438 | An operator call changes nothing in it |
| Station.Station.ChargesOnFreshDataOnly | internal/controller/policy.go:117-121 | On the live objects: right after a tick the controller is in a charging state only on fresh data, override included |
| Station.Station.RemembersLastTold | internal/controller/controller.go:222-239 | On the live objects: the mode remembered is the mode evcc was last told |
| Station.Station.FailsSafeInSilence | internal/controller/controller.go:151-239 | On the live objects: once power messages have stopped, a tick past the timeout leaves the controller in fail-safe and evcc told off, or this tick's attempt was not acknowledged |
| Station.Station.StaysOffInSilence | internal/controller/controller.go:222-239 | On the live objects: once told off during the silence, off is what evcc was last told |
| Station.Station.EdgesAreTold | internal/controller/controller.go:192-268 | On the live objects: edges are read off the messages between two ticks, and either edge makes the tick try both sends (the limit while connected); with neither, a value delivered last and less than a republish interval ago is not sent |
| Sessions.LatestOpen | internal/store/sessions.go:95-112 | Returns the open row that started last, ties broken by id, and nothing exactly when no row is open |
| Sessions.SessionTable.StartSession | internal/store/sessions.go:27-41 | Appends one open row under a fresh id |
| Sessions.SessionTable.UpdateSessionMetrics | internal/store/sessions.go:49-67 | Changes the totals of that row only, and only while it is open |
| Sessions.SessionTable.EndSession | internal/store/sessions.go:71-91 | Closes that row with the given totals and leaves the others alone |
| Sessions.SessionTable.OpenSession | internal/store/sessions.go:95-112 | Finds the open row that started last |
| Metering.RowsArePlausible | internal/controller/controller.go:272-337 | In every row ever written energy, average and peak are those of the first so many of the session's own fresh charging ticks: never of others, whatever failed and wherever the process died, and of all of them as long as the running totals were always written; the average is at most the peak |
| Metering.TopIsLargest | internal/controller/controller.go:291-293 | The peak of some powers is one of them, or zero, and none is above it |
| Metering.RowsTellTheirEdges | internal/controller/controller.go:272-337 | A row's start time, reason and SoC are those of the tick that saw charging begin, its end those of the tick that saw it end, or of the restart that closed it |
| Metering.ClosedRowsFrozen | internal/controller/controller.go:272-337 | A closed row never changes again, under any faults, crashes and restarts |
| Metering.ClosedExactlyOnce | internal/controller/controller.go:272-337 | Whatever fails and wherever the process dies, a row was closed exactly once if it is closed and never if it is not |
| Metering.CalledAtMostOnce | internal/controller/controller.go:272-337 | With closes that work, closing a session is called for at most once, and exactly once if it is closed |
| Metering.AtMostOneOpen | internal/controller/controller.go:272-337 | With closes that work, opening and updating failing at will, at most one row is open and it is the live session's |
| Metering.OneOpenExactly | internal/controller/controller.go:272-337 | With failing closes, a step of any kind, torn restarts included, keeps at most one row open exactly unless it opens a session over an open row and no recovery follows |
| Metering.RunOneOpenExactly | internal/controller/controller.go:272-337 | Over a whole history at most one row is ever open exactly if no step opens a second one |
| Metering.FailedCloseLeavesTwoOpen | internal/controller/controller.go:307-320 | A history in which nothing fails but the close of the first session, and two rows end up open |
| Metering.EnergyConserved | internal/controller/controller.go:272-337 | With a fault-free recorder the energy over all rows is the sum of power times interval over the completed fresh charging ticks, over crashes and restarts; the open row always shows the live totals |
| Metering.EnergyIsPowerTimesInterval | internal/controller/controller.go:285-290 | With a fault-free recorder the energy over all rows is the sum of the powers of the completed fresh charging ticks times the interval |
| Metering.RecoveryMatchesClose | internal/controller/controller.go:323-337 | Closing after a crash records the same totals as a normal close and touches no other row |
| Settings.KeysDiffer | internal/controller/controller.go:48-57 | No two settings share a key text |
| Settings.TextReadsBack | internal/controller/controller.go:462-697 | The text written for any accepted value reads back as that value |
| Settings.WriteReadsBack | internal/store/settings.go:13-41 | After a write the written key reads back as written and every other key as before |
| Settings.SequentialSetKeepsRestartEquivalent | internal/controller/controller.go:462-697 | Table write then memory write keeps memory equal to what a restart would load, from any table |
| Settings.Accept | internal/controller/controller.go:566-660 | Only values the loaders would accept are ever stored |
| Settings.AcceptsExactly | internal/controller/controller.go:462-660 | The power modes pv and now and the three profile names, and under a latch profile, for that profile, positive whole hundreds of watts above the stop threshold and targets 50, 60, .., 100, are accepted for exactly the value named; nothing else is |
| Settings.LoadedDespiteFailures | internal/controller/controller.go:484-697 | A setting that cannot be read at startup keeps its default and every other is loaded as ever |
| Settings.EmptyTableLoadsDefaults | internal/controller/controller.go:102-117 | Over an empty table memory is the configured mode and profile with no per-profile values |
| Settings.System.RestartFindsLiveSettings | internal/controller/controller.go:462-697 | After any interleaving of calls, rejections, failed writes, crashes and startups with failing reads, in which calls for one key do not overlap from their write on, every setting no call is busy with is what a fresh controller would load, or its default if it could not be read and was not set since |
| Settings.System.OverlapBreaksEquivalence | internal/controller/controller.go:652-660 | Two calls for one key that both write before either updates memory leave memory and table agreeing exactly if memory is updated in the order of the writes or they set the same value |
| Settings.System.AgreesExactly | internal/controller/controller.go:462-697 | Over any interleaving, overlaps included, a setting no call is busy with agrees between memory and table exactly if the last value written since startup is the last value put in memory; if none was written, unless it could not be read at startup |
| Settings.CallsDoNotLeak | internal/controller/controller.go:566-660 | A call changes the setting it names and no other; thresholds and targets go to the active latch profile |
| Settings.SettingsTable.GetSetting | internal/store/settings.go:13-25 | Finds exactly the stored keys, and nothing when the read fails |
| Settings.SettingsTable.SetSetting | internal/store/settings.go:30-41 | Upserts one key |
| ControlLoop.Logged | internal/controller/controller.go:202-268 | One more audit event of each kind extends the log of that kind only |
| ControlLoop.Controller.TargetsInRange | internal/controller/controller.go:639-697 | The active profile's target in memory is unset or within 50..100 in every reachable state, overlapping calls included |
| ControlLoop.Controller.constructor | internal/controller/controller.go:102-117 | A new controller is idle with configured defaults and empty histories |
| ControlLoop.Controller.Start | internal/controller/controller.go:122-127 | Startup over a database with any past, torn or not, and with any of the stored settings unreadable, establishes the invariant; memory holds the readable accepted settings over the defaults |
| ControlLoop.Controller.RecoverDanglingSession | internal/controller/controller.go:323-337 | Closes the session the previous process left open with its own totals |
| ControlLoop.Controller.LoadSettings | internal/controller/controller.go:484-697 | Memory becomes the readable accepted settings over the configured defaults |
| ControlLoop.Controller.SetOverride | internal/controller/controller.go:424-438 | Stores the override, normalised, and records the operation |
| ControlLoop.Controller.CheckChargePower | internal/controller/controller.go:462-465 | Accepts exactly the two power modes, as the first part of a call in flight |
| ControlLoop.Controller.CheckAutoProfile | internal/controller/controller.go:507-513 | Accepts exactly the three profiles |
| ControlLoop.Controller.CheckStartThreshold | internal/controller/controller.go:566-581 | Accepts exactly valid thresholds while a latch profile is active, for that profile |
| ControlLoop.Controller.CheckTargetSoC | internal/controller/controller.go:639-651 | Accepts exactly valid targets while a latch profile is active, for that profile |
| ControlLoop.Controller.PersistSetting | internal/controller/controller.go:652-654 | Second part: writes the table under the call's key, or ends the call and changes nothing |
| ControlLoop.Controller.CommitSetting | internal/controller/controller.go:655-660 | Third part: puts the value in memory; other calls and ticks may have run since |
| ControlLoop.Controller.SetChargePower | internal/controller/controller.go:462-482 | Undisturbed, the three parts change table and memory together, or neither; success is exactly an accepted value and a working table |
| ControlLoop.Controller.SetAutoProfile | internal/controller/controller.go:507-528 | The same for the active profile |
| ControlLoop.Controller.SetStartThreshold | internal/controller/controller.go:566-599 | The same for the active latch profile's start threshold |
| ControlLoop.Controller.SetTargetSoC | internal/controller/controller.go:639-669 | The same for the active latch profile's target |
| ControlLoop.Controller.FramesAreSafe | internal/controller/controller.go:152-169 | Every frame computed in a reachable state charges only on fresh data, requests a limit in range, and starts no automatic charge at that limit |
| ControlLoop.Controller.FollowsLastSet | internal/controller/controller.go:152-169 | Whatever is stored by now, a tick follows the last override the operator set, in the sense of InputsMapping.OperatorIsObeyed |
| ControlLoop.Controller.BeginTick | internal/controller/controller.go:152-169 | The first critical section and the decision: the frame charges only on fresh data, asks for a limit in range, and follows the last override the operator set |
| ControlLoop.Controller.CommitTick | internal/controller/controller.go:171-190 | The second critical section appends the tick to the run and the write-back to the override operations |
| ControlLoop.Controller.ExpireOverride | internal/controller/controller.go:174-184 | The compare-and-clear is the protocol's write-back and leaves the settings alone |
| ControlLoop.Controller.FinishTick | internal/controller/controller.go:193-217 | Each tick hands exactly its mode and its limit to the publishers, forced exactly on a reconnect or online edge, is metered once, and is recorded once with what it saw and decided |
| ControlLoop.Controller.PublishMode | internal/controller/controller.go:222-239 | Memory and audit log stay where the history of sends ends |
| ControlLoop.Controller.PublishLimitSoC | internal/controller/controller.go:247-268 | The same for the limit, only while connected |
| ControlLoop.Controller.TrackSession | internal/controller/controller.go:272-305 | Totals and table stay where the metering history ends |
| ControlLoop.Controller.CloseSession | internal/controller/controller.go:307-320 | Writes the live totals to the live row and forgets the session, also when the write fails |
| ControlLoop.Controller.RecordSample | internal/controller/controller.go:406-417 | The sample recorded is that of the tick just decided; there is one per completed tick |
| ControlLoop.Controller.Tick | internal/controller/controller.go:151-217 | An undisturbed tick extends every history by the engine's decision on the current snapshot and settings, is safe, and follows the last override the operator set |
| ControlLoop.Controller.TickIsPipelineStep | internal/controller/controller.go:151-217 | What an undisturbed tick does to controller and store is one tick of the pipeline, its forced sends being the edges read off the messages |
| ControlLoop.Controller.CommandLogReplays | internal/controller/controller.go:231-268 | On the live object: audited commands are the acknowledged ones with repeats removed |
| ControlLoop.Controller.StateLogReplays | internal/controller/controller.go:202-211 | On the live object: audited state changes lead gaplessly from idle to the current state |
| ControlLoop.Controller.EventsTellTicks | internal/controller/controller.go:202-268 | On the live object: every entry of the audit log tells, with its time, the acknowledged command or the state change of one tick |
| ControlLoop.Controller.DecisionDeliveredOrFailing | internal/controller/controller.go:222-239 | On the live object: after each tick evcc was last told that tick's decision, or an attempt failed in that tick |
| ControlLoop.Controller.LimitDeliveredOrFailing | internal/controller/controller.go:247-268 | On the live object: after each connected tick evcc was last told the limit that tick's inputs ask for, or an attempt failed in that tick |
| ControlLoop.Controller.ModeReasserted | internal/controller/controller.go:222-239 | On the live object: whatever evcc forgets at t, it is told the mode decided in some tick within a republish interval and a gap after t |
| ControlLoop.Controller.LimitReasserted | internal/controller/controller.go:247-268 | The same for the limit |
| ControlLoop.Controller.RestartFindsSettings | internal/controller/controller.go:462-697 | On the live object: a restart would load exactly the settings in memory, if no calls for one key overlapped, none is in mid-flight and everything was read at startup or set since |
| ControlLoop.Controller.OverrideIsLastSet | internal/controller/controller.go:152-190 | On the live object: the override is the last one set unless that very one ran out |
| ControlLoop.Controller.OpenRowMirrorsTotals | internal/controller/controller.go:272-337 | On the live object: the open row shows the live totals; the table's energy in watt-hours times the nanoseconds of an hour is the sum of the powers of the fresh charging ticks times the decision interval |
| ControlLoop.Controller.RowsInWattHours | internal/controller/controller.go:272-337 | On the live object: any row's energy, in watt-hours, average and peak are those of the first so many of its own ticks, of all of them if the totals were always written |
| ControlLoop.Controller.RowTellsItsEdges | internal/controller/controller.go:272-337 | On the live object: a row is stamped with time, reason and SoC of the ticks that saw charging begin and end |
| ControlLoop.Controller.ReasonsTell | internal/controller/controller.go:372-390 | An override in force is the reason to start; a reached target, then stale data, then an override in force, then low surplus the reason to stop |
| ControlLoop.Controller.SamplesTell | internal/controller/controller.go:406-417 | On the live object: each recorded sample shows what its own tick saw and decided, the surplus written out |
| Decimal.ItoaReadsBack | internal/controller/controller.go:639-697 | Shortest decimal text reads back |
| Decimal.DigitsSortByValue | internal/store/db.go:24-33 | Equally long digit strings sort by value |
| Decimal.FieldDecides | internal/store/db.go:24-33 | Fixed-width numbers sort numerically, what follows breaking ties |
| Timestamps.EarlierIsBefore | internal/store/db.go:24-33 | Instants over the Gregorian calendar order exactly as the fields do, and determine them |
| Timestamps.DaysAreGregorian | internal/store/db.go:24-33 | Day numbers agree with the closed form of the Gregorian calendar that counts years from the first of March |
| Timestamps.FormatShape | internal/store/db.go:24-33 | A stored text has thirty characters with the separators in their places |
| Timestamps.TextOrderIsTimeOrder | internal/store/db.go:24-33 | Timestamp texts of the years 0 to 9999 sort exactly chronologically under byte order |
| Timestamps.ParseInvertsFormat | internal/store/db.go:35-43 | Parsing inverts formatting, also after trailing zeros of the fraction were dropped |
| Timeline.WindowInOrder | internal/store/samples.go:49-89 | Reference definition of a range query: exactly the items in range, in time order |
| Samples.QueryIsChronologicalRange | internal/store/samples.go:49-89 | The query over texts returns exactly the rows stamped within the bounds, oldest first, ties in insertion order: all of them, or the first 50000 |
| Samples.PruneKeepsQueries | internal/store/samples.go:91-104 | Pruning never changes a query that starts at or after the cutoff |
| Samples.PrunedByTime | internal/store/samples.go:91-104 | Pruning keeps exactly the rows stamped at or after the cutoff |
| Samples.SampleTable.InsertSample | internal/store/samples.go:31-44 | Appends one row under a fresh id |
| Samples.SampleTable.Samples | internal/store/samples.go:49-89 | Returns the queried rows in order with the times they were inserted with |
| Samples.SampleTable.PruneSamples | internal/store/samples.go:91-104 | Exactly the rows stamped before the cutoff go, the others stay as they are, and the count is returned |
| Semver.SemverShape | internal/updater/updater.go:45-48 | A tag is valid exactly if it is three non-empty digit strings joined by two dots |
| Semver.CompareSemver | internal/updater/updater.go:386-399 | The loop computes the order of the three components, each clamped to an int |
| Semver.OrderIsPrecedence | internal/updater/updater.go:386-399 | That order is a total preorder and the precedence of section 11 of Semantic Versioning 2.0.0 whenever components fit an int |
| Semver.RenderReadsBack | internal/updater/updater.go:45-48 | Every version has a valid tag that reads back as it |
| Semver.PrecedenceExactlyBelowMax | internal/updater/updater.go:386-399 | A tag is ordered by precedence against every valid tag exactly if all its components are strictly below the largest int |
| Semver.HugeComponentsTie | internal/updater/updater.go:386-399 | Two tags beyond an int that tie although one is newer |
| Semver.NewerIsStrictOrder | internal/updater/updater.go:377-382 | The update offer is a strict order on all strings |
| Semver.NewerExactly | internal/updater/updater.go:377-399 | An update is offered exactly if at the first component in which the versions differ the other's is greater, components read as at most the largest int; never to or from anything that is not X.Y.Z |
| Semver.NewestIsOffered | internal/updater/updater.go:361-382 | The newest of some tags is offered to a running version exactly if one of these tags is |
| Semver.LatestSemver | internal/updater/updater.go:244-254 | When the listing ends within 100 pages the result is a valid tag that no valid tag on any page beats, and it is offered to any running version exactly if some listed tag is |
| Tags.MaxTag | internal/updater/updater.go:361-373 | The highest valid tag of a list, empty exactly when it has none |
| Tags.FetchTags | internal/updater/updater.go:290-302 | Collects the tags of at most 100 pages, or fails |
| Tags.ListingFailsExactly | internal/updater/updater.go:290-302 | The listing fails exactly if one of the pages reached within the limit does |
| Tags.PagesAreListing | internal/updater/updater.go:290-302 | Within the limit the tags collected are exactly those on some page of the chain |
| Links.NextLink | internal/updater/updater.go:332-358 | The loop returns the resolved target of the first piece that is a next link |
| Links.NextParamExactly | internal/updater/updater.go:342-347 | A rel parameter, quoted or not and with blanks around, asks for the next page exactly if its word is next |
| Links.RelativeTargetJoinsOnce | internal/updater/updater.go:351-355 | A relative target is joined to the registry's address by exactly one slash |
| Links.AbsoluteTargetStands | internal/updater/updater.go:351-355 | An absolute target stands, whatever the registry's address |
| Links.HeaderReadsBack | internal/updater/updater.go:332-358 | From any header rendered from links without separators inside, exactly the first next link is found |
| Links.LinkReadsExactly | internal/updater/updater.go:332-358 | In the text of a link, whatever separators its target and parameters hold, its target is found exactly if that has neither comma nor semicolon and a rel=next parameter stands before the first comma of the parameters; otherwise nothing is |
| Links.HeaderFinds | internal/updater/updater.go:332-358 | Links do not interfere: what is found in any header is what is found in the first of its links that has anything |
| Links.HeaderReadsExactly | internal/updater/updater.go:332-358 | Pagination goes on exactly to the first readable link of the header, and stops exactly if there is none |
| Links.CommaInParameterIsMissed | internal/updater/updater.go:332-358 | A next link with a clean target is missed when an earlier parameter holds a comma |
| Links.TargetFoundExactly | internal/updater/updater.go:332-358 | Among links without separators in their parameters, the first next link is found exactly if its target, whatever it is, has neither comma nor semicolon |
| Links.SeparatorEndsPaging | internal/updater/updater.go:332-358 | A single next link whose target, free of angle brackets, contains a separator yields no next page at all |
| Requests.RequestReadsBack | scripts/updater/run.sh:28-30 | The pattern that extracts the version reads back exactly the version the program encoded |
| Requests.TwoLinesExtract | scripts/updater/run.sh:28-30 | A request file of two lines that both name a version gives two lines |
| Requests.AcceptsMoreExactly | scripts/updater/run.sh:32-34 | Of the versions the sidecar takes, those that are not X.Y.Z are exactly those that span lines |
| Requests.SecondLineIsTaken | scripts/updater/run.sh:32-34 | Any valid version followed by a line of anything is taken |
| Handshake.AppliedAtMostOnceInOrder | scripts/updater/run.sh:123-136 | In every interleaving of arbitrary requests with crashes anywhere, the applied versions are an in-order subsequence of the requested ones, each X.Y.Z exactly if it is one line |
| Handshake.OneLineAppliesSemver | scripts/updater/run.sh:123-136 | When every request is one line, every version applied is X.Y.Z |
| Handshake.SecondLineIsApplied | scripts/updater/run.sh:123-136 | A request of two lines whose first is a version is applied as it stands |
| Handshake.DoneMeansPinned | scripts/updater/run.sh:65-89 | With one-line requests and no announcement lost, "done v" is never contradicted by the compose file, and over a file with a reference it is borne out at every moment |
| Handshake.LostAnnouncementLeavesStaleDone | scripts/updater/run.sh:65-89 | Two updates of which the second loses its announcement lead from any compose file with a reference to "done a" beside a file that names b |
| Handshake.NothingPinnedYetDone | scripts/updater/run.sh:73-89 | Over a file in which no reference is found, a complete update with every write landing reports done although the file is unchanged and names no version |
| Handshake.StepTruthfulExactly | scripts/updater/run.sh:65-136 | Announcements lost or not, a step of any kind keeps "done v" uncontradicted exactly unless it rewrites the file under an old done of another version |
| Handshake.RunTruthfulExactly | scripts/updater/run.sh:65-136 | "Done v" is uncontradicted throughout a run exactly if no step of it is of that kind |
| Handshake.RunNamesExactly | scripts/updater/run.sh:65-136 | "Done v" means throughout a run that the file names v exactly if no step is of that kind and either the file had a reference to begin with or nothing is ever reported done |
| Handshake.OtherServicesUntouched | scripts/updater/run.sh:71-76 | Updates by one-line requests change nothing in the text of the compose file but, on each line, what stands in the tag's place of the first reference |
| Compose.FindsLeftmost | scripts/updater/run.sh:73 | The search finds text of the pattern's form whenever there is any, and the leftmost |
| Compose.PinKeepsPlace | scripts/updater/run.sh:73 | After a line was pinned its reference is found in the same place with the new tag |
| Compose.OnlyTagChangesExactly | scripts/updater/run.sh:71-73 | Only the tag changes exactly if nothing but a tag stands before the next blank or quote |
| Compose.FlowMappingLosesItsBrace | scripts/updater/run.sh:73 | A reference at the end of a flow mapping loses the closing brace |
| Compose.QuotedReferenceIsOverlooked | scripts/updater/run.sh:73 | A quoted reference is not found |
| Compose.NameIsExactly | scripts/updater/run.sh:71-73 | Text taken for the image's name is that name exactly if it has a dot wherever the name has one |
| Compose.File.PinPins | scripts/updater/run.sh:73 | Pinning a file makes every reference found name the version and changes no other text |
| Handshake.Host.Trigger | internal/updater/updater.go:179-239 | Places the encoded request exactly when enabled, well-formed, not the running version and the files can be written; otherwise nothing changes and the refusal names the first failing check |
| Handshake.Host.PlaceFile | scripts/updater/run.sh:123-125 | Any other file put in place is a request for what is extracted from it |
| Handshake.Host.ReadRequest | scripts/updater/run.sh:124-125 | Extracts the version, of whatever number of lines, and leaves the file; requests may be placed between any two of these steps |
| Handshake.Host.RemoveRequest | scripts/updater/run.sh:127 | Consumes whatever request is there by now |
| Handshake.Host.Announce | scripts/updater/run.sh:128-132 | Writes the announcement of a version the line-wise check takes, the rejection of any other |
| Handshake.Host.RewriteCompose | scripts/updater/run.sh:73-76 | Pins the announced version on the text of the file, where a reference is found, or leaves the file |
| Handshake.Host.WriteStatus | scripts/updater/run.sh:44-50 | Replaces the status in full, leaves it garbled, or fails |
| Handshake.Host.ApplyUpdate | scripts/updater/run.sh:65-89 | Undisturbed: the file is rewritten exactly if rewriting works; the closing status, if written, is done exactly if rewriting, pulling and recreating all do |
| Handshake.Host.Poll | scripts/updater/run.sh:123-136 | One undisturbed pass consumes the request whatever it says and applies it exactly if some line of the version extracted is X.Y.Z |

## Left out

- Policy.DecideStep: powers are reals; floating-point rounding, NaN and infinities are not modelled.
- Metering.EnergyConserved: energy is a real sum, without floating-point rounding.
- Settings.TextReadsBack: accepted thresholds are whole numbers of watts, printed and read in full; how the library reads any other spelling found in the table is a parameter, and every law holds for any.
- Handshake.Host.RewriteCompose: what a substitution script does when the version spliced into it spans lines is left open, so laws about the compose file are about requests of one line.
- Compose.FindsLeftmost: the image's name has no character that is special in a regular expression other than dots, and does not start with one.
- Evcc.Store.ParseFloat: the library's decimal parser is a parameter, and every law holds for any such parser.
- Tags.MaxTag: the library sort is a parameter with the contract that it permutes its input into descending order.
- Semver.LatestSemver: HTTP, the pull token and JSON decoding are not modelled; a page is a given list of tags and a next address, and a registry answers the same address the same way throughout one fetch.
- Timestamps.ParseInvertsFormat: years outside 0 to 9999 and offsets other than UTC are not modelled.
- Samples.QueryIsChronologicalRange: the SQL engine is replaced by a filter, a stable order by time and id, and the row limit.
- Sessions.SessionTable.StartSession: a failing insert is assumed to insert nothing.
- Metering.AtMostOneOpen: a failed lookup of the open row at startup is modelled as a failed close.
- ControlLoop.Controller.SetTargetSoC: like the other three setters, states the undisturbed call; its three parts are methods of their own, and what interleaving does to them is Settings.System.
- ControlLoop.Controller.CommandLogReplays: the log is what the loop handed to the recorder; a failing insert of an event, and the audit events of the operator's own calls, are not modelled.
- Publish.ReassertedInTime: an acknowledged publish counts as delivered; the MQTT client, its timeouts and subscriptions are not modelled.
- Handshake.Host.Poll: states an undisturbed pass; Docker commands succeed or fail.
- Handshake.Host.ApplyUpdate: states an undisturbed update; its steps are methods of their own, between which requests are placed and the sidecar dies in the protocol lemmas.
- Fresh reads of the status file, release notes, update-check caching and the update status view: only easy members.
- A failing insert of a sample, and the retention janitor's timer and event pruning: no state of the loop depends on them.
- The web layer, configuration loading, logging, wiring, translations and installer scripts: presentation and glue.
