# Haptics router: what its four cores keep

A daemon turns a game's force-feedback calls into commands for toys. A kernel
probe captures the effects a game uploads, a router pairs them with the plays and
stops that arrive over an unsynchronised second channel, an effect compiler turns
an effect into timed intensities, and playback tasks send those to the toys. This
project models the four and the way they are joined, and proves what each step
keeps and what holds over every run.

| file | what it is about |
|---|---|
| `Effects.dfy`, `Lines.dfy`, `Counting.dfy` | the captured effect and its machine words; proportions and remainders; sizes of sets |
| `Translation.dfy` | effect to timed points: envelopes, waveforms, ramps |
| `Interpolation.dfy` | timed points to a dense keyframe schedule |
| `Throttling.dfy` | the monotone clock and the cross-device throttle |
| `RouterModel.dfy`, `Router.dfy` | the router as a transition system, and the object that performs it in place |
| `RouterHistory.dfy` | the router's state, outputs and counts read off its events |
| `RouterRace.dfy` | a play that overtakes its upload |
| `RouterRate.dfy` | the throttle over whole runs |
| `PlaybackHistory.dfy` | the tasks, slots, stops and commands of playback read off its steps |
| `PlaybackModel.dfy`, `Playback.dfy` | playback as interleaved atomic steps, and the object that performs them in place |
| `PlaybackSafety.dfy` | commands, silence after a stop, and rest over every interleaving |
| `PlaybackRest.dfy` | that rest is reached |
| `ProbeModel.dfy`, `Probe.dfy` | the probe's enter/exit capture under thread interleaving, eviction and failed reads |
| `Daemon.dfy` | the parts joined, from the bytes uploaded to the command sent |

## How to read it

* A class (`Router.App`, `Playback.PlaybackInner`, `Probe.Tracepoints`,
  `Throttling.Throttle`) has the source's fields and updates them in place. Each of
  its methods is proved to perform a step of the model on `Snapshot()`, the value of
  its fields; the theorems are about runs of the model.
* Whatever the program does not decide is an argument of the step and quantified
  over: the order in which a hash table yields its entries, clock readings, which
  task runs next, which reads fail, which entries are evicted, which events the
  channel drops.
* Intensities are exact reals and the sine routine is an arbitrary function, so no
  statement depends on how the platform computes a sine. Captured words keep their
  16-bit width: `Wrap16` and `Abs16` are the arithmetic of a release build.

## What turned out not to hold as one might expect

* An effect level of -32768 is silenced, because its absolute value does not fit 16
  bits; every other level reaches the points exactly (`ConstantLevelExact`).
* A ramp ends on its end level exactly when the difference of its levels fits 16
  bits or the end level saturates anyway (`RampEndsAtEndLevel`), and stays within its
  end levels exactly when that holds of either level (`RampBoundedExactly`).
* An envelope rises through its attack and falls through its fade exactly when its
  levels are at most 32767 (`UnimodalIffLegal`); what that means for the points of a
  whole effect is `RisesThroughAttackIff` and `FallsAfterAttackIff`.
* The interpolation loop can leave the range of its 32-bit time, and then goes on from
  the wrapped time until it happens on the end of the span; it builds the schedule
  exactly when it does not (`KeyframesExact`), as for every effect
  (`TranslationKeyframes`).
* The scan for an effect by id depends on table order if an upload's embedded id may
  differ from its event id (`LookupAmbiguousWithoutPromise`); with the probe's
  pairing it does not (`LookupOrderIndependent`, `FedRunsWellFormed`). In general it does
  not exactly when no two uploads still stored carry the id (`LookupDecidedIff`).
* When several devices wait for one upload, an overtaken play is equivalent to one in
  order exactly when its device is resolved last (`TransparentIffResolvedLast`), so the
  race can never show exactly when no other device waits (`RaceTransparentIffAlone`).
* A task can run to its end before its handle is put in the table. Inserting it then
  aborts a live task, and toys can be left on (`LateInsertionHappens`). At rest a toy
  is on exactly if such an insertion stranded it and nothing reached it since
  (`RestSafe`, `DaemonRests`).
* A stop silences a device exactly when none of its live tasks is still waiting to be
  put in the table (`StopSilences`).
* The exit of an ioctl that was never captured can report an upload, if an earlier
  exit of the same thread failed (`StaleCaptureReported`); exactly when it does is
  `UnrelatedExitReportsIff`, and never if none failed (`UnrelatedExitSilent`). The handler does not look at the ioctl's return value.
* A comment in the source says taking all matching pending plays is for erases only;
  uploads use it as well, and the model follows the code.

## Model

| member | source | states |
|---|---|---|
| Effects.Wrap16Exact | linux-game-haptics-router/src/translate.rs:112-112 | reading a word as signed gives the one signed word congruent to it modulo 2^16 |
| Effects.Abs16Exact | linux-game-haptics-router/src/translate.rs:63-63 | the absolute value keeps every word's size, and is negative for -32768 alone |
| Translation.StepByElements | linux-game-haptics-router/src/translate.rs:183-184 | a stepped range has one element per started 25 ms, the k-th at 25k ms past its start and below its end |
| Translation.TranslationShape | linux-game-haptics-router/src/translate.rs:14-22 | every known effect, whatever its words, gives points that start at 0, never go back in time, stay in [0,1] and end with 0 at the replay length; sampled effects leave no gap over 25 ms |
| Translation.TranslationCount | linux-game-haptics-router/src/translate.rs:88-195 | exact number of points for each kind |
| Translation.EmptyExactlyWhenUnknown | linux-game-haptics-router/src/translate.rs:14-22 | no points if and only if the kind is none of the four, whatever the length |
| Translation.RumbleStrength | linux-game-haptics-router/src/translate.rs:24-26 | a rumble starts at the mean of its motors' shares of full strength; clamping never bites |
| Translation.ConstantPointAt | linux-game-haptics-router/src/translate.rs:111-122 | point i of a constant effect is its level under its envelope at 25i ms |
| Translation.ConstantLines | linux-game-haptics-router/src/translate.rs:31-49 | every sample of an effect of kind 0x52, for every word: over the attack a straight line from the attack level (in 32767ths) to full, over the fade one from full to the fade level, and the level itself between them, each times the level and clamped |
| Translation.ConstantLevelExact | linux-game-haptics-router/src/translate.rs:112-120 | the level is reproduced if and only if it is not -32768, which is silenced |
| Translation.ConstantProfile | linux-game-haptics-router/src/translate.rs:114-119 | which of the captured words is the attack length, attack level, fade length and fade level, by their effect on the envelope |
| Translation.ConstantPlateau | linux-game-haptics-router/src/translate.rs:31-49 | points between attack and fade carry the level unchanged; with an attack the first carries the attack's share of it |
| Translation.EnvelopeScaleBounded | linux-game-haptics-router/src/translate.rs:31-48 | for legal levels the envelope factor is in [0,1] before any clamping |
| Translation.EnvelopeScaleUnimodal | linux-game-haptics-router/src/translate.rs:31-48 | for legal levels the factor never falls during the attack and never rises after it, even if attack and fade overlap or outlast the effect |
| Translation.UnimodalIffLegal | linux-game-haptics-router/src/translate.rs:31-48 | at any two times of the attack the factor rises if and only if the attack level is at most 32767; at any two of the fade it falls if and only if the fade level is |
| Translation.ConstantUnimodal | linux-game-haptics-router/src/translate.rs:111-122 | for every word of a constant effect: two points of the attack rise if and only if the attack level is at most 32767, nothing is heard, or the enveloped level at the later one is at least full; two past the attack fall if and only if the fade level is at most 32767, the fade has not begun, nothing is heard, or the enveloped level at the earlier one is at least full; none is below the final zero |
| Translation.RisesThroughAttackIff | linux-game-haptics-router/src/translate.rs:111-122 | the whole attack rises if and only if its level is at most 32767, nothing is heard, it holds fewer than two samples, or its last sample saturates |
| Translation.FallsAfterAttackIff | linux-game-haptics-router/src/translate.rs:111-122 | everything from the end of the attack falls if and only if the fade level is at most 32767, there is no fade or no sample in it, nothing is heard, fewer than two samples follow, or the first of them saturates |
| Translation.PeriodicSwells | linux-game-haptics-router/src/translate.rs:154-170 | whatever the wave, a periodic effect is bounded by a straight rise from 0 over its attack and a straight fall over its fade |
| Translation.PeriodicRepeats | linux-game-haptics-router/src/translate.rs:51-86 | without an envelope, points P/gcd(P,25) samples apart have equal intensity for every waveform, magnitude and offset |
| Translation.SamplesPerCycleIsWhole | linux-game-haptics-router/src/translate.rs:62-62 | P/gcd(P,25) samples are a whole number of periods |
| Translation.SawProfile | linux-game-haptics-router/src/translate.rs:81-82 | the rising saw of `SawEffect` never falls within a period and the falling one never rises, and unshifted they mirror each other; magnitude -32768 turns them around |
| Translation.TriangleProfile | linux-game-haptics-router/src/translate.rs:74-80 | a triangle reads the same backwards and rises over its first half; with magnitude -32768 it falls there |
| Translation.SquareProfile | linux-game-haptics-router/src/translate.rs:67-73 | a square has one value in the first half of its period and one in the second |
| Translation.SquareEffect | linux-game-haptics-router-common/src/lib.rs:21-32 | code 0x58: every unfaded point is the square of its place in the period, scaled by the magnitude and shifted by the offset |
| Translation.TriangleEffect | linux-game-haptics-router-common/src/lib.rs:21-32 | code 0x59: likewise a triangle, from -1 to 1 over the first half of the period and back |
| Translation.SineEffect | linux-game-haptics-router-common/src/lib.rs:21-32 | code 0x5a: likewise the sine routine over one turn of the period |
| Translation.SawEffect | linux-game-haptics-router-common/src/lib.rs:21-32 | codes 0x5b and 0x5c: likewise a saw that rises over the period, and one that falls |
| Translation.CustomEffect | linux-game-haptics-router-common/src/lib.rs:21-32 | code 0x5d: every unfaded point is at the offset alone |
| Translation.UnrecognisedPlaysAsSine | linux-game-haptics-router/src/translate.rs:167-167 | any other code gives, point for point, what 0x5a gives |
| Translation.NoPeriodSilent | linux-game-haptics-router/src/translate.rs:59-61 | with a period of 0 every point is silent, whatever the other words |
| Translation.PeriodicLines | linux-game-haptics-router/src/translate.rs:154-170 | attack and fade multiply the points of the same effect without them by straight lines, from silence to full and from full to silence |
| Translation.RampShape | linux-game-haptics-router/src/translate.rs:124-152 | a ramp's points are well-shaped and dense, two more than its started 25 ms steps |
| Translation.RampBounded | linux-game-haptics-router/src/translate.rs:124-152 | if the level difference fits 16 bits no sample exceeds the stronger end level |
| Translation.RampBoundedExactly | linux-game-haptics-router/src/translate.rs:124-152 | a ramp of some length stays within its end levels if and only if their difference fits 16 bits or one of them is full strength |
| Translation.RampLine | linux-game-haptics-router/src/translate.rs:124-146 | every sample of an effect of kind 0x57, for every pair of words: its time, and a straight line from the start level by the 16-bit difference of the levels |
| Translation.RampEndsAtEndLevel | linux-game-haptics-router/src/translate.rs:140-151 | the last sample, at the replay length, is the end level if and only if the difference fits or the end level saturates |
| Translation.RampMonotone | linux-game-haptics-router/src/translate.rs:135-146 | with both levels on one side of zero the samples go one way, towards the louder end, with no bound on the difference |
| Interpolation.InterpolatePoints | linux-game-haptics-router/src/playback.rs:153-172 | for every list of 32-bit times the loop ends, even where its counter wraps around, having built exactly the keyframes |
| Interpolation.StepCountsDown | linux-game-haptics-router/src/playback.rs:160-164 | why it ends: stepping by 25 modulo 2^32 comes one step nearer to the end of the span each time |
| Interpolation.KeyframesExact | linux-game-haptics-router/src/playback.rs:153-172 | the keyframes are the piecewise-linear schedule if and only if the counter keeps within 32 bits on every span |
| Interpolation.TranslationKeyframes | linux-game-haptics-router/src/playback.rs:153-172 | on the points of every effect they are |
| Interpolation.BoundariesKept | linux-game-haptics-router/src/playback.rs:168-168 | every input point is in the schedule, in order |
| Interpolation.SegmentOf | linux-game-haptics-router/src/playback.rs:156-170 | every keyframe belongs to a segment between two consecutive input points |
| Interpolation.ScheduleFollowsTheLine | linux-game-haptics-router/src/playback.rs:161-165 | every keyframe of a segment lies on the straight line between its two boundaries, and so between their intensities |
| Interpolation.ScheduleGaps | linux-game-haptics-router/src/playback.rs:160-165 | no two keyframes are more than 25 ms apart, for any points; for time-sorted points the times never fall |
| Interpolation.ScheduleLength | linux-game-haptics-router/src/playback.rs:156-171 | one keyframe per point plus ceil(span/25)-1 per positive span |
| Interpolation.DenseUnchanged | linux-game-haptics-router/src/playback.rs:158-169 | points already at most 25 ms apart are returned as they are |
| Interpolation.InterpolationIdempotent | linux-game-haptics-router/src/playback.rs:153-172 | interpolating twice is interpolating once, for every list of points, sorted or not |
| Interpolation.CounterFitsAgain | linux-game-haptics-router/src/playback.rs:160-164 | a schedule the 32-bit counter could build can be interpolated again |
| Interpolation.TranslationFitsCounter | linux-game-haptics-router/src/playback.rs:160-164 | the counter never overflows on the points of any effect |
| Interpolation.SampledEffectsUnchanged | linux-game-haptics-router/src/playback.rs:153-172 | interpolation is the identity on every constant, periodic and ramp effect |
| Interpolation.RumbleDescends | linux-game-haptics-router/src/playback.rs:153-172 | a rumble of length L becomes ceil(L/25)+1 keyframes descending in proportion to time down to 0 |
| Throttling.Throttle.ShouldEmitHaptic | linux-game-haptics-router/src/throttle.rs:14-19 | asks the throttle of the model, for which `RouterRate.OutcomesExact` says what it lets through |
| Throttling.Throttle.RecordHapticEmitted | linux-game-haptics-router/src/throttle.rs:21-23 | remembers the time of the call |
| Router.App.HandleEffectUploaded | linux-game-haptics-router/src/app.rs:77-102 | performs an Upload: replaces the effect, then resolves each device waiting on it once, in some order |
| Router.App.HandleEffectErased | linux-game-haptics-router/src/app.rs:104-122 | performs an Erase: effect gone, nobody waits for it, nothing is asked of playback |
| Router.App.HandleStop | linux-game-haptics-router/src/app.rs:126-139 | performs a Stop, of which `RouterHistory.StopsAreTold` says what playback is told |
| Router.App.HandlePlay | linux-game-haptics-router/src/app.rs:140-168 | performs a Play, for some entry the scan could find and some clock reading: processed if found, otherwise held |
| Router.App.ProcessPlay | linux-game-haptics-router/src/app.rs:174-190 | one outcome per call; the throttle is told only of what was scheduled |
| Router.App.FindEffect | linux-game-haptics-router/src/app.rs:142-146 | finds an entry that carries the id if there is one, whatever order the table yields |
| Router.App.UpsertEffect | linux-game-haptics-router/src/app.rs:250-258 | the id is left with one entry, the new one |
| Router.App.TakePendingForDevice | linux-game-haptics-router/src/app.rs:279-284 | returns and removes what the device waited for |
| Router.App.TakeAllPendingMatchingEffect | linux-game-haptics-router/src/app.rs:291-307 | returns every device waiting on the effect, each once, and removes exactly those |
| RouterModel.StepConsistent | linux-game-haptics-router/src/app.rs:241-307 | every event with a well-formed upload keeps: entries are stored under their own id, an id has one entry, nothing waits for a stored effect |
| RouterModel.ReachableConsistent | linux-game-haptics-router/src/app.rs:77-168 | that invariant in every reachable state |
| RouterModel.LookupOrderIndependent | linux-game-haptics-router/src/app.rs:142-146 | in a consistent state any two scans find the same entry, and find one if and only if the id is stored |
| RouterModel.LookupAmbiguousWithoutPromise | linux-game-haptics-router/src/app.rs:142-146 | a run of two uploads with a wrong embedded id after which the scan has two possible results |
| RouterHistory.LookupDecidedIff | linux-game-haptics-router/src/app.rs:142-146 | after every run, well-formed or not, the scan for an id has one result in every table order if and only if no two uploads still stored carry that id |
| RouterModel.ResolveAllFrame | linux-game-haptics-router/src/app.rs:90-101 | resolving a batch puts out one outcome per device, in the batch's order, each answering its device with the uploaded effect, and leaves store and pending plays alone |
| RouterHistory.StateReadsOffRun | linux-game-haptics-router/src/app.rs:77-168 | after every run the store holds exactly the last upload of each id with no later stop or erase of it, and a device waits exactly for its last gesture if that was a play that missed and nothing released it since |
| RouterHistory.EveryPlayHasAFate | linux-game-haptics-router/src/app.rs:90-167 | every play is processed, cleared by a stop, cleared by an erase, superseded, or held |
| RouterHistory.FateUnique | linux-game-haptics-router/src/app.rs:90-167 | each play meets one fate at one event, so none is processed twice |
| RouterHistory.FateStable | linux-game-haptics-router/src/app.rs:90-167 | later events do not change a fate that was met |
| RouterHistory.OutcomesAreOwed | linux-game-haptics-router/src/app.rs:90-101 | every outcome answers a play due at that event with the translation of the effect last uploaded under its id, no device gets two, and every due play is answered |
| RouterHistory.StopsAreTold | linux-game-haptics-router/src/app.rs:126-139 | a stop always tells playback to stop its device, whatever is stored or waiting, and puts out nothing else; no other event tells it to stop anything |
| RouterHistory.StopsConserved | linux-game-haptics-router/src/app.rs:126-139 | over every run the devices playback is told to stop are those of the stop events, each once and in order |
| RouterHistory.NothingAfterStop | linux-game-haptics-router/src/app.rs:126-139 | whatever is scheduled on a device after a stop of it answers a play made after that stop |
| RouterHistory.FatesPartition | linux-game-haptics-router/src/app.rs:129-167 | the five fates share out the plays of a run |
| RouterHistory.HeldArePending | linux-game-haptics-router/src/app.rs:160-165 | the plays still held are as many as the entries of the pending table |
| RouterHistory.ProcessedAreOutcomes | linux-game-haptics-router/src/app.rs:174-190 | the plays processed are as many as the scheduled, throttled and point-less outcomes |
| RouterHistory.PlaysConserved | linux-game-haptics-router/src/app.rs:90-190 | over every run: plays received = outcomes + cleared by stop + cleared by erase + superseded + pending |
| RouterRace.NeutralStep | linux-game-haptics-router/src/app.rs:124-170 | an event about another device and another effect does the same with and without one held play |
| RouterRace.UploadThenPlay | linux-game-haptics-router/src/app.rs:77-102 | an upload that resolves a held play last does what the upload followed by the play would do |
| RouterRace.RaceTransparent | docs/superpowers/specs/2026-07-07-ff-play-upload-race-design.md:105-139 | moving an overtaking play past any gap of unrelated events to just after its upload gives the same store, pending plays, throttle, clock and output |
| RouterRace.RaceTransparentAlone | docs/superpowers/specs/2026-07-07-ff-play-upload-race-design.md:105-139 | if no other device waits for the effect at the end of the gap, the overtaking run resolves just the one play and equals the in-order run |
| RouterRace.NeverShowsIffAlone | linux-game-haptics-router/src/app.rs:90-101 | across a given gap, every overtaking run has an in-order equal if and only if nobody else waits for the effect at its end |
| RouterRace.RaceTransparentIffAlone | linux-game-haptics-router/src/app.rs:90-101 | judged before the play: every overtaking run, across every gap, has an in-order equal if and only if no other device is waiting for the effect |
| RouterRace.TransparentIffResolvedLast | linux-game-haptics-router/src/app.rs:90-101 | with other devices waiting, an in-order run with the same result exists if and only if the overtaken device is resolved last |
| RouterRate.OutcomesExact | linux-game-haptics-router/src/app.rs:174-190 | over every run: an outcome, of a play that finds its effect or of a device an upload resolves, is throttled if and only if something was scheduled less than 10,000,000 ns before its check, be it in the same batch; otherwise it is scheduled for the kinds 0x50, 0x51, 0x52 and 0x57, and has no points for any other; a play that finds nothing puts out nothing |
| RouterRate.SchedulesSpaced | linux-game-haptics-router/src/throttle.rs:14-23 | over every run of a monotone clock, schedules n apart are at least 10n ms apart, across devices and within one upload's batch |
| RouterRate.RateBound | linux-game-haptics-router/src/app.rs:174-190 | any window of W ms holds at most floor(W/10)+1 starts |
| Playback.PlaybackInner.ScheduleSequence | linux-game-haptics-router/src/playback.rs:97-108 | performs a spawn and then an insertion |
| Playback.PlaybackInner.SpawnTask | linux-game-haptics-router/src/playback.rs:98-103 | takes the next 64-bit generation and adds a live task with the interpolated schedule, not yet in the table |
| Playback.PlaybackInner.InsertTask | linux-game-haptics-router/src/playback.rs:104-107 | the task holds its device's slot, and the task it replaces, if live, is aborted |
| Playback.PlaybackInner.EmitFrame | linux-game-haptics-router/src/playback.rs:232-235 | sends the task's next frame at the current scale to the device's toys |
| Playback.PlaybackInner.FinishTask | linux-game-haptics-router/src/playback.rs:236-239 | the task is over, and leaves the table only if its generation is there |
| Playback.PlaybackInner.PlayToEnd | linux-game-haptics-router/src/playback.rs:224-240 | an uninterrupted task sends every remaining frame in order, each at the scale set by then, ends finished, and leaves the table if and only if its generation is there; no other task or slot changes |
| Playback.PlaybackInner.Stop | linux-game-haptics-router/src/playback.rs:110-118 | performs the abort and removal, then the zero |
| Playback.PlaybackInner.StartStopAll | linux-game-haptics-router/src/playback.rs:120-125 | draining the table entry by entry aborts exactly the live tasks in it |
| Playback.PlaybackInner.FinishStopAll | linux-game-haptics-router/src/playback.rs:126-128 | every connected toy is sent a zero |
| Playback.PlaybackInner.SendScalar | linux-game-haptics-router/src/playback.rs:198-222 | the clamped intensity goes to exactly the connected toys the targets allow |
| Playback.PlaybackInner.SetScale | linux-game-haptics-router/src/playback.rs:91-93 | later frames use the new scale; nothing else changes |
| PlaybackModel.AfterTableSound | linux-game-haptics-router/src/playback.rs:97-129 | every step of every interleaving keeps the table sound |
| PlaybackModel.FinishSound | linux-game-haptics-router/src/playback.rs:236-239 | a finishing task never removes another task's entry |
| PlaybackModel.GenerationProtocol | linux-game-haptics-router/src/playback.rs:42-47 | below 2^64 plays, under every interleaving: generations are unique, at most one inserted task per device is live, and it is the one in the slot |
| PlaybackModel.GenerationsEqualIff | linux-game-haptics-router/src/playback.rs:98-98 | in every run, with any number of plays, two tasks share a generation if and only if they were spawned a multiple of 2^64 plays apart |
| PlaybackModel.InsertionsAscend | linux-game-haptics-router/src/playback.rs:97-108 | if plays start one after the other, the generations inserted only go up |
| PlaybackHistory.StateReadsOffSteps | linux-game-haptics-router/src/playback.rs:97-129 | after every run of fewer than 2^64 plays: one task per play, with its device and keyframes, inserted, finished and advanced exactly as the steps say; a slot holds exactly the last task inserted for its device that nothing took out; a task is aborted if and only if it was inserted, has not finished and is in its slot no longer; the zeros owed are the stops begun less the zeros sent |
| PlaybackHistory.CommandsReadOffSteps | linux-game-haptics-router/src/playback.rs:198-240 | over every run there is one command per sending step, in order: a task's next frame at the scale set last, or the zero of a stop |
| PlaybackSafety.CommandsEndToEnd | linux-game-haptics-router/src/playback.rs:198-240 | under every interleaving and scale change: each command is in [0,1], is a frame of its task or a stop's zero, and goes to its device's toys only; tasks send their frames in order without gap or repeat, and a finished task has sent them all |
| PlaybackSafety.FramesAtScaleInForce | linux-game-haptics-router/src/playback.rs:232-235 | every frame goes out at the scale set by the last change before it, or the initial one |
| PlaybackSafety.FinishedEndsAtZero | linux-game-haptics-router/src/playback.rs:232-235 | a task that ran to its end sent a zero for its last frame, and nothing after it |
| PlaybackSafety.CommandReaches | linux-game-haptics-router/src/playback.rs:12-20 | over every run, a command made for a device by its task or its stop reaches a toy if and only if the toy is connected and the device's configured list, if any, names it |
| PlaybackSafety.StopSilences | linux-game-haptics-router/src/playback.rs:110-118 | a stop ends all tasks of the device if and only if none of the live ones is still to be inserted |
| PlaybackSafety.SilentUntilPlayed | linux-game-haptics-router/src/playback.rs:110-118 | whatever is sent for a silent device by a task is sent by one that a later play of the device spawned |
| PlaybackSafety.EveryToyAccounted | linux-game-haptics-router/src/playback.rs:97-129 | in every run of fewer than 2^64 plays, at every point, a toy that is on has a live task or a half-done stop to silence it, or was stranded by a late insertion and not reached since |
| PlaybackSafety.RestSafe | linux-game-haptics-router/src/playback.rs:97-129 | once no task is live and no stop is half done, a toy is left on if and only if a late insertion aborted a live task on the device that moved it last while it was on, and no command reached it since; with no late insertion every toy was last told 0 |
| PlaybackSafety.LateInsertionStrands | linux-game-haptics-router/src/playback.rs:104-107 | a late insertion leaves its device something to silence it if and only if another live task or a half-done stop does; with nothing else live the toys stay as they are, at once if the inserted task was over and when it ends otherwise |
| PlaybackSafety.LateInsertionHappens | linux-game-haptics-router/src/playback.rs:97-108 | a run, with plays started one after the other, of a 50 ms rumble and then an empty one, that leaves a toy on with no task live |
| PlaybackRest.StepLowersWork | linux-game-haptics-router/src/playback.rs:224-240 | every step playback takes by itself, an insertion, a frame, an end or the zero of a stop, leaves less to do |
| PlaybackRest.RestReached | linux-game-haptics-router/src/playback.rs:97-129 | from every reachable state rest can be reached without another call; every way of going on without one is bounded by the frames, ends, insertions and zeros left, and is at rest when nothing more can be done |
| Probe.Tracepoints.TryEnter | linux-game-haptics-router-ebpf/src/main.rs:43-124 | performs an Enter, of which `ErasesReported` and `CapturesStored` say what it reports and captures |
| Probe.Tracepoints.TryEnterErase | linux-game-haptics-router-ebpf/src/main.rs:131-158 | reports the erased id, the low word of the argument, unless the register cannot be read or the buffer is full |
| Probe.Tracepoints.TryExit | linux-game-haptics-router-ebpf/src/main.rs:169-221 | performs an Exit: completes the thread's capture with the id read back, or leaves it when the read or the store fails |
| Probe.Tracepoints.Evict | linux-game-haptics-router-ebpf/src/main.rs:14-20 | any entry may vanish |
| ProbeModel.ErasesReported | linux-game-haptics-router-ebpf/src/main.rs:43-49 | an enter of ioctl 0x40044581 is reported as an erase by the thread's process of the low 16 bits of its argument, unless the argument cannot be read or the buffer is full; no other enter reports anything |
| ProbeModel.CapturesStored | linux-game-haptics-router-ebpf/src/main.rs:50-115 | an enter of ioctl 0x40304580 captures the structure its argument points to, unless a read or the insertion fails; no other enter touches a capture |
| ProbeModel.ReportsAccumulate | linux-game-haptics-router-ebpf/src/main.rs:153-156 | nothing reported is taken back, and eviction reports nothing |
| ProbeModel.ScratchReadsOffRun | linux-game-haptics-router-ebpf/src/main.rs:106-115 | the scratch map holds exactly each thread's last capture not completed, overwritten or evicted since |
| ProbeModel.UploadsPairCaptures | linux-game-haptics-router-ebpf/src/main.rs:169-221 | an exit reports if and only if it completes an open capture of its own thread and the buffer has room; then it reports that capture's payload under the id the kernel wrote |
| ProbeModel.UploadsWereCaptured | linux-game-haptics-router-ebpf/src/main.rs:169-221 | every upload ever reported was completed at an exit of the thread that captured it, with the id read through that capture's pointer |
| ProbeModel.EventIdsMatch | linux-game-haptics-router-ebpf/src/main.rs:188-215 | the effect of every upload reported carries the id it is reported under |
| ProbeModel.ReportsByKind | linux-game-haptics-router-ebpf/src/main.rs:131-221 | uploads are reported at exits, erases at enters of the erase ioctl, with the thread's process id |
| ProbeModel.UploadsNeverExceedCaptures | linux-game-haptics-router-ebpf/src/main.rs:106-221 | a thread never has more uploads reported than captured, even when exits fail |
| ProbeModel.UnrelatedExitSilent | linux-game-haptics-router-ebpf/src/main.rs:171-174 | if a thread's calls alternate and none of its exits fails, the exit of an ioctl that was not captured reports nothing |
| ProbeModel.UnrelatedExitReportsIff | linux-game-haptics-router-ebpf/src/main.rs:169-221 | if a thread's calls alternate, the exit of an ioctl that was not captured reports if and only if an earlier exit of the thread failed to complete a capture, this one completes it, and the buffer has room |
| ProbeModel.StaleCaptureReported | linux-game-haptics-router-ebpf/src/main.rs:177-187 | after one failed exit the next unrelated exit of the thread reports an upload |
| ProbeModel.CaptureRoundTrip | linux-game-haptics-router-ebpf/src/main.rs:62-104 | whatever id and padding the structure carries on the way in, the capture recovers every other field from its bytes |
| ProbeModel.IdRoundTrip | linux-game-haptics-router-ebpf/src/main.rs:176-188 | the id read back is the one whose two bytes the kernel wrote |
| Daemon.FedRunsWellFormed | linux-game-haptics-router/src/ebpf.rs:69-92 | however many probe events the channel drops, the router's run is well-formed |
| Daemon.PlayablePoints | linux-game-haptics-router/src/app.rs:176-178 | what the router hands to playback ends in 0, stays in [0,1], and is interpolated without leaving the counter's range |
| Daemon.DaemonRests | linux-game-haptics-router/src/playback.rs:97-129 | for every router run and every playback of its requests: at rest a toy is left on if and only if a late insertion stranded it and nothing reached it since |
| Daemon.LateRunServed | linux-game-haptics-router/src/app.rs:140-178 | the run that leaves a toy on serves this router run: two uploads, then two plays on one device checked 10 ms apart, the second recorded after the first task's 25 ms frame |
| Daemon.NothingSentAfterStop | linux-game-haptics-router/src/app.rs:126-139 | when a stop is served while no play is half started, every later command of a task on the device comes from a task spawned since, playing an effect asked for by a play made after that very stop |
| Daemon.ScheduleTracesBack | linux-game-haptics-router/src/app.rs:90-101 | whatever is scheduled answers a play on its device with the translation of an effect some game uploaded under the id played |
| Daemon.CommandTracesBack | linux-game-haptics-router/src/playback.rs:232-235 | every command a task sends is a scaled frame of the schedule of an effect captured from a game and asked for by a play on the task's device, and goes to that device's toys |

## Left out

- RestSafe: assumes fewer than 2^64 plays, after which generations repeat (`GenerationsEqualIff`), and that every play's points end in zero, as all the router hands over do (`PlayablePoints`).
- StateReadsOffSteps: assumes fewer than 2^64 plays; so does `CommandsReadOffSteps`.
- NothingSentAfterStop: assumes fewer than 2^64 plays, and that the stop is served while no play is between spawning its task and inserting it, which holds because the router awaits each call; `StopSilences` shows it is needed.
- Floating point: rounding, NaN and infinities; intensities and scales are exact reals.
- Task abort is atomic: an aborted task sends nothing more, where the runtime only stops it at its next await; sends succeed and reach every addressed toy at once.
- The set of connected toys is fixed during a run; connecting, retrying and the websocket are not modelled.
- When frames are sent: a task's frames come in order, but the sleeping between them and its accuracy are not modelled.
- Looking up a scratch entry and using it is one step; an eviction between the two is not modelled.
- The probe's second map, which nothing in the repository reads, appears only as a store that may fail.
- That a periodic effect's envelope words are where the kernel puts them: the 14-byte capture window is taken as the source takes it.
- The `phase` word of a periodic effect, which the source ignores as well.
- Device discovery, evdev reading, rescans and the two channels' buffering, except that probe events may be lost and are not reordered.
- `handle_ff_event` is two methods, one for each kind of event it dispatches on.
- Start-up, signals, command line, the JSON lines on standard input, log texts and the end-to-end test harness.
