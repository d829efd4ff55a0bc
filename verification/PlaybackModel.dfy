/** Playback as interleaved atomic steps, after src/playback.rs. A task is spawned
    before its handle is put in the table, so it can run, and even finish, before
    it is there. Aborting is atomic: an aborted task sends nothing more. */
module PlaybackModel {
  import opened Effects
  import opened Interpolation
  import opened Lines
  import opened Translation

  type ToyId = DWord
  type DeviceMap = map<DeviceId, Option<seq<ToyId>>>

  /** Generations are 64-bit. */
  const GENERATIONS: nat := 0x1_0000_0000_0000_0000

  datatype Progress = Running | Aborted | Finished

  /** A spawned task: how far it is in its schedule, and whether its handle has
      been put in the table yet. */
  datatype PlayTask = PlayTask(
    device: DeviceId,
    generation: nat,
    schedule: seq<HapticPoint>,
    next: nat,
    progress: Progress,
    inserted: bool)

  datatype Slot = Slot(generation: nat, task: nat)

  datatype Author = ByTask(task: nat, frame: nat) | ByStop(device: DeviceId) | ByStopAll

  /** One tick sent to a set of toys. */
  datatype Command = Command(author: Author, toys: set<ToyId>, scale: real, intensity: real)

  datatype PlaybackState = PlaybackState(
    deviceMap: DeviceMap,
    toys: set<ToyId>,
    scale: real,
    tasks: seq<PlayTask>,
    slots: map<DeviceId, Slot>,
    genCounter: nat,
    stopping: multiset<DeviceId>,
    stoppingAll: nat,
    sent: seq<Command>)

  datatype PlaybackStep =
    | Spawn(device: DeviceId, points: seq<HapticPoint>)
    | Insert(task: nat)
    | Emit(task: nat)
    | Finish(task: nat)
    | BeginStop(device: DeviceId)
    | SendStop(device: DeviceId)
    | BeginStopAll
    | SendStopAll
    | SetScale(scale: real)

  function Connected(deviceMap: DeviceMap, toys: set<ToyId>, scale: real): PlaybackState {
    PlaybackState(deviceMap, toys, scale, [], map[], 0, multiset{}, 0, [])
  }

  // ---- Targets ----

  /** A missing entry and an explicit null both mean every toy. */
  function ResolveTargets(deviceMap: DeviceMap, device: DeviceId): Option<seq<ToyId>> {
    if device in deviceMap then deviceMap[device] else None
  }

  function Reached(targets: Option<seq<ToyId>>, toys: set<ToyId>): set<ToyId> {
    set t | t in toys && (targets.Some? ==> t in targets.value)
  }

  function Targets(s: PlaybackState, device: DeviceId): set<ToyId> {
    Reached(ResolveTargets(s.deviceMap, device), s.toys)
  }

  // ---- Steps ----

  function NextGeneration(counter: nat): nat {
    (counter + 1) % GENERATIONS
  }

  function AbortTask(tasks: seq<PlayTask>, i: nat): seq<PlayTask>
    requires i < |tasks|
  {
    if tasks[i].progress.Running? then tasks[i := tasks[i].(progress := Aborted)] else tasks
  }

  /** Abort whatever task the table holds for the device. */
  function AbortHolder(s: PlaybackState, device: DeviceId): seq<PlayTask> {
    if device in s.slots && s.slots[device].task < |s.tasks| then AbortTask(s.tasks, s.slots[device].task) else s.tasks
  }

  function AbortEvery(s: PlaybackState): seq<PlayTask> {
    seq(|s.tasks|, i requires 0 <= i < |s.tasks| =>
      var t := s.tasks[i];
      if t.progress.Running? && t.device in s.slots && s.slots[t.device].task == i then t.(progress := Aborted) else t)
  }

  /** One tick: an intensity, scaled and clamped, for a set of toys. */
  function Tick(author: Author, toys: set<ToyId>, scale: real, intensity: real): Command {
    Command(author, toys, scale, Clamp(Part(intensity, scale)))
  }

  predicate Possible(s: PlaybackState, step: PlaybackStep) {
    match step
    case Insert(i) => i < |s.tasks| && !s.tasks[i].inserted
    case Emit(i) => i < |s.tasks| && s.tasks[i].progress.Running? && s.tasks[i].next < |s.tasks[i].schedule|
    case Finish(i) => i < |s.tasks| && s.tasks[i].progress.Running? && s.tasks[i].next == |s.tasks[i].schedule|
    case SendStop(device) => device in s.stopping
    case SendStopAll => s.stoppingAll > 0
    case _ => true
  }

  /** What a step sends, if anything. */
  function Sends(s: PlaybackState, step: PlaybackStep): seq<Command>
    requires Possible(s, step)
  {
    match step
    case Emit(i) =>
      var t := s.tasks[i];
      [Tick(ByTask(i, t.next), Targets(s, t.device), s.scale, t.schedule[t.next].intensity)]
    case SendStop(device) => [Tick(ByStop(device), Targets(s, device), 1.0, 0.0)]
    case SendStopAll => [Tick(ByStopAll, s.toys, 1.0, 0.0)]
    case _ => []
  }

  function After(s: PlaybackState, step: PlaybackStep): PlaybackState
    requires Possible(s, step)
  {
    match step
    case Spawn(device, points) =>
      var generation := NextGeneration(s.genCounter);
      s.(genCounter := generation,
         tasks := s.tasks + [PlayTask(device, generation, Keyframes(points), 0, Running, false)])
    case Insert(i) =>
      var t := s.tasks[i];
      var tasks := AbortHolder(s, t.device);
      s.(tasks := tasks[i := tasks[i].(inserted := true)], slots := s.slots[t.device := Slot(t.generation, i)])
    case Emit(i) =>
      var t := s.tasks[i];
      s.(tasks := s.tasks[i := t.(next := t.next + 1)],
         sent := s.sent + Sends(s, step))
    case Finish(i) =>
      var t := s.tasks[i];
      s.(tasks := s.tasks[i := t.(progress := Finished)],
         slots := if t.device in s.slots && s.slots[t.device].generation == t.generation
                  then s.slots - {t.device}
                  else s.slots)
    case BeginStop(device) =>
      s.(tasks := AbortHolder(s, device), slots := s.slots - {device}, stopping := s.stopping + multiset{device})
    case SendStop(device) =>
      s.(stopping := s.stopping - multiset{device}, sent := s.sent + Sends(s, step))
    case BeginStopAll =>
      s.(tasks := AbortEvery(s), slots := map[], stoppingAll := s.stoppingAll + 1)
    case SendStopAll =>
      s.(stoppingAll := s.stoppingAll - 1, sent := s.sent + Sends(s, step))
    case SetScale(scale) =>
      s.(scale := scale)
  }

  ghost function Perform(s: PlaybackState, run: seq<PlaybackStep>): Option<PlaybackState> {
    if run == [] then Some(s)
    else
      var before := Perform(s, run[..|run| - 1]);
      var step := run[|run| - 1];
      if before.Some? && Possible(before.value, step) then Some(After(before.value, step)) else None
  }

  /** A run is its beginning followed by the rest. */
  lemma {:induction false} PerformSplit(s: PlaybackState, run: seq<PlaybackStep>, k: nat)
    requires k <= |run| && Perform(s, run).Some?
    ensures Perform(s, run[..k]).Some? && Perform(Perform(s, run[..k]).value, run[k..]) == Perform(s, run)
  {
    hide After, Possible;
    if k < |run| {
      var n := |run| - 1;
      PerformSplit(s, run[..n], k);
      assert run[..n][..k] == run[..k] && run[..n][k..] == run[k..][..n - k];
    } else {
      assert run[..k] == run && run[k..] == [];
    }
  }

  // ---- The generation protocol ----

  /** Everything the table and the tasks agree on while generations last. */
  ghost predicate TableSound(s: PlaybackState) {
    && s.genCounter == |s.tasks| % GENERATIONS
    && (forall i :: 0 <= i < |s.tasks| ==> TaskSound(s, i))
    && (forall d :: d in s.slots ==> SlotSound(s, d))
  }

  /** An inserted task is in its device's slot, aborted or finished; one not yet
      inserted cannot have been aborted. */
  ghost predicate TaskSound(s: PlaybackState, i: nat)
    requires i < |s.tasks|
  {
    var t := s.tasks[i];
    && t.generation == (i + 1) % GENERATIONS
    && t.next <= |t.schedule|
    && (t.progress.Finished? ==> t.next == |t.schedule|)
    && (t.inserted && t.progress.Running? ==> t.device in s.slots && s.slots[t.device].task == i)
    && (!t.inserted ==> !t.progress.Aborted?)
  }

  ghost predicate SlotSound(s: PlaybackState, d: DeviceId)
    requires d in s.slots
  {
    var slot := s.slots[d];
    && slot.task < |s.tasks|
    && var t := s.tasks[slot.task];
       t.device == d && t.generation == slot.generation && t.inserted && !t.progress.Aborted?
  }

  /** Generations count the tasks, whatever becomes of them, and wrap around. */
  ghost predicate Counted(s: PlaybackState) {
    && s.genCounter == |s.tasks| % GENERATIONS
    && forall i: nat :: i < |s.tasks| ==> s.tasks[i].generation == (i + 1) % GENERATIONS
  }

  lemma CountedStep(s: PlaybackState, step: PlaybackStep)
    requires Counted(s) && Possible(s, step)
    ensures Counted(After(s, step))
  {
    hide Keyframes, Sends;
    if step.Spawn? { NextOfRemainder(|s.tasks|); }
  }

  lemma NextOfRemainder(n: nat)
    ensures NextGeneration(n % GENERATIONS) == (n + 1) % GENERATIONS
  {
  }

  lemma {:induction false} ReachableCounted(s: PlaybackState, run: seq<PlaybackStep>)
    requires Counted(s) && Perform(s, run).Some?
    ensures Counted(Perform(s, run).value)
  {
    hide After, Possible, Counted;
    if run != [] {
      ReachableCounted(s, run[..|run| - 1]);
      CountedStep(Perform(s, run[..|run| - 1]).value, run[|run| - 1]);
    }
  }

  /** In any run, however many plays it holds, two tasks share a generation
      exactly when they were spawned a multiple of 2^64 plays apart. */
  lemma GenerationsEqualIff(deviceMap: DeviceMap, toys: set<ToyId>, scale: real, run: seq<PlaybackStep>,
                            s: PlaybackState, i: nat, j: nat)
    requires Perform(Connected(deviceMap, toys, scale), run) == Some(s) && i < |s.tasks| && j < |s.tasks|
    ensures s.tasks[i].generation == s.tasks[j].generation <==> (i - j) % GENERATIONS == 0
  {
    hide *;
    NothingCounted(deviceMap, toys, scale);
    ReachableCounted(Connected(deviceMap, toys, scale), run);
    CountedAt(s, i);
    CountedAt(s, j);
    RemaindersEqualIff(i, j);
  }

  lemma NothingCounted(deviceMap: DeviceMap, toys: set<ToyId>, scale: real)
    ensures Counted(Connected(deviceMap, toys, scale))
  {
  }

  lemma CountedAt(s: PlaybackState, i: nat)
    requires Counted(s) && i < |s.tasks|
    ensures s.tasks[i].generation == (i + 1) % GENERATIONS
  {
  }

  lemma RemaindersEqualIff(i: nat, j: nat)
    ensures (i + 1) % GENERATIONS == (j + 1) % GENERATIONS <==> (i - j) % GENERATIONS == 0
  {
  }

  lemma SpawnSound(s: PlaybackState, device: DeviceId, points: seq<HapticPoint>)
    requires TableSound(s) && |s.tasks| < GENERATIONS
    ensures TableSound(After(s, Spawn(device, points)))
  {
    hide Keyframes;
    var s' := After(s, Spawn(device, points));
    forall i | 0 <= i < |s'.tasks| ensures TaskSound(s', i) { if i < |s.tasks| { assert TaskSound(s, i); } }
    forall d | d in s'.slots ensures SlotSound(s', d) { assert SlotSound(s, d); }
  }

  lemma InsertSound(s: PlaybackState, n: nat)
    requires TableSound(s) && Possible(s, Insert(n))
    ensures TableSound(After(s, Insert(n)))
  {
    var s' := After(s, Insert(n));
    assert TaskSound(s, n);
    if s.tasks[n].device in s.slots { assert SlotSound(s, s.tasks[n].device); }
    forall i | 0 <= i < |s'.tasks| ensures TaskSound(s', i) { assert TaskSound(s, i); }
    forall d | d in s'.slots ensures SlotSound(s', d) { if d in s.slots { assert SlotSound(s, d); } }
  }

  lemma EmitSound(s: PlaybackState, n: nat)
    requires TableSound(s) && Possible(s, Emit(n))
    ensures TableSound(After(s, Emit(n)))
  {
    hide Sends;
    var s' := After(s, Emit(n));
    forall i | 0 <= i < |s'.tasks| ensures TaskSound(s', i) { assert TaskSound(s, i); }
    forall d | d in s'.slots ensures SlotSound(s', d) { assert SlotSound(s, d); }
  }

  lemma SmallGeneration(i: nat)
    requires i + 1 < GENERATIONS
    ensures (i + 1) % GENERATIONS == i + 1
  {
  }

  lemma GenerationAt(s: PlaybackState, i: nat)
    requires TableSound(s) && |s.tasks| < GENERATIONS && i < |s.tasks|
    ensures s.tasks[i].generation == i + 1
  {
    SmallGeneration(i);
    assert TaskSound(s, i);
  }

  /** Below 2^64 plays a slot with a task's generation holds that very task. */
  lemma SlotOfGeneration(s: PlaybackState, n: nat)
    requires TableSound(s) && |s.tasks| < GENERATIONS && n < |s.tasks| && s.tasks[n].device in s.slots
    ensures s.slots[s.tasks[n].device].generation == s.tasks[n].generation <==> s.slots[s.tasks[n].device].task == n
  {
    assert SlotSound(s, s.tasks[n].device);
    GenerationAt(s, n);
    GenerationAt(s, s.slots[s.tasks[n].device].task);
  }

  /** A finishing task clears its device's slot only if it is the occupant. */
  lemma FinishSound(s: PlaybackState, n: nat)
    requires TableSound(s) && Possible(s, Finish(n)) && |s.tasks| < GENERATIONS
    ensures TableSound(After(s, Finish(n)))
    ensures forall d :: d in s.slots && s.slots[d].task != n ==>
              d in After(s, Finish(n)).slots && After(s, Finish(n)).slots[d] == s.slots[d]
  {
    hide Keyframes, Sends, AbortHolder, AbortEvery;
    var s', d := After(s, Finish(n)), s.tasks[n].device;
    assert TaskSound(s, n);
    if d in s.slots { SlotOfGeneration(s, n); }
    assert s'.slots == if d in s.slots && s.slots[d].task == n then s.slots - {d} else s.slots;
    assert s'.tasks == s.tasks[n := s.tasks[n].(progress := Finished)] && s'.genCounter == s.genCounter;
    hide After;
    forall i | 0 <= i < |s'.tasks| ensures TaskSound(s', i) { assert TaskSound(s, i); }
    forall e | e in s'.slots ensures SlotSound(s', e) { assert SlotSound(s, e); }
    forall e | e in s.slots && s.slots[e].task != n ensures e in s'.slots { assert SlotSound(s, e); }
  }

  lemma BeginStopSound(s: PlaybackState, device: DeviceId)
    requires TableSound(s)
    ensures TableSound(After(s, BeginStop(device)))
  {
    var s' := After(s, BeginStop(device));
    if device in s.slots { assert SlotSound(s, device); }
    forall i | 0 <= i < |s'.tasks| ensures TaskSound(s', i) { assert TaskSound(s, i); }
    forall d | d in s'.slots ensures SlotSound(s', d) { assert SlotSound(s, d); }
  }

  lemma BeginStopAllSound(s: PlaybackState)
    requires TableSound(s)
    ensures TableSound(After(s, BeginStopAll))
    ensures forall i :: 0 <= i < |s.tasks| ==>
              (AbortEvery(s)[i].progress ==
               if s.tasks[i].inserted && s.tasks[i].progress.Running? then Aborted else s.tasks[i].progress)
  {
    var s' := After(s, BeginStopAll);
    forall i | 0 <= i < |s'.tasks|
      ensures TaskSound(s', i)
      ensures s'.tasks[i].progress ==
              if s.tasks[i].inserted && s.tasks[i].progress.Running? then Aborted else s.tasks[i].progress
    {
      assert TaskSound(s, i);
      if s.tasks[i].device in s.slots { assert SlotSound(s, s.tasks[i].device); }
    }
  }

  lemma AfterTableSound(s: PlaybackState, step: PlaybackStep)
    requires TableSound(s) && Possible(s, step) && |s.tasks| < GENERATIONS
    ensures TableSound(After(s, step))
  {
    match step
    case Spawn(device, points) => SpawnSound(s, device, points);
    case Insert(n) => InsertSound(s, n);
    case Emit(n) => EmitSound(s, n);
    case Finish(n) => FinishSound(s, n);
    case BeginStop(device) => BeginStopSound(s, device);
    case BeginStopAll => BeginStopAllSound(s);
    case _ => OthersSound(s, step);
  }

  lemma OthersSound(s: PlaybackState, step: PlaybackStep)
    requires TableSound(s) && Possible(s, step) && (step.SendStop? || step.SendStopAll? || step.SetScale?)
    ensures TableSound(After(s, step))
  {
    hide Sends;
    var s' := After(s, step);
    forall i | 0 <= i < |s'.tasks| ensures TaskSound(s', i) { assert TaskSound(s, i); }
    forall d | d in s'.slots ensures SlotSound(s', d) { assert SlotSound(s, d); }
  }

  lemma TasksGrow(s: PlaybackState, step: PlaybackStep)
    requires Possible(s, step)
    ensures |s.tasks| <= |After(s, step).tasks|
    ensures After(s, step).deviceMap == s.deviceMap && After(s, step).toys == s.toys
  {
  }

  lemma {:induction false} TasksGrowOverRun(s: PlaybackState, run: seq<PlaybackStep>, k: nat)
    requires k <= |run| && Perform(s, run).Some?
    ensures Perform(s, run[..k]).Some? && |Perform(s, run[..k]).value.tasks| <= |Perform(s, run).value.tasks|
    ensures Perform(s, run).value.deviceMap == s.deviceMap && Perform(s, run).value.toys == s.toys
    decreases |run|
  {
    hide After, Possible;
    if run != [] {
      var n := |run| - 1;
      TasksGrowOverRun(s, run[..n], if k <= n then k else n);
      if k <= n { assert run[..n][..k] == run[..k]; } else { assert run[..k] == run; }
      TasksGrow(Perform(s, run[..n]).value, run[n]);
    }
  }

  lemma {:induction false} ReachableTableSound(s: PlaybackState, run: seq<PlaybackStep>)
    requires TableSound(s) && Perform(s, run).Some? && |Perform(s, run).value.tasks| < GENERATIONS
    ensures TableSound(Perform(s, run).value)
  {
    hide After, Possible;
    if run != [] {
      var init, step := run[..|run| - 1], run[|run| - 1];
      var before := Perform(s, init).value;
      TasksGrow(before, step);
      ReachableTableSound(s, init);
      AfterTableSound(before, step);
    }
  }

  /** The generation protocol under every interleaving of fewer than 2^64 plays:
      generations are unique, a device has at most one live task in the table,
      and every task put in the table is the occupant of its device's slot,
      aborted, or finished. */
  lemma GenerationProtocol(deviceMap: DeviceMap, toys: set<ToyId>, scale: real, run: seq<PlaybackStep>,
                           s: PlaybackState, i: nat, j: nat)
    requires Perform(Connected(deviceMap, toys, scale), run) == Some(s)
    requires |s.tasks| < GENERATIONS && i < |s.tasks| && j < |s.tasks|
    ensures s.tasks[i].generation == s.tasks[j].generation ==> i == j
    ensures LiveInTable(s, i) && LiveInTable(s, j) && s.tasks[i].device == s.tasks[j].device ==> i == j
    ensures LiveInTable(s, i) ==>
              s.tasks[i].device in s.slots && s.slots[s.tasks[i].device] == Slot(s.tasks[i].generation, i)
  {
    ReachableTableSound(Connected(deviceMap, toys, scale), run);
    hide Perform;
    GenerationAt(s, i);
    GenerationAt(s, j);
    assert TaskSound(s, i) && TaskSound(s, j);
    if s.tasks[i].device in s.slots { assert SlotSound(s, s.tasks[i].device); }
  }

  predicate LiveInTable(s: PlaybackState, i: nat)
    requires i < |s.tasks|
  {
    s.tasks[i].inserted && s.tasks[i].progress.Running?
  }

  /** No play begins while another is between spawning its task and inserting it. */
  ghost predicate Sequential(s: PlaybackState, run: seq<PlaybackStep>) {
    forall k :: 0 <= k < |run| && run[k].Spawn? ==> NoneBetween(s, run[..k])
  }

  ghost predicate NoneBetween(s: PlaybackState, run: seq<PlaybackStep>) {
    Perform(s, run).Some? ==> AllInserted(Perform(s, run).value)
  }

  ghost predicate AllInserted(s: PlaybackState) {
    forall i :: 0 <= i < |s.tasks| ==> s.tasks[i].inserted
  }

  /** All tasks but perhaps the newest are in the table. */
  ghost predicate NewestLast(s: PlaybackState) {
    forall i :: 0 <= i < |s.tasks| - 1 ==> s.tasks[i].inserted
  }

  lemma NewestLastStep(s: PlaybackState, step: PlaybackStep)
    requires NewestLast(s) && Possible(s, step) && (step.Spawn? ==> AllInserted(s))
    ensures NewestLast(After(s, step))
  {
    var s' := After(s, step);
    forall i | 0 <= i < |s'.tasks| - 1
      ensures s'.tasks[i].inserted
    {
      assert s.tasks[i].inserted;
    }
  }

  lemma {:induction false} SequentialNewestLast(s: PlaybackState, run: seq<PlaybackStep>)
    requires NewestLast(s) && Sequential(s, run) && Perform(s, run).Some?
    ensures NewestLast(Perform(s, run).value)
  {
    hide After, Possible, NewestLast, AllInserted;
    if run != [] {
      var n, init := |run| - 1, run[..|run| - 1];
      assert Sequential(s, init) by {
        forall k | 0 <= k < n && init[k].Spawn?
          ensures NoneBetween(s, init[..k])
        {
          assert init[..k] == run[..k];
        }
      }
      SequentialNewestLast(s, init);
      if run[n].Spawn? { assert NoneBetween(s, run[..n]); }
      NewestLastStep(Perform(s, init).value, run[n]);
    }
  }

  /** When plays are started one after the other, as the router does, the tasks
      put in the table, and so the generations in any slot, only go up. */
  lemma InsertionsAscend(deviceMap: DeviceMap, toys: set<ToyId>, scale: real, run: seq<PlaybackStep>,
                         s: PlaybackState, n: nat, i: nat)
    requires Sequential(Connected(deviceMap, toys, scale), run)
    requires Perform(Connected(deviceMap, toys, scale), run) == Some(s) && |s.tasks| < GENERATIONS
    requires Possible(s, Insert(n)) && i < |s.tasks| && s.tasks[i].inserted
    ensures i < n && s.tasks[i].generation < s.tasks[n].generation
  {
    SequentialNewestLast(Connected(deviceMap, toys, scale), run);
    ReachableTableSound(Connected(deviceMap, toys, scale), run);
    hide *;
    GenerationAt(s, i);
    GenerationAt(s, n);
    InsertedBefore(s, i, n);
  }

  lemma InsertedBefore(s: PlaybackState, i: nat, n: nat)
    requires NewestLast(s) && Possible(s, Insert(n)) && i < |s.tasks| && s.tasks[i].inserted
    ensures i < n < |s.tasks|
  {
  }
}
