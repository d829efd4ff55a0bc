/** What reaches the toys, over every interleaving of playback steps: who is
    commanded, with what, in which order, and that they are left at rest. */
module PlaybackSafety {
  import opened Effects
  import opened Interpolation
  import opened Lines
  import opened Translation
  import opened PlaybackModel

  // ---- Commands ----

  /** Each command is a frame of its task's schedule, scaled and clamped, or a
      stop's zero, sent to exactly the toys its device may reach. */
  ghost predicate CommandSound(s: PlaybackState, c: Command) {
    match c.author
    case ByTask(n, frame) =>
      && n < |s.tasks| && frame < s.tasks[n].next <= |s.tasks[n].schedule|
      && c.toys == Targets(s, s.tasks[n].device)
      && c.intensity == Clamp(Part(s.tasks[n].schedule[frame].intensity, c.scale))
    case ByStop(device) => c.toys == Targets(s, device) && c.intensity == 0.0
    case ByStopAll => c.toys == s.toys && c.intensity == 0.0
  }

  ghost predicate CommandsSound(s: PlaybackState) {
    && (forall k :: 0 <= k < |s.sent| ==> CommandSound(s, s.sent[k]))
    && (forall i :: 0 <= i < |s.tasks| ==> s.tasks[i].next <= |s.tasks[i].schedule|)
  }

  /** A step moves no task to another device or schedule, nor back in its schedule. */
  ghost predicate TasksKept(s: PlaybackState, s': PlaybackState) {
    && |s.tasks| <= |s'.tasks|
    && forall i :: 0 <= i < |s.tasks| ==> TaskKept(s.tasks[i], s'.tasks[i])
  }

  predicate TaskKept(t: PlayTask, t': PlayTask) {
    t'.device == t.device && t'.generation == t.generation && t'.schedule == t.schedule && t.next <= t'.next
  }

  lemma StepKeepsTasks(s: PlaybackState, step: PlaybackStep)
    requires Possible(s, step)
    ensures TasksKept(s, After(s, step))
    ensures After(s, step).deviceMap == s.deviceMap && After(s, step).toys == s.toys
  {
    hide Keyframes, Sends, AbortHolder, AbortEvery;
    if step.Insert? { AbortsKeepTasks(s, s.tasks[step.task].device); }
    if step.BeginStop? { AbortsKeepTasks(s, step.device); }
    if step.BeginStopAll? { AbortsKeepTasks(s, ""); }
  }

  lemma AbortsKeepTasks(s: PlaybackState, device: DeviceId)
    ensures |AbortHolder(s, device)| == |AbortEvery(s)| == |s.tasks|
    ensures forall i :: 0 <= i < |s.tasks| ==>
              TaskKept(s.tasks[i], AbortHolder(s, device)[i]) && TaskKept(s.tasks[i], AbortEvery(s)[i])
  {
  }

  lemma CommandStaysSound(s: PlaybackState, s': PlaybackState, c: Command)
    requires CommandSound(s, c) && TasksKept(s, s') && s'.deviceMap == s.deviceMap && s'.toys == s.toys
    requires forall i :: 0 <= i < |s'.tasks| ==> s'.tasks[i].next <= |s'.tasks[i].schedule|
    ensures CommandSound(s', c)
  {
    if c.author.ByTask? {
      assert TaskKept(s.tasks[c.author.task], s'.tasks[c.author.task]);
    }
  }

  lemma StepSends(s: PlaybackState, step: PlaybackStep)
    requires Possible(s, step)
    ensures After(s, step).sent == s.sent + Sends(s, step)
  {
    hide Keyframes, Targets, AbortEvery, AbortHolder;
    assert s.sent == s.sent + [];
  }

  lemma SentIsSound(s: PlaybackState, step: PlaybackStep, c: Command)
    requires CommandsSound(s) && Possible(s, step) && c in Sends(s, step)
    ensures CommandSound(After(s, step), c)
  {
  }

  lemma CommandsSoundStep(s: PlaybackState, step: PlaybackStep)
    requires CommandsSound(s) && Possible(s, step)
    ensures CommandsSound(After(s, step))
  {
    var s' := After(s, step);
    StepKeepsTasks(s, step);
    StepSends(s, step);
    StaysWithinSchedules(s, step);
    hide After, Sends, CommandSound;
    forall k | 0 <= k < |s'.sent|
      ensures CommandSound(s', s'.sent[k])
    {
      if k < |s.sent| {
        CommandStaysSound(s, s', s.sent[k]);
      } else {
        SentIsSound(s, step, s'.sent[k]);
      }
    }
  }

  lemma StaysWithinSchedules(s: PlaybackState, step: PlaybackStep)
    requires CommandsSound(s) && Possible(s, step)
    ensures forall i :: 0 <= i < |After(s, step).tasks| ==>
            After(s, step).tasks[i].next <= |After(s, step).tasks[i].schedule|
  {
    hide Keyframes, Targets, CommandSound;
  }

  /** The frames task `n` has sent, in the order it sent them. */
  function FramesSent(sent: seq<Command>, n: nat): seq<nat> {
    if sent == [] then []
    else
      var author := sent[|sent| - 1].author;
      FramesSent(sent[..|sent| - 1], n) + if author.ByTask? && author.task == n then [author.frame] else []
  }

  function CountingUp(n: nat): seq<nat> {
    seq(n, k => k)
  }

  ghost predicate FramesInOrder(s: PlaybackState) {
    && (forall n: nat :: n < |s.tasks| ==> FramesSent(s.sent, n) == CountingUp(s.tasks[n].next))
    && (forall n: nat :: n >= |s.tasks| ==> FramesSent(s.sent, n) == [])
  }

  lemma FramesSentAppend(sent: seq<Command>, c: Command, n: nat)
    ensures FramesSent(sent + [c], n) ==
            if c.author.ByTask? && c.author.task == n then FramesSent(sent, n) + [c.author.frame]
                    else FramesSent(sent, n)
  {
    assert (sent + [c])[..|sent|] == sent;
  }

  lemma FramesInOrderStep(s: PlaybackState, step: PlaybackStep)
    requires FramesInOrder(s) && Possible(s, step)
    ensures FramesInOrder(After(s, step))
  {
    hide *;
    var s' := After(s, step);
    StepNext(s, step);
    forall n: nat
      ensures FramesSent(s'.sent, n) == if n < |s'.tasks| then CountingUp(s'.tasks[n].next) else []
    {
      FramesOfStep(s, step, n);
      FramesKnown(s, n);
      if n < |s.tasks| && step == Emit(n) { CountOneMore(s.tasks[n].next); }
      CountNone();
    }
    FramesRecorded(s');
  }

  lemma FramesRecorded(s: PlaybackState)
    requires forall n: nat :: FramesSent(s.sent, n) == if n < |s.tasks| then CountingUp(s.tasks[n].next) else []
    ensures FramesInOrder(s)
  {
    hide FramesSent, CountingUp;
  }

  lemma FramesKnown(s: PlaybackState, n: nat)
    requires FramesInOrder(s)
    ensures FramesSent(s.sent, n) == if n < |s.tasks| then CountingUp(s.tasks[n].next) else []
  {
  }

  lemma CountOneMore(n: nat)
    ensures CountingUp(n + 1) == CountingUp(n) + [n]
  {
  }

  lemma CountNone()
    ensures CountingUp(0) == []
  {
  }

  lemma FramesOfStep(s: PlaybackState, step: PlaybackStep, n: nat)
    requires Possible(s, step)
    ensures FramesSent(After(s, step).sent, n) ==
            if step == Emit(n) then FramesSent(s.sent, n) + [s.tasks[n].next] else FramesSent(s.sent, n)
    ensures step == Emit(n) ==> n < |s.tasks|
  {
    hide After, Targets, FramesSent;
    StepSends(s, step);
    if Sends(s, step) != [] {
      FramesSentAppend(s.sent, Sends(s, step)[0], n);
    } else {
      assert s.sent + [] == s.sent;
    }
  }

  /** Only sending a frame moves a task on, by one; a new task starts at none. */
  lemma StepNext(s: PlaybackState, step: PlaybackStep)
    requires Possible(s, step)
    ensures |s.tasks| <= |After(s, step).tasks|
    ensures forall n: nat :: n < |s.tasks| ==>
              After(s, step).tasks[n].next == s.tasks[n].next + if step == Emit(n) then 1 else 0
    ensures forall n: nat :: |s.tasks| <= n < |After(s, step).tasks| ==> After(s, step).tasks[n].next == 0
  {
    hide Keyframes, Sends;
  }

  lemma {:induction false} ReachableCommands(s: PlaybackState, run: seq<PlaybackStep>)
    requires CommandsSound(s) && FramesInOrder(s) && Perform(s, run).Some?
    ensures CommandsSound(Perform(s, run).value) && FramesInOrder(Perform(s, run).value)
  {
    hide After, Possible, CommandsSound, FramesInOrder;
    if run != [] {
      var before := Perform(s, run[..|run| - 1]).value;
      ReachableCommands(s, run[..|run| - 1]);
      CommandsSoundStep(before, run[|run| - 1]);
      FramesInOrderStep(before, run[|run| - 1]);
    }
  }

  /** Under every interleaving and every sequence of scale changes: each command
      is within the unit range and goes to no toy outside its device's list; each
      task sends its frames in order without gap or repeat; and a task that ran to
      its end has sent its whole schedule. */
  lemma CommandsEndToEnd(deviceMap: DeviceMap, toys: set<ToyId>, scale: real, run: seq<PlaybackStep>, s: PlaybackState)
    requires Perform(Connected(deviceMap, toys, scale), run) == Some(s)
    ensures forall k :: 0 <= k < |s.sent| ==> CommandSound(s, s.sent[k]) && 0.0 <= s.sent[k].intensity <= 1.0
    ensures forall n: nat :: n < |s.tasks| ==> FramesSent(s.sent, n) == CountingUp(s.tasks[n].next)
    ensures |s.tasks| < GENERATIONS ==>
              forall n: nat :: n < |s.tasks| && s.tasks[n].progress.Finished? ==>
                FramesSent(s.sent, n) == CountingUp(|s.tasks[n].schedule|)
  {
    ReachableCommands(Connected(deviceMap, toys, scale), run);
    if |s.tasks| < GENERATIONS {
      ReachableTableSound(Connected(deviceMap, toys, scale), run);
      forall n: nat | n < |s.tasks| && s.tasks[n].progress.Finished?
        ensures FramesSent(s.sent, n) == CountingUp(|s.tasks[n].schedule|)
      {
        hide Perform;
        assert TaskSound(s, n);
      }
    }
  }

  /** The scale set by the last scale change of a run, if it has one. */
  function ScaleSet(scale: real, run: seq<PlaybackStep>): real {
    if run == [] then scale
    else if run[|run| - 1].SetScale? then run[|run| - 1].scale
    else ScaleSet(scale, run[..|run| - 1])
  }

  lemma {:induction false} ScaleReadsOffRun(s: PlaybackState, run: seq<PlaybackStep>)
    requires Perform(s, run).Some?
    ensures Perform(s, run).value.scale == ScaleSet(s.scale, run)
  {
    hide Keyframes, Sends, AbortHolder, AbortEvery;
    if run != [] {
      ScaleReadsOffRun(s, run[..|run| - 1]);
    }
  }

  /** Command `k` is what step `n` sent. */
  ghost predicate SentAt(s: PlaybackState, run: seq<PlaybackStep>, k: nat, n: nat) {
    && n < |run| && Perform(s, run).Some? && k < |Perform(s, run).value.sent|
    && Perform(s, run[..n]).Some?
    && var before := Perform(s, run[..n]).value;
       |before.sent| == k && Possible(before, run[n]) && Sends(before, run[n]) == [Perform(s, run).value.sent[k]]
  }

  lemma {:induction false} CommandArises(s: PlaybackState, run: seq<PlaybackStep>, k: nat) returns (n: nat)
    requires Perform(s, run).Some? && |s.sent| <= k < |Perform(s, run).value.sent|
    ensures SentAt(s, run, k, n)
  {
    hide After, Possible;
    var last := |run| - 1;
    var before := Perform(s, run[..last]).value;
    StepSends(before, run[last]);
    if k < |before.sent| {
      n := CommandArises(s, run[..last], k);
      assert run[..last][..n] == run[..n];
    } else {
      n := last;
    }
  }

  /** Every frame goes out at the scale set by the last change before it. */
  lemma FramesAtScaleInForce(deviceMap: DeviceMap, toys: set<ToyId>, scale: real, run: seq<PlaybackStep>,
                             s: PlaybackState, k: nat)
    returns (n: nat)
    requires Perform(Connected(deviceMap, toys, scale), run) == Some(s)
    requires k < |s.sent| && s.sent[k].author.ByTask?
    ensures SentAt(Connected(deviceMap, toys, scale), run, k, n)
    ensures run[n] == Emit(s.sent[k].author.task) && s.sent[k].scale == ScaleSet(scale, run[..n])
  {
    n := CommandArises(Connected(deviceMap, toys, scale), run, k);
    ScaleReadsOffRun(Connected(deviceMap, toys, scale), run[..n]);
    hide Perform, Targets, Clamp, Part;
  }

  /** The last frame a task has sent, and where. */
  lemma {:induction false} LastFrameSentAt(sent: seq<Command>, n: nat) returns (k: nat)
    requires FramesSent(sent, n) != []
    ensures k < |sent| && sent[k].author == ByTask(n, FramesSent(sent, n)[|FramesSent(sent, n)| - 1])
    ensures forall j :: k < j < |sent| && sent[j].author.ByTask? ==> sent[j].author.task != n
  {
    var last := |sent| - 1;
    if sent[last].author.ByTask? && sent[last].author.task == n {
      k := last;
    } else {
      k := LastFrameSentAt(sent[..last], n);
      assert forall j :: 0 <= j < last ==> sent[..last][j] == sent[j];
    }
  }

  /** The last command of a task that ran to its end is zero. */
  lemma FinishedEndsAtZero(deviceMap: DeviceMap, toys: set<ToyId>, scale: real, run: seq<PlaybackStep>,
                           s: PlaybackState, n: nat)
    returns (k: nat)
    requires Perform(Connected(deviceMap, toys, scale), run) == Some(s) && |s.tasks| < GENERATIONS
    requires n < |s.tasks| && s.tasks[n].progress.Finished? && EndsAtRest(s.tasks[n].schedule)
    ensures k < |s.sent| && s.sent[k].author == ByTask(n, |s.tasks[n].schedule| - 1) && s.sent[k].intensity == 0.0
    ensures forall j :: k < j < |s.sent| && s.sent[j].author.ByTask? ==> s.sent[j].author.task != n
  {
    hide Perform, FramesSent, Part, Clamp, Targets;
    CommandsEndToEnd(deviceMap, toys, scale, run, s);
    k := LastFrameSentAt(s.sent, n);
    assert CommandSound(s, s.sent[k]);
    SilentAtAnyScale(s.sent[k].scale);
  }

  lemma SilentAtAnyScale(scale: real)
    ensures Clamp(Part(0.0, scale)) == 0.0
  {
  }

  /** Who hears a command, in terms of the configuration: a command made for a
      device, by its task or its stop, reaches a toy exactly if the toy is
      connected and the device's list, if it has one, names it; a stop of
      everything reaches every toy. */
  lemma CommandReaches(deviceMap: DeviceMap, toys: set<ToyId>, scale: real, run: seq<PlaybackStep>,
                       s: PlaybackState, k: nat, toy: ToyId)
    requires Perform(Connected(deviceMap, toys, scale), run) == Some(s) && k < |s.sent|
    ensures s.sent[k].author.ByTask? ==> s.sent[k].author.task < |s.tasks|
    ensures var author := s.sent[k].author;
            var device := match author
                          case ByTask(n, _) => Some(s.tasks[n].device)
                          case ByStop(d) => Some(d)
                          case ByStopAll => None;
            toy in s.sent[k].toys <==>
            toy in toys && (device.Some? && device.value in deviceMap && deviceMap[device.value].Some? ==>
                              toy in deviceMap[device.value].value)
  {
    CommandsEndToEnd(deviceMap, toys, scale, run, s);
    TasksGrowOverRun(Connected(deviceMap, toys, scale), run, 0);
    hide Perform, Clamp, Part;
    assert CommandSound(s, s.sent[k]);
  }

  // ---- Rest ----

  /** The points of every translation: some, and zero at the end. */
  predicate EndsAtRest(points: seq<HapticPoint>) {
    points != [] && points[|points| - 1].intensity == 0.0
  }

  ghost predicate RestingSchedules(s: PlaybackState) {
    forall i :: 0 <= i < |s.tasks| ==> EndsAtRest(s.tasks[i].schedule)
  }

  lemma KeyframesEndAtRest(points: seq<HapticPoint>)
    requires EndsAtRest(points)
    ensures EndsAtRest(Keyframes(points))
  {
    hide SteppedFill;
  }

  function LastCommand(sent: seq<Command>, toy: ToyId): Option<Command> {
    if sent == [] then None
    else if toy in sent[|sent| - 1].toys then Some(sent[|sent| - 1])
    else LastCommand(sent[..|sent| - 1], toy)
  }

  lemma LastCommandAppend(sent: seq<Command>, c: Command, toy: ToyId)
    ensures LastCommand(sent + [c], toy) == if toy in c.toys then Some(c) else LastCommand(sent, toy)
  {
    assert (sent + [c])[..|sent|] == sent;
  }

  lemma {:induction false} LastCommandSent(sent: seq<Command>, toy: ToyId)
    ensures LastCommand(sent, toy).Some? ==>
              LastCommand(sent, toy).value in sent && toy in LastCommand(sent, toy).value.toys
  {
    if sent != [] {
      LastCommandSent(sent[..|sent| - 1], toy);
    }
  }

  /** The toy is still moving. */
  predicate LeftOn(s: PlaybackState, toy: ToyId) {
    LastCommand(s.sent, toy).Some? && LastCommand(s.sent, toy).value.intensity != 0.0
  }

  /** A live task on the device with frames left to send. */
  predicate Sounding(s: PlaybackState, i: nat, d: DeviceId) {
    i < |s.tasks| && s.tasks[i].device == d && s.tasks[i].progress.Running? && s.tasks[i].next < |s.tasks[i].schedule|
  }

  /** Something will yet send a zero to the toys of the device. */
  ghost predicate Guarded(s: PlaybackState, d: DeviceId) {
    (exists i :: Sounding(s, i, d)) || d in s.stopping || s.stoppingAll > 0
  }

  /** The task is put in the table only after it has sent its last frame, and
      there aborts one that has not. */
  predicate Late(s: PlaybackState, step: PlaybackStep) {
    && step.Insert? && step.task < |s.tasks|
    && var t := s.tasks[step.task];
       && t.next >= |t.schedule|
       && t.device in s.slots && Sounding(s, s.slots[t.device].task, t.device)
  }

  /** Late, for a task of the device. */
  predicate LateOn(s: PlaybackState, step: PlaybackStep, d: DeviceId) {
    Late(s, step) && s.tasks[step.task].device == d
  }

  /** Steps that send nothing keep every device guarded, but for a late insertion
      on that very device. */
  lemma QuietStepKeepsGuard(s: PlaybackState, step: PlaybackStep, d: DeviceId)
    requires TableSound(s) && Possible(s, step) && !LateOn(s, step, d) && Guarded(s, d)
    requires !step.Emit? && !step.SendStop? && !step.SendStopAll?
    ensures Guarded(After(s, step), d)
  {
    hide Keyframes, Sends;
    var s' := After(s, step);
    if i :| Sounding(s, i, d) {
      assert TaskSound(s, i);
      if step.Insert? {
        InsertKeepsGuard(s, step.task, d, i);
      } else if step.BeginStop? {
        if step.device in s.slots { assert SlotSound(s, step.device); }
        assert step.device != d ==> Sounding(s', i, d);
      } else if !step.BeginStopAll? {
        assert Sounding(s', i, d);
      }
    }
  }

  lemma InsertKeepsGuard(s: PlaybackState, n: nat, d: DeviceId, i: nat)
    requires TableSound(s) && Possible(s, Insert(n)) && !LateOn(s, Insert(n), d) && Sounding(s, i, d)
    ensures Guarded(After(s, Insert(n)), d)
  {
    hide Keyframes;
    var s', t := After(s, Insert(n)), s.tasks[n];
    assert TaskSound(s, i) && TaskSound(s, n);
    if t.device in s.slots { assert SlotSound(s, t.device); }
    if t.device == d && d in s.slots && s.slots[d].task == i {
      assert Sounding(s', n, d);
    } else {
      assert Sounding(s', i, d);
    }
  }

  /** The device whose task moved the toy last. */
  function Mover(s: PlaybackState, toy: ToyId): Option<DeviceId> {
    var last := LastCommand(s.sent, toy);
    if last.Some? && last.value.author.ByTask? && last.value.author.task < |s.tasks|
    then Some(s.tasks[last.value.author.task].device)
    else None
  }

  ghost predicate CoveredToy(s: PlaybackState, toy: ToyId) {
    Mover(s, toy).Some? && Guarded(s, Mover(s, toy).value)
  }

  lemma MoverKept(s: PlaybackState, s': PlaybackState, toy: ToyId)
    requires TasksKept(s, s') && LastCommand(s'.sent, toy) == LastCommand(s.sent, toy) && Mover(s, toy).Some?
    ensures Mover(s', toy) == Mover(s, toy)
  {
    var n: nat := LastCommand(s.sent, toy).value.author.task;
    assert TaskKept(s.tasks[n], s'.tasks[n]);
  }

  lemma QuietStepCovered(s: PlaybackState, step: PlaybackStep, toy: ToyId)
    requires TableSound(s) && Possible(s, step) && CoveredToy(s, toy)
    requires !step.Emit? && !step.SendStop? && !step.SendStopAll?
    ensures CoveredToy(After(s, step), toy) || LateOn(s, step, Mover(s, toy).value)
  {
    StepSends(s, step);
    StepKeepsTasks(s, step);
    hide TableSound, After, Possible, LastCommand, Guarded, LateOn, Mover;
    assert After(s, step).sent == s.sent;
    MoverKept(s, After(s, step), toy);
    if !LateOn(s, step, Mover(s, toy).value) {
      QuietStepKeepsGuard(s, step, Mover(s, toy).value);
    }
  }

  /** A toy left on by a tick is guarded by the very task; one it did not reach
      is guarded as before, for another device. */
  lemma EmitCovered(s: PlaybackState, n: nat, toy: ToyId)
    requires CommandsSound(s) && RestingSchedules(s) && Possible(s, Emit(n)) && LeftOn(After(s, Emit(n)), toy)
    requires toy !in Sends(s, Emit(n))[0].toys ==> CoveredToy(s, toy)
    ensures CoveredToy(After(s, Emit(n)), toy)
  {
    var s', c := After(s, Emit(n)), Sends(s, Emit(n))[0];
    StepSends(s, Emit(n));
    LastCommandAppend(s.sent, c, toy);
    LastFrameSilent(s, n);
    StepKeepsTasks(s, Emit(n));
    hide LastCommand, Targets, Tick, Clamp;
    if toy in c.toys {
      assert Sounding(s', n, s.tasks[n].device);
    } else {
      MoverKept(s, s', toy);
      MovedToysAreTargets(s, toy);
      var d := Mover(s, toy).value;
      if i :| Sounding(s, i, d) {
        assert Sounding(s', i, d);
      }
    }
  }

  lemma MovedToysAreTargets(s: PlaybackState, toy: ToyId)
    requires CommandsSound(s) && Mover(s, toy).Some?
    ensures toy in Targets(s, Mover(s, toy).value) && toy in s.toys
  {
    LastCommandSent(s.sent, toy);
    assert CommandSound(s, LastCommand(s.sent, toy).value);
  }

  lemma LastFrameSilent(s: PlaybackState, n: nat)
    requires RestingSchedules(s) && Possible(s, Emit(n))
    ensures s.tasks[n].next == |s.tasks[n].schedule| - 1 ==> Sends(s, Emit(n))[0].intensity == 0.0
  {
    hide Targets;
    assert EndsAtRest(s.tasks[n].schedule);
  }

  lemma StopCovered(s: PlaybackState, step: PlaybackStep, toy: ToyId)
    requires CommandsSound(s) && Possible(s, step) && (step.SendStop? || step.SendStopAll?)
    requires LeftOn(After(s, step), toy) && (toy !in Sends(s, step)[0].toys ==> CoveredToy(s, toy))
    ensures CoveredToy(After(s, step), toy)
  {
    var s', c := After(s, step), Sends(s, step)[0];
    StepSends(s, step);
    LastCommandAppend(s.sent, c, toy);
    StepKeepsTasks(s, step);
    hide LastCommand, Targets, Tick, Clamp;
    MoverKept(s, s', toy);
    MovedToysAreTargets(s, toy);
    var d := Mover(s, toy).value;
    if i :| Sounding(s, i, d) {
      assert Sounding(s', i, d);
    }
  }

  // ---- Who is left on, exactly ----

  ghost predicate SpawnsEndAtRest(run: seq<PlaybackStep>) {
    forall k :: 0 <= k < |run| && run[k].Spawn? ==> EndsAtRest(run[k].points)
  }

  ghost predicate OnTime(s: PlaybackState, run: seq<PlaybackStep>, k: nat)
    requires k < |run|
  {
    Perform(s, run[..k]).Some? ==> !Late(Perform(s, run[..k]).value, run[k])
  }

  predicate Unreached(sent: seq<Command>, from: nat, toy: ToyId) {
    forall j :: from <= j < |sent| ==> toy !in sent[j].toys
  }

  /** The insertion takes away a toy's guard: it is late, on the device whose
      task moved the toy last, and the toy is on. */
  predicate Strands(s: PlaybackState, step: PlaybackStep, toy: ToyId) {
    LeftOn(s, toy) && Mover(s, toy).Some? && LateOn(s, step, Mover(s, toy).value)
  }

  /** Step `k` stranded the toy, and nothing reached it since. */
  ghost predicate StrandedAt(s: PlaybackState, run: seq<PlaybackStep>, k: nat, toy: ToyId) {
    && k < |run| && Perform(s, run[..k]).Some? && Perform(s, run).Some?
    && Strands(Perform(s, run[..k]).value, run[k], toy)
    && Unreached(Perform(s, run).value.sent, |Perform(s, run[..k]).value.sent|, toy)
  }

  /** What every run keeps, about the tasks and about each toy. */
  ghost predicate Safe(s: PlaybackState) {
    TableSound(s) && CommandsSound(s) && RestingSchedules(s)
  }

  ghost predicate Accounted(s: PlaybackState, run: seq<PlaybackStep>, toy: ToyId)
    requires Perform(s, run).Some?
  {
    LeftOn(Perform(s, run).value, toy) ==>
      CoveredToy(Perform(s, run).value, toy) || exists k: nat :: StrandedAt(s, run, k, toy)
  }

  lemma SafeStep(s: PlaybackState, step: PlaybackStep)
    requires Safe(s) && Possible(s, step) && |s.tasks| < GENERATIONS
    requires step.Spawn? ==> EndsAtRest(step.points)
    ensures Safe(After(s, step))
  {
    AfterTableSound(s, step);
    CommandsSoundStep(s, step);
    RestingStep(s, step);
  }

  lemma RestingStep(s: PlaybackState, step: PlaybackStep)
    requires RestingSchedules(s) && Possible(s, step) && (step.Spawn? ==> EndsAtRest(step.points))
    ensures RestingSchedules(After(s, step))
  {
    StepKeepsTasks(s, step);
    if step.Spawn? { KeyframesEndAtRest(step.points); }
    hide Keyframes, Sends, EndsAtRest;
    var s' := After(s, step);
    forall i | 0 <= i < |s'.tasks|
      ensures EndsAtRest(s'.tasks[i].schedule)
    {
      if i < |s.tasks| {
        assert TaskKept(s.tasks[i], s'.tasks[i]);
      }
    }
  }

  lemma {:induction false} ReachableSafe(s: PlaybackState, run: seq<PlaybackStep>)
    requires Safe(s) && SpawnsEndAtRest(run) && Perform(s, run).Some? && |Perform(s, run).value.tasks| < GENERATIONS
    ensures Safe(Perform(s, run).value)
  {
    hide Safe, After, Possible, EndsAtRest;
    if run != [] {
      var n := |run| - 1;
      var before := Perform(s, run[..n]).value;
      TasksGrow(before, run[n]);
      ReachableSafe(s, run[..n]);
      SafeStep(before, run[n]);
    }
  }

  /** A step leaves a toy covered, unless it reaches it or strands it. */
  lemma StepAccounts(s: PlaybackState, step: PlaybackStep, toy: ToyId)
    requires Safe(s) && Possible(s, step) && LeftOn(After(s, step), toy)
    requires LeftOn(s, toy) ==> CoveredToy(s, toy)
    ensures CoveredToy(After(s, step), toy) || (Sends(s, step) == [] && Strands(s, step, toy))
  {
    StepSends(s, step);
    if Sends(s, step) == [] {
      assert After(s, step).sent == s.sent;
      QuietStepCovered(s, step, toy);
    } else {
      LastCommandAppend(s.sent, Sends(s, step)[0], toy);
      hide CommandsSound, RestingSchedules, TableSound, After, LastCommand, CoveredToy;
      if step.Emit? { EmitCovered(s, step.task, toy); } else { StopCovered(s, step, toy); }
    }
  }

  lemma {:induction false} LastCommandUnreached(sent: seq<Command>, from: nat, toy: ToyId)
    requires from <= |sent| && Unreached(sent, from, toy)
    ensures LastCommand(sent, toy) == LastCommand(sent[..from], toy)
  {
    if from < |sent| {
      LastCommandUnreached(sent[..|sent| - 1], from, toy);
      assert sent[..|sent| - 1][..from] == sent[..from];
    } else {
      assert sent[..from] == sent;
    }
  }

  lemma {:induction false} SentGrows(s: PlaybackState, run: seq<PlaybackStep>, k: nat)
    requires k <= |run| && Perform(s, run).Some?
    ensures Perform(s, run[..k]).Some? && Perform(s, run[..k]).value.sent <= Perform(s, run).value.sent
  {
    hide After, Possible;
    if k < |run| {
      var n := |run| - 1;
      SentGrows(s, run[..n], k);
      assert run[..n][..k] == run[..k];
      StepSends(Perform(s, run[..n]).value, run[n]);
    } else {
      assert run[..k] == run;
    }
  }

  /** A toy stranded stays so until a command reaches it. */
  lemma StrandedStep(s: PlaybackState, run: seq<PlaybackStep>, step: PlaybackStep, k: nat, toy: ToyId)
    requires Perform(s, run + [step]).Some? && StrandedAt(s, run, k, toy)
    ensures var before := Perform(s, run).value;
            || StrandedAt(s, run + [step], k, toy)
            || (Possible(before, step) && exists c :: c in Sends(before, step) && toy in c.toys)
  {
    hide After, Possible, Strands, Sends;
    var longer := run + [step];
    assert longer[..|run|] == run && longer[..k] == run[..k];
    var before, sent := Perform(s, run).value, Perform(s, longer).value.sent;
    SentGrows(s, run, k);
    StepSends(before, step);
    if j :| |before.sent| <= j < |sent| && toy in sent[j].toys {
      assert sent[j] in Sends(before, step);
    }
  }

  /** In every run a toy left on is covered, or stranded by a late insertion. */
  lemma {:induction false} EveryToyAccounted(s: PlaybackState, run: seq<PlaybackStep>, toy: ToyId)
    requires Safe(s) && s.sent == [] && SpawnsEndAtRest(run)
    requires Perform(s, run).Some? && |Perform(s, run).value.tasks| < GENERATIONS
    ensures Accounted(s, run, toy)
  {
    if run != [] {
      var n, init := |run| - 1, run[..|run| - 1];
      var before := Perform(s, init).value;
      TasksGrow(before, run[n]);
      EveryToyAccounted(s, init, toy);
      ReachableSafe(s, init);
      assert init + [run[n]] == run;
      if LeftOn(Perform(s, run).value, toy) {
        hide Safe, CoveredToy;
        AccountStep(s, init, run[n], toy);
      }
    }
  }

  lemma AccountStep(s: PlaybackState, run: seq<PlaybackStep>, step: PlaybackStep, toy: ToyId)
    requires Perform(s, run).Some? && Safe(Perform(s, run).value) && Accounted(s, run, toy)
    requires Perform(s, run + [step]).Some? && LeftOn(Perform(s, run + [step]).value, toy)
    ensures Accounted(s, run + [step], toy)
  {
    hide Safe, CoveredToy, After, Possible, Strands, Unreached, LeftOn, Sends;
    var before, longer := Perform(s, run).value, run + [step];
    assert longer[..|run|] == run;
    if LeftOn(before, toy) && !CoveredToy(before, toy) {
      var k: nat :| StrandedAt(s, run, k, toy);
      StrandedStep(s, run, step, k, toy);
      if !StrandedAt(s, longer, k, toy) {
        ReachedIsCovered(before, step, toy);
      }
    } else {
      StepAccounts(before, step, toy);
      if !CoveredToy(After(before, step), toy) {
        StepSends(before, step);
        assert Unreached(Perform(s, longer).value.sent, |before.sent|, toy) by { NothingBeyond(before.sent, toy); }
        assert StrandedAt(s, longer, |run|, toy);
      }
    }
  }

  lemma NothingBeyond(sent: seq<Command>, toy: ToyId)
    ensures Unreached(sent + [], |sent|, toy)
  {
  }

  lemma ReachedIsCovered(s: PlaybackState, step: PlaybackStep, toy: ToyId)
    requires Safe(s) && Possible(s, step) && LeftOn(After(s, step), toy)
    requires exists c :: c in Sends(s, step) && toy in c.toys
    ensures CoveredToy(After(s, step), toy)
  {
    hide CommandsSound, RestingSchedules, TableSound, After, CoveredToy;
    if step.Emit? { EmitCovered(s, step.task, toy); } else { StopCovered(s, step, toy); }
  }

  predicate AtRest(s: PlaybackState) {
    && (forall i :: 0 <= i < |s.tasks| ==> !s.tasks[i].progress.Running?)
    && s.stopping == multiset{} && s.stoppingAll == 0
  }

  /** Rest, exactly: in every run of fewer than 2^64 plays, once no task is live
      and no stop is half done, a toy is left on if and only if some late
      insertion stranded it and no command reached it since. So if every task is
      inserted in time, the last command every toy got is zero. */
  lemma RestSafe(deviceMap: DeviceMap, toys: set<ToyId>, scale: real, run: seq<PlaybackStep>, s: PlaybackState,
                 toy: ToyId)
    requires Perform(Connected(deviceMap, toys, scale), run) == Some(s) && |s.tasks| < GENERATIONS
    requires SpawnsEndAtRest(run) && AtRest(s)
    ensures LeftOn(s, toy) <==> exists k: nat :: StrandedAt(Connected(deviceMap, toys, scale), run, k, toy)
    ensures (forall k: nat :: k < |run| ==> OnTime(Connected(deviceMap, toys, scale), run, k)) ==> !LeftOn(s, toy)
  {
    hide *;
    var s0 := Connected(deviceMap, toys, scale);
    ConnectedSafe(deviceMap, toys, scale);
    EveryToyAccounted(s0, run, toy);
    RestingUncovered(s0, run, toy);
    if k: nat :| StrandedAt(s0, run, k, toy) {
      StrandedIsLeftOn(s0, run, k, toy);
    }
  }

  lemma ConnectedSafe(deviceMap: DeviceMap, toys: set<ToyId>, scale: real)
    ensures Safe(Connected(deviceMap, toys, scale)) && Connected(deviceMap, toys, scale).sent == []
  {
  }

  lemma RestingUncovered(s: PlaybackState, run: seq<PlaybackStep>, toy: ToyId)
    requires Perform(s, run).Some? && AtRest(Perform(s, run).value) && Accounted(s, run, toy)
    ensures LeftOn(Perform(s, run).value, toy) ==> exists k: nat :: StrandedAt(s, run, k, toy)
  {
    hide Perform, LastCommand, StrandedAt;
  }

  lemma StrandedIsLeftOn(s: PlaybackState, run: seq<PlaybackStep>, k: nat, toy: ToyId)
    requires StrandedAt(s, run, k, toy)
    ensures k < |run| && !OnTime(s, run, k) && LeftOn(Perform(s, run).value, toy)
  {
    hide Perform, Unreached, Mover, LastCommand;
    var before, end := Perform(s, run[..k]).value, Perform(s, run).value;
    SentGrows(s, run, k);
    LastCommandUnreached(end.sent, |before.sent|, toy);
    assert end.sent[..|before.sent|] == before.sent;
  }

  // ---- A stopped device stays silent ----

  /** No task of the device is live. */
  ghost predicate Silent(s: PlaybackState, d: DeviceId) {
    forall i :: 0 <= i < |s.tasks| && s.tasks[i].device == d ==> !s.tasks[i].progress.Running?
  }

  /** Stopping a device ends its tasks exactly when none of them is still waiting
      to be put in the table, as when calls to playback are made one at a time. */
  lemma StopSilences(s: PlaybackState, d: DeviceId)
    requires TableSound(s)
    ensures Silent(After(s, BeginStop(d)), d) <==>
            forall i :: 0 <= i < |s.tasks| && s.tasks[i].device == d && s.tasks[i].progress.Running? ==>
                    s.tasks[i].inserted
  {
    var s' := After(s, BeginStop(d));
    if d in s.slots { assert SlotSound(s, d); }
    forall i | 0 <= i < |s.tasks| && s.tasks[i].device == d
      ensures s'.tasks[i].device == d
      ensures s'.tasks[i].progress.Running? <==> s.tasks[i].progress.Running? && !s.tasks[i].inserted
    {
      assert TaskSound(s, i);
    }
  }

  /** Of the device's tasks only those from the `m`-th on are live. */
  ghost predicate SilentBelow(s: PlaybackState, d: DeviceId, m: nat) {
    forall i :: 0 <= i < |s.tasks| && i < m && s.tasks[i].device == d ==> !s.tasks[i].progress.Running?
  }

  /** Whatever the device's tasks sent after the first `n` commands came from the
      `m`-th task or a later one. */
  ghost predicate OnlyNewSentFor(s: PlaybackState, d: DeviceId, m: nat, n: nat) {
    forall k :: n <= k < |s.sent| && s.sent[k].author.ByTask? ==>
      var task := s.sent[k].author.task;
      task < |s.tasks| && (s.tasks[task].device == d ==> m <= task)
  }

  lemma SilentStep(s: PlaybackState, step: PlaybackStep, d: DeviceId, m: nat, n: nat)
    requires m <= |s.tasks| && SilentBelow(s, d, m) && OnlyNewSentFor(s, d, m, n) && Possible(s, step)
    ensures SilentBelow(After(s, step), d, m) && OnlyNewSentFor(After(s, step), d, m, n)
  {
    StepSends(s, step);
    StepKeepsTasks(s, step);
    hide Keyframes, Sends;
    var s' := After(s, step);
    forall i | 0 <= i < |s.tasks|
      ensures s'.tasks[i].device == s.tasks[i].device
      ensures s'.tasks[i].progress.Running? ==> s.tasks[i].progress.Running?
    {
      assert TaskKept(s.tasks[i], s'.tasks[i]);
    }
  }

  lemma {:induction false} SilentBelowRun(s: PlaybackState, d: DeviceId, run: seq<PlaybackStep>)
    requires Silent(s, d) && Perform(s, run).Some?
    ensures |s.tasks| <= |Perform(s, run).value.tasks|
    ensures SilentBelow(Perform(s, run).value, d, |s.tasks|)
    ensures OnlyNewSentFor(Perform(s, run).value, d, |s.tasks|, |s.sent|)
  {
    hide After, Possible;
    if run != [] {
      var n := |run| - 1;
      SilentBelowRun(s, d, run[..n]);
      StepKeepsTasks(Perform(s, run[..n]).value, run[n]);
      SilentStep(Perform(s, run[..n]).value, run[n], d, |s.tasks|, |s.sent|);
    }
  }

  /** Each task added by a run is the work of a spawning step of it. */
  lemma {:induction false} TaskSpawned(s: PlaybackState, steps: seq<PlaybackStep>, i: nat) returns (k: nat)
    requires Perform(s, steps).Some? && |s.tasks| <= i < |Perform(s, steps).value.tasks|
    ensures k < |steps| && steps[k].Spawn?
    ensures var t := Perform(s, steps).value.tasks[i];
            t.device == steps[k].device && t.schedule == Keyframes(steps[k].points)
  {
    hide After, Possible, Keyframes;
    var n := |steps| - 1;
    var before := Perform(s, steps[..n]).value;
    StepKeepsTasks(before, steps[n]);
    if i < |before.tasks| {
      k := TaskSpawned(s, steps[..n], i);
      assert TaskKept(before.tasks[i], After(before, steps[n]).tasks[i]);
    } else {
      NewTask(before, steps[n], i);
      k := n;
    }
  }

  lemma NewTask(s: PlaybackState, step: PlaybackStep, i: nat)
    requires Possible(s, step) && |s.tasks| <= i < |After(s, step).tasks|
    ensures step.Spawn?
    ensures var t := After(s, step).tasks[i]; t.device == step.device && t.schedule == Keyframes(step.points)
  {
    hide Keyframes;
  }

  /** Once a device is silent, whatever is sent for it by a task is sent by one
      that a later play of the device spawned, whatever other devices, scale
      changes and unfinished stops do meanwhile. */
  lemma SilentUntilPlayed(s: PlaybackState, d: DeviceId, run: seq<PlaybackStep>, k: nat) returns (m: nat)
    requires Silent(s, d) && Perform(s, run).Some?
    requires |s.sent| <= k < |Perform(s, run).value.sent| && Perform(s, run).value.sent[k].author.ByTask?
    requires var end := Perform(s, run).value;
             end.sent[k].author.task < |end.tasks| ==> end.tasks[end.sent[k].author.task].device == d
    ensures m < |run| && run[m].Spawn? && run[m].device == d
    ensures var end := Perform(s, run).value;
            |s.tasks| <= end.sent[k].author.task < |end.tasks|
            && end.tasks[end.sent[k].author.task].schedule == Keyframes(run[m].points)
  {
    SilentBelowRun(s, d, run);
    hide Perform, Keyframes, Silent, SilentBelow;
    m := TaskSpawned(s, run, Perform(s, run).value.sent[k].author.task);
  }

  // ---- The late insertion ----

  /** Nothing is live but the task and the one it is about to replace, and no
      stop is half done. */
  ghost predicate OnlyLive(s: PlaybackState, n: nat)
    requires n < |s.tasks| && s.tasks[n].device in s.slots
  {
    && s.stopping == multiset{} && s.stoppingAll == 0
    && forall i :: 0 <= i < |s.tasks| && s.tasks[i].progress.Running? ==> i == n || i == s.slots[s.tasks[n].device].task
  }

  /** What a late insertion takes away: it sends nothing, and the device keeps a
      guard exactly if it has one besides the task aborted. With nothing else live
      the toys are left as they are: at once if the task was over before it was
      inserted, and otherwise when it ends. */
  lemma LateInsertionStrands(s: PlaybackState, n: nat, toy: ToyId)
    requires TableSound(s) && |s.tasks| < GENERATIONS && Possible(s, Insert(n)) && Late(s, Insert(n))
    ensures var d := s.tasks[n].device;
            Guarded(After(s, Insert(n)), d) <==>
            (exists i :: i != s.slots[d].task && Sounding(s, i, d)) || d in s.stopping || s.stoppingAll > 0
    ensures LeftOn(After(s, Insert(n)), toy) <==> LeftOn(s, toy)
    ensures OnlyLive(s, n) && !s.tasks[n].progress.Running? ==> AtRest(After(s, Insert(n)))
    ensures OnlyLive(s, n) && s.tasks[n].progress.Running? ==>
              && Possible(After(s, Insert(n)), Finish(n)) && AtRest(After(After(s, Insert(n)), Finish(n)))
              && (LeftOn(After(After(s, Insert(n)), Finish(n)), toy) <==> LeftOn(s, toy))
  {
    hide LastCommand;
    var s', d := After(s, Insert(n)), s.tasks[n].device;
    assert TaskSound(s, n);
    assert SlotSound(s, d);
    forall i: nat
      ensures Sounding(s', i, d) <==> i != s.slots[d].task && Sounding(s, i, d)
    {
    }
  }

  lemma PerformNext(s: PlaybackState, run: seq<PlaybackStep>, at: PlaybackState, step: PlaybackStep)
    requires Perform(s, run) == Some(at) && Possible(at, step)
    ensures Perform(s, run + [step]) == Some(After(at, step))
  {
    hide After, Possible;
    assert (run + [step])[..|run|] == run;
  }

  /** A rumble of 50 ms at full strength, and one that is over at once. */
  const LONG_RUMBLE: FfEffect := FfEffect(FF_RUMBLE, 1, 0, 0, 0, 50, 0, [65535, 65535, 0, 0, 0, 0, 0])
  const EMPTY_RUMBLE: FfEffect := FfEffect(FF_RUMBLE, 2, 0, 0, 0, 0, 0, [65535, 65535, 0, 0, 0, 0, 0])

  lemma RumbleSchedules(sine: SineFn) returns (long: seq<HapticPoint>, none: seq<HapticPoint>)
    ensures long == Keyframes(Translate(sine, LONG_RUMBLE)) && |long| == 3 && long[1].intensity == 0.5
    ensures none == Keyframes(Translate(sine, EMPTY_RUMBLE)) && none == [HapticPoint(0, 0.0)]
  {
    TranslationKeyframes(sine, LONG_RUMBLE);
    TranslationKeyframes(sine, EMPTY_RUMBLE);
    long, none := Schedule(Translate(sine, LONG_RUMBLE)), Schedule(Translate(sine, EMPTY_RUMBLE));
    RumbleDescends(sine, LONG_RUMBLE, 1);
    RumbleStrength(sine, LONG_RUMBLE);
    DenseUnchanged(Translate(sine, EMPTY_RUMBLE), 1);
  }

  /** The long rumble is played, then the empty one on the same device; before the
      second task is in the table it has sent its only frame. */
  function Overtaken(sine: SineFn): seq<PlaybackStep> {
    [Spawn("pad", Translate(sine, LONG_RUMBLE))] + [Insert(0)] + [Emit(0)]
    + [Spawn("pad", Translate(sine, EMPTY_RUMBLE))] + [Emit(1)]
  }

  lemma OvertakenState(sine: SineFn, long: seq<HapticPoint>, none: seq<HapticPoint>) returns (s: PlaybackState)
    requires long == Keyframes(Translate(sine, LONG_RUMBLE)) && none == Keyframes(Translate(sine, EMPTY_RUMBLE))
    requires |long| == 3 && |none| == 1
    ensures Perform(Connected(map[], {7}, 1.0), Overtaken(sine)) == Some(s)
    ensures s == PlaybackState(map[], {7}, 1.0,
                               [PlayTask("pad", 1, long, 1, Running, true),
                                PlayTask("pad", 2, none, 1, Running, false)],
                               map["pad" := Slot(1, 0)], 2, multiset{}, 0, s.sent)
  {
    hide Keyframes, Tick, Perform, AbortEvery, Targets, Translate;
    var s0, p, q := Connected(map[], {7}, 1.0), Translate(sine, LONG_RUMBLE), Translate(sine, EMPTY_RUMBLE);
    var s1 := After(s0, Spawn("pad", p));
    var s2 := After(s1, Insert(0));
    var s3 := After(s2, Emit(0));
    var s4 := After(s3, Spawn("pad", q));
    s := After(s4, Emit(1));
    NothingPerformed(s0);
    PerformNext(s0, [], s0, Spawn("pad", p));
    assert [] + [Spawn("pad", p)] == [Spawn("pad", p)];
    PerformNext(s0, [Spawn("pad", p)], s1, Insert(0));
    PerformNext(s0, [Spawn("pad", p)] + [Insert(0)], s2, Emit(0));
    PerformNext(s0, [Spawn("pad", p)] + [Insert(0)] + [Emit(0)], s3, Spawn("pad", q));
    PerformNext(s0, [Spawn("pad", p)] + [Insert(0)] + [Emit(0)] + [Spawn("pad", q)], s4, Emit(1));
  }

  lemma NothingPerformed(s: PlaybackState)
    ensures Perform(s, []) == Some(s)
  {
  }

  function LateRun(sine: SineFn): seq<PlaybackStep> {
    Overtaken(sine) + [Emit(0), Insert(1), Finish(1)]
  }

  /** Such a run exists, even with plays started one after the other and frames
      sent in the order of their times: the first task sends one more frame, then
      the second is put in the table and aborts it. */
  lemma LateInsertionHappens(sine: SineFn) returns (s: PlaybackState)
    ensures Perform(Connected(map[], {7}, 1.0), LateRun(sine)) == Some(s)
    ensures AtRest(s) && LeftOn(s, 7)
    ensures Sequential(Connected(map[], {7}, 1.0), LateRun(sine))
  {
    LateRunSequential(sine);
    hide *;
    var s0, run := Connected(map[], {7}, 1.0), Overtaken(sine);
    var long, none := RumbleSchedules(sine);
    var s5 := OvertakenState(sine, long, none);
    AboutToStrand(s5);
    var s6 := After(s5, Emit(0));
    PerformNext(s0, run, s5, Emit(0));
    NoTasksSound(map[], {7}, 1.0);
    ReachableTableSound(s0, run + [Emit(0)]);
    LateInsertionStrands(s6, 1, 7);
    s := After(After(s6, Insert(1)), Finish(1));
    PerformNext(s0, run + [Emit(0)], s6, Insert(1));
    PerformNext(s0, run + [Emit(0)] + [Insert(1)], After(s6, Insert(1)), Finish(1));
    assert run + [Emit(0), Insert(1), Finish(1)] == run + [Emit(0)] + [Insert(1)] + [Finish(1)];
    LateRunParts(sine);
  }

  /** The second play starts when the first task is in the table. */
  lemma LateRunSequential(sine: SineFn)
    ensures Sequential(Connected(map[], {7}, 1.0), LateRun(sine))
  {
    var long, none := RumbleSchedules(sine);
    hide Keyframes, Translate, Sends, Schedule;
    var s0, run, p := Connected(map[], {7}, 1.0), LateRun(sine), Spawn("pad", Translate(sine, LONG_RUMBLE));
    forall k | 0 <= k < |run| && run[k].Spawn?
      ensures NoneBetween(s0, run[..k])
    {
      if k == 0 {
        NothingPerformed(s0);
        assert run[..0] == [];
      } else {
        NothingPerformed(s0);
        PerformNext(s0, [], s0, p);
        assert [] + [p] == [p];
        PerformNext(s0, [p], After(s0, p), Insert(0));
        var s2 := After(After(s0, p), Insert(0));
        PerformNext(s0, [p] + [Insert(0)], s2, Emit(0));
        assert run[..k] == [p] + [Insert(0)] + [Emit(0)];
      }
    }
  }

  lemma LateRunParts(sine: SineFn)
    ensures LateRun(sine) == Overtaken(sine) + [Emit(0), Insert(1), Finish(1)]
  {
  }

  lemma NoTasksSound(deviceMap: DeviceMap, toys: set<ToyId>, scale: real)
    ensures TableSound(Connected(deviceMap, toys, scale))
  {
  }

  /** A frame of the first task, and only the two tasks are about. */
  lemma AboutToStrand(s: PlaybackState)
    requires |s.tasks| == 2 && s.slots == map["pad" := Slot(1, 0)] && s.stopping == multiset{} && s.stoppingAll == 0
    requires s.tasks[0].device == s.tasks[1].device == "pad" && s.tasks[0].next == 1 && |s.tasks[0].schedule| == 3
    requires s.tasks[0].progress.Running? && s.tasks[0].schedule[1].intensity == 0.5
    requires s.tasks[1].progress.Running? && s.tasks[1].next == |s.tasks[1].schedule| && !s.tasks[1].inserted
    requires s.scale == 1.0 && s.toys == {7} && s.deviceMap == map[]
    ensures Possible(s, Emit(0)) && |After(s, Emit(0)).tasks| == 2 < GENERATIONS
    ensures var s' := After(s, Emit(0));
            && Possible(s', Insert(1)) && Late(s', Insert(1)) && OnlyLive(s', 1) && s'.tasks[1].progress.Running?
            && LeftOn(s', 7)
  {
    MidFrame(s);
    hide Tick, LeftOn, Targets;
  }

  lemma MidFrame(s: PlaybackState)
    requires |s.tasks| > 0 && s.tasks[0].next == 1 < |s.tasks[0].schedule| && s.tasks[0].progress.Running?
    requires s.tasks[0].schedule[1].intensity == 0.5 && s.scale == 1.0
    requires s.toys == {7} && s.deviceMap == map[]
    ensures LeftOn(After(s, Emit(0)), 7)
  {
    StepSends(s, Emit(0));
    LastCommandAppend(s.sent, Sends(s, Emit(0))[0], 7);
  }
}
