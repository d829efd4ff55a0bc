/** What a run of playback means, read off its steps alone: which tasks there are
    and how far they came, who holds each device's slot, which stops are half
    done, and every command sent. */
module PlaybackHistory {
  import opened Effects
  import opened Interpolation
  import opened Lines
  import opened Translation
  import opened PlaybackModel
  import opened PlaybackSafety

  // ---- Reading a run ----

  /** The plays of a run, in order: task `n` is the `n`-th. */
  function Spawns(run: seq<PlaybackStep>): seq<PlaybackStep> {
    if run == [] then []
    else
      var last := run[|run| - 1];
      Spawns(run[..|run| - 1]) + if last.Spawn? then [last] else []
  }

  /** The step puts a task in the slot of the device. */
  predicate InsertsFor(spawns: seq<PlaybackStep>, step: PlaybackStep, d: DeviceId) {
    step.Insert? && step.task < |spawns| && spawns[step.task].Spawn? && spawns[step.task].device == d
  }

  /** The step takes task `n` out of the slot of the device. */
  predicate Displaces(spawns: seq<PlaybackStep>, step: PlaybackStep, d: DeviceId, n: nat) {
    InsertsFor(spawns, step, d) || step == BeginStop(d) || step == BeginStopAll || step == Finish(n)
  }

  /** Step `i` put a task in the slot of the device, and it is there still. */
  ghost predicate InSlotSince(run: seq<PlaybackStep>, d: DeviceId, i: nat) {
    && i < |run| && InsertsFor(Spawns(run[..i]), run[i], d)
    && forall j :: i < j < |run| ==> !Displaces(Spawns(run[..j]), run[j], d, run[i].task)
  }

  predicate IsSend(step: PlaybackStep) {
    step.Emit? || step.SendStop? || step.SendStopAll?
  }

  /** How many steps of a run send a command. */
  function SendCount(run: seq<PlaybackStep>): nat {
    if run == [] then 0 else SendCount(run[..|run| - 1]) + if IsSend(run[|run| - 1]) then 1 else 0
  }

  lemma SpawnsStep(run: seq<PlaybackStep>, step: PlaybackStep)
    ensures Spawns(run + [step]) == if step.Spawn? then Spawns(run) + [step] else Spawns(run)
  {
    assert (run + [step])[..|run|] == run;
  }

  lemma InSlotSinceStep(run: seq<PlaybackStep>, step: PlaybackStep, d: DeviceId, i: nat)
    ensures InSlotSince(run + [step], d, i) <==>
            if i == |run| then InsertsFor(Spawns(run), step, d)
            else InSlotSince(run, d, i) && !Displaces(Spawns(run), step, d, run[i].task)
  {
    hide InsertsFor, Displaces, Spawns;
    var longer := run + [step];
    assert longer[..|run|] == run && longer[|run|] == step;
    forall j | 0 <= j < |run| ensures longer[j] == run[j] && longer[..j] == run[..j] {
    }
    assert i < |run| && InSlotSince(run, d, i) ==> run[i].Insert? by { InSlotIsInsert(run, d, i); }
  }

  lemma InSlotIsInsert(run: seq<PlaybackStep>, d: DeviceId, i: nat)
    ensures InSlotSince(run, d, i) ==> i < |run| && run[i].Insert?
  {
  }

  // ---- The tasks ----

  ghost predicate TasksAgree(run: seq<PlaybackStep>, s: PlaybackState) {
    |s.tasks| == |Spawns(run)| && forall n: nat :: n < |s.tasks| ==> TaskAgrees(run, s, n)
  }

  /** The task plays the keyframes of its play on its device, has sent as many
      frames as it had turns, and is inserted or finished as the steps say. */
  ghost predicate TaskAgrees(run: seq<PlaybackStep>, s: PlaybackState, n: nat)
    requires n < |s.tasks|
  {
    var t := s.tasks[n];
    && n < |Spawns(run)| && Spawns(run)[n].Spawn?
    && t.device == Spawns(run)[n].device && t.schedule == Keyframes(Spawns(run)[n].points)
    && t.next == multiset(run)[Emit(n)]
    && (t.inserted <==> Insert(n) in run)
    && (t.progress.Finished? <==> Finish(n) in run)
  }

  ghost predicate FreshTask(run: seq<PlaybackStep>, n: nat) {
    Insert(n) !in run && Emit(n) !in run && Finish(n) !in run
  }

  /** No step mentions a task before it is spawned. */
  ghost predicate NoneAhead(run: seq<PlaybackStep>, s: PlaybackState) {
    forall n: nat :: n >= |s.tasks| ==> FreshTask(run, n)
  }

  lemma TaskStep(s: PlaybackState, step: PlaybackStep, n: nat)
    requires Possible(s, step) && n < |s.tasks|
    ensures n < |After(s, step).tasks|
    ensures var t, t' := s.tasks[n], After(s, step).tasks[n];
            && t'.device == t.device && t'.schedule == t.schedule
            && t'.next == t.next + (if step == Emit(n) then 1 else 0)
            && (t'.inserted <==> t.inserted || step == Insert(n))
            && (t'.progress.Finished? <==> t.progress.Finished? || step == Finish(n))
  {
    hide Keyframes, Sends;
  }

  lemma TasksAgreeStep(run: seq<PlaybackStep>, s: PlaybackState, step: PlaybackStep)
    requires TasksAgree(run, s) && NoneAhead(run, s) && Possible(s, step)
    ensures TasksAgree(run + [step], After(s, step)) && NoneAhead(run + [step], After(s, step))
  {
    var s', longer := After(s, step), run + [step];
    SpawnsStep(run, step);
    NewTasks(s, step);
    assert multiset(longer) == multiset(run) + multiset{step};
    forall n: nat | n < |s'.tasks| ensures TaskAgrees(longer, s', n) {
      if n < |s.tasks| {
        assert TaskAgrees(run, s, n);
        TaskStep(s, step, n);
      } else {
        assert FreshTask(run, n);
      }
    }
    forall n: nat | n >= |s'.tasks| ensures FreshTask(longer, n) {
      assert FreshTask(run, n);
    }
  }

  lemma NewTasks(s: PlaybackState, step: PlaybackStep)
    requires Possible(s, step)
    ensures |After(s, step).tasks| == |s.tasks| + if step.Spawn? then 1 else 0
    ensures step.Spawn? ==>
              var t := After(s, step).tasks[|s.tasks|];
              && t.device == step.device && t.schedule == Keyframes(step.points) && t.next == 0
              && !t.inserted && t.progress.Running?
    ensures step.Insert? ==> step.task < |s.tasks|
    ensures step.Emit? ==> step.task < |s.tasks|
    ensures step.Finish? ==> step.task < |s.tasks|
  {
    hide Keyframes, Sends;
  }

  // ---- The slots ----

  ghost predicate SlotsAgree(run: seq<PlaybackStep>, s: PlaybackState) {
    && (forall d, i: nat :: InSlotSince(run, d, i) ==> d in s.slots && s.slots[d].task == run[i].task)
    && (forall d :: d in s.slots ==> exists i: nat :: InSlotSince(run, d, i))
  }

  /** The slot of a device after a step: taken, emptied, or as it was. */
  lemma SlotStep(run: seq<PlaybackStep>, s: PlaybackState, step: PlaybackStep, d: DeviceId)
    requires TasksAgree(run, s) && TableSound(s) && |s.tasks| < GENERATIONS && Possible(s, step)
    ensures var s' := After(s, step);
            && (InsertsFor(Spawns(run), step, d) ==> d in s'.slots && s'.slots[d].task == step.task)
            && (!InsertsFor(Spawns(run), step, d) && d in s.slots ==>
                  if Displaces(Spawns(run), step, d, s.slots[d].task) then d !in s'.slots
                  else d in s'.slots && s'.slots[d] == s.slots[d])
            && (!InsertsFor(Spawns(run), step, d) && d !in s.slots ==> d !in s'.slots)
  {
    hide Spawns, Sends, Keyframes, AbortHolder, AbortEvery;
    if step.Insert? || step.Finish? { assert TaskAgrees(run, s, step.task); }
    if d in s.slots {
      assert SlotSound(s, d);
      if step.Finish? && s.tasks[step.task].device == d { SlotOfGeneration(s, step.task); }
    }
  }

  lemma SlotsAgreeStep(run: seq<PlaybackStep>, s: PlaybackState, step: PlaybackStep)
    requires TasksAgree(run, s) && SlotsAgree(run, s) && TableSound(s) && |s.tasks| < GENERATIONS && Possible(s, step)
    ensures SlotsAgree(run + [step], After(s, step))
  {
    hide After, Possible, TableSound, TasksAgree, InSlotSince, InsertsFor;
    var s', longer := After(s, step), run + [step];
    forall d, i: nat | InSlotSince(longer, d, i)
      ensures i < |longer| && longer[i].Insert? && d in s'.slots && s'.slots[d].task == longer[i].task
    {
      InSlotIsInsert(longer, d, i);
      SlotStep(run, s, step, d);
      InSlotSinceStep(run, step, d, i);
      InSlotIsInsert(run, d, i);
    }
    forall d | d in s'.slots
      ensures exists i: nat :: InSlotSince(longer, d, i)
    {
      SlotStep(run, s, step, d);
      InSlotSinceStep(run, step, d, |run|);
      if i: nat :| InSlotSince(run, d, i) {
        InSlotSinceStep(run, step, d, i);
        InSlotIsInsert(run, d, i);
      }
    }
  }

  // ---- The whole state ----

  ghost predicate StopsAgree(run: seq<PlaybackStep>, s: PlaybackState) {
    && (forall d :: s.stopping[d] + multiset(run)[SendStop(d)] == multiset(run)[BeginStop(d)])
    && s.stoppingAll + multiset(run)[SendStopAll] == multiset(run)[BeginStopAll]
  }

  lemma StopsAgreeStep(run: seq<PlaybackStep>, s: PlaybackState, step: PlaybackStep)
    requires StopsAgree(run, s) && Possible(s, step)
    ensures StopsAgree(run + [step], After(s, step))
  {
    StopsStep(s, step);
    hide After;
    assert multiset(run + [step]) == multiset(run) + multiset{step};
  }

  lemma StopsStep(s: PlaybackState, step: PlaybackStep)
    requires Possible(s, step)
    ensures forall d :: After(s, step).stopping[d] + (if step == SendStop(d) then 1 else 0)
                        == s.stopping[d] + (if step == BeginStop(d) then 1 else 0)
    ensures After(s, step).stoppingAll + (if step == SendStopAll then 1 else 0)
            == s.stoppingAll + (if step == BeginStopAll then 1 else 0)
  {
    hide Keyframes, Sends, AbortHolder, AbortEvery;
  }

  ghost predicate HistoryAgrees(run: seq<PlaybackStep>, s: PlaybackState) {
    TasksAgree(run, s) && NoneAhead(run, s) && SlotsAgree(run, s) && StopsAgree(run, s)
  }

  lemma NothingHappened(deviceMap: DeviceMap, toys: set<ToyId>, scale: real)
    ensures HistoryAgrees([], Connected(deviceMap, toys, scale)) && TableSound(Connected(deviceMap, toys, scale))
  {
  }

  lemma {:induction false} ReachableHistory(deviceMap: DeviceMap, toys: set<ToyId>, scale: real, run: seq<PlaybackStep>)
    requires Perform(Connected(deviceMap, toys, scale), run).Some?
    requires |Perform(Connected(deviceMap, toys, scale), run).value.tasks| < GENERATIONS
    ensures HistoryAgrees(run, Perform(Connected(deviceMap, toys, scale), run).value)
  {
    hide After, Possible, TasksAgree, NoneAhead, SlotsAgree, StopsAgree, TableSound;
    var s0 := Connected(deviceMap, toys, scale);
    if run == [] {
      NothingHappened(deviceMap, toys, scale);
    } else {
      var init, step := run[..|run| - 1], run[|run| - 1];
      var before := Perform(s0, init).value;
      TasksGrow(before, step);
      ReachableHistory(deviceMap, toys, scale, init);
      NothingHappened(deviceMap, toys, scale);
      ReachableTableSound(s0, init);
      assert init + [step] == run;
      TasksAgreeStep(init, before, step);
      SlotsAgreeStep(init, before, step);
      StopsAgreeStep(init, before, step);
    }
  }

  /** After any run of fewer than 2^64 plays: there is a task for each play, with
      its device and keyframes, inserted and finished if and only if the steps say
      so, with a frame sent for each of its turns; a device's slot holds exactly
      the last task inserted for it that no later insertion for the device, stop or
      end of its own took out; a task is aborted if and only if it was inserted,
      has not finished, and is in its slot no longer; and the zeros still to be
      sent are the stops begun less the zeros sent. */
  lemma StateReadsOffSteps(deviceMap: DeviceMap, toys: set<ToyId>, scale: real, run: seq<PlaybackStep>,
                           s: PlaybackState)
    requires Perform(Connected(deviceMap, toys, scale), run) == Some(s) && |s.tasks| < GENERATIONS
    ensures TasksAgree(run, s) && SlotsAgree(run, s) && StopsAgree(run, s)
    ensures forall n: nat :: n < |s.tasks| ==>
              (s.tasks[n].progress.Aborted? <==>
               Insert(n) in run && Finish(n) !in run && !StillInSlot(run, s.tasks[n].device, n))
    ensures s.scale == ScaleSet(scale, run)
  {
    var s0 := Connected(deviceMap, toys, scale);
    ReachableHistory(deviceMap, toys, scale, run);
    NothingHappened(deviceMap, toys, scale);
    ReachableTableSound(s0, run);
    ScaleReadsOffRun(s0, run);
    hide Perform, InSlotSince, TaskSound, SlotSound, NoneAhead;
    forall n: nat | n < |s.tasks|
      ensures s.tasks[n].progress.Aborted? <==>
              Insert(n) in run && Finish(n) !in run && !StillInSlot(run, s.tasks[n].device, n)
    {
      AbortedMeans(run, s, n);
    }
  }

  /** The task is where it was inserted. */
  ghost predicate StillInSlot(run: seq<PlaybackStep>, d: DeviceId, n: nat) {
    exists i: nat :: InSlotSince(run, d, i) && i < |run| && run[i] == Insert(n)
  }

  lemma AbortedMeans(run: seq<PlaybackStep>, s: PlaybackState, n: nat)
    requires TasksAgree(run, s) && SlotsAgree(run, s) && TableSound(s) && n < |s.tasks|
    ensures s.tasks[n].progress.Aborted? <==>
            Insert(n) in run && Finish(n) !in run && !StillInSlot(run, s.tasks[n].device, n)
  {
    hide InSlotSince, Spawns;
    var d := s.tasks[n].device;
    assert TaskAgrees(run, s, n) && TaskSound(s, n);
    if d in s.slots {
      assert SlotSound(s, d);
      var i: nat :| InSlotSince(run, d, i);
      InSlotIsInsert(run, d, i);
    }
  }

  // ---- The commands ----

  lemma SendsOne(s: PlaybackState, step: PlaybackStep)
    requires Possible(s, step)
    ensures |Sends(s, step)| == if IsSend(step) then 1 else 0
  {
    hide Tick, Targets;
  }

  lemma {:induction false} SentByCount(s: PlaybackState, run: seq<PlaybackStep>)
    requires Perform(s, run).Some?
    ensures |Perform(s, run).value.sent| == |s.sent| + SendCount(run)
  {
    hide After, Possible, Sends, IsSend;
    if run != [] {
      var n := |run| - 1;
      var before := Perform(s, run[..n]).value;
      SentByCount(s, run[..n]);
      StepSends(before, run[n]);
      SendsOne(before, run[n]);
    }
  }

  /** Every command, read off the steps: there is one for each sending step, in
      order. A task's turn sends its next frame, at the scale set last, clamped; the
      zero of a stop is a zero for its device, and that of a stop of everything a
      zero for all. */
  lemma CommandsReadOffSteps(deviceMap: DeviceMap, toys: set<ToyId>, scale: real, run: seq<PlaybackStep>,
                             s: PlaybackState, k: nat)
    returns (n: nat)
    requires Perform(Connected(deviceMap, toys, scale), run) == Some(s) && |s.tasks| < GENERATIONS
    ensures |s.sent| == SendCount(run)
    ensures k < |s.sent| ==> n < |run| && IsSend(run[n]) && SendCount(run[..n]) == k
    ensures k < |s.sent| ==>
              match run[n]
              case Emit(i) =>
                var frame := multiset(run[..n])[Emit(i)];
                && i < |Spawns(run[..n])| && Spawns(run[..n])[i].Spawn?
                && frame < |Keyframes(Spawns(run[..n])[i].points)|
                && s.sent[k].author == ByTask(i, frame) && s.sent[k].scale == ScaleSet(scale, run[..n])
                && var level := Keyframes(Spawns(run[..n])[i].points)[frame].intensity;
                   s.sent[k].intensity == Clamp(Part(level, s.sent[k].scale))
              case SendStop(d) => s.sent[k].author == ByStop(d) && s.sent[k].intensity == 0.0
              case SendStopAll => s.sent[k].author == ByStopAll && s.sent[k].intensity == 0.0
              case _ => true
  {
    var s0 := Connected(deviceMap, toys, scale);
    SentByCount(s0, run);
    n := 0;
    if k < |s.sent| {
      n := CommandArises(s0, run, k);
      var early := run[..n];
      var before := Perform(s0, early).value;
      SentByCount(s0, early);
      SendsOne(before, run[n]);
      TasksGrowOverRun(s0, run, n);
      ReachableHistory(deviceMap, toys, scale, early);
      ScaleReadsOffRun(s0, early);
      SilentAtAnyScale(1.0);
      hide Perform, ScaleSet, SendCount, Spawns, Keyframes, Targets, Clamp, Part;
      if run[n].Emit? { assert TaskAgrees(early, before, run[n].task); }
    }
  }
}
