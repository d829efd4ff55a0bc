/** That rest is reached: with no more calls, whatever order the tasks and the
    stops take their turns in, playback winds down in a bounded number of steps. */
module PlaybackRest {
  import opened Effects
  import opened Interpolation
  import opened Translation
  import opened PlaybackModel
  import opened PlaybackSafety

  /** What is left for a task to do: frames, its end, its insertion. */
  function TaskWork(t: PlayTask): nat {
    (if t.progress.Running? && t.next <= |t.schedule| then |t.schedule| - t.next + 1 else 0)
    + (if t.inserted then 0 else 1)
  }

  function TasksWork(tasks: seq<PlayTask>): nat {
    if tasks == [] then 0 else TasksWork(tasks[..|tasks| - 1]) + TaskWork(tasks[|tasks| - 1])
  }

  function Work(s: PlaybackState): nat {
    TasksWork(s.tasks) + |s.stopping| + s.stoppingAll
  }

  /** The steps playback takes by itself, without a new call. */
  predicate WindsDown(step: PlaybackStep) {
    step.Insert? || step.Emit? || step.Finish? || step.SendStop? || step.SendStopAll?
  }

  ghost predicate AllWindDown(run: seq<PlaybackStep>) {
    forall k :: 0 <= k < |run| ==> WindsDown(run[k])
  }

  ghost predicate WithinSchedules(s: PlaybackState) {
    forall i :: 0 <= i < |s.tasks| ==> s.tasks[i].next <= |s.tasks[i].schedule|
  }

  lemma {:induction false} WorkUpdated(tasks: seq<PlayTask>, i: nat, t: PlayTask)
    requires i < |tasks|
    ensures TasksWork(tasks[i := t]) == TasksWork(tasks) - TaskWork(tasks[i]) + TaskWork(t)
  {
    hide TaskWork;
    var n := |tasks| - 1;
    if i < n {
      WorkUpdated(tasks[..n], i, t);
      assert tasks[i := t][..n] == tasks[..n][i := t];
    } else {
      assert tasks[i := t][..n] == tasks[..n];
    }
  }

  lemma AbortingIsNoWork(tasks: seq<PlayTask>, i: nat)
    requires i < |tasks|
    ensures TasksWork(AbortTask(tasks, i)) <= TasksWork(tasks)
  {
    WorkUpdated(tasks, i, tasks[i].(progress := Aborted));
    hide TasksWork;
  }

  lemma InsertLowers(s: PlaybackState, n: nat)
    requires Possible(s, Insert(n))
    ensures Work(After(s, Insert(n))) < Work(s)
  {
    hide TasksWork, AbortTask;
    var device, tasks := s.tasks[n].device, AbortHolder(s, s.tasks[n].device);
    if device in s.slots && s.slots[device].task < |s.tasks| { AbortingIsNoWork(s.tasks, s.slots[device].task); }
    AbortedStillAbsent(s, n);
    WorkUpdated(tasks, n, tasks[n].(inserted := true));
  }

  lemma AbortedStillAbsent(s: PlaybackState, n: nat)
    requires Possible(s, Insert(n))
    ensures var tasks := AbortHolder(s, s.tasks[n].device); |tasks| == |s.tasks| && !tasks[n].inserted
  {
  }

  /** Every step of winding down leaves less to do. */
  lemma StepLowersWork(s: PlaybackState, step: PlaybackStep)
    requires WithinSchedules(s) && Possible(s, step) && WindsDown(step)
    ensures Work(After(s, step)) < Work(s)
  {
    match step
    case Insert(n) => InsertLowers(s, n);
    case Emit(n) => WorkUpdated(s.tasks, n, s.tasks[n].(next := s.tasks[n].next + 1));
    case Finish(n) => WorkUpdated(s.tasks, n, s.tasks[n].(progress := Finished));
    case _ =>
  }

  lemma StepStaysWithin(s: PlaybackState, step: PlaybackStep)
    requires WithinSchedules(s) && Possible(s, step)
    ensures WithinSchedules(After(s, step))
  {
    hide Keyframes, Sends;
  }

  lemma {:induction false} WorkSomewhere(tasks: seq<PlayTask>) returns (i: nat)
    requires TasksWork(tasks) > 0
    ensures i < |tasks| && TaskWork(tasks[i]) > 0
  {
    hide TaskWork;
    var n := |tasks| - 1;
    if TaskWork(tasks[n]) > 0 { i := n; } else { i := WorkSomewhere(tasks[..n]); }
  }

  /** While something is left to do, something can be done. */
  lemma NeverStuck(s: PlaybackState) returns (step: PlaybackStep)
    requires WithinSchedules(s) && Work(s) > 0
    ensures WindsDown(step) && Possible(s, step)
  {
    if s.stoppingAll > 0 {
      step := SendStopAll;
    } else if |s.stopping| > 0 {
      var d :| d in s.stopping;
      step := SendStop(d);
    } else {
      var i := WorkSomewhere(s.tasks);
      var t := s.tasks[i];
      step := if !t.inserted then Insert(i) else if t.next < |t.schedule| then Emit(i) else Finish(i);
    }
  }

  lemma {:induction false} NoWorkNowhere(tasks: seq<PlayTask>, i: nat)
    requires TasksWork(tasks) == 0 && i < |tasks|
    ensures TaskWork(tasks[i]) == 0
  {
    hide TaskWork;
    if i < |tasks| - 1 { NoWorkNowhere(tasks[..|tasks| - 1], i); }
  }

  /** With nothing left to do playback is at rest and every task is in the table. */
  lemma NoWorkIsRest(s: PlaybackState)
    requires WithinSchedules(s) && Work(s) == 0
    ensures AtRest(s) && AllInserted(s)
  {
    hide TasksWork;
    forall i | 0 <= i < |s.tasks|
      ensures !s.tasks[i].progress.Running? && s.tasks[i].inserted
    {
      NoWorkNowhere(s.tasks, i);
    }
  }

  /** However the turns fall, winding down takes no more steps than there is work. */
  lemma {:induction false} WindDownBounded(s: PlaybackState, run: seq<PlaybackStep>)
    requires WithinSchedules(s) && AllWindDown(run) && Perform(s, run).Some?
    ensures |run| + Work(Perform(s, run).value) <= Work(s) && WithinSchedules(Perform(s, run).value)
  {
    hide After, Possible, Work, WithinSchedules;
    if run != [] {
      var n := |run| - 1;
      WindDownBounded(s, run[..n]);
      StepLowersWork(Perform(s, run[..n]).value, run[n]);
      StepStaysWithin(Perform(s, run[..n]).value, run[n]);
    }
  }

  lemma {:induction false} ComesToRest(s: PlaybackState) returns (run: seq<PlaybackStep>)
    requires WithinSchedules(s)
    ensures AllWindDown(run) && Perform(s, run).Some? && Work(Perform(s, run).value) == 0
    decreases Work(s)
  {
    hide *;
    NothingPerformed(s);
    if Work(s) == 0 {
      run := [];
      NothingWindsDown();
    } else {
      var step := NeverStuck(s);
      StepLowersWork(s, step);
      StepStaysWithin(s, step);
      var rest := ComesToRest(After(s, step));
      run := [step] + rest;
      PerformFirst(s, step, rest);
      WindDownFirst(step, rest);
    }
  }

  lemma NothingWindsDown()
    ensures AllWindDown([])
  {
  }

  lemma WindDownFirst(step: PlaybackStep, rest: seq<PlaybackStep>)
    requires WindsDown(step) && AllWindDown(rest)
    ensures AllWindDown([step] + rest)
  {
  }

  lemma PerformFirst(s: PlaybackState, step: PlaybackStep, rest: seq<PlaybackStep>)
    requires Possible(s, step)
    ensures Perform(s, [step] + rest) == Perform(After(s, step), rest)
  {
    hide After, Possible, Perform;
    NothingPerformed(s);
    PerformNext(s, [], s, step);
    assert [] + [step] == [step];
    PerformJoin(s, [step], rest);
  }

  lemma {:induction false} PerformJoin(s: PlaybackState, a: seq<PlaybackStep>, b: seq<PlaybackStep>)
    requires Perform(s, a).Some?
    ensures Perform(s, a + b) == Perform(Perform(s, a).value, b)
  {
    hide After, Possible;
    if b == [] {
      assert a + b == a;
    } else {
      var n := |b| - 1;
      PerformJoin(s, a, b[..n]);
      assert (a + b)[..|a + b| - 1] == a + b[..n];
    }
  }

  /** From every state playback can be in, it can come to rest without another
      call; every way of going on without one takes at most `Work(s)` steps, and
      ends at rest if carried on until nothing more can be done. */
  lemma RestReached(deviceMap: DeviceMap, toys: set<ToyId>, scale: real, run: seq<PlaybackStep>, s: PlaybackState)
    returns (rest: seq<PlaybackStep>)
    requires Perform(Connected(deviceMap, toys, scale), run) == Some(s)
    ensures AllWindDown(rest) && Perform(Connected(deviceMap, toys, scale), run + rest).Some?
    ensures AtRest(Perform(Connected(deviceMap, toys, scale), run + rest).value)
    ensures forall more :: AllWindDown(more) && Perform(s, more).Some? ==> |more| <= Work(s)
    ensures forall more :: AllWindDown(more) && Perform(s, more).Some? ==>
              AtRest(Perform(s, more).value) || exists step :: WindsDown(step) && Possible(Perform(s, more).value, step)
  {
    ReachableCommands(Connected(deviceMap, toys, scale), run);
    assert WithinSchedules(s);
    hide *;
    rest := ComesToRest(s);
    PerformJoin(Connected(deviceMap, toys, scale), run, rest);
    WindDownBounded(s, rest);
    NoWorkIsRest(Perform(s, rest).value);
    forall more | AllWindDown(more) && Perform(s, more).Some?
      ensures |more| <= Work(s)
      ensures AtRest(Perform(s, more).value) || exists step :: WindsDown(step) && Possible(Perform(s, more).value, step)
    {
      WindDownBounded(s, more);
      if Work(Perform(s, more).value) > 0 {
        var step := NeverStuck(Perform(s, more).value);
      } else {
        NoWorkIsRest(Perform(s, more).value);
      }
    }
  }
}
