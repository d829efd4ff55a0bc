/** The parts joined: the probe's events reach the router through a channel that
    may lose some, and the router's requests reach playback in order. What is
    proved here runs from the bytes a game uploads to the commands toys get. */
module Daemon {
  import opened Effects
  import opened Interpolation
  import opened Lines
  import opened Throttling
  import opened Translation
  import P = ProbeModel
  import R = RouterModel
  import H = RouterHistory
  import B = PlaybackModel
  import Q = PlaybackSafety

  // ---- From the probe to the router ----

  predicate FromProbe(e: R.Event) {
    e.Upload? || e.Erase?
  }

  /** The router event the probe event becomes. */
  predicate Delivers(e: R.Event, p: P.ProbeEvent) {
    match p
    case Uploaded(tgid, id, effect) => e.Upload? && e.tgid == tgid && e.effectId == id && e.effect == effect
    case Erased(tgid, id) => e.Erase? && e.tgid == tgid && e.effectId == id
  }

  /** Event `i` of the run was delivered from `source[i]`: in the order the probe
      reported, none twice, some perhaps never. */
  ghost predicate FedBy(run: seq<R.Event>, events: seq<P.ProbeEvent>, source: seq<nat>) {
    && |source| == |run|
    && (forall i :: 0 <= i < |run| && FromProbe(run[i]) ==> source[i] < |events| && Delivers(run[i], events[source[i]]))
    && (forall i, j :: 0 <= i < j < |run| && FromProbe(run[i]) && FromProbe(run[j]) ==> source[i] < source[j])
  }

  /** However lossy the channel, the router's runs are well-formed: the probe's
      pairing discharges what every theorem about the router relies on. */
  lemma FedRunsWellFormed(probe: seq<P.ProbeStep>, run: seq<R.Event>, source: seq<nat>)
    requires FedBy(run, P.Trace(probe).events, source)
    ensures R.WellFormedRun(run)
  {
    P.EventIdsMatch(probe);
    forall i | 0 <= i < |run| && run[i].Upload?
      ensures R.WellFormed(run[i])
    {
      assert Delivers(run[i], P.Trace(probe).events[source[i]]);
    }
  }

  // ---- What the router asks of playback ----

  /** The points the router hands over: those of some effect playback can play. */
  ghost predicate Playable(sine: SineFn, o: R.Output) {
    o.Scheduled? ==> exists effect :: Known(effect) && o.points == Translate(sine, effect)
  }

  ghost predicate AllPlayable(sine: SineFn, output: seq<R.Output>) {
    forall k :: 0 <= k < |output| ==> Playable(sine, output[k])
  }

  lemma AnswersPlayable(o: R.Output, sine: SineFn, device: DeviceId, id: R.EffectId, effect: FfEffect)
    requires R.Answers(o, sine, device, id, effect)
    ensures Playable(sine, o)
  {
    hide Translate;
    EmptyExactlyWhenUnknown(sine, effect);
  }

  lemma StepOutput(s: R.AppState, e: R.Event)
    requires R.Enabled(s, e)
    ensures R.Step(s, e).sine == s.sine
    ensures R.Step(s, e).output == s.output + R.Since(s, R.Step(s, e))
    ensures AllPlayable(s.sine, R.Since(s, R.Step(s, e)))
  {
    hide R.ProcessPlay, R.ResolveAll, R.TimelyAll, R.Answers, Playable;
    var outs := R.Since(s, R.Step(s, e));
    match e
    case Upload(tgid, id, effect, resolved) =>
      var s0 := R.Uploaded(s, tgid, id, effect);
      R.ResolveAllFrame(s0, id, effect, resolved);
      forall k | 0 <= k < |outs| ensures Playable(s.sine, outs[k]) {
        AnswersPlayable(outs[k], s.sine, resolved[k].device, id, effect);
      }
    case Play(device, id, Some(key), at) =>
      R.ProcessPlayFrame(s.(pending := s.pending - {device}), device, id, s.store[key], at);
      AnswersPlayable(outs[0], s.sine, device, id, s.store[key]);
    case Stop(device, id) =>
      assert outs == [R.Stopped(device)];
      StoppedPlayable(s.sine, device);
    case _ =>
      assert outs == [];
  }

  lemma StoppedPlayable(sine: SineFn, device: DeviceId)
    ensures Playable(sine, R.Stopped(device))
  {
  }

  lemma {:induction false} OutputPlayable(sine: SineFn, start: Instant, run: seq<R.Event>)
    requires R.Exec(R.Initial(sine, start), run).Some?
    ensures R.Exec(R.Initial(sine, start), run).value.sine == sine
    ensures AllPlayable(sine, R.Exec(R.Initial(sine, start), run).value.output)
  {
    hide R.Enabled, R.Step, Playable;
    if run != [] {
      OutputPlayable(sine, start, run[..|run| - 1]);
      StepOutput(R.Exec(R.Initial(sine, start), run[..|run| - 1]).value, run[|run| - 1]);
    }
  }

  lemma {:induction false} OutputGrows(s: R.AppState, run: seq<R.Event>, n: nat)
    requires n <= |run| && R.Exec(s, run).Some?
    ensures R.Exec(s, run[..n]).Some? && R.Exec(s, run[..n]).value.output <= R.Exec(s, run).value.output
  {
    hide R.Enabled, R.Step, R.Since;
    if n < |run| {
      var init := run[..|run| - 1];
      OutputGrows(s, init, n);
      assert init[..n] == run[..n];
      StepOutput(R.Exec(s, init).value, run[|run| - 1]);
    } else {
      assert run[..n] == run;
    }
  }

  /** Output `o` was put out by the last of the first `n` events. */
  ghost predicate PutOutBy(s: R.AppState, run: seq<R.Event>, o: nat, n: nat)
    requires R.Exec(s, run).Some?
  {
    && 0 < n <= |run| && R.Exec(s, run[..n - 1]).Some? && R.Exec(s, run[..n]).Some?
    && |R.Exec(s, run[..n - 1]).value.output| <= o < |R.Exec(s, run[..n]).value.output| <= |R.Exec(s, run).value.output|
    && R.Exec(s, run).value.output[o] in H.LastOutput(s, run[..n])
  }

  /** Every output was put out by some event of the run. */
  lemma {:induction false} OutputArises(s: R.AppState, run: seq<R.Event>, o: nat) returns (n: nat)
    requires R.Exec(s, run).Some? && |s.output| <= o < |R.Exec(s, run).value.output|
    ensures PutOutBy(s, run, o, n)
  {
    hide R.Enabled, R.Step, R.Since;
    var init := run[..|run| - 1];
    StepOutput(R.Exec(s, init).value, run[|run| - 1]);
    if o < |R.Exec(s, init).value.output| {
      n := OutputArises(s, init, o);
      assert init[..n] == run[..n] && init[..n - 1] == run[..n - 1];
    } else {
      n := |run|;
      assert run[..n] == run;
      assert R.Exec(s, run).value.output[o] ==
             R.Since(R.Exec(s, init).value, R.Exec(s, run).value)[o - |R.Exec(s, init).value.output|];
    }
  }

  /** What playback needs of the points it is given. */
  lemma PlayablePoints(sine: SineFn, o: R.Output)
    requires Playable(sine, o) && o.Scheduled?
    ensures Q.EndsAtRest(o.points) && U32Times(o.points) && Keyframes(o.points) == Schedule(o.points)
    ensures forall k :: 0 <= k < |o.points| ==> 0.0 <= o.points[k].intensity <= 1.0
  {
    var effect :| Known(effect) && o.points == Translate(sine, effect);
    hide Translate;
    TranslationShape(sine, effect);
    TranslationKeyframes(sine, effect);
  }

  // ---- From the router to playback ----

  /** The calls the outputs stand for. */
  function Requests(output: seq<R.Output>): seq<B.PlaybackStep> {
    if output == [] then []
    else
      var last := output[|output| - 1];
      Requests(output[..|output| - 1]) +
      if last.Scheduled? then [B.Spawn(last.device, last.points)]
      else if last.Stopped? then [B.BeginStop(last.device)]
      else []
  }

  /** The calls among the steps. */
  function Calls(steps: seq<B.PlaybackStep>): seq<B.PlaybackStep> {
    if steps == [] then []
    else
      var last := steps[|steps| - 1];
      Calls(steps[..|steps| - 1]) + if last.Spawn? || last.BeginStop? then [last] else []
  }

  /** Playback has served some of the router's requests, in order. */
  ghost predicate Serves(steps: seq<B.PlaybackStep>, output: seq<R.Output>) {
    Calls(steps) <= Requests(output)
  }

  /** Step `k`, if a call, is the call numbered by the calls before it. */
  lemma {:induction false} CallAt(steps: seq<B.PlaybackStep>, k: nat)
    requires k < |steps| && (steps[k].Spawn? || steps[k].BeginStop?)
    ensures |Calls(steps[..k])| < |Calls(steps)| && Calls(steps)[|Calls(steps[..k])|] == steps[k]
  {
    var n := |steps| - 1;
    if k < n {
      CallAt(steps[..n], k);
      assert steps[..n][..k] == steps[..k];
    }
  }

  /** Request `r` stands for the output that many requests come before. */
  lemma {:induction false} RequestAt(output: seq<R.Output>, r: nat) returns (o: nat)
    requires r < |Requests(output)|
    ensures o < |output| && |Requests(output[..o])| == r
    ensures match output[o]
            case Scheduled(d, _, points, _, _) => Requests(output)[r] == B.Spawn(d, points)
            case Stopped(d) => Requests(output)[r] == B.BeginStop(d)
            case _ => false
  {
    var n := |output| - 1;
    if r < |Requests(output[..n])| {
      o := RequestAt(output[..n], r);
      assert output[..n][..o] == output[..o];
    } else {
      o := n;
    }
  }

  lemma {:induction false} RequestsGrow(output: seq<R.Output>, n: nat)
    requires n <= |output|
    ensures |Requests(output[..n])| <= |Requests(output)|
  {
    if n < |output| {
      var init := output[..|output| - 1];
      RequestsGrow(init, n);
      assert init[..n] == output[..n];
    } else {
      assert output[..n] == output;
    }
  }

  lemma RequestsBetween(output: seq<R.Output>, m: nat, n: nat)
    requires m <= n <= |output|
    ensures |Requests(output[..m])| <= |Requests(output[..n])|
  {
    RequestsGrow(output[..n], m);
    assert output[..n][..m] == output[..m];
  }

  /** Every call answers an output: the one as many requests precede as calls
      precede it. */
  lemma CallRequested(steps: seq<B.PlaybackStep>, output: seq<R.Output>, k: nat) returns (o: nat)
    requires Serves(steps, output) && k < |steps| && (steps[k].Spawn? || steps[k].BeginStop?)
    ensures o < |output| && |Requests(output[..o])| == |Calls(steps[..k])|
    ensures match output[o]
            case Scheduled(d, _, points, _, _) => steps[k] == B.Spawn(d, points)
            case Stopped(d) => steps[k] == B.BeginStop(d)
            case _ => false
  {
    CallAt(steps, k);
    hide Calls, Requests;
    o := RequestAt(output, |Calls(steps[..k])|);
  }

  /** The daemon at rest: whatever events arrive, once no task is live and no
      stop is half done, a toy is left on exactly if a late insertion stranded it
      and no command reached it since; with every task inserted in time the last
      command every toy got is zero. */
  lemma DaemonRests(sine: SineFn, start: Instant, run: seq<R.Event>,
                    deviceMap: B.DeviceMap, toys: set<B.ToyId>, scale: real, steps: seq<B.PlaybackStep>,
                    s: B.PlaybackState, toy: B.ToyId)
    requires R.Exec(R.Initial(sine, start), run).Some?
    requires Serves(steps, R.Exec(R.Initial(sine, start), run).value.output)
    requires B.Perform(B.Connected(deviceMap, toys, scale), steps) == Some(s) && |s.tasks| < B.GENERATIONS
    requires Q.AtRest(s)
    ensures Q.LeftOn(s, toy) <==>
            exists k: nat :: Q.StrandedAt(B.Connected(deviceMap, toys, scale), steps, k, toy)
    ensures (forall k: nat :: k < |steps| ==> Q.OnTime(B.Connected(deviceMap, toys, scale), steps, k)) ==>
              !Q.LeftOn(s, toy)
  {
    var output := R.Exec(R.Initial(sine, start), run).value.output;
    OutputPlayable(sine, start, run);
    hide R.Exec, B.Perform, Q.AtRest, Q.LeftOn, Serves, Playable, Q.OnTime, Q.EndsAtRest, Q.StrandedAt;
    forall k: nat | k < |steps| && steps[k].Spawn?
      ensures Q.EndsAtRest(steps[k].points)
    {
      var o := CallRequested(steps, output, k);
      PlayablePoints(sine, output[o]);
    }
    Q.RestSafe(deviceMap, toys, scale, steps, s, toy);
  }

  /** Two rumbles uploaded, then played on one device. The second is checked ten
      milliseconds after the first and recorded once its task is in the table,
      after the first task's 25 ms frame. */
  function TwoRumbles(): seq<R.Event> {
    [R.Upload(1, 1, Q.LONG_RUMBLE, [])] + [R.Upload(1, 2, Q.EMPTY_RUMBLE, [])]
    + [R.Play("pad", 1, Some((1, 1)), R.Reading(0, 0))]
    + [R.Play("pad", 2, Some((1, 2)), R.Reading(10_000_000, 25_000_000))]
  }

  /** The late run of `PlaybackSafety` serves this run of the router. */
  lemma LateRunServed(sine: SineFn) returns (end: R.AppState)
    ensures R.WellFormedRun(TwoRumbles()) && R.Exec(R.Initial(sine, 0), TwoRumbles()) == Some(end)
    ensures Serves(Q.LateRun(sine), end.output)
  {
    var s2 := TwoUploaded(sine);
    end := TwoPlayed(sine, s2);
    hide *;
    var p := R.Scheduled("pad", 1, Translate(sine, Q.LONG_RUMBLE), 0, 0);
    var q := R.Scheduled("pad", 2, Translate(sine, Q.EMPTY_RUMBLE), 10_000_000, 25_000_000);
    RequestsOfTwo(p, q);
    CallsOfLateRun(sine);
    TwoRumblesWellFormed();
    ServesAll(Q.LateRun(sine), end.output);
  }

  lemma TwoRumblesWellFormed()
    ensures R.WellFormedRun(TwoRumbles())
  {
  }

  lemma ServesAll(steps: seq<B.PlaybackStep>, output: seq<R.Output>)
    requires Calls(steps) == Requests(output)
    ensures Serves(steps, output)
  {
  }

  lemma TwoUploaded(sine: SineFn) returns (s: R.AppState)
    ensures R.Exec(R.Initial(sine, 0), TwoRumbles()[..2]) == Some(s)
    ensures s == R.AppState(sine, map[(1, 1) := Q.LONG_RUMBLE, (1, 2) := Q.EMPTY_RUMBLE], map[], None, 0, [])
  {
    hide R.Exec;
    var s0, e1, e2 := R.Initial(sine, 0), R.Upload(1, 1, Q.LONG_RUMBLE, []), R.Upload(1, 2, Q.EMPTY_RUMBLE, []);
    var s1 := R.Step(s0, e1);
    s := R.Step(s1, e2);
    R.ExecNothing(s0);
    R.ExecNext(s0, [], s0, e1);
    R.ExecNext(s0, [] + [e1], s1, e2);
    assert TwoRumbles()[..2] == [] + [e1] + [e2];
  }

  lemma TwoPlayed(sine: SineFn, s2: R.AppState) returns (s: R.AppState)
    requires R.Exec(R.Initial(sine, 0), TwoRumbles()[..2]) == Some(s2)
    requires s2 == R.AppState(sine, map[(1, 1) := Q.LONG_RUMBLE, (1, 2) := Q.EMPTY_RUMBLE], map[], None, 0, [])
    ensures R.Exec(R.Initial(sine, 0), TwoRumbles()) == Some(s)
    ensures s.output == [R.Scheduled("pad", 1, Translate(sine, Q.LONG_RUMBLE), 0, 0),
                         R.Scheduled("pad", 2, Translate(sine, Q.EMPTY_RUMBLE), 10_000_000, 25_000_000)]
  {
    EmptyExactlyWhenUnknown(sine, Q.LONG_RUMBLE);
    EmptyExactlyWhenUnknown(sine, Q.EMPTY_RUMBLE);
    hide R.Exec, Translate;
    var s0, e3 := R.Initial(sine, 0), R.Play("pad", 1, Some((1, 1)), R.Reading(0, 0));
    var e4 := R.Play("pad", 2, Some((1, 2)), R.Reading(10_000_000, 25_000_000));
    var s3 := R.Step(s2, e3);
    s := R.Step(s3, e4);
    R.ExecNext(s0, TwoRumbles()[..2], s2, e3);
    R.ExecNext(s0, TwoRumbles()[..2] + [e3], s3, e4);
    assert TwoRumbles() == TwoRumbles()[..2] + [e3] + [e4];
  }

  lemma RequestsOfTwo(p: R.Output, q: R.Output)
    requires p.Scheduled? && q.Scheduled?
    ensures Requests([p, q]) == [B.Spawn(p.device, p.points), B.Spawn(q.device, q.points)]
  {
    assert Requests([]) == [];
    assert [p][..0] == [] && Requests([p]) == [B.Spawn(p.device, p.points)];
    assert [p, q][..1] == [p];
  }

  lemma CallsOfLateRun(sine: SineFn)
    ensures Calls(Q.LateRun(sine)) ==
            [B.Spawn("pad", Translate(sine, Q.LONG_RUMBLE)), B.Spawn("pad", Translate(sine, Q.EMPTY_RUMBLE))]
  {
    hide Translate;
    var p, q := B.Spawn("pad", Translate(sine, Q.LONG_RUMBLE)), B.Spawn("pad", Translate(sine, Q.EMPTY_RUMBLE));
    var a := [p] + [B.Insert(0)] + [B.Emit(0)];
    var b := a + [q] + [B.Emit(1)];
    CallsAppend([], p);
    assert [] + [p] == [p];
    CallsAppend([p], B.Insert(0));
    CallsAppend([p] + [B.Insert(0)], B.Emit(0));
    CallsAppend(a, q);
    CallsAppend(a + [q], B.Emit(1));
    CallsAppend(b, B.Emit(0));
    CallsAppend(b + [B.Emit(0)], B.Insert(1));
    CallsAppend(b + [B.Emit(0)] + [B.Insert(1)], B.Finish(1));
    assert Q.LateRun(sine) == b + [B.Emit(0)] + [B.Insert(1)] + [B.Finish(1)];
  }

  lemma CallsAppend(steps: seq<B.PlaybackStep>, step: B.PlaybackStep)
    ensures Calls(steps + [step]) == Calls(steps) + if step.Spawn? || step.BeginStop? then [step] else []
  {
    assert (steps + [step])[..|steps|] == steps;
  }

  // ---- After a Stop ----

  /** Step `k` serves the Stop that is event `e`. */
  ghost predicate ServesStop(s: R.AppState, run: seq<R.Event>, e: nat, steps: seq<B.PlaybackStep>, k: nat)
    requires R.Exec(s, run).Some?
  {
    && e < |run| && run[e].Stop? && k < |steps| && steps[k] == B.BeginStop(run[e].device)
    && R.Exec(s, run[..e]).Some? && |Requests(R.Exec(s, run[..e]).value.output)| == |Calls(steps[..k])|
  }

  lemma StoppedByStop(s: R.AppState, e: R.Event, d: DeviceId)
    requires R.Enabled(s, e) && R.Stopped(d) in R.Since(s, R.Step(s, e))
    ensures e.Stop? && e.device == d && |R.Step(s, e).output| == |s.output| + 1
  {
    hide R.ProcessPlay, R.ResolveAll, R.TimelyAll;
    match e
    case Upload(tgid, id, effect, resolved) =>
      R.ResolveAllFrame(R.Uploaded(s, tgid, id, effect), id, effect, resolved);
    case Play(device, id, Some(key), at) =>
      R.ProcessPlayFrame(s.(pending := s.pending - {device}), device, id, s.store[key], at);
    case _ =>
  }

  /** The event behind a Stopped output. */
  lemma StopArises(s: R.AppState, run: seq<R.Event>, o: nat) returns (e: nat)
    requires R.Exec(s, run).Some? && s.output == []
    requires o < |R.Exec(s, run).value.output| && R.Exec(s, run).value.output[o].Stopped?
    ensures e < |run| && run[e].Stop? && run[e].device == R.Exec(s, run).value.output[o].device
    ensures R.Exec(s, run[..e]).Some? && R.Exec(s, run[..e + 1]).Some?
    ensures R.Exec(s, run[..e]).value.output == R.Exec(s, run).value.output[..o]
    ensures |R.Exec(s, run[..e + 1]).value.output| == o + 1
  {
    hide R.Enabled, R.Step, R.Since;
    var n := OutputArises(s, run, o);
    e := n - 1;
    assert run[..n][..e] == run[..e] && run[..n][e] == run[e];
    StoppedByStop(R.Exec(s, run[..e]).value, run[e], R.Exec(s, run).value.output[o].device);
    OutputGrows(s, run, e);
  }

  lemma OutputBetween(s: R.AppState, run: seq<R.Event>, m: nat, n: nat)
    requires m <= n <= |run| && R.Exec(s, run[..n]).Some?
    ensures R.Exec(s, run[..m]).Some?
    ensures |R.Exec(s, run[..m]).value.output| <= |R.Exec(s, run[..n]).value.output|
  {
    OutputGrows(s, run[..n], m);
    assert run[..n][..m] == run[..m];
  }

  /** An output later than the Stop's was put out by a later event. */
  lemma LaterOutputLaterEvent(s: R.AppState, run: seq<R.Event>, e: nat, o: nat, n: nat)
    requires R.Exec(s, run).Some? && e < |run| && R.Exec(s, run[..e + 1]).Some? && PutOutBy(s, run, o, n)
    requires |R.Exec(s, run[..e + 1]).value.output| <= o
    ensures e + 1 < n
  {
    hide R.Exec;
    if n <= e + 1 {
      OutputBetween(s, run, n, e + 1);
    }
  }

  /** Stop safety, end to end: when a Stop is served while no play is half
      started, every command a task sends for the device from then on comes from
      a task spawned later, to answer a Play on the device that came after that
      Stop. */
  lemma NothingSentAfterStop(sine: SineFn, start: Instant, run: seq<R.Event>,
                             deviceMap: B.DeviceMap, toys: set<B.ToyId>, scale: real, steps: seq<B.PlaybackStep>,
                             s: B.PlaybackState, k: nat, c: nat)
    returns (e: nat, i: nat, u: nat, m: nat)
    requires R.WellFormedRun(run) && R.Exec(R.Initial(sine, start), run).Some?
    requires Serves(steps, R.Exec(R.Initial(sine, start), run).value.output)
    requires B.Perform(B.Connected(deviceMap, toys, scale), steps) == Some(s) && |s.tasks| < B.GENERATIONS
    requires k < |steps| && steps[k].BeginStop? && B.NoneBetween(B.Connected(deviceMap, toys, scale), steps[..k])
    requires B.Perform(B.Connected(deviceMap, toys, scale), steps[..k]).Some?
    requires |B.Perform(B.Connected(deviceMap, toys, scale), steps[..k]).value.sent| <= c < |s.sent|
    requires s.sent[c].author.ByTask? && s.sent[c].author.task < |s.tasks|
    requires s.tasks[s.sent[c].author.task].device == steps[k].device
    ensures ServesStop(R.Initial(sine, start), run, e, steps, k)
    ensures e < i < |run| && run[i].Play? && run[i].device == run[e].device
    ensures u < |run| && run[u].Upload? && run[u].effectId == run[i].effectId
    ensures k < m < |steps| && steps[m] == B.Spawn(run[e].device, Translate(sine, run[u].effect))
    ensures s.tasks[s.sent[c].author.task].schedule == Schedule(Translate(sine, run[u].effect))
  {
    var output := R.Exec(R.Initial(sine, start), run).value.output;
    m := SpawnedAfterStop(B.Connected(deviceMap, toys, scale), steps, s, k, c);
    var o := CallRequested(steps, output, k);
    var o' := CallRequested(steps, output, m);
    LaterCallLaterOutput(steps, output, k, o, m, o');
    hide *;
    e, i, u := PlayedAfterStop(sine, start, run, o, o');
    StopServed(R.Initial(sine, start), run, e, steps, k, o);
    TranslationKeyframes(sine, run[u].effect);
  }

  lemma StopServed(s: R.AppState, run: seq<R.Event>, e: nat, steps: seq<B.PlaybackStep>, k: nat, o: nat)
    requires R.Exec(s, run).Some? && o <= |R.Exec(s, run).value.output|
    requires e < |run| && run[e].Stop? && k < |steps| && steps[k] == B.BeginStop(run[e].device)
    requires R.Exec(s, run[..e]).Some? && R.Exec(s, run[..e]).value.output == R.Exec(s, run).value.output[..o]
    requires |Requests(R.Exec(s, run).value.output[..o])| == |Calls(steps[..k])|
    ensures ServesStop(s, run, e, steps, k)
  {
    hide R.Exec, Requests, Calls;
  }

  lemma SpawnedAfterStop(s0: B.PlaybackState, steps: seq<B.PlaybackStep>, s: B.PlaybackState, k: nat, c: nat)
    returns (m: nat)
    requires B.TableSound(s0) && B.Perform(s0, steps) == Some(s) && |s.tasks| < B.GENERATIONS
    requires k < |steps| && steps[k].BeginStop? && B.NoneBetween(s0, steps[..k]) && B.Perform(s0, steps[..k]).Some?
    requires |B.Perform(s0, steps[..k]).value.sent| <= c < |s.sent|
    requires s.sent[c].author.ByTask? && s.sent[c].author.task < |s.tasks|
    requires s.tasks[s.sent[c].author.task].device == steps[k].device
    ensures k < m < |steps| && steps[m].Spawn? && steps[m].device == steps[k].device
    ensures s.tasks[s.sent[c].author.task].schedule == Keyframes(steps[m].points)
  {
    hide *;
    var after := SilencedByStop(s0, steps, k);
    B.PerformSplit(s0, steps, k + 1);
    var j := Q.SilentUntilPlayed(after, steps[k].device, steps[k + 1..], c);
    m := k + 1 + j;
  }

  /** A stop begun while no play is half started leaves its device silent. */
  lemma SilencedByStop(s0: B.PlaybackState, steps: seq<B.PlaybackStep>, k: nat) returns (after: B.PlaybackState)
    requires B.TableSound(s0) && B.Perform(s0, steps).Some? && |B.Perform(s0, steps).value.tasks| < B.GENERATIONS
    requires k < |steps| && steps[k].BeginStop? && B.NoneBetween(s0, steps[..k])
    ensures B.Perform(s0, steps[..k]).Some? && B.Perform(s0, steps[..k + 1]) == Some(after)
    ensures Q.Silent(after, steps[k].device) && after.sent == B.Perform(s0, steps[..k]).value.sent
  {
    B.PerformSplit(s0, steps, k + 1);
    B.TasksGrowOverRun(s0, steps, k);
    B.ReachableTableSound(s0, steps[..k]);
    assert steps[..k + 1][..k] == steps[..k] && steps[..k + 1][k] == steps[k];
    var before := B.Perform(s0, steps[..k]).value;
    hide B.TableSound, Q.Silent;
    after := B.After(before, steps[k]);
    Q.StopSilences(before, steps[k].device);
  }

  lemma LaterCallLaterOutput(steps: seq<B.PlaybackStep>, output: seq<R.Output>, k: nat, o: nat, m: nat, o': nat)
    requires k < m < |steps| && steps[k].BeginStop? && o < |output| && o' < |output|
    requires |Requests(output[..o])| == |Calls(steps[..k])| && |Requests(output[..o'])| == |Calls(steps[..m])|
    ensures o < o'
  {
    CallAt(steps[..m], k);
    assert steps[..m][..k] == steps[..k];
    if o' <= o {
      RequestsBetween(output, o', o);
    }
  }

  lemma PlayedAfterStop(sine: SineFn, start: Instant, run: seq<R.Event>, o: nat, o': nat)
    returns (e: nat, i: nat, u: nat)
    requires R.WellFormedRun(run) && R.Exec(R.Initial(sine, start), run).Some?
    requires var output := R.Exec(R.Initial(sine, start), run).value.output;
             o < o' < |output| && output[o].Stopped? && output[o'].Scheduled? && output[o].device == output[o'].device
    ensures var output := R.Exec(R.Initial(sine, start), run).value.output;
            && e < |run| && run[e].Stop? && run[e].device == output[o].device
            && R.Exec(R.Initial(sine, start), run[..e]).Some?
            && R.Exec(R.Initial(sine, start), run[..e]).value.output == output[..o]
            && e < i < |run| && run[i].Play? && run[i].device == run[e].device
            && u < |run| && run[u].Upload? && run[u].effectId == run[i].effectId
            && output[o'].points == Translate(sine, run[u].effect)
  {
    var s0, output := R.Initial(sine, start), R.Exec(R.Initial(sine, start), run).value.output;
    e := StopArises(s0, run, o);
    var n := OutputArises(s0, run, o');
    LaterOutputLaterEvent(s0, run, e, o', n);
    hide R.Exec, H.LastOutput, Translate, H.HasFate;
    var early := run[..n];
    H.NothingAfterStop(sine, start, early, e, output[o']);
    i, u :| e < i && H.Owed(sine, early, output[o'], i, u);
  }

  // ---- From the bytes uploaded to the command sent ----

  /** Play `i` of the run asked for the effect that event `u` delivered, which
      the probe read from a game's memory at step `c` and reported under the id
      read back at step `m`. */
  ghost predicate Uploads(probe: seq<P.ProbeStep>, run: seq<R.Event>, i: nat, u: nat, c: nat, m: nat) {
    && i < |run| && run[i].Play? && u < |run| && run[u].Upload? && run[u].effectId == run[i].effectId
    && m < |probe| && P.CompletesCapture(probe[..m], probe[m], c)
    && run[i].effectId == P.IdFrom(probe[m].pairs[probe[c].arg.value + 2])
    && run[u].effect == P.Captured(probe[c]).effect.(id := run[i].effectId)
  }

  lemma DeliveredUploadCaptured(probe: seq<P.ProbeStep>, run: seq<R.Event>, source: seq<nat>, i: nat, u: nat)
    returns (c: nat, m: nat)
    requires FedBy(run, P.Trace(probe).events, source)
    requires i < |run| && run[i].Play? && u < |run| && run[u].Upload? && run[u].effectId == run[i].effectId
    ensures Uploads(probe, run, i, u, c, m)
  {
    hide P.Trace, P.CompletesCapture, P.Captured, P.IdFrom;
    assert Delivers(run[u], P.Trace(probe).events[source[u]]);
    c, m := P.UploadsWereCaptured(probe, source[u]);
    assert P.CompletesCapture(probe[..m], probe[m], c) ==> c < m by { CompletedEarlier(probe, c, m); }
  }

  lemma CompletedEarlier(probe: seq<P.ProbeStep>, c: nat, m: nat)
    requires m < |probe|
    ensures P.CompletesCapture(probe[..m], probe[m], c) ==> c < m && probe[..m][c] == probe[c]
  {
  }

  /** Whatever was scheduled answers a Play on its device with the translation of
      an effect some game uploaded under the id played. */
  lemma ScheduleTracesBack(sine: SineFn, start: Instant, probe: seq<P.ProbeStep>, run: seq<R.Event>, source: seq<nat>,
                           o: R.Output)
    returns (i: nat, u: nat, c: nat, m: nat)
    requires R.Exec(R.Initial(sine, start), run).Some? && FedBy(run, P.Trace(probe).events, source)
    requires o in R.Exec(R.Initial(sine, start), run).value.output && o.Scheduled?
    ensures Uploads(probe, run, i, u, c, m)
    ensures o.device == run[i].device && o.effectId == run[i].effectId && o.points == Translate(sine, run[u].effect)
  {
    FedRunsWellFormed(probe, run, source);
    i, u := OutputOwed(sine, start, run, o);
    c, m := DeliveredUploadCaptured(probe, run, source, i, u);
  }

  /** Whatever was scheduled answers a Play on its device with the translation of
      an effect uploaded under the id played. */
  lemma OutputOwed(sine: SineFn, start: Instant, run: seq<R.Event>, o: R.Output) returns (i: nat, u: nat)
    requires R.WellFormedRun(run) && R.Exec(R.Initial(sine, start), run).Some?
    requires o in R.Exec(R.Initial(sine, start), run).value.output && o.Scheduled?
    ensures i < |run| && run[i].Play? && u < |run| && run[u].Upload? && run[u].effectId == run[i].effectId
    ensures o.device == run[i].device && o.effectId == run[i].effectId && o.points == Translate(sine, run[u].effect)
  {
    var output := R.Exec(R.Initial(sine, start), run).value.output;
    var k: nat :| k < |output| && output[k] == o;
    var n := OutputArises(R.Initial(sine, start), run, k);
    hide R.Exec, H.LastOutput, Translate, H.HasFate, H.Owed;
    var early := run[..n];
    H.OutcomesAreOwed(sine, start, early);
    assert H.IsOwed(sine, early, o);
    i, u :| H.Owed(sine, early, o, i, u);
    OwedMeans(sine, early, o, i, u);
  }

  lemma OwedMeans(sine: SineFn, run: seq<R.Event>, o: R.Output, i: nat, u: nat)
    requires H.Owed(sine, run, o, i, u) && o.Scheduled?
    ensures i < |run| && run[i].Play? && u < |run| && run[u].Upload? && run[u].effectId == run[i].effectId
    ensures o.device == run[i].device && o.effectId == run[i].effectId && o.points == Translate(sine, run[u].effect)
  {
    hide H.HasFate, Translate;
  }

  /** End to end: every command a task sends is one frame of the schedule of an
      effect that a game uploaded and a Play on the task's device asked for by
      its id, scaled and clamped, and it goes to that device's toys. */
  lemma CommandTracesBack(sine: SineFn, start: Instant, probe: seq<P.ProbeStep>, run: seq<R.Event>, source: seq<nat>,
                          deviceMap: B.DeviceMap, toys: set<B.ToyId>, scale: real, steps: seq<B.PlaybackStep>,
                          s: B.PlaybackState, k: nat)
    returns (i: nat, u: nat, c: nat, m: nat)
    requires R.Exec(R.Initial(sine, start), run).Some? && FedBy(run, P.Trace(probe).events, source)
    requires Serves(steps, R.Exec(R.Initial(sine, start), run).value.output)
    requires B.Perform(B.Connected(deviceMap, toys, scale), steps) == Some(s)
    requires k < |s.sent| && s.sent[k].author.ByTask?
    ensures Uploads(probe, run, i, u, c, m)
    ensures var schedule := Schedule(Translate(sine, run[u].effect));
            && s.sent[k].author.frame < |schedule|
            && s.sent[k].intensity == Clamp(Part(schedule[s.sent[k].author.frame].intensity, s.sent[k].scale))
            && s.sent[k].toys == B.Targets(s, run[i].device)
  {
    var s0, output := B.Connected(deviceMap, toys, scale), R.Exec(R.Initial(sine, start), run).value.output;
    Q.CommandsEndToEnd(deviceMap, toys, scale, steps, s);
    assert Q.CommandSound(s, s.sent[k]);
    var at := Q.TaskSpawned(s0, steps, s.sent[k].author.task);
    var j := CallRequested(steps, output, at);
    hide *;
    i, u, c, m := ScheduleTracesBack(sine, start, probe, run, source, output[j]);
    TranslationKeyframes(sine, run[u].effect);
  }
}
