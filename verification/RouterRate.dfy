/** The throttle over whole runs: scheduled sequences keep their distance,
    whichever devices they are for and even when one upload releases many. */
module RouterRate {
  import opened Counting
  import opened Effects
  import opened Throttling
  import opened Translation
  import opened RouterModel
  import H = RouterHistory

  /** The scheduled sequences, in order. */
  function Schedules(output: seq<Output>): seq<Output> {
    if output == [] then []
    else
      var last := output[|output| - 1];
      Schedules(output[..|output| - 1]) + if last.Scheduled? then [last] else []
  }

  /** Each schedule was checked before it was recorded, and no sooner than ten
      milliseconds per schedule since any earlier one was recorded. */
  ghost predicate Spaced(schedules: seq<Output>) {
    && (forall i :: 0 <= i < |schedules| ==>
          schedules[i].Scheduled? && schedules[i].checkedAt <= schedules[i].recordedAt)
    && (forall i, j :: 0 <= i < j < |schedules| ==>
          schedules[i].recordedAt + MIN_INTERVAL * (j - i) <= schedules[j].checkedAt)
  }

  /** The throttle remembers the last schedule, and the clock is past it. */
  ghost predicate KeepsDistance(s: AppState) {
    var schedules := Schedules(s.output);
    && Spaced(schedules)
    && (s.lastHaptic == if schedules == [] then None else Some(schedules[|schedules| - 1].recordedAt))
    && (schedules != [] ==> schedules[|schedules| - 1].recordedAt <= s.clock)
  }

  lemma SchedulesAppend(output: seq<Output>, o: Output)
    ensures Schedules(output + [o]) == if o.Scheduled? then Schedules(output) + [o] else Schedules(output)
  {
    assert (output + [o])[..|output|] == output;
  }

  lemma SpacedAppend(schedules: seq<Output>, o: Output)
    requires Spaced(schedules) && o.Scheduled? && o.checkedAt <= o.recordedAt
    requires schedules != [] ==> schedules[|schedules| - 1].recordedAt + MIN_INTERVAL <= o.checkedAt
    ensures Spaced(schedules + [o])
  {
    var n, longer := |schedules|, schedules + [o];
    forall i, j | 0 <= i < j < |longer|
      ensures longer[i].recordedAt + MIN_INTERVAL * (j - i) <= longer[j].checkedAt
    {
      if j == n && i < n - 1 {
        assert schedules[i].recordedAt + MIN_INTERVAL * (n - 1 - i) <= schedules[n - 1].checkedAt;
      }
    }
  }

  lemma ProcessPlayThrottled(s: AppState, device: DeviceId, id: EffectId, effect: FfEffect, at: Reading)
    requires KeepsDistance(s) && Timely(s.clock, at)
    ensures KeepsDistance(ProcessPlay(s, device, id, effect, at))
    ensures s.clock <= ProcessPlay(s, device, id, effect, at).clock
  {
    hide Translate, Spaced, Schedules;
    var s' := ProcessPlay(s, device, id, effect, at);
    var o := s'.output[|s.output|];
    assert s'.output == s.output + [o];
    SchedulesAppend(s.output, o);
    if o.Scheduled? {
      SpacedAppend(Schedules(s.output), o);
    }
  }

  lemma {:induction false} ResolveAllThrottled(s: AppState, id: EffectId, effect: FfEffect, resolved: seq<Resolution>)
    requires KeepsDistance(s) && TimelyAll(s, id, effect, resolved)
    ensures KeepsDistance(ResolveAll(s, id, effect, resolved))
  {
    hide ProcessPlay, KeepsDistance;
    if resolved != [] {
      var init, r := resolved[..|resolved| - 1], resolved[|resolved| - 1];
      ResolveAllThrottled(s, id, effect, init);
      ProcessPlayThrottled(ResolveAll(s, id, effect, init), r.device, id, effect, r.at);
    }
  }

  lemma StepThrottled(s: AppState, e: Event)
    requires KeepsDistance(s) && Enabled(s, e)
    ensures KeepsDistance(Step(s, e))
  {
    hide ProcessPlay, ResolveAll, TimelyAll, Spaced, Schedules;
    match e
    case Upload(tgid, id, effect, resolved) =>
      ResolveAllThrottled(Uploaded(s, tgid, id, effect), id, effect, resolved);
    case Play(device, id, Some(key), at) =>
      ProcessPlayThrottled(s.(pending := s.pending - {device}), device, id, s.store[key], at);
    case Stop(device, _) =>
      SchedulesAppend(s.output, Stopped(device));
    case _ =>
  }

  /** Over every run of a monotone clock, schedules n apart are 10n ms apart. */
  lemma {:induction false} SchedulesSpaced(sine: SineFn, start: Instant, run: seq<Event>)
    requires Exec(Initial(sine, start), run).Some?
    ensures KeepsDistance(Exec(Initial(sine, start), run).value)
    ensures Spaced(Schedules(Exec(Initial(sine, start), run).value.output))
  {
    hide Enabled, Step;
    if run != [] {
      SchedulesSpaced(sine, start, run[..|run| - 1]);
      StepThrottled(Exec(Initial(sine, start), run[..|run| - 1]).value, run[|run| - 1]);
    }
  }

  // ---- When a Play gets through ----

  /** Something was scheduled less than ten milliseconds before `now`. */
  predicate JustScheduled(output: seq<Output>, now: Instant) {
    exists j :: 0 <= j < |output| && output[j].Scheduled? && now < output[j].recordedAt + 10_000_000
  }

  /** What becomes of a Play of `effect`, given all that was put out before. */
  function Verdict(sine: SineFn, before: seq<Output>, device: DeviceId, id: EffectId, effect: FfEffect,
                   at: Reading): Output {
    if JustScheduled(before, at.checkedAt) then Throttled(device, id)
    else if effect.kind == 0x50 || effect.kind == 0x51 || effect.kind == 0x52 || effect.kind == 0x57 then
      Scheduled(device, id, Translate(sine, effect), at.checkedAt, at.recordedAt)
    else NoPoints(device, id)
  }

  lemma {:induction false} ScheduledAmong(output: seq<Output>, j: nat) returns (k: nat)
    requires j < |output| && output[j].Scheduled?
    ensures k < |Schedules(output)| && Schedules(output)[k] == output[j]
  {
    if j < |output| - 1 {
      k := ScheduledAmong(output[..|output| - 1], j);
    } else {
      k := |Schedules(output)| - 1;
    }
  }

  lemma {:induction false} ScheduleWasOutput(output: seq<Output>, k: nat) returns (j: nat)
    requires k < |Schedules(output)|
    ensures j < |output| && output[j] == Schedules(output)[k] && output[j].Scheduled?
  {
    var init := output[..|output| - 1];
    if k < |Schedules(init)| {
      j := ScheduleWasOutput(init, k);
    } else {
      j := |output| - 1;
    }
  }

  /** The throttle lets a Play through exactly when nothing was just scheduled. */
  lemma MayEmitIff(s: AppState, now: Instant)
    requires KeepsDistance(s) && s.clock <= now
    ensures MayEmit(s.lastHaptic, now) <==> !JustScheduled(s.output, now)
  {
    var schedules := Schedules(s.output);
    hide Schedules;
    if j :| 0 <= j < |s.output| && s.output[j].Scheduled? && now < s.output[j].recordedAt + 10_000_000 {
      var k := ScheduledAmong(s.output, j);
      if k < |schedules| - 1 {
        assert schedules[k].recordedAt + MIN_INTERVAL * (|schedules| - 1 - k) <= schedules[|schedules| - 1].checkedAt;
      }
    }
    if schedules != [] {
      var j := ScheduleWasOutput(s.output, |schedules| - 1);
    }
  }

  lemma ProcessPlayVerdict(s: AppState, device: DeviceId, id: EffectId, effect: FfEffect, at: Reading)
    requires KeepsDistance(s) && Timely(s.clock, at)
    ensures ProcessPlay(s, device, id, effect, at).output ==
            s.output + [Verdict(s.sine, s.output, device, id, effect, at)]
  {
    MayEmitIff(s, at.checkedAt);
    EmptyExactlyWhenUnknown(s.sine, effect);
    hide Translate, KeepsDistance, JustScheduled, MayEmit;
  }

  lemma {:induction false} ResolveAllVerdicts(s: AppState, id: EffectId, effect: FfEffect, resolved: seq<Resolution>)
    requires KeepsDistance(s) && TimelyAll(s, id, effect, resolved)
    ensures var outs := Since(s, ResolveAll(s, id, effect, resolved));
            && ResolveAll(s, id, effect, resolved).output == s.output + outs && |outs| == |resolved|
            && forall m :: 0 <= m < |outs| ==>
                 outs[m] == Verdict(s.sine, s.output + outs[..m], resolved[m].device, id, effect, resolved[m].at)
  {
    hide ProcessPlay, KeepsDistance, Verdict;
    if resolved != [] {
      var n := |resolved| - 1;
      var init, r := resolved[..n], resolved[n];
      ResolveAllVerdicts(s, id, effect, init);
      ResolveAllThrottled(s, id, effect, init);
      ResolveAllFrame(s, id, effect, init);
      var s1 := ResolveAll(s, id, effect, init);
      ProcessPlayVerdict(s1, r.device, id, effect, r.at);
      var outs := Since(s, s1);
      var v := Verdict(s.sine, s1.output, r.device, id, effect, r.at);
      assert s1.output + [v] == s.output + (outs + [v]);
      forall m | 0 <= m < n + 1
        ensures (outs + [v])[m] ==
                Verdict(s.sine, s.output + (outs + [v])[..m], resolved[m].device, id, effect, resolved[m].at)
      {
        assert (outs + [v])[..m] == outs[..m];
      }
    }
  }

  /** Over every run: an outcome, of a Play that finds its effect or of a device
      an Upload resolves, is Throttled if and only if something was scheduled less
      than ten milliseconds before its check, in the same batch or ever; otherwise
      it is Scheduled, with its own readings, for the four known kinds, and has no
      points for any other. A Play that finds nothing puts out nothing. */
  lemma OutcomesExact(sine: SineFn, start: Instant, run: seq<Event>)
    requires run != [] && Exec(Initial(sine, start), run).Some?
    ensures var s0, init, e := Initial(sine, start), run[..|run| - 1], run[|run| - 1];
            var before, after := Exec(s0, init).value, Exec(s0, run).value;
            var outs := Since(before, after);
            && after.output == before.output + outs
            && (e.Play? ==> outs == if e.found.None? then [] else
                  [Verdict(sine, before.output, e.device, e.effectId, before.store[e.found.value], e.at)])
            && (e.Upload? ==> |outs| == |e.resolved| && forall m :: 0 <= m < |outs| ==>
                  outs[m] == Verdict(sine, before.output + outs[..m], e.resolved[m].device, e.effectId, e.effect,
                                     e.resolved[m].at))
            && (e.Erase? ==> outs == [])
  {
    var s0, init, e := Initial(sine, start), run[..|run| - 1], run[|run| - 1];
    SchedulesSpaced(sine, start, init);
    H.SineKept(s0, init);
    var before := Exec(s0, init).value;
    hide Exec, KeepsDistance, Verdict, ProcessPlay, ResolveAll, TimelyAll;
    match e
    case Upload(tgid, id, effect, resolved) =>
      var s := Uploaded(before, tgid, id, effect);
      SameOutputKeepsDistance(before, s);
      ResolveAllVerdicts(s, id, effect, resolved);
    case Play(device, id, Some(key), at) =>
      var s := before.(pending := before.pending - {device});
      SameOutputKeepsDistance(before, s);
      ProcessPlayVerdict(s, device, id, before.store[key], at);
    case _ =>
  }

  lemma SameOutputKeepsDistance(s: AppState, s': AppState)
    requires KeepsDistance(s) && s'.output == s.output && s'.lastHaptic == s.lastHaptic && s'.clock == s.clock
    ensures KeepsDistance(s')
  {
  }

  // ---- The rate ----

  /** The schedules whose playback, begun between check and record, starts in
      the window of `width` nanoseconds from `from`. */
  ghost function StartedWithin(starts: seq<Instant>, from: Instant, width: nat): set<nat> {
    set k: nat | k < |starts| && from <= starts[k] <= from + width
  }

  ghost predicate StartsOf(schedules: seq<Output>, starts: seq<Instant>) {
    && |starts| == |schedules|
    && forall k :: 0 <= k < |schedules| ==>
         schedules[k].Scheduled? && schedules[k].checkedAt <= starts[k] <= schedules[k].recordedAt
  }

  lemma SpacedRateBound(schedules: seq<Output>, starts: seq<Instant>, from: Instant, width: nat)
    requires Spaced(schedules) && StartsOf(schedules, starts)
    ensures |StartedWithin(starts, from, width)| <= width / MIN_INTERVAL + 1
  {
    var within, limit: nat := StartedWithin(starts, from, width), width / MIN_INTERVAL;
    hide *;
    forall i: nat, j: nat | i in within && j in within && i < j
      ensures j - i <= limit
    {
      StartsWithinClose(schedules, starts, from, width, i, j);
    }
    NarrowSetSize(within, limit);
  }

  /** The rate bound: any window of W holds at most W / 10 ms + 1 starts. */
  lemma RateBound(sine: SineFn, start: Instant, run: seq<Event>, starts: seq<Instant>, from: Instant, width: nat)
    requires Exec(Initial(sine, start), run).Some?
    requires StartsOf(Schedules(Exec(Initial(sine, start), run).value.output), starts)
    ensures |StartedWithin(starts, from, width)| <= width / MIN_INTERVAL + 1
  {
    SchedulesSpaced(sine, start, run);
    SpacedRateBound(Schedules(Exec(Initial(sine, start), run).value.output), starts, from, width);
  }

  lemma StartsWithinClose(schedules: seq<Output>, starts: seq<Instant>, from: Instant, width: nat, i: nat, j: nat)
    requires Spaced(schedules) && StartsOf(schedules, starts) && i < j
    requires i in StartedWithin(starts, from, width) && j in StartedWithin(starts, from, width)
    ensures j - i <= width / MIN_INTERVAL
  {
    StartsApart(schedules, starts, i, j);
    QuotientBound(j - i, width);
  }

  lemma StartsApart(schedules: seq<Output>, starts: seq<Instant>, i: nat, j: nat)
    requires Spaced(schedules) && StartsOf(schedules, starts) && i < j < |starts|
    ensures starts[i] + MIN_INTERVAL * (j - i) <= starts[j]
  {
    assert schedules[i].recordedAt + MIN_INTERVAL * (j - i) <= schedules[j].checkedAt;
  }

  lemma QuotientBound(n: nat, width: nat)
    requires MIN_INTERVAL * n <= width
    ensures n <= width / MIN_INTERVAL
  {
  }
}
