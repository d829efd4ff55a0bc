/** The effect compiler of src/translate.rs: a captured effect becomes a list of
    timed intensities. The sine routine is a parameter, so every statement
    holds whatever the platform's sine returns. */
module Translation {
  import opened Effects
  import opened Lines

  const SAMPLE_INTERVAL_MS: nat := 25
  const LEVEL_MAX: real := 32767.0
  /** The f32 nearest to pi. */
  const PI: real := 3.1415927410125732421875

  type SineFn = real -> real

  datatype HapticPoint = HapticPoint(dtMs: nat, intensity: real)

  function Translate(sine: SineFn, effect: FfEffect): seq<HapticPoint> {
    if effect.kind == FF_RUMBLE then RumblePoints(effect)
    else if effect.kind == FF_PERIODIC then PeriodicPoints(sine, effect)
    else if effect.kind == FF_CONSTANT then ConstantPoints(effect)
    else if effect.kind == FF_RAMP then RampPoints(effect)
    else []
  }

  function RumbleIntensity(strong: Word, weak: Word): real {
    Clamp((strong as real + weak as real) / 2.0 / 65535.0)
  }

  /** The factor the envelope applies at `t` before the result is clamped. */
  function EnvelopeScale(t: nat, length: nat, env: Envelope): real {
    if env.attackLength > 0 && t < env.attackLength then
      var attackStart := env.attackLevel as real / LEVEL_MAX;
      Line(attackStart, 1.0, Progress(t, env.attackLength))
    else if env.fadeLength > 0 && length > 0 then
      var fadeStart := FadeStart(length, env);
      if t >= fadeStart then
        var fadeEnd := env.fadeLevel as real / LEVEL_MAX;
        Line(1.0, fadeEnd, Progress(t - fadeStart, env.fadeLength))
      else
        1.0
    else
      1.0
  }

  function FadeStart(length: nat, env: Envelope): nat {
    if length >= env.fadeLength then length - env.fadeLength else 0
  }

  function ApplyEnvelope(base: real, t: nat, length: nat, env: Envelope): real {
    Clamp(Part(base, EnvelopeScale(t, length, env)))
  }

  function SampleWaveform(sine: SineFn, waveform: Waveform, t: nat, period: Word, magnitude: Short,
          offset: Short): real {
    if period == 0 then 0.0
    else
      var mag := Abs16(magnitude) as real / LEVEL_MAX;
      Swing(mag, offset as real / LEVEL_MAX, Raw(waveform, Progress(t % period, period), sine))
  }

  /** The iterator `(from..to).step_by(SAMPLE_INTERVAL_MS)`. */
  function StepBy(from: nat, to: nat): (ts: seq<nat>)
    decreases if from < to then to - from else 0
  {
    if from < to then [from] + StepBy(from + SAMPLE_INTERVAL_MS, to) else []
  }

  function RumblePoints(effect: FfEffect): seq<HapticPoint> {
    if effect.replayLength == 0 then [HapticPoint(0, 0.0)]
    else [HapticPoint(0, RumbleIntensity(effect.u[0], effect.u[1])), HapticPoint(effect.replayLength, 0.0)]
  }

  function ConstantEnvelope(effect: FfEffect): Envelope {
    Envelope(effect.u[1], effect.u[2], effect.u[3], effect.u[4])
  }

  function ConstantBase(effect: FfEffect): real {
    Clamp(Abs16(Wrap16(effect.u[0])) as real / LEVEL_MAX)
  }

  function ConstantPoints(effect: FfEffect): seq<HapticPoint> {
    var base := ConstantBase(effect);
    SampleRange(effect.replayLength, _ => base, ConstantEnvelope(effect))
  }

  /** An unrecognised waveform code plays as a sine. */
  function PeriodicWaveform(effect: FfEffect): Waveform {
    var wf := WaveformFrom(effect.u[0]);
    if wf.Some? then wf.value else Sine
  }

  function PeriodicBase(sine: SineFn, effect: FfEffect): nat -> real {
    (t: nat) => SampleWaveform(sine, PeriodicWaveform(effect), t, effect.u[1], Wrap16(effect.u[2]), Wrap16(effect.u[3]))
  }

  function PeriodicPoints(sine: SineFn, effect: FfEffect): seq<HapticPoint> {
    SampleRange(effect.replayLength, PeriodicBase(sine, effect), Envelope(effect.u[5], 0, effect.u[6], 0))
  }

  function SampleRange(length: nat, base: nat -> real, env: Envelope): seq<HapticPoint> {
    var ts := StepBy(0, length);
    seq(|ts|, i requires 0 <= i < |ts| => HapticPoint(ts[i], ApplyEnvelope(base(ts[i]), ts[i], length, env)))
    + [HapticPoint(length, 0.0)]
  }

  function RampTimes(length: nat): seq<nat> {
    StepBy(0, length + 1) + if length % SAMPLE_INTERVAL_MS == 0 then [] else [length]
  }

  function RampIntensity(start: Short, end: Short, t: nat, length: nat): real {
    var progress := if length == 0 then 0.0 else Progress(t, length);
    var level := Line(start as real, start as real + Wrap16(end - start) as real, progress);
    Clamp(AbsReal(level) / LEVEL_MAX)
  }

  function RampPoints(effect: FfEffect): seq<HapticPoint> {
    var ts := RampTimes(effect.replayLength);
    seq(|ts|, i requires 0 <= i < |ts| =>
      HapticPoint(ts[i], RampIntensity(Wrap16(effect.u[0]), Wrap16(effect.u[1]), ts[i], effect.replayLength)))
    + [HapticPoint(effect.replayLength, 0.0)]
  }

  // ---- Shape of every translation ----

  predicate Known(effect: FfEffect) {
    effect.kind in {FF_RUMBLE, FF_PERIODIC, FF_CONSTANT, FF_RAMP}
  }

  /** Starts at 0, never goes back in time, ends at rest, stays in the unit range. */
  ghost predicate WellShaped(points: seq<HapticPoint>, length: nat) {
    && points != []
    && points[0].dtMs == 0
    && points[|points| - 1] == HapticPoint(length, 0.0)
    && (forall i, j :: 0 <= i < j < |points| ==> points[i].dtMs <= points[j].dtMs)
    && (forall i :: 0 <= i < |points| ==> 0.0 <= points[i].intensity <= 1.0)
  }

  ghost predicate DenseEnough(points: seq<HapticPoint>) {
    forall i :: 0 < i < |points| ==> DenseAt(points, i)
  }

  predicate DenseAt(points: seq<HapticPoint>, i: nat)
    requires 0 < i < |points|
  {
    points[i].dtMs <= points[i - 1].dtMs + SAMPLE_INTERVAL_MS
  }

  /** The stepped iterator has the rounded-up number of elements, one every 25 ms. */
  lemma {:induction false} StepByElements(from: nat, to: nat)
    ensures |StepBy(from, to)| == if from < to then (to - from + 24) / 25 else 0
    ensures forall k :: 0 <= k < |StepBy(from, to)| ==> StepBy(from, to)[k] == from + 25 * k < to
    decreases if from < to then to - from else 0
  {
    if from < to {
      StepByElements(from + 25, to);
      var rest := StepBy(from + 25, to);
      forall k | 0 <= k < |rest| + 1
        ensures ([from] + rest)[k] == from + 25 * k < to
      {
        if k > 0 { assert ([from] + rest)[k] == rest[k - 1]; }
      }
    }
  }

  lemma SampleRangeShape(length: nat, base: nat -> real, env: Envelope)
    ensures WellShaped(SampleRange(length, base, env), length) && DenseEnough(SampleRange(length, base, env))
    ensures |SampleRange(length, base, env)| == (length + 24) / 25 + 1
  {
    StepByElements(0, length);
  }

  lemma RampTimesElements(length: nat)
    ensures |RampTimes(length)| == (length + 24) / 25 + 1
    ensures forall k :: 0 <= k < |RampTimes(length)| - 1 ==> RampTimes(length)[k] == 25 * k < length
    ensures RampTimes(length)[|RampTimes(length)| - 1] == length
  {
    StepByElements(0, length + 1);
  }

  lemma RampShape(effect: FfEffect)
    ensures WellShaped(RampPoints(effect), effect.replayLength) && DenseEnough(RampPoints(effect))
    ensures |RampPoints(effect)| == (effect.replayLength + 24) / 25 + 2
  {
    RampTimesElements(effect.replayLength);
    var points := RampPoints(effect);
    forall i | 0 <= i < |points|
      ensures 0.0 <= points[i].intensity <= 1.0
      ensures points[i].dtMs == if i < |points| - 2 then 25 * i else effect.replayLength
    {
      if i < |points| - 1 { RampPointAt(effect, i); }
    }
  }

  lemma SampleRangeAt(length: nat, base: nat -> real, env: Envelope, i: nat)
    requires i < |SampleRange(length, base, env)| - 1
    ensures 25 * i < length
    ensures SampleRange(length, base, env)[i] == HapticPoint(25 * i, ApplyEnvelope(base(25 * i), 25 * i, length, env))
  {
    StepByElements(0, length);
  }

  lemma RampPointAt(effect: FfEffect, i: nat)
    requires i < |RampPoints(effect)| - 1
    ensures |RampPoints(effect)| == (effect.replayLength + 24) / 25 + 2
    ensures var t := if i == |RampPoints(effect)| - 2 then effect.replayLength else 25 * i;
            && t <= effect.replayLength
            && RampPoints(effect)[i] ==
               HapticPoint(t, RampIntensity(RampStart(effect), RampEnd(effect), t, effect.replayLength))
  {
    RampTimesElements(effect.replayLength);
  }

  lemma TranslationShape(sine: SineFn, effect: FfEffect)
    requires Known(effect)
    ensures WellShaped(Translate(sine, effect), effect.replayLength)
    ensures effect.kind != FF_RUMBLE ==> DenseEnough(Translate(sine, effect))
  {
    if effect.kind == FF_PERIODIC {
      SampleRangeShape(effect.replayLength, PeriodicBase(sine, effect), Envelope(effect.u[5], 0, effect.u[6], 0));
    } else if effect.kind == FF_CONSTANT {
      SampleRangeShape(effect.replayLength, _ => ConstantBase(effect), ConstantEnvelope(effect));
    } else if effect.kind == FF_RAMP {
      RampShape(effect);
    }
  }

  /** One point every 25 ms plus the final zero; a ramp adds its own end value. */
  lemma TranslationCount(sine: SineFn, effect: FfEffect)
    requires Known(effect)
    ensures effect.kind == FF_RUMBLE ==>
              |Translate(sine, effect)| == if effect.replayLength == 0 then 1 else 2
    ensures effect.kind == FF_CONSTANT || effect.kind == FF_PERIODIC ==>
              |Translate(sine, effect)| == (effect.replayLength + 24) / 25 + 1
    ensures effect.kind == FF_RAMP ==>
              |Translate(sine, effect)| == (effect.replayLength + 24) / 25 + 2
  {
    StepByElements(0, effect.replayLength);
    RampShape(effect);
  }

  /** Whether anything is scheduled depends on the kind alone. */
  lemma EmptyExactlyWhenUnknown(sine: SineFn, effect: FfEffect)
    ensures Translate(sine, effect) == [] <==> !Known(effect)
  {
    if Known(effect) {
      TranslationCount(sine, effect);
    }
  }

  /** Point `i` of a constant effect is the envelope at 25i ms. */
  lemma ConstantPointAt(effect: FfEffect, i: nat)
    requires i < |ConstantPoints(effect)| - 1
    ensures |ConstantPoints(effect)| == (effect.replayLength + 24) / 25 + 1
    ensures 25 * i < effect.replayLength
    ensures ConstantPoints(effect)[i] ==
            HapticPoint(25 * i, ApplyEnvelope(ConstantBase(effect), 25 * i, effect.replayLength,
                    ConstantEnvelope(effect)))
  {
    StepByElements(0, effect.replayLength);
  }

  /** The level reaches the points undistorted except for the one value whose
      absolute value does not fit, which is silenced. */
  lemma ConstantLevelExact(effect: FfEffect)
    ensures ConstantBase(effect) == (if Wrap16(effect.u[0]) == -0x8000 then 0.0
                                     else AbsReal(Wrap16(effect.u[0]) as real) / LEVEL_MAX)
    ensures ConstantBase(effect) == Clamp(AbsReal(Wrap16(effect.u[0]) as real) / LEVEL_MAX)
            <==> effect.u[0] != 0x8000
  {
    var level := Wrap16(effect.u[0]);
    assert level == -0x8000 <==> effect.u[0] == 0x8000;
    if level != -0x8000 {
      assert Abs16(level) as real == AbsReal(level as real);
      assert 0 <= Abs16(level) <= 32767;
    } else {
      assert Clamp(AbsReal(level as real) / LEVEL_MAX) == 1.0;
    }
  }

  // ---- Envelope ----

  /** Levels in the range the kernel documents for envelopes. */
  predicate LegalLevels(env: Envelope) {
    env.attackLevel <= 32767 && env.fadeLevel <= 32767
  }

  lemma EnvelopeScaleBounded(t: nat, length: nat, env: Envelope)
    requires LegalLevels(env) && t <= length
    ensures 0.0 <= EnvelopeScale(t, length, env) <= 1.0
  {
    if env.attackLength > 0 && t < env.attackLength {
      ProgressOrdered(t, t, env.attackLength);
      LineOrdered(env.attackLevel as real / LEVEL_MAX, 1.0, Progress(t, env.attackLength), 1.0);
    } else if env.fadeLength > 0 && length > 0 && t >= FadeStart(length, env) {
      ProgressOrdered(t - FadeStart(length, env), t - FadeStart(length, env), env.fadeLength);
      LineOrdered(1.0, env.fadeLevel as real / LEVEL_MAX, Progress(t - FadeStart(length, env), env.fadeLength), 1.0);
    }
  }

  /** The factor rises through the attack and never rises after it, even when
      attack and fade overlap or outlast the effect. */
  lemma EnvelopeScaleUnimodal(t: nat, t': nat, length: nat, env: Envelope)
    requires LegalLevels(env) && t <= t' <= length
    ensures t' < env.attackLength ==> EnvelopeScale(t, length, env) <= EnvelopeScale(t', length, env)
    ensures env.attackLength <= t ==> EnvelopeScale(t, length, env) >= EnvelopeScale(t', length, env)
  {
    if t' < env.attackLength {
      ProgressOrdered(t, t', env.attackLength);
      LineOrdered(env.attackLevel as real / LEVEL_MAX, 1.0, Progress(t, env.attackLength),
                  Progress(t', env.attackLength));
    } else if env.attackLength <= t {
      EnvelopeScaleBounded(t', length, env);
      if env.fadeLength > 0 && length > 0 && t >= FadeStart(length, env) {
        var s := FadeStart(length, env);
        ProgressOrdered(t - s, t' - s, env.fadeLength);
        LineOrdered(1.0, env.fadeLevel as real / LEVEL_MAX, Progress(t - s, env.fadeLength),
                    Progress(t' - s, env.fadeLength));
      }
    }
  }

  /** The range of levels is exactly what that takes: the factor rises through the
      attack if and only if the attack level is at most full, and falls through
      the fade if and only if the fade level is. */
  lemma UnimodalIffLegal(t: nat, t': nat, length: nat, env: Envelope)
    requires t < t' <= length
    ensures t' < env.attackLength ==>
              (EnvelopeScale(t, length, env) <= EnvelopeScale(t', length, env) <==> env.attackLevel <= 32767)
    ensures env.attackLength <= t && env.fadeLength > 0 && FadeStart(length, env) <= t ==>
              (EnvelopeScale(t, length, env) >= EnvelopeScale(t', length, env) <==> env.fadeLevel <= 32767)
  {
    if t' < env.attackLength {
      ProgressStrict(t, t', env.attackLength);
      LineStrict(env.attackLevel as real / LEVEL_MAX, 1.0, Progress(t, env.attackLength),
                  Progress(t', env.attackLength));
    } else if env.attackLength <= t && env.fadeLength > 0 && FadeStart(length, env) <= t {
      var s := FadeStart(length, env);
      ProgressStrict(t - s, t' - s, env.fadeLength);
      LineStrict(1.0, env.fadeLevel as real / LEVEL_MAX, Progress(t - s, env.fadeLength),
                 Progress(t' - s, env.fadeLength));
    }
  }

  /** The sample at 25i ms is at full strength before clamping. */
  predicate Saturates(effect: FfEffect, i: nat) {
    Part(ConstantBase(effect), EnvelopeScale(25 * i, effect.replayLength, ConstantEnvelope(effect))) >= 1.0
  }

  /** The points of a constant effect, for every word: two points of the attack
      rise exactly when the attack level is at most full, or nothing is heard, or
      the later one saturates; two points past the attack fall exactly when the
      fade level is at most full, the fade has not begun, nothing is heard, or the
      earlier one saturates; and none is below the final zero. */
  lemma ConstantUnimodal(effect: FfEffect, i: nat, j: nat)
    requires i < j < |ConstantPoints(effect)|
    ensures var pts, base := ConstantPoints(effect), ConstantBase(effect);
            var fadeStart := FadeStart(effect.replayLength, ConstantEnvelope(effect));
            && (j < |pts| - 1 && 25 * j < effect.u[1] ==>
                  (pts[i].intensity <= pts[j].intensity <==>
                   effect.u[2] <= 32767 || base == 0.0 || Saturates(effect, j)))
            && (j < |pts| - 1 && effect.u[1] <= 25 * i ==>
                  (pts[i].intensity >= pts[j].intensity <==>
                   || effect.u[4] <= 32767 || effect.u[3] == 0 || 25 * j <= fadeStart
                   || base == 0.0 || Saturates(effect, i)))
            && (j == |pts| - 1 ==> pts[i].intensity >= pts[j].intensity)
  {
    var env, n: nat := ConstantEnvelope(effect), effect.replayLength;
    ConstantPointAt(effect, i);
    if j < |ConstantPoints(effect)| - 1 {
      ConstantPointAt(effect, j);
      var t, t' := 25 * i, 25 * j;
      var p, q := EnvelopeScale(t, n, env), EnvelopeScale(t', n, env);
      ScalesCompared(t, t', n, env);
      ScaleNonNegative(t, n, env);
      ScaleNonNegative(t', n, env);
      hide EnvelopeScale, ConstantPoints, Part;
      ClampedOrder(ConstantBase(effect), p, q);
      ClampedOrder(ConstantBase(effect), q, p);
    }
  }

  /** Scaling by the larger factor keeps a clamped level from falling; it is no
      less under the smaller one only at silence or saturation. */
  lemma ClampedOrder(base: real, p: real, q: real)
    requires 0.0 <= base && 0.0 <= p && 0.0 <= q
    ensures p <= q ==> Clamp(Part(base, p)) <= Clamp(Part(base, q))
    ensures p < q ==>
              (Clamp(Part(base, q)) <= Clamp(Part(base, p)) <==> base == 0.0 || Part(base, p) >= 1.0)
  {
    if p <= q { ClampMonotone(base, p, q); }
    PartOrdered(base, 0.0, p);
    PartOrdered(base, 0.0, q);
    if p < q && base > 0.0 {
      PartStrict(p, q, base);
      assert Part(base, p) == Part(p, base) && Part(base, q) == Part(q, base);
    }
  }

  /** How many samples a constant effect has before its final zero. */
  function Samples(effect: FfEffect): nat {
    (effect.replayLength + 24) / 25
  }

  /** How many of them are taken during the attack. */
  function AttackSamples(effect: FfEffect): nat {
    if effect.u[1] <= effect.replayLength then (effect.u[1] + 24) / 25 else Samples(effect)
  }

  predicate RisesThroughAttack(effect: FfEffect) {
    forall i: nat, j: nat :: i < j < AttackSamples(effect) && j < |ConstantPoints(effect)| ==>
      ConstantPoints(effect)[i].intensity <= ConstantPoints(effect)[j].intensity
  }

  predicate FallsAfterAttack(effect: FfEffect) {
    forall i: nat, j: nat :: AttackSamples(effect) <= i < j < |ConstantPoints(effect)| ==>
      ConstantPoints(effect)[i].intensity >= ConstantPoints(effect)[j].intensity
  }

  /** The whole attack rises exactly when its level is at most full, nothing is
      heard, it holds fewer than two samples, or its last sample saturates. */
  lemma RisesThroughAttackIff(effect: FfEffect)
    ensures RisesThroughAttack(effect) <==>
            || effect.u[2] <= 32767 || ConstantBase(effect) == 0.0
            || AttackSamples(effect) < 2 || Saturates(effect, AttackSamples(effect) - 1)
  {
    var n, pts := AttackSamples(effect), ConstantPoints(effect);
    SampleRangeShape(effect.replayLength, _ => ConstantBase(effect), ConstantEnvelope(effect));
    hide ConstantPoints, Saturates, EnvelopeScale, ConstantBase, ConstantEnvelope, FadeStart;
    if n >= 2 { ConstantUnimodal(effect, n - 2, n - 1); }
    forall i: nat, j: nat | i < j < n && j < |pts|
      ensures (effect.u[2] <= 32767 || ConstantBase(effect) == 0.0 || Saturates(effect, n - 1)) ==>
                pts[i].intensity <= pts[j].intensity
    {
      ConstantUnimodal(effect, i, j);
      if effect.u[2] > 32767 && Saturates(effect, n - 1) { EarlierSaturates(effect, j, n - 1); }
    }
  }

  lemma EarlierSaturates(effect: FfEffect, i: nat, j: nat)
    requires i <= j < AttackSamples(effect) && effect.u[2] > 32767 && Saturates(effect, j)
    ensures Saturates(effect, i)
  {
    hide EnvelopeScale, ConstantBase;
    if i < j { ScalesCompared(25 * i, 25 * j, effect.replayLength, ConstantEnvelope(effect)); }
    BaseNonNegative(effect);
    PartOrdered(ConstantBase(effect), EnvelopeScale(25 * j, effect.replayLength, ConstantEnvelope(effect)),
                EnvelopeScale(25 * i, effect.replayLength, ConstantEnvelope(effect)));
  }

  lemma BaseNonNegative(effect: FfEffect)
    ensures 0.0 <= ConstantBase(effect)
  {
  }

  /** What follows the attack, the final zero included, falls exactly when the
      fade level is at most full, there is no fade or no sample in it, nothing is
      heard, fewer than two samples follow, or the first of them saturates. */
  lemma FallsAfterAttackIff(effect: FfEffect)
    ensures FallsAfterAttack(effect) <==>
            || effect.u[4] <= 32767 || effect.u[3] == 0 || ConstantBase(effect) == 0.0
            || Samples(effect) < AttackSamples(effect) + 2
            || 25 * (Samples(effect) - 1) <= FadeStart(effect.replayLength, ConstantEnvelope(effect))
            || Saturates(effect, AttackSamples(effect))
  {
    var f, m, pts := AttackSamples(effect), Samples(effect), ConstantPoints(effect);
    var env := ConstantEnvelope(effect);
    SampleRangeShape(effect.replayLength, _ => ConstantBase(effect), env);
    hide ConstantPoints, Saturates, EnvelopeScale, ConstantBase;
    if m >= f + 2 { ConstantUnimodal(effect, f, m - 1); }
    forall i: nat, j: nat | f <= i < j < |pts|
      ensures (|| effect.u[4] <= 32767 || effect.u[3] == 0 || ConstantBase(effect) == 0.0 || m < f + 2
               || 25 * (m - 1) <= FadeStart(effect.replayLength, env) || Saturates(effect, f)) ==>
                pts[i].intensity >= pts[j].intensity
    {
      ConstantUnimodal(effect, i, j);
      if j < m && effect.u[4] > 32767 && effect.u[3] > 0 && Saturates(effect, f) { LaterSaturates(effect, f, i); }
    }
  }

  lemma LaterSaturates(effect: FfEffect, f: nat, i: nat)
    requires effect.u[1] <= 25 * f && f <= i && 25 * i < effect.replayLength
    requires effect.u[4] > 32767 && effect.u[3] > 0 && Saturates(effect, f)
    ensures Saturates(effect, i)
  {
    var env, n: nat := ConstantEnvelope(effect), effect.replayLength;
    if f < i {
      ScalesCompared(25 * f, 25 * i, n, env);
      if 25 * i <= FadeStart(n, env) {
        ScaleBeforeFade(25 * f, n, env);
        ScaleBeforeFade(25 * i, n, env);
      }
    }
    BaseNonNegative(effect);
    hide EnvelopeScale, ConstantBase;
    PartOrdered(ConstantBase(effect), EnvelopeScale(25 * f, n, env), EnvelopeScale(25 * i, n, env));
  }

  lemma ScaleBeforeFade(t: nat, length: nat, env: Envelope)
    requires env.attackLength <= t <= FadeStart(length, env)
    ensures EnvelopeScale(t, length, env) == 1.0
  {
    PartOrdered(env.fadeLevel as real / LEVEL_MAX - 1.0, 0.0, 1.0);
    if env.fadeLength > 0 { assert Progress(0, env.fadeLength) == 0.0; }
  }

  lemma ScaleNonNegative(t: nat, length: nat, env: Envelope)
    requires t <= length
    ensures 0.0 <= EnvelopeScale(t, length, env)
  {
    if env.attackLength > 0 && t < env.attackLength {
      ProgressOrdered(t, env.attackLength, env.attackLength);
      LineOrdered(env.attackLevel as real / LEVEL_MAX, 1.0, Progress(t, env.attackLength), 1.0);
    } else if env.fadeLength > 0 && length > 0 && t >= FadeStart(length, env) {
      ProgressOrdered(t - FadeStart(length, env), t - FadeStart(length, env), env.fadeLength);
      LineOrdered(1.0, env.fadeLevel as real / LEVEL_MAX, Progress(t - FadeStart(length, env), env.fadeLength), 1.0);
    }
  }

  /** How the factor at two times compares, on either side of the attack's end. */
  lemma ScalesCompared(t: nat, t': nat, length: nat, env: Envelope)
    requires t < t' <= length
    ensures var p, q := EnvelopeScale(t, length, env), EnvelopeScale(t', length, env);
            && (t' < env.attackLength ==> if env.attackLevel <= 32767 then p <= q else p > q)
            && (env.attackLength <= t ==>
                  if env.fadeLevel <= 32767 || env.fadeLength == 0 || t' <= FadeStart(length, env)
                  then p >= q
                  else p < q)
  {
    UnimodalIffLegal(t, t', length, env);
    if env.attackLength <= t && env.fadeLength > 0 {
      var s := FadeStart(length, env);
      PartOrdered(env.fadeLevel as real / LEVEL_MAX - 1.0, 0.0, 1.0);
      if t < s <= t' {
        ProgressOrdered(t' - s, t' - s, env.fadeLength);
        LineOrdered(1.0, env.fadeLevel as real / LEVEL_MAX, 0.0, Progress(t' - s, env.fadeLength));
        if s < t' {
          ProgressStrict(0, t' - s, env.fadeLength);
          LineStrict(1.0, env.fadeLevel as real / LEVEL_MAX, 0.0, Progress(t' - s, env.fadeLength));
        }
      }
    }
  }

  /** What the five captured words of a constant effect mean: the points start
      at the attack level, hold the base level between attack and fade, and
      head for the fade level they would reach at the end. */
  lemma ConstantProfile(effect: FfEffect, t: nat)
    requires effect.kind == FF_CONSTANT && t <= effect.replayLength
    ensures var env, n := ConstantEnvelope(effect), effect.replayLength;
            && (effect.u[1] > 0 ==> EnvelopeScale(0, n, env) == effect.u[2] as real / LEVEL_MAX)
            && (effect.u[1] <= t && t + effect.u[3] <= n ==> EnvelopeScale(t, n, env) == 1.0)
            && (0 < effect.u[3] <= n && effect.u[1] <= n ==>
                    EnvelopeScale(n, n, env) == effect.u[4] as real / LEVEL_MAX)
  {
    var env, n: nat := ConstantEnvelope(effect), effect.replayLength;
    PartOrdered(1.0 - effect.u[2] as real / LEVEL_MAX, 0.0, 1.0);
    PartOrdered(effect.u[4] as real / LEVEL_MAX - 1.0, 0.0, 1.0);
    if effect.u[1] > 0 {
      assert Progress(0, env.attackLength) == 0.0;
    }
    if 0 < effect.u[3] <= n {
      WholeProgress(env.fadeLength);
      assert n - FadeStart(n, env) == env.fadeLength;
      assert Progress(0, env.fadeLength) == 0.0;
    }
  }

  /** Between attack and fade the points hold the level, and an attack starts
      them at their share of it. */
  lemma ConstantPlateau(effect: FfEffect, i: nat)
    requires effect.kind == FF_CONSTANT && i < |ConstantPoints(effect)| - 1
    ensures effect.u[1] <= 25 * i && 25 * i + effect.u[3] <= effect.replayLength ==>
              ConstantPoints(effect)[i].intensity == ConstantBase(effect)
    ensures i == 0 < effect.u[1] ==>
              ConstantPoints(effect)[i].intensity == Clamp(Part(ConstantBase(effect), effect.u[2] as real / LEVEL_MAX))
  {
    ConstantPointAt(effect, i);
    ConstantProfile(effect, 25 * i);
    hide EnvelopeScale, Part, ConstantPoints;
    PartOrdered(ConstantBase(effect), 1.0, 1.0);
  }

  /** A rumble starts at the mean of its two motors' shares of full strength. */
  lemma RumbleStrength(sine: SineFn, effect: FfEffect)
    requires effect.kind == 0x50 && effect.replayLength > 0
    ensures Translate(sine, effect)[0].intensity * 131070.0 == effect.u[0] as real + effect.u[1] as real
  {
    assert Translate(sine, effect)[0].intensity == (effect.u[0] as real + effect.u[1] as real) / 2.0 / 65535.0;
  }

  // ---- Periodic effects ----

  function Raw(waveform: Waveform, phase: real, sine: SineFn): real {
    match waveform
    case Sine => sine(phase * 2.0 * PI)
    case Square => if phase < 0.5 then 1.0 else -1.0
    case Triangle => if phase < 0.5 then 4.0 * phase - 1.0 else 3.0 - 4.0 * phase
    case SawUp => 2.0 * phase - 1.0
    case SawDown => 1.0 - 2.0 * phase
    case Custom => 0.0
  }

  lemma PhaseWithinPeriod(t: nat, period: Word)
    requires t < period
    ensures t % period == t
  {
    RemainderUnique(t, period, 0, t);
  }

  /** Within one period a rising saw never falls and a falling saw never rises,
      and with no offset each is the other turned upside down. The one
      magnitude whose absolute value does not fit turns them around. */
  lemma SawProfile(sine: SineFn, t: nat, t': nat, period: Word, magnitude: Short, offset: Short)
    requires t <= t' < period
    ensures var up := (x: nat) => SampleWaveform(sine, SawUp, x, period, magnitude, offset);
            var down := (x: nat) => SampleWaveform(sine, SawDown, x, period, magnitude, offset);
            && (magnitude != -0x8000 ==> up(t) <= up(t') && down(t') <= down(t))
            && (magnitude == -0x8000 ==> up(t') <= up(t) && down(t) <= down(t'))
            && (magnitude != -0x8000 && offset == 0 ==> up(t) + down(t) == 1.0)
  {
    PhaseWithinPeriod(t, period);
    PhaseWithinPeriod(t', period);
    ProgressOrdered(t, t', period);
    var mag := Abs16(magnitude) as real / LEVEL_MAX;
    var p, q := Progress(t, period), Progress(t', period);
    ProgressOrdered(t', period, period);
    SwingOrdered(mag, offset as real / LEVEL_MAX, 2.0 * p - 1.0, 2.0 * q - 1.0);
    SwingOrdered(mag, offset as real / LEVEL_MAX, 1.0 - 2.0 * q, 1.0 - 2.0 * p);
    if magnitude != -0x8000 { SwingMirror(mag, 2.0 * p - 1.0); }
  }

  /** A triangle is the same forwards and backwards, and rises over its first
      half; the magnitude that does not fit makes it fall there. */
  lemma TriangleProfile(sine: SineFn, t: nat, t': nat, period: Word, magnitude: Short, offset: Short)
    requires t <= t' < period
    ensures var wave := (x: nat) => SampleWaveform(sine, Triangle, x, period, magnitude, offset);
            && wave(t) == wave(period - t)
            && (2 * t' <= period ==> if magnitude != -0x8000 then wave(t) <= wave(t') else wave(t') <= wave(t))
  {
    TriangleMirrors(sine, t, period, magnitude, offset);
    SampleWithinPeriod(sine, Triangle, t, period, magnitude, offset);
    SampleWithinPeriod(sine, Triangle, t', period, magnitude, offset);
    ProgressOrdered(t, t', period);
    ProgressHalf(t', period);
    hide SampleWaveform, Swing, Progress, Abs16;
    var p, q := Progress(t, period), Progress(t', period);
    if 2 * t' <= period {
      Abs16Exact(magnitude);
      SwingOrdered(Abs16(magnitude) as real / LEVEL_MAX, offset as real / LEVEL_MAX,
                   Raw(Triangle, p, sine), Raw(Triangle, q, sine));
    }
  }

  lemma SampleWithinPeriod(sine: SineFn, waveform: Waveform, t: nat, period: Word, magnitude: Short, offset: Short)
    requires t < period
    ensures SampleWaveform(sine, waveform, t, period, magnitude, offset) ==
            Swing(Abs16(magnitude) as real / LEVEL_MAX, offset as real / LEVEL_MAX,
                  Raw(waveform, Progress(t, period), sine))
  {
    PhaseWithinPeriod(t, period);
  }

  lemma TriangleMirrors(sine: SineFn, t: nat, period: Word, magnitude: Short, offset: Short)
    requires t < period
    ensures SampleWaveform(sine, Triangle, t, period, magnitude, offset)
            == SampleWaveform(sine, Triangle, period - t, period, magnitude, offset)
  {
    if t == 0 {
      ShiftByMultiple(0, period, period);
      SamePhase(sine, Triangle, 0, period, period, magnitude, offset);
    } else {
      SampleWithinPeriod(sine, Triangle, t, period, magnitude, offset);
      SampleWithinPeriod(sine, Triangle, period - t, period, magnitude, offset);
      ProgressComplement(t, period);
      hide SampleWaveform, Swing, Progress;
    }
  }

  /** A square takes one value in the first half of its period and one in the second. */
  lemma SquareProfile(sine: SineFn, t: nat, period: Word, magnitude: Short, offset: Short)
    requires t < period
    ensures SampleWaveform(sine, Square, t, period, magnitude, offset) ==
            Clamp(((if 2 * t < period then Abs16(magnitude) else 0 - Abs16(magnitude)) + offset) as real
                  / LEVEL_MAX * 0.5 + 0.5)
  {
    PhaseWithinPeriod(t, period);
    ProgressHalf(t, period);
    PartOrdered(Abs16(magnitude) as real / LEVEL_MAX, -1.0, 1.0);
  }

  /** The waveform value scaled by the magnitude and shifted by the offset. */
  function Swing(mag: real, off: real, raw: real): real {
    Clamp((Part(mag, raw) + off) * 0.5 + 0.5)
  }

  lemma SwingOrdered(mag: real, off: real, x: real, y: real)
    requires x <= y
    ensures mag >= 0.0 ==> Swing(mag, off, x) <= Swing(mag, off, y)
    ensures mag <= 0.0 ==> Swing(mag, off, y) <= Swing(mag, off, x)
  {
    PartOrdered(mag, x, y);
  }

  lemma SwingMirror(mag: real, x: real)
    requires 0.0 <= mag <= 1.0 && -1.0 <= x <= 1.0
    ensures Swing(mag, 0.0, x) + Swing(mag, 0.0, -x) == 1.0
  {
    PartOrdered(mag, x, 1.0);
    PartOrdered(mag, -1.0, x);
    assert Part(mag, -1.0) == -mag;
    assert Part(mag, -x) == -Part(mag, x);
  }

  lemma PeriodicPointAt(sine: SineFn, effect: FfEffect, i: nat)
    requires effect.kind == FF_PERIODIC && i < |Translate(sine, effect)| - 1
    ensures 25 * i < effect.replayLength
    ensures Translate(sine, effect)[i] == HapticPoint(25 * i,
              ApplyEnvelope(SampleWaveform(sine, PeriodicWaveform(effect), 25 * i, effect.u[1],
                      Wrap16(effect.u[2]), Wrap16(effect.u[3])),
                            25 * i, effect.replayLength, Envelope(effect.u[5], 0, effect.u[6], 0)))
  {
    SampleRangeAt(effect.replayLength, PeriodicBase(sine, effect), Envelope(effect.u[5], 0, effect.u[6], 0), i);
  }

  /** A periodic effect swells from silence over its attack and dies away over
      its fade, whatever wave it carries. */
  lemma PeriodicSwells(sine: SineFn, effect: FfEffect, i: nat)
    requires effect.kind == FF_PERIODIC && i < |Translate(sine, effect)| - 1
    ensures var attack, fade, n := effect.u[5], effect.u[6], effect.replayLength;
            var intensity, t := Translate(sine, effect)[i].intensity, 25 * i;
            && (t < attack ==> Part(intensity, attack as real) <= t as real)
            && (attack <= t && n - t <= fade ==>
                  Part(intensity, fade as real) <= (if fade <= n then n - t else fade - t) as real)
  {
    var env, n: nat, t := Envelope(effect.u[5], 0, effect.u[6], 0), effect.replayLength, 25 * i;
    PeriodicPointAt(sine, effect, i);
    var base := SampleWaveform(sine, PeriodicWaveform(effect), t, effect.u[1], Wrap16(effect.u[2]),
            Wrap16(effect.u[3]));
    assert 0.0 <= base <= 1.0;
    hide Translate, SampleWaveform;
    EnvelopeScaleBounded(t, n, env);
    SwellsAndFades(t, n, env);
    hide EnvelopeScale, Clamp, FadeStart, Part;
    var scale, intensity := EnvelopeScale(t, n, env), Translate(sine, effect)[i].intensity;
    AtMostTheScale(base, scale);
    PartBounded(intensity, scale, env.attackLength as real);
    PartBounded(intensity, scale, env.fadeLength as real);
  }

  lemma SwellsAndFades(t: nat, n: nat, env: Envelope)
    requires env.attackLevel == 0 && env.fadeLevel == 0 && t < n
    ensures t < env.attackLength ==> Part(EnvelopeScale(t, n, env), env.attackLength as real) == t as real
    ensures env.attackLength <= t && n - t <= env.fadeLength ==>
              Part(EnvelopeScale(t, n, env), env.fadeLength as real) ==
              (if env.fadeLength <= n then n - t else env.fadeLength - t) as real
  {
    ScaleOnLines(t, n, env);
    hide EnvelopeScale, AttackLine, FadeLine, Part;
    if t < env.attackLength {
      AttackFromSilence(t, env.attackLength);
    } else if env.fadeLength > n {
      FadeToSilence(t, env.fadeLength);
    } else if 0 < env.fadeLength && n - t <= env.fadeLength {
      FadeToSilence(t + env.fadeLength - n, env.fadeLength);
    }
  }

  lemma AtMostTheScale(base: real, scale: real)
    requires 0.0 <= base <= 1.0 && 0.0 <= scale <= 1.0
    ensures Clamp(Part(base, scale)) <= scale
  {
    PartOrdered(scale, base, 1.0);
    assert Part(base, scale) == Part(scale, base);
  }

  lemma PartBounded(x: real, y: real, p: real)
    requires x <= y && 0.0 <= p
    ensures Part(x, p) <= Part(y, p)
  {
    PartOrdered(p, x, y);
  }

  lemma AttackFromSilence(t: nat, attack: nat)
    requires attack > 0
    ensures Part(AttackLine(t, attack, 0), attack as real) == t as real
  {
    assert AttackLine(t, attack, 0) == t as real / attack as real;
  }

  lemma FadeToSilence(s: nat, fade: nat)
    requires fade > 0
    ensures Part(FadeLine(s, fade, 0), fade as real) == (fade - s) as real
  {
    assert FadeLine(s, fade, 0) == (fade - s) as real / fade as real;
  }

  // ---- What each waveform code sounds like ----

  /** A periodic effect of some period without attack or fade. */
  predicate Unfaded(effect: FfEffect) {
    effect.kind == 0x51 && effect.u[1] > 0 && effect.u[5] == 0 && effect.u[6] == 0
  }

  /** A wave value between -1 and 1, scaled by the magnitude word, shifted by the
      offset word and mapped to an intensity. */
  function Heard(effect: FfEffect, wave: real): real {
    var magnitude, offset := Abs16(Wrap16(effect.u[2])), Wrap16(effect.u[3]);
    Clamp((Part(magnitude as real / 32767.0, wave) + offset as real / 32767.0) * 0.5 + 0.5)
  }

  /** Where in its period a wave is at point `i`. */
  function PhaseAt(i: nat, period: nat): nat
    requires period > 0
  {
    25 * i % period
  }

  lemma PhaseRepeats(i: nat, m: nat, period: nat)
    requires period > 0 && 25 * m % period == 0
    ensures PhaseAt(i + m, period) == PhaseAt(i, period)
  {
    ShiftByMultiple(25 * i, 25 * m, period);
    assert 25 * (i + m) == 25 * i + 25 * m;
  }

  lemma UnfadedPoint(sine: SineFn, effect: FfEffect, i: nat, code: Waveform)
    requires Unfaded(effect) && i < |Translate(sine, effect)| - 1 && PeriodicWaveform(effect) == code
    ensures var x := PhaseAt(i, effect.u[1]);
            Translate(sine, effect)[i] == HapticPoint(25 * i, Heard(effect, Raw(code, Progress(x, effect.u[1]), sine)))
  {
    var period, t, m, o := effect.u[1], 25 * i, Wrap16(effect.u[2]), Wrap16(effect.u[3]);
    PeriodicPointAt(sine, effect, i);
    NoEnvelope(SampleWaveform(sine, code, t, period, m, o), t, effect.replayLength);
    PhaseWithinPeriod(t % period, period);
    SamePhase(sine, code, t, t % period, period, m, o);
    SampleWithinPeriod(sine, code, t % period, period, m, o);
    hide Translate, SampleWaveform, Raw;
    HeardSwings(effect, Raw(code, Progress(t % period, period), sine));
  }

  lemma HeardSwings(effect: FfEffect, wave: real)
    ensures Swing(Abs16(Wrap16(effect.u[2])) as real / LEVEL_MAX, Wrap16(effect.u[3]) as real / LEVEL_MAX, wave)
            == Heard(effect, wave)
  {
    hide Clamp, Abs16, Wrap16, Part;
  }

  /** 0x58 is a square: one level for the first half of each period, the opposite
      one for the second. */
  lemma SquareEffect(sine: SineFn, effect: FfEffect, i: nat)
    requires Unfaded(effect) && effect.u[0] == 0x58 && i < |Translate(sine, effect)| - 1
    ensures var x, period := 25 * i % effect.u[1], effect.u[1];
            Translate(sine, effect)[i] == HapticPoint(25 * i, Heard(effect, if 2 * x < period then 1.0 else -1.0))
  {
    hide *;
    UnfadedIsPeriodic(effect);
    CodesNamed(effect);
    UnfadedPoint(sine, effect, i, Square);
    SquareAt(sine, PhaseAt(i, effect.u[1]), effect.u[1]);
    PhaseIs(i, effect.u[1]);
  }

  lemma SquareAt(sine: SineFn, x: nat, period: nat)
    requires period > 0
    ensures Raw(Square, Progress(x, period), sine) == if 2 * x < period then 1.0 else -1.0
  {
    ProgressHalf(x, period);
  }

  /** 0x59 is a triangle: from -1 to 1 over the first half, and back. */
  lemma TriangleEffect(sine: SineFn, effect: FfEffect, i: nat)
    requires Unfaded(effect) && effect.u[0] == 0x59 && i < |Translate(sine, effect)| - 1
    ensures var x, period := (25 * i % effect.u[1]) as real, effect.u[1] as real;
            Translate(sine, effect)[i] ==
            HapticPoint(25 * i, Heard(effect, if 2.0 * x < period then 4.0 * (x / period) - 1.0
                                              else 3.0 - 4.0 * (x / period)))
  {
    hide *;
    UnfadedIsPeriodic(effect);
    CodesNamed(effect);
    UnfadedPoint(sine, effect, i, Triangle);
    TriangleAt(sine, PhaseAt(i, effect.u[1]), effect.u[1]);
    PhaseIs(i, effect.u[1]);
  }

  lemma TriangleAt(sine: SineFn, x: nat, period: nat)
    requires period > 0
    ensures var fraction := x as real / period as real;
            Raw(Triangle, Progress(x, period), sine) ==
            if 2.0 * x as real < period as real then 4.0 * fraction - 1.0 else 3.0 - 4.0 * fraction
  {
    ProgressHalf(x, period);
  }

  /** 0x5a is the sine routine over one turn of the period. */
  lemma SineEffect(sine: SineFn, effect: FfEffect, i: nat)
    requires Unfaded(effect) && effect.u[0] == 0x5a && i < |Translate(sine, effect)| - 1
    ensures var x, period := (25 * i % effect.u[1]) as real, effect.u[1] as real;
            Translate(sine, effect)[i] ==
            HapticPoint(25 * i, Heard(effect, sine(x / period * 2.0 * 3.1415927410125732421875)))
  {
    hide *;
    UnfadedIsPeriodic(effect);
    CodesNamed(effect);
    UnfadedPoint(sine, effect, i, Sine);
    SineAt(sine, PhaseAt(i, effect.u[1]), effect.u[1]);
    PhaseIs(i, effect.u[1]);
  }

  lemma SineAt(sine: SineFn, x: nat, period: nat)
    requires period > 0
    ensures Raw(Sine, Progress(x, period), sine) == sine(x as real / period as real * 2.0 * 3.1415927410125732421875)
  {
  }

  lemma UnfadedIsPeriodic(effect: FfEffect)
    requires Unfaded(effect)
    ensures effect.kind == 0x51 && effect.u[1] > 0
  {
  }

  lemma CodesNamed(effect: FfEffect)
    ensures effect.u[0] == 0x58 ==> PeriodicWaveform(effect) == Square
    ensures effect.u[0] == 0x59 ==> PeriodicWaveform(effect) == Triangle
    ensures effect.u[0] == 0x5a ==> PeriodicWaveform(effect) == Sine
    ensures effect.u[0] == 0x5b ==> PeriodicWaveform(effect) == SawUp
    ensures effect.u[0] == 0x5c ==> PeriodicWaveform(effect) == SawDown
  {
  }

  /** 0x5b is a saw that rises over each period, 0x5c one that falls. */
  lemma SawEffect(sine: SineFn, effect: FfEffect, i: nat)
    requires Unfaded(effect) && (effect.u[0] == 0x5b || effect.u[0] == 0x5c) && i < |Translate(sine, effect)| - 1
    ensures var x, period := (25 * i % effect.u[1]) as real, effect.u[1] as real;
            Translate(sine, effect)[i] ==
            HapticPoint(25 * i, Heard(effect, if effect.u[0] == 0x5b then 2.0 * (x / period) - 1.0
                                              else 1.0 - 2.0 * (x / period)))
  {
    hide *;
    UnfadedIsPeriodic(effect);
    CodesNamed(effect);
    UnfadedPoint(sine, effect, i, if effect.u[0] == 0x5b then SawUp else SawDown);
    SawAt(sine, PhaseAt(i, effect.u[1]), effect.u[1]);
    PhaseIs(i, effect.u[1]);
  }

  lemma PhaseIs(i: nat, period: nat)
    requires period > 0
    ensures PhaseAt(i, period) == 25 * i % period
  {
  }

  lemma SawAt(sine: SineFn, x: nat, period: nat)
    requires period > 0
    ensures Raw(SawUp, Progress(x, period), sine) == 2.0 * (x as real / period as real) - 1.0
    ensures Raw(SawDown, Progress(x, period), sine) == 1.0 - 2.0 * (x as real / period as real)
  {
  }

  /** 0x5d, a custom waveform, stays at its offset. */
  lemma CustomEffect(sine: SineFn, effect: FfEffect, i: nat)
    requires Unfaded(effect) && effect.u[0] == 0x5d && i < |Translate(sine, effect)| - 1
    ensures Translate(sine, effect)[i] ==
            HapticPoint(25 * i, Clamp(Wrap16(effect.u[3]) as real / 32767.0 * 0.5 + 0.5))
  {
    UnfadedPoint(sine, effect, i, Custom);
    hide Translate, Clamp;
  }

  /** A code outside 0x58 to 0x5d plays, point for point, as 0x5a. */
  lemma UnrecognisedPlaysAsSine(sine: SineFn, effect: FfEffect)
    requires effect.kind == 0x51 && (effect.u[0] < 0x58 || effect.u[0] > 0x5d)
    ensures Translate(sine, effect) == Translate(sine, effect.(u := effect.u[0 := 0x5a]))
  {
    var other := effect.(u := effect.u[0 := 0x5a]);
    assert PeriodicWaveform(effect) == PeriodicWaveform(other);
    TranslationCount(sine, effect);
    TranslationCount(sine, other);
    TranslationShape(sine, effect);
    TranslationShape(sine, other);
    hide Translate, PeriodicWaveform, ApplyEnvelope, SampleWaveform;
    var n := |Translate(sine, effect)|;
    forall i: nat | i < n - 1 ensures Translate(sine, effect)[i] == Translate(sine, other)[i] {
      PeriodicPointAt(sine, effect, i);
      PeriodicPointAt(sine, other, i);
    }
  }

  /** Without a period a periodic effect is silent. */
  lemma NoPeriodSilent(sine: SineFn, effect: FfEffect, i: nat)
    requires effect.kind == 0x51 && effect.u[1] == 0 && i < |Translate(sine, effect)|
    ensures Translate(sine, effect)[i].intensity == 0.0
  {
    TranslationShape(sine, effect);
    if i < |Translate(sine, effect)| - 1 {
      PeriodicPointAt(sine, effect, i);
      hide Translate, EnvelopeScale;
      SilenceScaled(EnvelopeScale(25 * i, effect.replayLength, Envelope(effect.u[5], 0, effect.u[6], 0)));
    }
  }

  lemma SilenceScaled(scale: real)
    ensures Clamp(Part(0.0, scale)) == 0.0
  {
  }

  // ---- What the envelope does to a point ----

  /** The straight line an attack of this length and level follows from its level to full. */
  function AttackLine(t: nat, attack: nat, level: Word): real
    requires attack > 0
  {
    (level as real / 32767.0 * (attack as real - t as real) + t as real) / attack as real
  }

  /** The straight line a fade follows from full to its level, `s` after it starts. */
  function FadeLine(s: nat, fade: nat, level: Word): real
    requires fade > 0
  {
    (fade as real - s as real + level as real / 32767.0 * s as real) / fade as real
  }

  lemma LineMixes(a: real, b: real, t: nat, n: nat)
    requires 0 < n
    ensures Line(a, b, Progress(t, n)) == (a * (n as real - t as real) + b * t as real) / n as real
  {
    var p, r := Progress(t, n), n as real;
    assert p * r == t as real;
    assert Line(a, b, p) * r == a * r + (b - a) * (p * r);
    assert Line(a, b, p) * r == a * (r - t as real) + b * t as real;
  }

  lemma AttackLineMixes(t: nat, attack: nat, level: Word)
    requires attack > 0
    ensures Line(level as real / LEVEL_MAX, 1.0, Progress(t, attack)) == AttackLine(t, attack, level)
  {
    LineMixes(level as real / LEVEL_MAX, 1.0, t, attack);
  }

  lemma FadeLineMixes(s: nat, fade: nat, level: Word)
    requires fade > 0
    ensures Line(1.0, level as real / LEVEL_MAX, Progress(s, fade)) == FadeLine(s, fade, level)
  {
    LineMixes(1.0, level as real / LEVEL_MAX, s, fade);
  }

  /** The envelope's factor at a sample, before or in the attack, in the fade, or between. */
  lemma ScaleOnLines(t: nat, n: nat, env: Envelope)
    requires t < n
    ensures t < env.attackLength ==> EnvelopeScale(t, n, env) == AttackLine(t, env.attackLength, env.attackLevel)
    ensures env.attackLength <= t && 0 < env.fadeLength <= n <= t + env.fadeLength ==>
              EnvelopeScale(t, n, env) == FadeLine(t + env.fadeLength - n, env.fadeLength, env.fadeLevel)
    ensures env.attackLength <= t && env.fadeLength > n ==>
              EnvelopeScale(t, n, env) == FadeLine(t, env.fadeLength, env.fadeLevel)
    ensures env.attackLength <= t && (env.fadeLength == 0 || t + env.fadeLength < n) ==> EnvelopeScale(t, n, env) == 1.0
  {
    hide Line, Progress, AttackLine, FadeLine;
    if t < env.attackLength {
      AttackLineMixes(t, env.attackLength, env.attackLevel);
    } else if env.fadeLength > 0 && FadeStart(n, env) <= t {
      FadeLineMixes(t - FadeStart(n, env), env.fadeLength, env.fadeLevel);
    }
  }

  /** Every sample of a constant effect, for every word: its attack is a straight
      line from the attack level to full, its fade one from full to the fade
      level, and between them the level is held. */
  lemma ConstantLines(sine: SineFn, effect: FfEffect, i: nat)
    requires effect.kind == 0x52 && i < |Translate(sine, effect)| - 1
    ensures var u, n, t: nat, level := effect.u, effect.replayLength, 25 * i, ConstantBase(effect);
            var point := Translate(sine, effect)[i];
            && point.dtMs == t < n
            && (t < u[1] ==> point.intensity == Clamp(Part(level, AttackLine(t, u[1], u[2]))))
            && (u[1] <= t && 0 < u[3] <= n <= t + u[3] ==>
                  point.intensity == Clamp(Part(level, FadeLine(t + u[3] - n, u[3], u[4]))))
            && (u[1] <= t && u[3] > n ==> point.intensity == Clamp(Part(level, FadeLine(t, u[3], u[4]))))
            && (u[1] <= t && (u[3] == 0 || t + u[3] < n) ==> point.intensity == level)
  {
    assert Translate(sine, effect) == ConstantPoints(effect);
    hide Translate;
    ConstantPointAt(effect, i);
    ScaleOnLines(25 * i, effect.replayLength, ConstantEnvelope(effect));
    LevelHeld(ConstantBase(effect));
    hide ConstantPoints, ConstantBase, Clamp, Part, EnvelopeScale, AttackLine, FadeLine;
  }

  lemma LevelHeld(level: real)
    ensures Part(level, 1.0) == level
    ensures 0.0 <= level <= 1.0 ==> Clamp(Part(level, 1.0)) == level
  {
    PartOrdered(level, 1.0, 1.0);
  }

  /** The same effect without its attack and fade. */
  function Plain(effect: FfEffect): FfEffect {
    effect.(u := effect.u[5 := 0][6 := 0])
  }

  /** An enveloped periodic effect is the plain one times straight lines: from
      silence to full over its attack, from full to silence over its fade. */
  lemma PeriodicLines(sine: SineFn, effect: FfEffect, i: nat)
    requires effect.kind == 0x51 && i < |Translate(sine, effect)| - 1
    ensures |Translate(sine, Plain(effect))| == |Translate(sine, effect)|
    ensures var u, n, t: nat := effect.u, effect.replayLength, 25 * i;
            var intensity, plain := Translate(sine, effect)[i].intensity, Translate(sine, Plain(effect))[i].intensity;
            && (t < u[5] ==> intensity == Part(plain, AttackLine(t, u[5], 0)))
            && (u[5] <= t && 0 < u[6] <= n <= t + u[6] ==> intensity == Part(plain, FadeLine(t + u[6] - n, u[6], 0)))
            && (u[5] <= t && u[6] > n ==> intensity == Part(plain, FadeLine(t, u[6], 0)))
            && (u[5] <= t && (u[6] == 0 || t + u[6] < n) ==> intensity == plain)
  {
    var env, n: nat, t := Envelope(effect.u[5], 0, effect.u[6], 0), effect.replayLength, 25 * i;
    TranslationCount(sine, effect);
    TranslationCount(sine, Plain(effect));
    PeriodicPointAt(sine, effect, i);
    PeriodicPointAt(sine, Plain(effect), i);
    var code, m, o := PeriodicWaveform(effect), Wrap16(effect.u[2]), Wrap16(effect.u[3]);
    var wave := SampleWaveform(sine, code, t, effect.u[1], m, o);
    assert 0.0 <= wave <= 1.0;
    hide Translate, SampleWaveform, Abs16, Wrap16;
    hide *;
    EnvelopeScaleBounded(t, n, env);
    ScaleOnLines(t, n, env);
    PointsOfWave(wave, t, n, env);
  }

  /** A wave value under an envelope that only lowers it, and under none. */
  lemma PointsOfWave(wave: real, t: nat, n: nat, env: Envelope)
    requires 0.0 <= wave <= 1.0 && 0.0 <= EnvelopeScale(t, n, env) <= 1.0
    ensures ApplyEnvelope(wave, t, n, env) == Part(wave, EnvelopeScale(t, n, env))
    ensures ApplyEnvelope(wave, t, n, Envelope(0, 0, 0, 0)) == wave && Part(wave, 1.0) == wave
  {
    NoEnvelope(wave, t, n);
    ScaledWithin(wave, EnvelopeScale(t, n, env));
    LevelHeld(wave);
    hide EnvelopeScale;
  }

  lemma ScaledWithin(base: real, scale: real)
    requires 0.0 <= base <= 1.0 && 0.0 <= scale <= 1.0
    ensures Clamp(Part(base, scale)) == Part(base, scale) && Clamp(base) == base
  {
    PartOrdered(base, 0.0, scale);
    PartOrdered(base, scale, 1.0);
  }

  function Gcd25(p: nat): nat {
    if p % 25 == 0 then 25 else if p % 5 == 0 then 5 else 1
  }

  /** How many 25 ms samples a period of `p` ms takes to line up with the sample grid. */
  function SamplesPerCycle(p: nat): nat {
    p / Gcd25(p)
  }

  lemma SamplesPerCycleIsWhole(p: nat)
    requires p > 0
    ensures SamplesPerCycle(p) > 0
    ensures (25 * SamplesPerCycle(p)) % p == 0
  {
    var g := Gcd25(p);
    assert p == g * SamplesPerCycle(p);
    RemainderUnique(25 * SamplesPerCycle(p), p, 25 / g, 0);
  }

  lemma NoEnvelope(base: real, t: nat, length: nat)
    ensures ApplyEnvelope(base, t, length, Envelope(0, 0, 0, 0)) == Clamp(base)
  {
    PartOrdered(base, 1.0, 1.0);
  }

  lemma SamePhase(sine: SineFn, waveform: Waveform, t: nat, t': nat, period: Word, magnitude: Short, offset: Short)
    requires period > 0 && t % period == t' % period
    ensures SampleWaveform(sine, waveform, t, period, magnitude, offset)
            == SampleWaveform(sine, waveform, t', period, magnitude, offset)
  {
  }

  lemma PeriodicIsUnfaded(effect: FfEffect)
    requires effect.kind == FF_PERIODIC && effect.u[1] > 0 && effect.u[5] == 0 && effect.u[6] == 0
    ensures Unfaded(effect)
  {
  }

  /** Sampling keeps the wave's period: whatever the waveform, magnitude and
      offset, points one aligned cycle apart carry the same intensity. */
  lemma PeriodicRepeats(sine: SineFn, effect: FfEffect, i: nat)
    requires effect.kind == FF_PERIODIC && effect.u[1] > 0 && effect.u[5] == 0 && effect.u[6] == 0
    requires i + SamplesPerCycle(effect.u[1]) < |Translate(sine, effect)| - 1
    ensures var pts := Translate(sine, effect);
            pts[i + SamplesPerCycle(effect.u[1])].intensity == pts[i].intensity
  {
    hide *;
    var m := SamplesPerCycle(effect.u[1]);
    SamplesPerCycleIsWhole(effect.u[1]);
    PhaseRepeats(i, m, effect.u[1]);
    PeriodicIsUnfaded(effect);
    UnfadedPoint(sine, effect, i, PeriodicWaveform(effect));
    UnfadedPoint(sine, effect, i + m, PeriodicWaveform(effect));
  }

  // ---- Ramp effects ----

  function RampStart(effect: FfEffect): Short { Wrap16(effect.u[0]) }

  function RampEnd(effect: FfEffect): Short { Wrap16(effect.u[1]) }

  /** The difference of the two levels fits the signed word it is computed in. */
  predicate RampFits(effect: FfEffect) {
    -0x8000 <= RampEnd(effect) - RampStart(effect) < 0x8000
  }

  function LevelIntensity(level: int): real {
    Clamp(AbsReal(level as real) / LEVEL_MAX)
  }

  predicate WithinEnds(effect: FfEffect, i: nat)
    requires i < |RampPoints(effect)|
  {
    || RampPoints(effect)[i].intensity <= LevelIntensity(RampStart(effect))
    || RampPoints(effect)[i].intensity <= LevelIntensity(RampEnd(effect))
  }

  /** No sample exceeds the stronger of the two end levels. */
  lemma RampBounded(effect: FfEffect, i: nat)
    requires RampFits(effect)
    requires i < |RampPoints(effect)|
    ensures WithinEnds(effect, i)
  {
    if i < |RampPoints(effect)| - 1 {
      RampPointAt(effect, i);
      var t, n: nat := RampPoints(effect)[i].dtMs, effect.replayLength;
      RampLevelsOrdered(RampStart(effect), RampEnd(effect), t, n, n);
    }
  }

  /** A ramp of some length stays within its end levels exactly when their
      difference fits, or one of them is full strength anyway. */
  lemma RampBoundedExactly(effect: FfEffect)
    requires effect.replayLength > 0
    ensures (forall i: nat :: i < |RampPoints(effect)| ==> WithinEnds(effect, i))
            <==> RampFits(effect) || AbsReal(RampStart(effect) as real) >= LEVEL_MAX
                    || AbsReal(RampEnd(effect) as real) >= LEVEL_MAX
  {
    RampShape(effect);
    var n: nat := |RampPoints(effect)|;
    hide RampPoints, RampIntensity;
    SaturationThreshold(RampStart(effect));
    SaturationThreshold(RampEnd(effect));
    if RampFits(effect) {
      forall i: nat | i < n ensures WithinEnds(effect, i) { RampBounded(effect, i); }
    } else {
      RampPointAt(effect, n - 2);
      RampFinalIntensity(RampStart(effect), RampEnd(effect), effect.replayLength);
      OverflowIsFull(RampStart(effect), RampEnd(effect));
      var full := LevelIntensity(RampStart(effect)) == 1.0 || LevelIntensity(RampEnd(effect)) == 1.0;
      assert WithinEnds(effect, n - 2) <==> full;
    }
  }

  lemma OverflowIsFull(start: Short, end: Short)
    requires !(-0x8000 <= end - start < 0x8000)
    ensures LevelIntensity(start + Wrap16(end - start)) == 1.0
  {
    var last: int := start + Wrap16(end - start);
    assert last == end - 0x1_0000 || last == end + 0x1_0000;
    SaturationThreshold(last);
  }

  /** The level the ramp reaches at `t`, when the difference fits. */
  function RampLevel(start: Short, end: Short, t: nat, length: nat): real {
    Line(start as real, end as real, if length == 0 then 0.0 else Progress(t, length))
  }

  lemma RampLevelsOrdered(start: Short, end: Short, t: nat, t': nat, length: nat)
    requires t <= t' <= length && -0x8000 <= end - start < 0x8000
    ensures RampIntensity(start, end, t, length) == Clamp(AbsReal(RampLevel(start, end, t, length)) / LEVEL_MAX)
    ensures start <= end ==>
              start as real <= RampLevel(start, end, t, length) <= RampLevel(start, end, t', length) <= end as real
    ensures end <= start ==>
              end as real <= RampLevel(start, end, t', length) <= RampLevel(start, end, t, length) <= start as real
  {
    hide Part, Progress;
    var p := if length == 0 then 0.0 else Progress(t, length);
    var q := if length == 0 then 0.0 else Progress(t', length);
    if length > 0 { ProgressOrdered(t, t', length); }
    LineOrdered(start as real, end as real, p, q);
  }

  /** The point before the final zero is the end level, exactly when the level
      difference fits or the end level saturates anyway. (An empty ramp stays at
      its start level.) */
  lemma RampEndsAtEndLevel(effect: FfEffect)
    requires effect.replayLength > 0
    ensures var pts := RampPoints(effect);
            && pts[|pts| - 2].dtMs == effect.replayLength
            && (pts[|pts| - 2].intensity == LevelIntensity(RampEnd(effect))
                <==> RampFits(effect) || AbsReal(RampEnd(effect) as real) >= LEVEL_MAX)
  {
    RampShape(effect);
    RampPointAt(effect, |RampPoints(effect)| - 2);
    RampFinalIntensity(RampStart(effect), RampEnd(effect), effect.replayLength);
  }

  lemma RampFinalIntensity(start: Short, end: Short, length: nat)
    requires length > 0
    ensures RampIntensity(start, end, length, length) == LevelIntensity(start + Wrap16(end - start))
    ensures RampIntensity(start, end, length, length) == LevelIntensity(end)
            <==> -0x8000 <= end - start < 0x8000 || AbsReal(end as real) >= LEVEL_MAX
  {
    WholeProgress(length);
    PartOrdered(Wrap16(end - start) as real, 1.0, 1.0);
    var last: int := start + Wrap16(end - start);
    assert Line(start as real, start as real + Wrap16(end - start) as real, 1.0) == last as real;
    if end - start >= 0x8000 {
      assert last == end - 0x1_0000;
      SaturationThreshold(last);
      SaturationThreshold(end);
    } else if end - start < -0x8000 {
      assert last == end + 0x1_0000;
      SaturationThreshold(last);
      SaturationThreshold(end);
    }
  }

  lemma SaturationThreshold(level: int)
    ensures LevelIntensity(level) == 1.0 <==> AbsReal(level as real) >= LEVEL_MAX
  {
  }

  lemma LoudnessOrdered(x: real, y: real)
    requires x <= y
    ensures Clamp(x / LEVEL_MAX) <= Clamp(y / LEVEL_MAX)
  {
  }

  /** Every sample of a ramp, for every pair of words: a straight line from the
      start level, by the difference of the levels as sixteen bits hold it. */
  lemma RampLine(sine: SineFn, effect: FfEffect, i: nat, difference: Short)
    requires effect.kind == 0x57 && i < |Translate(sine, effect)| - 1
    requires (RampEnd(effect) - RampStart(effect) - difference) % 0x1_0000 == 0
    ensures var n, t := effect.replayLength, Translate(sine, effect)[i].dtMs;
            var risen := if n == 0 then 0.0 else Part(difference as real, t as real / n as real);
            && t == (if i == |Translate(sine, effect)| - 2 then n else 25 * i)
            && Translate(sine, effect)[i].intensity == Clamp(AbsReal(RampStart(effect) as real + risen) / 32767.0)
  {
    assert Translate(sine, effect) == RampPoints(effect);
    hide Translate;
    var start: Short, end: Short := RampStart(effect), RampEnd(effect);
    RampPointAt(effect, i);
    Wrap16Exact(RampEnd(effect) - RampStart(effect), difference);
    hide RampPoints, RampStart, RampEnd, Wrap16;
    RampRises(start, end, RampPoints(effect)[i].dtMs, effect.replayLength);
  }

  lemma RampRises(start: Short, end: Short, t: nat, n: nat)
    requires t <= n
    ensures var risen := if n == 0 then 0.0 else Part(Wrap16(end - start) as real, t as real / n as real);
            RampIntensity(start, end, t, n) == Clamp(AbsReal(start as real + risen) / 32767.0)
  {
    hide Part, Wrap16;
    PartOrdered(Wrap16(end - start) as real, 0.0, 0.0);
    assert start as real + Wrap16(end - start) as real - start as real == Wrap16(end - start) as real;
  }

  /** With both levels on one side of zero the samples move in one direction. */
  lemma RampMonotone(effect: FfEffect, i: nat, j: nat)
    requires (RampStart(effect) >= 0 && RampEnd(effect) >= 0) || (RampStart(effect) <= 0 && RampEnd(effect) <= 0)
    requires i <= j < |RampPoints(effect)| - 1
    ensures AbsReal(RampStart(effect) as real) <= AbsReal(RampEnd(effect) as real) ==>
              RampPoints(effect)[i].intensity <= RampPoints(effect)[j].intensity
    ensures AbsReal(RampStart(effect) as real) >= AbsReal(RampEnd(effect) as real) ==>
              RampPoints(effect)[j].intensity <= RampPoints(effect)[i].intensity
  {
    RampPointAt(effect, i);
    RampPointAt(effect, j);
    RampIntensityMonotone(RampStart(effect), RampEnd(effect), RampPoints(effect)[i].dtMs, RampPoints(effect)[j].dtMs,
                          effect.replayLength);
  }

  /** The one same-sided ramp whose difference does not fit never leaves full strength. */
  lemma StuckRamp(t: nat, length: nat)
    requires t <= length
    ensures RampIntensity(-0x8000, 0, t, length) == 1.0
  {
    if length > 0 { ProgressOrdered(t, t, length); }
    LineOrdered(-32768.0, -65536.0, if length == 0 then 0.0 else Progress(t, length), 1.0);
  }

  lemma RampIntensityMonotone(start: Short, end: Short, t: nat, t': nat, length: nat)
    requires t <= t' <= length
    requires (start >= 0 && end >= 0) || (start <= 0 && end <= 0)
    ensures AbsReal(start as real) <= AbsReal(end as real) ==>
              RampIntensity(start, end, t, length) <= RampIntensity(start, end, t', length)
    ensures AbsReal(start as real) >= AbsReal(end as real) ==>
              RampIntensity(start, end, t, length) >= RampIntensity(start, end, t', length)
  {
    if end - start == 0x8000 {
      StuckRamp(t, length);
      StuckRamp(t', length);
      return;
    }
    RampLevelsOrdered(start, end, t, t', length);
    RampLevelsOrdered(start, end, t', t', length);
    var x, y := AbsReal(RampLevel(start, end, t, length)), AbsReal(RampLevel(start, end, t', length));
    if x <= y { LoudnessOrdered(x, y); }
    if y <= x { LoudnessOrdered(y, x); }
  }
}
