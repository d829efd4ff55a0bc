/** `interpolate_points` of src/playback.rs: the sparse points of an effect become
    a dense schedule of keyframes, every boundary kept and the gaps filled along
    straight lines. Keyframes are represented as points. */
module Interpolation {
  import opened Effects
  import opened Lines
  import opened Translation

  const STEP_MS: nat := 25

  /** `saturating_sub` of the two times. */
  function Span(a: HapticPoint, b: HapticPoint): nat {
    if a.dtMs < b.dtMs then b.dtMs - a.dtMs else 0
  }

  /** How many keyframes go strictly inside a span. */
  function FillCount(span: nat): nat {
    if span == 0 then 0 else (span - 1) / STEP_MS
  }

  function FillPoint(a: HapticPoint, b: HapticPoint, k: nat): HapticPoint
    requires Span(a, b) > 0
  {
    HapticPoint(a.dtMs + STEP_MS * (k + 1), Line(a.intensity, b.intensity, Progress(STEP_MS * (k + 1), Span(a, b))))
  }

  function Fill(a: HapticPoint, b: HapticPoint): seq<HapticPoint> {
    seq(FillCount(Span(a, b)), k requires 0 <= k < FillCount(Span(a, b)) => FillPoint(a, b, k))
  }

  lemma FillTimes(a: HapticPoint, b: HapticPoint)
    ensures |Fill(a, b)| == FillCount(Span(a, b))
    ensures forall k :: 0 <= k < |Fill(a, b)| ==> Fill(a, b)[k].dtMs == a.dtMs + STEP_MS * (k + 1) < b.dtMs
  {
  }

  /** What boundary `j` adds: the keyframes leading up to it, then itself. */
  function Added(points: seq<HapticPoint>, j: nat): seq<HapticPoint>
    requires j < |points|
  {
    (if j == 0 then [] else Fill(points[j - 1], points[j])) + [points[j]]
  }

  /** The schedule of the first `n` boundaries. */
  function ScheduleTo(points: seq<HapticPoint>, n: nat): seq<HapticPoint>
    requires n <= |points|
  {
    if n == 0 then [] else ScheduleTo(points, n - 1) + Added(points, n - 1)
  }

  function Schedule(points: seq<HapticPoint>): seq<HapticPoint> {
    ScheduleTo(points, |points|)
  }

  /** The stepping time never passes the range of its 32-bit counter: it stops at
      the first step at or beyond the end of each span. */
  ghost predicate CounterFits(points: seq<HapticPoint>) {
    forall i :: 0 < i < |points| ==> CounterFitsAt(points, i)
  }

  predicate CounterFitsAt(points: seq<HapticPoint>, i: nat)
    requires 0 < i < |points|
  {
    SpanFits(points[i - 1], points[i])
  }

  predicate SpanFits(a: HapticPoint, b: HapticPoint) {
    Span(a, b) > 0 ==> a.dtMs + STEP_MS * (FillCount(Span(a, b)) + 1) <= U32_MAX
  }

  // ---- What 32-bit times make of it ----

  /** The times are 32-bit. */
  ghost predicate U32Times(points: seq<HapticPoint>) {
    forall i :: 0 <= i < |points| ==> points[i].dtMs <= U32_MAX
  }

  /** Stepping by 25 modulo 2^32 visits every time once; this many steps lead from
      `t` to `end`. The factor is the inverse of 25 modulo 2^32. */
  function StepsLeft(t: int, end: int): nat {
    Wrap32(3264175145 * (end - t))
  }

  lemma StepCountsDown(t: nat, end: nat)
    requires t < end <= U32_MAX
    ensures StepsLeft(Wrap32(t + STEP_MS), end) < StepsLeft(t, end)
  {
    var gap: int, wraps: int := end - t, if t + STEP_MS > U32_MAX then 1 else 0;
    assert 3264175145 * 25 == 19 * 0x1_0000_0000 + 1;
    assert Wrap32(t + STEP_MS) == t + STEP_MS - wraps * 0x1_0000_0000;
    var x: int := 3264175145 * gap;
    assert 3264175145 * (end - Wrap32(t + STEP_MS)) == x - 1 + (3264175145 * wraps - 19) * 0x1_0000_0000;
    OnlyWholeTurns(gap);
    OneLess(x, 3264175145 * wraps - 19);
  }

  lemma OnlyWholeTurns(gap: int)
    ensures Wrap32(3264175145 * gap) == 0 ==> Wrap32(gap) == 0
  {
    var x: int := 3264175145 * gap;
    if Wrap32(x) == 0 {
      var q: int := x / 0x1_0000_0000;
      assert gap == (25 * q - 19 * gap) * 0x1_0000_0000;
    }
  }

  lemma OneLess(x: int, k: int)
    requires Wrap32(x) != 0
    ensures Wrap32(x - 1 + k * 0x1_0000_0000) == Wrap32(x) - 1
  {
    assert x - 1 + k * 0x1_0000_0000 == (x / 0x1_0000_0000 + k) * 0x1_0000_0000 + (Wrap32(x) - 1);
  }

  function SteppedPoint(a: HapticPoint, b: HapticPoint, t: nat): HapticPoint
    requires Span(a, b) > 0
  {
    HapticPoint(t, a.intensity + Part(b.intensity - a.intensity, Progress(Wrap32(t - a.dtMs), Span(a, b))))
  }

  /** What the inner loop pushes from time `t` on: past the range of its counter it
      goes on from the wrapped time, until a time at or beyond the end comes up. */
  function Stepped(a: HapticPoint, b: HapticPoint, t: nat): seq<HapticPoint>
    requires Span(a, b) > 0
    decreases StepsLeft(t, b.dtMs)
  {
    if t < b.dtMs <= U32_MAX then
      StepCountsDown(t, b.dtMs);
      [SteppedPoint(a, b, t)] + Stepped(a, b, Wrap32(t + STEP_MS))
    else []
  }

  function SteppedFill(a: HapticPoint, b: HapticPoint): seq<HapticPoint> {
    if Span(a, b) > 0 then Stepped(a, b, Wrap32(a.dtMs + STEP_MS)) else []
  }

  function KeyframesTo(points: seq<HapticPoint>, n: nat): seq<HapticPoint>
    requires n <= |points|
  {
    if n == 0 then []
    else
      var filled := if n == 1 then [] else SteppedFill(points[n - 2], points[n - 1]);
      KeyframesTo(points, n - 1) + filled + [points[n - 1]]
  }

  /** The keyframes the daemon builds. */
  function Keyframes(points: seq<HapticPoint>): seq<HapticPoint> {
    KeyframesTo(points, |points|)
  }

  /** The loop of the daemon, for every list of 32-bit times: it ends, having built
      exactly the keyframes. */
  method InterpolatePoints(points: seq<HapticPoint>) returns (schedule: seq<HapticPoint>)
    requires U32Times(points)
    ensures schedule == Keyframes(points)
  {
    hide Part, Progress, KeyframesTo, Stepped, StepsLeft, Wrap32;
    schedule := [];
    NothingBuilt(points);
    var prev: Option<HapticPoint> := None;
    for i := 0 to |points|
      invariant schedule == KeyframesTo(points, i)
      invariant prev == if i == 0 then None else Some(points[i - 1])
    {
      var p := points[i];
      ghost var before := schedule;
      if prev.Some? {
        var a := prev.value;
        var span := if p.dtMs >= a.dtMs then p.dtMs - a.dtMs else 0;
        assert span == Span(a, p);
        if span > 0 {
          var t: nat := Wrap32(a.dtMs + STEP_MS);
          while t < p.dtMs
            invariant schedule + Stepped(a, p, t) == before + SteppedFill(a, p)
            decreases StepsLeft(t, p.dtMs)
          {
            var frac := Progress(Wrap32(t - a.dtMs), span);
            SteppedOnce(a, p, t);
            ghost var rest := Stepped(a, p, Wrap32(t + STEP_MS));
            assert schedule + ([SteppedPoint(a, p, t)] + rest) == schedule + [SteppedPoint(a, p, t)] + rest;
            schedule := schedule + [HapticPoint(t, a.intensity + Part(p.intensity - a.intensity, frac))];
            StepCountsDown(t, p.dtMs);
            t := Wrap32(t + STEP_MS);
          }
          SteppedDone(a, p, t);
        }
      }
      assert schedule == before + if i == 0 then [] else SteppedFill(points[i - 1], p);
      schedule := schedule + [p];
      prev := Some(p);
      KeyframesStep(points, i);
    }
  }

  lemma NothingBuilt(points: seq<HapticPoint>)
    ensures KeyframesTo(points, 0) == []
  {
  }

  lemma KeyframesStep(points: seq<HapticPoint>, i: nat)
    requires i < |points|
    ensures KeyframesTo(points, i + 1) ==
            KeyframesTo(points, i) + (if i == 0 then [] else SteppedFill(points[i - 1], points[i])) + [points[i]]
  {
  }

  lemma SteppedOnce(a: HapticPoint, b: HapticPoint, t: nat)
    requires Span(a, b) > 0 && t < b.dtMs <= U32_MAX
    ensures Stepped(a, b, t) == [SteppedPoint(a, b, t)] + Stepped(a, b, Wrap32(t + STEP_MS))
  {
  }

  lemma SteppedDone(a: HapticPoint, b: HapticPoint, t: nat)
    requires Span(a, b) > 0 && t >= b.dtMs
    ensures Stepped(a, b, t) == []
  {
  }

  /** From the `k`-th fill time on the loop pushes the rest of the fill, and more
      exactly if the time after the last leaves the range. */
  lemma {:induction false} SteppedFromFill(a: HapticPoint, b: HapticPoint, k: nat)
    requires Span(a, b) > 0 && b.dtMs <= U32_MAX && k <= FillCount(Span(a, b))
    ensures SpanFits(a, b) ==> Stepped(a, b, Wrap32(a.dtMs + STEP_MS * (k + 1))) == Fill(a, b)[k..]
    ensures !SpanFits(a, b) ==> |Stepped(a, b, Wrap32(a.dtMs + STEP_MS * (k + 1)))| > FillCount(Span(a, b)) - k
    decreases FillCount(Span(a, b)) - k
  {
    hide Part, Progress, Stepped;
    var t, n := a.dtMs + STEP_MS * (k + 1), FillCount(Span(a, b));
    StepInside(Span(a, b), k);
    if k < n {
      assert t < b.dtMs && Wrap32(t) == t && Wrap32(t - a.dtMs) == t - a.dtMs;
      SteppedFromFill(a, b, k + 1);
      SteppedOnce(a, b, t);
      FillTimes(a, b);
      assert t + STEP_MS == a.dtMs + STEP_MS * (k + 2);
      assert Fill(a, b)[k..] == [Fill(a, b)[k]] + Fill(a, b)[k + 1..];
    } else if t <= U32_MAX {
      SteppedDone(a, b, t);
    } else {
      assert Wrap32(t) == t - 0x1_0000_0000 < b.dtMs;
      SteppedOnce(a, b, Wrap32(t));
    }
  }

  lemma SteppedFillExact(a: HapticPoint, b: HapticPoint)
    requires b.dtMs <= U32_MAX
    ensures SpanFits(a, b) ==> SteppedFill(a, b) == Fill(a, b)
    ensures !SpanFits(a, b) ==> |SteppedFill(a, b)| > |Fill(a, b)|
  {
    hide Stepped;
    FillTimes(a, b);
    if Span(a, b) > 0 {
      SteppedFromFill(a, b, 0);
      assert Fill(a, b)[0..] == Fill(a, b);
    }
  }

  lemma {:induction false} KeyframesToExact(points: seq<HapticPoint>, n: nat)
    requires U32Times(points) && n <= |points|
    ensures |KeyframesTo(points, n)| >= |ScheduleTo(points, n)|
    ensures (forall i :: 0 < i < n ==> CounterFitsAt(points, i)) ==> KeyframesTo(points, n) == ScheduleTo(points, n)
    ensures KeyframesTo(points, n) == ScheduleTo(points, n) ==> forall i :: 0 < i < n ==> CounterFitsAt(points, i)
  {
    hide Fill, SteppedFill, SpanFits;
    if n > 0 {
      KeyframesToExact(points, n - 1);
      var built := if n == 1 then [] else SteppedFill(points[n - 2], points[n - 1]);
      var fill := if n == 1 then [] else Fill(points[n - 2], points[n - 1]);
      if n > 1 { SteppedFillExact(points[n - 2], points[n - 1]); }
      assert KeyframesTo(points, n) == KeyframesTo(points, n - 1) + built + [points[n - 1]];
      assert ScheduleTo(points, n) == ScheduleTo(points, n - 1) + (fill + [points[n - 1]]);
      hide KeyframesTo, ScheduleTo;
      SameParts(KeyframesTo(points, n - 1), built, ScheduleTo(points, n - 1), fill, points[n - 1]);
      assert n > 1 ==> (built == fill <==> CounterFitsAt(points, n - 1));
    }
  }

  lemma SameParts<T>(a: seq<T>, b: seq<T>, a': seq<T>, b': seq<T>, last: T)
    requires |a| >= |a'| && |b| >= |b'|
    ensures a + b + [last] == a' + (b' + [last]) <==> a == a' && b == b'
  {
    if a + b + [last] == a' + (b' + [last]) {
      var whole := a + b + [last];
      assert |a| == |a'|;
      assert a == whole[..|a|] && a' == (a' + (b' + [last]))[..|a|];
      assert b == whole[|a|..|a| + |b|] && b' == (a' + (b' + [last]))[|a|..|a| + |b|];
    }
  }

  /** The daemon's keyframes are the schedule exactly when the counter keeps
      within its range. */
  lemma KeyframesExact(points: seq<HapticPoint>)
    requires U32Times(points)
    ensures Keyframes(points) == Schedule(points) <==> CounterFits(points)
  {
    KeyframesToExact(points, |points|);
  }

  lemma StepInside(span: nat, k: nat)
    requires span > 0
    ensures STEP_MS * (k + 1) < span <==> k < FillCount(span)
  {
  }

  // ---- Boundaries are kept ----

  /** Where boundary `j` lands in the schedule. */
  function Position(points: seq<HapticPoint>, j: nat): int
    requires j < |points|
  {
    |ScheduleTo(points, j + 1)| - 1
  }

  lemma {:induction false} ScheduleGrows(points: seq<HapticPoint>, i: nat, j: nat)
    requires i <= j <= |points|
    ensures ScheduleTo(points, i) <= ScheduleTo(points, j)
  {
    hide Added;
    if i < j {
      ScheduleGrows(points, i, j - 1);
    }
  }

  lemma Between<T>(whole: seq<T>, before: seq<T>, middle: seq<T>, last: T)
    requires before + (middle + [last]) <= whole
    ensures |before| + |middle| < |whole|
    ensures whole[|before|..|before| + |middle|] == middle && whole[|before| + |middle|] == last
    ensures before != [] ==> whole[|before| - 1] == before[|before| - 1]
  {
    var taken := before + (middle + [last]);
    assert taken[|before|..|before| + |middle|] == middle;
  }

  /** The segment between boundaries `j - 1` and `j`, keyframe by keyframe. */
  lemma SegmentLayout(points: seq<HapticPoint>, j: nat)
    requires 0 < j < |points|
    ensures 0 <= Position(points, j - 1)
    ensures Position(points, j) == Position(points, j - 1) + FillCount(Span(points[j - 1], points[j])) + 1
    ensures Position(points, j) < |Schedule(points)|
    ensures Schedule(points)[Position(points, j - 1)] == points[j - 1]
    ensures Schedule(points)[Position(points, j)] == points[j]
    ensures Schedule(points)[Position(points, j - 1) + 1..Position(points, j)] == Fill(points[j - 1], points[j])
  {
    hide Fill, FillCount, ScheduleTo, Added;
    ScheduleGrows(points, j + 1, |points|);
    FillTimes(points[j - 1], points[j]);
    LastBoundary(points, j);
    LastBoundary(points, j - 1);
    hide Span;
    Between(Schedule(points), ScheduleTo(points, j), Fill(points[j - 1], points[j]), points[j]);
  }

  lemma LastBoundary(points: seq<HapticPoint>, j: nat)
    requires j < |points|
    ensures var s := ScheduleTo(points, j + 1);
            && s == ScheduleTo(points, j) +
                    (if j == 0 then [points[j]] else Fill(points[j - 1], points[j]) + [points[j]])
            && s != [] && s[|s| - 1] == points[j]
  {
    hide Fill;
  }

  lemma FirstBoundary(points: seq<HapticPoint>)
    requires points != []
    ensures Position(points, 0) == 0 < |Schedule(points)| && Schedule(points)[0] == points[0]
  {
    hide Fill;
    ScheduleGrows(points, 1, |points|);
  }

  /** Every boundary is in the schedule, in order: the points are a subsequence. */
  lemma {:induction false} BoundariesKept(points: seq<HapticPoint>, i: nat, j: nat)
    requires i <= j < |points|
    ensures 0 <= Position(points, i) <= Position(points, j) < |Schedule(points)|
    ensures i < j ==> Position(points, i) < Position(points, j)
    ensures Schedule(points)[Position(points, i)] == points[i]
    ensures Schedule(points)[Position(points, j)] == points[j]
    decreases j
  {
    hide Position, Schedule;
    if j == 0 {
      FirstBoundary(points);
    } else {
      SegmentLayout(points, j);
      if i < j {
        BoundariesKept(points, i, j - 1);
      }
    }
  }

  /** Every keyframe belongs to a segment: it is the first boundary, or lies
      after boundary `j - 1` and no later than boundary `j`. */
  lemma {:induction false} SegmentOf(points: seq<HapticPoint>, n: nat, m: nat) returns (j: nat)
    requires n <= |points| && m < |ScheduleTo(points, n)|
    ensures j < n
    ensures j == 0 ==> m == 0
    ensures j > 0 ==> Position(points, j - 1) < m <= Position(points, j)
  {
    hide Added;
    if n == 1 || m > Position(points, n - 2) {
      j := n - 1;
      if n == 1 { FirstAlone(points); }
    } else {
      j := SegmentOf(points, n - 1, m);
    }
  }

  lemma FirstAlone(points: seq<HapticPoint>)
    requires points != []
    ensures |ScheduleTo(points, 1)| == 1
  {
  }

  // ---- Keyframes are on the line ----

  /** `p` is on the closed straight segment from `a` to `b`. */
  ghost predicate OnSegment(a: HapticPoint, b: HapticPoint, p: HapticPoint) {
    && a.dtMs <= p.dtMs <= b.dtMs
    && (p.intensity - a.intensity) * (b.dtMs - a.dtMs) as real ==
            (b.intensity - a.intensity) * (p.dtMs - a.dtMs) as real
    && (a.intensity <= p.intensity <= b.intensity || b.intensity <= p.intensity <= a.intensity)
  }

  lemma CrossMultiplied(x: real, t: nat, span: nat)
    requires 0 < span
    ensures Part(x, Progress(t, span)) * span as real == x * t as real
  {
    assert Progress(t, span) * span as real == t as real;
    assert Part(x, Progress(t, span)) * span as real == x * (Progress(t, span) * span as real);
  }

  lemma FillOnSegment(a: HapticPoint, b: HapticPoint, k: nat)
    requires k < FillCount(Span(a, b))
    ensures OnSegment(a, b, FillPoint(a, b, k))
    ensures a.dtMs < FillPoint(a, b, k).dtMs < b.dtMs
  {
    var t, span := STEP_MS * (k + 1), Span(a, b);
    assert t < span;
    ProgressOrdered(t, span, span);
    LineOrdered(a.intensity, b.intensity, Progress(t, span), 1.0);
    CrossMultiplied(b.intensity - a.intensity, t, span);
  }

  ghost predicate Sorted(points: seq<HapticPoint>) {
    forall i, j :: 0 <= i < j < |points| ==> points[i].dtMs <= points[j].dtMs
  }

  /** Interpolation refines piecewise-linear playback: between consecutive
      boundaries every keyframe, and so every line between keyframes, is on the
      straight segment the two boundaries span. */
  lemma ScheduleFollowsTheLine(points: seq<HapticPoint>, j: nat, m: nat)
    requires 0 < j < |points| && points[j - 1].dtMs < points[j].dtMs
    requires Position(points, j - 1) <= m <= Position(points, j)
    ensures m < |Schedule(points)|
    ensures OnSegment(points[j - 1], points[j], Schedule(points)[m])
  {
    hide Line, Progress, ScheduleTo;
    SegmentLayout(points, j);
    var p, a, b := Position(points, j - 1), points[j - 1], points[j];
    if p < m < Position(points, j) {
      assert Schedule(points)[m] == Schedule(points)[p + 1..Position(points, j)][m - p - 1];
      FillOnSegment(a, b, m - p - 1);
    }
  }

  // ---- Gaps and times ----

  /** No gap is longer than one step, however the points are ordered. */
  ghost predicate SmallGaps(points: seq<HapticPoint>) {
    forall i :: 0 < i < |points| ==> SmallGapAt(points, i)
  }

  predicate SmallGapAt(points: seq<HapticPoint>, i: nat)
    requires 0 < i < |points|
  {
    Span(points[i - 1], points[i]) <= STEP_MS
  }

  lemma ScheduleGaps(points: seq<HapticPoint>)
    ensures SmallGaps(Schedule(points))
    ensures Sorted(points) ==> Sorted(Schedule(points))
  {
    var s := Schedule(points);
    forall m | 0 < m < |s|
      ensures SmallGapAt(s, m)
      ensures Sorted(points) ==> RisesAt(s, m)
    {
      StepBetweenKeyframes(points, m);
    }
    if Sorted(points) {
      AdjacentSorted(s);
    }
  }

  lemma KeyframeTime(points: seq<HapticPoint>, j: nat, m: nat)
    requires 0 < j < |points|
    requires Position(points, j - 1) <= m <= Position(points, j)
    ensures m < |Schedule(points)|
    ensures Schedule(points)[m].dtMs ==
            if m < Position(points, j) then points[j - 1].dtMs + STEP_MS * (m - Position(points, j - 1))
                    else points[j].dtMs
  {
    hide Fill, ScheduleTo;
    SegmentLayout(points, j);
    FillTimes(points[j - 1], points[j]);
    var p := Position(points, j - 1);
    if p < m < Position(points, j) {
      assert Schedule(points)[m] == Schedule(points)[p + 1..Position(points, j)][m - p - 1];
    }
  }

  lemma StepBetweenKeyframes(points: seq<HapticPoint>, m: nat)
    requires 0 < m < |Schedule(points)|
    ensures SmallGapAt(Schedule(points), m)
    ensures Sorted(points) ==> RisesAt(Schedule(points), m)
  {
    hide Fill, ScheduleTo;
    var j := SegmentOf(points, |points|, m);
    SegmentLayout(points, j);
    FillTimes(points[j - 1], points[j]);
    KeyframeTime(points, j, m);
    KeyframeTime(points, j, m - 1);
    if Sorted(points) { assert points[j - 1].dtMs <= points[j].dtMs; }
  }

  lemma {:induction false} AdjacentSorted(points: seq<HapticPoint>)
    requires forall i :: 0 < i < |points| ==> RisesAt(points, i)
    ensures Sorted(points)
  {
    if |points| > 1 {
      var n := |points| - 1;
      var init := points[..n];
      forall i | 0 < i < n
        ensures RisesAt(init, i)
      {
        assert RisesAt(points, i);
      }
      AdjacentSorted(init);
      assert RisesAt(points, n);
      forall i, j | 0 <= i < j < |points|
        ensures points[i].dtMs <= points[j].dtMs
      {
        assert points[i].dtMs <= points[n - 1].dtMs by {
          if i < n - 1 { assert init[i].dtMs <= init[n - 1].dtMs; }
        }
        if j < n { assert init[i].dtMs <= init[j].dtMs; }
      }
    }
  }

  predicate RisesAt(points: seq<HapticPoint>, i: nat)
    requires 0 < i < |points|
  {
    points[i - 1].dtMs <= points[i].dtMs
  }

  /** One keyframe per point plus one per whole step strictly inside each span. */
  function KeyframeCount(points: seq<HapticPoint>, n: nat): nat
    requires n <= |points|
  {
    if n <= 1 then n
    else
      var span := points[n - 1].dtMs - points[n - 2].dtMs;
      KeyframeCount(points, n - 1) + 1 + if span > 0 then (span + STEP_MS - 1) / STEP_MS - 1 else 0
  }

  lemma {:induction false} ScheduleLength(points: seq<HapticPoint>, n: nat)
    requires n <= |points|
    ensures |ScheduleTo(points, n)| == KeyframeCount(points, n)
  {
    hide Fill;
    if n > 0 {
      ScheduleLength(points, n - 1);
      if n > 1 { FillTimes(points[n - 2], points[n - 1]); }
    }
  }

  // ---- Idempotence ----

  /** Points already at most one step apart are left alone. */
  lemma {:induction false} DenseUnchanged(points: seq<HapticPoint>, n: nat)
    requires SmallGaps(points) && n <= |points|
    ensures ScheduleTo(points, n) == points[..n]
  {
    hide Fill;
    if n > 0 {
      DenseUnchanged(points, n - 1);
      if n > 1 {
        assert SmallGapAt(points, n - 1);
        FillTimes(points[n - 2], points[n - 1]);
      }
    }
  }

  lemma InterpolationIdempotent(points: seq<HapticPoint>)
    ensures Schedule(Schedule(points)) == Schedule(points)
  {
    ScheduleGaps(points);
    DenseUnchanged(Schedule(points), |Schedule(points)|);
  }

  /** A schedule the counter could build can be interpolated again. */
  lemma CounterFitsAgain(points: seq<HapticPoint>)
    requires CounterFits(points)
    ensures CounterFits(Schedule(points))
  {
    hide Fill, ScheduleTo;
    var s := Schedule(points);
    forall m | 0 < m < |s|
      ensures CounterFitsAt(s, m)
    {
      var j := SegmentOf(points, |points|, m);
      SegmentLayout(points, j);
      StepBetweenKeyframes(points, m);
      KeyframeTime(points, j, m - 1);
      assert CounterFitsAt(points, j) && SmallGapAt(s, m);
    }
  }

  // ---- Schedules of translated effects ----

  lemma TranslationFitsCounter(sine: SineFn, effect: FfEffect)
    ensures CounterFits(Translate(sine, effect))
  {
    if Known(effect) {
      TranslationShape(sine, effect);
      var points := Translate(sine, effect);
      forall i | 0 < i < |points|
        ensures CounterFitsAt(points, i)
      {
        assert points[i].dtMs <= points[|points| - 1].dtMs;
      }
    } else {
      EmptyExactlyWhenUnknown(sine, effect);
    }
  }

  /** No effect comes near the range of the counter. */
  lemma TranslationKeyframes(sine: SineFn, effect: FfEffect)
    ensures U32Times(Translate(sine, effect)) && Keyframes(Translate(sine, effect)) == Schedule(Translate(sine, effect))
  {
    TranslationFitsCounter(sine, effect);
    if Known(effect) { TranslationShape(sine, effect); } else { EmptyExactlyWhenUnknown(sine, effect); }
    var points := Translate(sine, effect);
    hide Translate, CounterFits;
    forall i | 0 <= i < |points| ensures points[i].dtMs <= U32_MAX {
      assert points[i].dtMs <= points[|points| - 1].dtMs;
    }
    KeyframesExact(points);
  }

  /** The compiler's second stage leaves every sampled effect untouched. */
  lemma SampledEffectsUnchanged(sine: SineFn, effect: FfEffect)
    requires effect.kind in {FF_CONSTANT, FF_PERIODIC, FF_RAMP}
    ensures Schedule(Translate(sine, effect)) == Translate(sine, effect)
  {
    TranslationShape(sine, effect);
    var points := Translate(sine, effect);
    forall i | 0 < i < |points|
      ensures SmallGapAt(points, i)
    {
      assert DenseAt(points, i);
    }
    DenseUnchanged(points, |points|);
  }

  /** A rumble becomes a straight descent to zero: a keyframe every 25 ms and one
      at the end, each lowered in proportion to the time gone by. */
  lemma RumbleDescends(sine: SineFn, effect: FfEffect, k: nat)
    requires effect.kind == FF_RUMBLE && effect.replayLength > 0
    requires k < |Schedule(Translate(sine, effect))|
    ensures var s, n := Schedule(Translate(sine, effect)), effect.replayLength;
            var strength := RumbleIntensity(effect.u[0], effect.u[1]);
            && |s| == (n + 24) / 25 + 1
            && s[k].dtMs == (if k < |s| - 1 then 25 * k else n)
            && s[k].intensity * n as real == strength * (n - s[k].dtMs) as real
            && (k > 0 ==> s[k].intensity <= s[k - 1].intensity)
  {
    hide ScheduleTo;
    var points := Translate(sine, effect);
    RumbleKeyframe(points, k);
    if k > 0 {
      RumbleKeyframe(points, k - 1);
      var s, n, strength := Schedule(points), points[1].dtMs, points[0].intensity;
      PartOrdered(strength, (n - s[k].dtMs) as real, (n - s[k - 1].dtMs) as real);
      if s[k].intensity > s[k - 1].intensity {
        PartStrict(s[k - 1].intensity, s[k].intensity, n as real);
      }
    }
  }

  lemma RumbleKeyframe(points: seq<HapticPoint>, k: nat)
    requires |points| == 2 && points[0].dtMs == 0 < points[1].dtMs && points[1].intensity == 0.0
    requires k < |Schedule(points)|
    ensures |Schedule(points)| == FillCount(points[1].dtMs) + 2
    ensures Schedule(points)[k].dtMs ==
            (if k < |Schedule(points)| - 1 then 25 * k else points[1].dtMs) <= points[1].dtMs
    ensures Schedule(points)[k].intensity * points[1].dtMs as real
            == points[0].intensity * (points[1].dtMs - Schedule(points)[k].dtMs) as real
  {
    hide Fill, ScheduleTo;
    FirstBoundary(points);
    SegmentLayout(points, 1);
    KeyframeTime(points, 1, k);
    ScheduleFollowsTheLine(points, 1, k);
  }
}
