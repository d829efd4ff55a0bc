/** The kernel probe of linux-game-haptics-router-ebpf/src/main.rs as a
    transition system. Threads interleave at will; every read, map update and
    reservation may fail, and the scratch map may evict any entry at any time. */
module ProbeModel {
  import opened Effects

  /** `tgid << 32 | pid`. */
  datatype Thread = Thread(tgid: DWord, pid: DWord)

  /** The 30 bytes read from the kernel's effect structure. */
  type Raw = b: seq<Byte> | |b| == 30
    witness [0, 0, 0, 0, 0, 0, 0, 0, 0, 0, 0, 0, 0, 0, 0, 0, 0, 0, 0, 0, 0, 0, 0, 0, 0, 0, 0, 0, 0, 0]

  const EVIOCSFF: DWord := 0x4000_0000 + 48 * 0x1_0000 + 0x45 * 0x100 + 0x80
  const EVIOCRMFF: DWord := 0x4000_0000 + 4 * 0x1_0000 + 0x45 * 0x100 + 0x81

  datatype EnterScratch = EnterScratch(ptr: nat, effect: FfEffect)

  datatype ProbeEvent =
    | Uploaded(tgid: DWord, effectId: Short, effect: FfEffect)
    | Erased(tgid: DWord, effectId: Short)

  datatype ProbeState = ProbeState(scratch: map<Thread, EnterScratch>, events: seq<ProbeEvent>)

  datatype ProbeStep =
    /** An ioctl is entered with two registers, `None` for one that cannot be
        read; `structs` is what a 30-byte read at each readable address gives. */
    | Enter(thread: Thread, cmd: Option<nat>, arg: Option<nat>, structs: map<nat, Raw>, inserted: bool, reserved: bool)
    /** An ioctl returns; `pairs` is what a 2-byte read at each readable address gives. */
    | Exit(thread: Thread, pairs: map<nat, (Byte, Byte)>, stored: bool, reserved: bool)
    | Evict(thread: Thread)

  function WordAt(raw: Raw, off: nat): Word
    requires off < 29
  {
    var lo: int, hi: int := raw[off], raw[off + 1];
    lo + 0x100 * hi
  }

  /** The fields at their kernel offsets; the id is filled in at exit. */
  function ParseEffect(raw: Raw): FfEffect {
    FfEffect(WordAt(raw, 0), 0, WordAt(raw, 4), WordAt(raw, 6), WordAt(raw, 8), WordAt(raw, 10), WordAt(raw, 12),
             [WordAt(raw, 16), WordAt(raw, 18), WordAt(raw, 20), WordAt(raw, 22), WordAt(raw, 24),
              WordAt(raw, 26), WordAt(raw, 28)])
  }

  function IdFrom(bytes: (Byte, Byte)): Short {
    var lo: int, hi: int := bytes.0, bytes.1;
    Wrap16(lo + 0x100 * hi)
  }

  function Report(events: seq<ProbeEvent>, e: ProbeEvent, reserved: bool): seq<ProbeEvent> {
    if reserved then events + [e] else events
  }

  /** The command register is cut to 32 bits. */
  function Low32(register: nat): DWord {
    register % 0x1_0000_0000
  }

  function Captured(step: ProbeStep): EnterScratch
    requires step.Enter? && step.arg.Some? && step.arg.value in step.structs
  {
    EnterScratch(step.arg.value, ParseEffect(step.structs[step.arg.value]))
  }

  function StepEnter(s: ProbeState, step: ProbeStep): ProbeState
    requires step.Enter?
  {
    if step.cmd.None? then s
    else if Low32(step.cmd.value) == EVIOCRMFF then
      if step.arg.None? then s
      else s.(events := Report(s.events, Erased(step.thread.tgid, Wrap16(step.arg.value)), step.reserved))
    else if Low32(step.cmd.value) != EVIOCSFF then s
    else if step.arg.None? || step.arg.value !in step.structs || !step.inserted then s
    else s.(scratch := s.scratch[step.thread := Captured(step)])
  }

  function UploadOf(th: Thread, scratch: EnterScratch, idBytes: (Byte, Byte)): ProbeEvent {
    Uploaded(th.tgid, IdFrom(idBytes), scratch.effect.(id := IdFrom(idBytes)))
  }

  function StepExit(s: ProbeState, step: ProbeStep): ProbeState
    requires step.Exit?
  {
    if step.thread !in s.scratch then s
    else
      var scratch := s.scratch[step.thread];
      if scratch.ptr + 2 !in step.pairs || !step.stored then s
      else s.(scratch := s.scratch - {step.thread},
              events := Report(s.events, UploadOf(step.thread, scratch, step.pairs[scratch.ptr + 2]), step.reserved))
  }

  function Next(s: ProbeState, step: ProbeStep): ProbeState {
    match step
    case Enter(_, _, _, _, _, _) => StepEnter(s, step)
    case Exit(_, _, _, _) => StepExit(s, step)
    case Evict(thread) => s.(scratch := s.scratch - {thread})
  }

  function Attached(): ProbeState {
    ProbeState(map[], [])
  }

  function Trace(run: seq<ProbeStep>): ProbeState {
    if run == [] then Attached() else Next(Trace(run[..|run| - 1]), run[|run| - 1])
  }

  // ---- Reading a run ----

  /** The step captures an upload of the thread. */
  predicate Captures(step: ProbeStep, th: Thread) {
    && step.Enter? && step.thread == th && step.cmd.Some? && Low32(step.cmd.value) == EVIOCSFF
    && step.arg.Some? && step.arg.value in step.structs && step.inserted
  }

  /** The exit of the thread completes the upload captured at `ptr`. */
  predicate ReadsBack(step: ProbeStep, th: Thread, ptr: nat) {
    step.Exit? && step.thread == th && ptr + 2 in step.pairs && step.stored
  }

  /** Step `i` is the thread's last capture, not yet used up or evicted. */
  ghost predicate CapturedSince(run: seq<ProbeStep>, th: Thread, i: nat) {
    && i < |run| && Captures(run[i], th)
    && forall j :: i < j < |run| ==>
         !Captures(run[j], th) && !ReadsBack(run[j], th, run[i].arg.value) && run[j] != Evict(th)
  }

  lemma CapturedSinceStep(run: seq<ProbeStep>, step: ProbeStep, th: Thread, i: nat)
    ensures CapturedSince(run + [step], th, i) <==>
            if i == |run| then Captures(step, th)
            else CapturedSince(run, th, i) && !Captures(step, th) && !ReadsBack(step, th, run[i].arg.value)
                    && step != Evict(th)
  {
    var longer := run + [step];
    assert longer[|run|] == step;
    assert forall j :: 0 <= j < |run| ==> longer[j] == run[j];
  }

  lemma ScratchAfter(s: ProbeState, step: ProbeStep, th: Thread)
    ensures th in Next(s, step).scratch <==>
            Captures(step, th) || (th in s.scratch && !ReadsBack(step, th, s.scratch[th].ptr) && step != Evict(th))
    ensures th in Next(s, step).scratch ==>
            Next(s, step).scratch[th] == if Captures(step, th) then Captured(step) else s.scratch[th]
  {
    hide ParseEffect, IdFrom, Report;
  }

  lemma CapturedSinceCaptures(run: seq<ProbeStep>, th: Thread, i: nat)
    requires CapturedSince(run, th, i)
    ensures i < |run| && Captures(run[i], th) && run[i].Enter? && run[i].arg.Some? && run[i].arg.value in run[i].structs
  {
  }

  /** The scratch map holds exactly the captures that are still open. */
  lemma {:induction false} ScratchReadsOffRun(run: seq<ProbeStep>, th: Thread)
    ensures th in Trace(run).scratch <==> exists i: nat :: CapturedSince(run, th, i)
    ensures forall i: nat :: CapturedSince(run, th, i) ==> Trace(run).scratch[th] == Captured(run[i])
  {
    hide ParseEffect, IdFrom, Report, Low32;
    if run != [] {
      var init, step := run[..|run| - 1], run[|run| - 1];
      assert run == init + [step];
      ScratchReadsOffRun(init, th);
      ScratchAfter(Trace(init), step, th);
      hide Next, Captures, ReadsBack, CapturedSince;
      forall i: nat | CapturedSince(run, th, i)
        ensures th in Trace(run).scratch && Trace(run).scratch[th] == Captured(run[i])
      {
        CapturedSinceStep(init, step, th, i);
        if i < |init| { CapturedSinceCaptures(init, th, i); }
      }
      if th in Trace(run).scratch {
        CapturedSinceStep(init, step, th, |init|);
        if i: nat :| CapturedSince(init, th, i) {
          CapturedSinceStep(init, step, th, i);
          CapturedSinceCaptures(init, th, i);
        }
      }
    }
  }

  // ---- Pairing ----

  /** What the last step of a run reported. */
  function LastReport(run: seq<ProbeStep>): seq<ProbeEvent>
    requires run != []
  {
    var before, after := Trace(run[..|run| - 1]).events, Trace(run).events;
    if |before| <= |after| then after[|before|..] else []
  }

  ghost predicate CompletesCapture(init: seq<ProbeStep>, step: ProbeStep, i: nat) {
    step.Exit? && CapturedSince(init, step.thread, i) && ReadsBack(step, step.thread, init[i].arg.value)
  }

  /** Every upload is reported at an exit of a thread, carries the payload of that
      thread's most recent successful capture, and its effect has the id the
      kernel assigned; and an exit reports exactly when such a capture is open
      and nothing fails. */
  lemma UploadsPairCaptures(run: seq<ProbeStep>)
    requires run != [] && run[|run| - 1].Exit?
    ensures var init, step := run[..|run| - 1], run[|run| - 1];
            && |LastReport(run)| <= 1
            && (LastReport(run) != [] <==> step.reserved && exists i: nat :: CompletesCapture(init, step, i))
            && (forall i: nat :: LastReport(run) != [] && CapturedSince(init, step.thread, i) ==>
                  var ptr := init[i].arg.value;
                  && ptr + 2 in step.pairs
                  && var id := IdFrom(step.pairs[ptr + 2]);
                     LastReport(run) == [Uploaded(step.thread.tgid, id, ParseEffect(init[i].structs[ptr]).(id := id))])
  {
    var init, step := run[..|run| - 1], run[|run| - 1];
    hide Trace, ParseEffect, IdFrom;
    ScratchReadsOffRun(init, step.thread);
    LastReportOfExit(run);
    if i: nat :| CapturedSince(init, step.thread, i) {
      assert ReadsBack(step, step.thread, init[i].arg.value) <==> CompletesCapture(init, step, i);
    }
  }

  /** An enter, by the numbers: 0x40044581 is reported at once as an erase, under
      the low sixteen bits of its argument, unless the argument cannot be read or
      the buffer is full; no other enter reports anything. */
  lemma ErasesReported(run: seq<ProbeStep>, id: Short)
    requires run != [] && run[|run| - 1].Enter?
    requires var step := run[|run| - 1]; step.arg.Some? ==> (step.arg.value - id) % 0x1_0000 == 0
    ensures var step := run[|run| - 1];
            LastReport(run) ==
            if step.cmd.Some? && step.cmd.value % 0x1_0000_0000 == 0x40044581 && step.arg.Some? && step.reserved
            then [Erased(step.thread.tgid, id)]
            else []
    ensures Trace(run).events == Trace(run[..|run| - 1]).events + LastReport(run)
  {
    var step := run[|run| - 1];
    TraceLast(run);
    EnterErases(Trace(run[..|run| - 1]), step);
    LastReportIs(run, EraseOf(step));
    if step.arg.Some? { Wrap16Exact(step.arg.value, id); }
    hide Trace, Next, LastReport, Wrap16;
  }

  /** 0x40304580 captures the structure its argument points to for the thread,
      unless a read or the insertion fails; no other enter touches a capture. */
  lemma CapturesStored(run: seq<ProbeStep>)
    requires run != [] && run[|run| - 1].Enter?
    ensures var before, step := Trace(run[..|run| - 1]).scratch, run[|run| - 1];
            Trace(run).scratch ==
            if step.cmd.Some? && step.cmd.value % 0x1_0000_0000 == 0x40304580 && step.inserted
               && step.arg.Some? && step.arg.value in step.structs
            then before[step.thread := EnterScratch(step.arg.value, ParseEffect(step.structs[step.arg.value]))]
            else before
  {
    TraceLast(run);
    hide Trace, ParseEffect;
  }

  /** The erase an enter reports, if any. */
  function EraseOf(step: ProbeStep): seq<ProbeEvent>
    requires step.Enter?
  {
    if step.cmd.Some? && step.cmd.value % 0x1_0000_0000 == 0x40044581 && step.arg.Some? && step.reserved
    then [Erased(step.thread.tgid, Wrap16(step.arg.value))]
    else []
  }

  lemma TraceLast(run: seq<ProbeStep>)
    requires run != []
    ensures Trace(run) == Next(Trace(run[..|run| - 1]), run[|run| - 1])
  {
    hide Next;
  }

  lemma EnterErases(s: ProbeState, step: ProbeStep)
    requires step.Enter?
    ensures Next(s, step).events == s.events + EraseOf(step)
  {
    hide ParseEffect, Wrap16;
    assert s.events + [] == s.events;
  }

  lemma LastReportIs(run: seq<ProbeStep>, events: seq<ProbeEvent>)
    requires run != [] && Trace(run).events == Trace(run[..|run| - 1]).events + events
    ensures LastReport(run) == events
  {
    hide Trace;
  }

  /** Nothing reported is ever taken back, and a vanishing entry reports nothing. */
  lemma ReportsAccumulate(run: seq<ProbeStep>)
    requires run != []
    ensures Trace(run).events == Trace(run[..|run| - 1]).events + LastReport(run)
    ensures run[|run| - 1].Evict? ==> LastReport(run) == []
  {
    var s, step := Trace(run[..|run| - 1]), run[|run| - 1];
    TraceLast(run);
    OnlyAdded(s, step);
    hide *;
    Remainder(s.events, Next(s, step).events);
    LastReportIs(run, Next(s, step).events[|s.events|..]);
  }

  lemma Remainder<T>(a: seq<T>, b: seq<T>)
    requires a <= b
    ensures b == a + b[|a|..]
    ensures a == b ==> b[|a|..] == []
  {
  }

  lemma OnlyAdded(s: ProbeState, step: ProbeStep)
    ensures s.events <= Next(s, step).events
    ensures step.Evict? ==> Next(s, step).events == s.events
  {
    hide ParseEffect, Wrap16, IdFrom;
  }

  lemma LastReportOfExit(run: seq<ProbeStep>)
    requires run != [] && run[|run| - 1].Exit?
    ensures var s, step := Trace(run[..|run| - 1]), run[|run| - 1];
            var th := step.thread;
            if th in s.scratch && ReadsBack(step, th, s.scratch[th].ptr) && step.reserved then
              LastReport(run) == [UploadOf(th, s.scratch[th], step.pairs[s.scratch[th].ptr + 2])]
            else
              LastReport(run) == []
  {
  }

  /** Uploads are reported at exits only, and erases at enters only. */
  lemma ReportsByKind(run: seq<ProbeStep>, e: ProbeEvent)
    requires run != [] && e in LastReport(run)
    ensures e.Uploaded? ==> run[|run| - 1].Exit? && e.tgid == run[|run| - 1].thread.tgid
    ensures e.Erased? ==> run[|run| - 1].Enter? && run[|run| - 1].cmd.Some?
                          && Low32(run[|run| - 1].cmd.value) == EVIOCRMFF && run[|run| - 1].arg.Some?
                          && e == Erased(run[|run| - 1].thread.tgid, Wrap16(run[|run| - 1].arg.value))
  {
  }

  /** The promise the router relies on. */
  ghost predicate IdsMatch(events: seq<ProbeEvent>) {
    forall k :: 0 <= k < |events| && events[k].Uploaded? ==> events[k].effect.id == events[k].effectId
  }

  lemma {:induction false} EventIdsMatch(run: seq<ProbeStep>)
    ensures IdsMatch(Trace(run).events)
  {
    if run != [] {
      EventIdsMatch(run[..|run| - 1]);
    }
  }

  /** Every reported upload was completed at an exit of a thread, which read the
      id back through the pointer of that thread's last capture and reported the
      effect captured there. */
  lemma {:induction false} UploadsWereCaptured(run: seq<ProbeStep>, k: nat) returns (i: nat, m: nat)
    requires k < |Trace(run).events| && Trace(run).events[k].Uploaded?
    ensures m < |run| && CompletesCapture(run[..m], run[m], i)
    ensures Trace(run).events[k] == UploadOf(run[m].thread, Captured(run[i]), run[m].pairs[run[i].arg.value + 2])
  {
    hide ParseEffect, IdFrom;
    var init, step := run[..|run| - 1], run[|run| - 1];
    if k < |Trace(init).events| {
      i, m := UploadsWereCaptured(init, k);
      assert init[..m] == run[..m];
    } else {
      ScratchReadsOffRun(init, step.thread);
      i, m :| m == |run| - 1 && CapturedSince(init, step.thread, i);
    }
  }

  // ---- Counting ----

  function CaptureCount(run: seq<ProbeStep>, th: Thread): nat {
    if run == [] then 0
    else CaptureCount(run[..|run| - 1], th) + if Captures(run[|run| - 1], th) then 1 else 0
  }

  /** The uploads reported for the thread. */
  function UploadCount(run: seq<ProbeStep>, th: Thread): nat {
    if run == [] then 0
    else
      var step := run[|run| - 1];
      UploadCount(run[..|run| - 1], th) + if step.Exit? && step.thread == th then |LastReport(run)| else 0
  }

  /** However reads fail and entries vanish, a thread never has more uploads
      reported than captured: an open capture is one still to be reported. */
  lemma {:induction false} UploadsNeverExceedCaptures(run: seq<ProbeStep>, th: Thread)
    ensures UploadCount(run, th) + (if th in Trace(run).scratch then 1 else 0) <= CaptureCount(run, th)
  {
    if run != [] {
      UploadsNeverExceedCaptures(run[..|run| - 1], th);
    }
  }

  // ---- Exits of other ioctls ----

  /** Between two enters of a thread lies an exit of it. */
  ghost predicate Alternates(run: seq<ProbeStep>, th: Thread) {
    forall i, k :: 0 <= i < k < |run| && EntersBy(run[i], th) && EntersBy(run[k], th) ==>
      exists m :: i < m < k && ExitsBy(run[m], th)
  }

  predicate EntersBy(step: ProbeStep, th: Thread) {
    step.Enter? && step.thread == th
  }

  predicate ExitsBy(step: ProbeStep, th: Thread) {
    step.Exit? && step.thread == th
  }

  /** An exit with a capture to complete that does not complete it. */
  ghost predicate ExitFails(before: seq<ProbeStep>, step: ProbeStep) {
    step.Exit? && exists i: nat ::
      CapturedSince(before, step.thread, i) && !ReadsBack(step, step.thread, before[i].arg.value)
  }

  lemma CapturedSinceEarlier(run: seq<ProbeStep>, th: Thread, i: nat, m: nat)
    requires CapturedSince(run, th, i) && i < m <= |run|
    ensures CapturedSince(run[..m], th, i)
  {
  }

  /** When a thread's calls alternate and none of its exits fails, the exit of an
      ioctl that was not captured reports nothing. */
  lemma UnrelatedExitSilent(run: seq<ProbeStep>, th: Thread, k: nat)
    requires run != [] && ExitsBy(run[|run| - 1], th) && Alternates(run, th)
    requires k < |run| - 1 && EntersBy(run[k], th) && !Captures(run[k], th)
    requires forall m :: k < m < |run| - 1 ==> !EntersBy(run[m], th)
    requires forall m: nat :: m < |run| - 1 && ExitsBy(run[m], th) ==> !ExitFails(run[..m], run[m])
    ensures LastReport(run) == []
  {
    var init := run[..|run| - 1];
    UploadsPairCaptures(run);
    hide LastReport, ParseEffect, IdFrom;
    if i: nat :| CapturedSince(init, th, i) {
      assert EntersBy(run[i], th) && i < k;
      var m: nat :| i < m < k && ExitsBy(run[m], th);
      assert init[..m] == run[..m];
      CapturedSinceEarlier(init, th, i, m);
      assert false;
    }
  }

  /** Exit `m`, after the capture at `i`, failed to complete it. */
  ghost predicate LeftStale(run: seq<ProbeStep>, th: Thread, i: nat, m: nat) {
    && i < m < |run| && ExitsBy(run[m], th) && CapturedSince(run[..m], th, i)
    && !ReadsBack(run[m], th, run[i].arg.value)
  }

  /** Exactly when it does report: an earlier exit of the thread failed to complete
      a capture, and this one completes it. */
  lemma UnrelatedExitReportsIff(run: seq<ProbeStep>, th: Thread, k: nat)
    requires run != [] && ExitsBy(run[|run| - 1], th) && Alternates(run, th)
    requires k < |run| - 1 && EntersBy(run[k], th) && !Captures(run[k], th)
    requires forall m :: k < m < |run| - 1 ==> !EntersBy(run[m], th)
    ensures LastReport(run) != [] <==>
            run[|run| - 1].reserved && exists i: nat, m: nat ::
              m < k && LeftStale(run, th, i, m) && CompletesCapture(run[..|run| - 1], run[|run| - 1], i)
  {
    var init, step := run[..|run| - 1], run[|run| - 1];
    UploadsPairCaptures(run);
    hide LastReport, ParseEffect, IdFrom;
    if i: nat :| CompletesCapture(init, step, i) {
      assert EntersBy(run[i], th) && i < k;
      var m: nat :| i < m < k && ExitsBy(run[m], th);
      CapturedSinceEarlier(init, th, i, m);
      assert init[..m] == run[..m] && init[m] == run[m];
      assert LeftStale(run, th, i, m);
    }
  }

  /** A failed exit is enough to make the next unrelated one report. */
  lemma StaleCaptureReported(th: Thread, raw: Raw)
    ensures exists run: seq<ProbeStep> ::
              && |run| == 4 && Alternates(run, th)
              && run[2] == Enter(th, Some(0), Some(0), map[], true, true) && ExitsBy(run[3], th)
              && LastReport(run) == [Uploaded(th.tgid, 5, ParseEffect(raw).(id := 5))]
  {
    var a := Enter(th, Some(EVIOCSFF), Some(4096), map[4096 := raw], true, true);
    var b := Exit(th, map[], true, true);
    var c := Enter(th, Some(0), Some(0), map[], true, true);
    var d := Exit(th, map[4098 := (5, 0)], true, true);
    var run := [] + [a] + [b] + [c] + [d];
    ExitBetweenEnters(run, th);
    NothingTraced();
    hide Trace, ParseEffect, Alternates;
    TraceNext([], a);
    TraceNext([] + [a], b);
    TraceNext([] + [a] + [b], c);
    TraceNext([] + [a] + [b] + [c], d);
    var stale := ProbeState(map[th := EnterScratch(4096, ParseEffect(raw))], []);
    assert Trace([] + [a] + [b] + [c]) == stale;
    assert run[..3] == [] + [a] + [b] + [c];
    assert Next(stale, d).events == [Uploaded(th.tgid, 5, ParseEffect(raw).(id := 5))];
  }

  lemma ExitBetweenEnters(run: seq<ProbeStep>, th: Thread)
    requires |run| == 4 && EntersBy(run[0], th) && ExitsBy(run[1], th) && EntersBy(run[2], th) && ExitsBy(run[3], th)
    ensures Alternates(run, th)
  {
  }

  lemma NothingTraced()
    ensures Trace([]) == Attached()
  {
  }

  lemma TraceNext(run: seq<ProbeStep>, step: ProbeStep)
    ensures Trace(run + [step]) == Next(Trace(run), step)
  {
    hide Next;
    assert (run + [step])[..|run|] == run;
  }

  // ---- The capture window ----

  function Bytes(w: Word): seq<Byte> {
    [w % 0x100, w / 0x100]
  }

  /** The first 30 bytes of the kernel structure for an effect: id and padding
      in their places, the rest as it will be read. */
  function KernelBytes(e: FfEffect, id: Word, padding: Word): Raw {
    Bytes(e.kind) + Bytes(id) + Bytes(e.direction) + Bytes(e.triggerButton) + Bytes(e.triggerInterval)
    + Bytes(e.replayLength) + Bytes(e.replayDelay) + Bytes(padding)
    + Bytes(e.u[0]) + Bytes(e.u[1]) + Bytes(e.u[2]) + Bytes(e.u[3]) + Bytes(e.u[4]) + Bytes(e.u[5]) + Bytes(e.u[6])
  }

  /** Whatever id and padding the structure carries on the way in, the capture
      recovers every other field. */
  lemma CaptureRoundTrip(e: FfEffect, id: Word, padding: Word)
    ensures ParseEffect(KernelBytes(e, id, padding)) == e.(id := 0)
  {
    var raw := KernelBytes(e, id, padding);
    var p := ParseEffect(raw);
    assert p.u == e.u;
  }

  /** The id read back at exit is the one the kernel wrote. */
  lemma IdRoundTrip(id: Short)
    ensures var w: Word := if id < 0 then id + 0x1_0000 else id;
            IdFrom((Bytes(w)[0], Bytes(w)[1])) == id
  {
  }
}
