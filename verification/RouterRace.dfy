/** The point of holding Plays back: a Play that overtakes the upload of its
    effect ends as if it had come right after it. */
module RouterRace {
  import opened Effects
  import opened Throttling
  import opened Translation
  import opened RouterModel
  import opened RouterHistory

  /** The event mentions neither the device nor the effect. */
  predicate Neutral(e: Event, d: DeviceId, id: EffectId) {
    !Gestures(e, d) && e.effectId != id
  }

  ghost predicate NeutralRun(run: seq<Event>, d: DeviceId, id: EffectId) {
    forall i :: 0 <= i < |run| ==> Neutral(run[i], d, id)
  }

  /** `s` is `s'` with one more Play held. */
  predicate HoldsBack(s: AppState, s': AppState, d: DeviceId, held: PendingPlay) {
    && d !in s'.pending
    && s.pending == s'.pending[d := held]
    && s.store == s'.store && s.lastHaptic == s'.lastHaptic && s.output == s'.output
    && s'.clock <= s.clock
  }

  ghost predicate Twins(s: AppState, s': AppState, d: DeviceId, held: PendingPlay) {
    HoldsBack(s, s', d, held) && s.sine == s'.sine
  }

  lemma ProcessPlayTwins(s: AppState, s': AppState, d: DeviceId, held: PendingPlay,
                         device: DeviceId, id: EffectId, effect: FfEffect, at: Reading)
    requires Twins(s, s', d, held) && Timely(s.clock, at)
    ensures Twins(ProcessPlay(s, device, id, effect, at), ProcessPlay(s', device, id, effect, at), d, held)
    ensures ProcessPlay(s, device, id, effect, at).clock == ProcessPlay(s', device, id, effect, at).clock
  {
    hide Translate;
  }

  lemma {:induction false} ResolveAllTwins(s: AppState, s': AppState, d: DeviceId, held: PendingPlay,
                                           id: EffectId, effect: FfEffect, resolved: seq<Resolution>)
    requires Twins(s, s', d, held)
    ensures TimelyAll(s, id, effect, resolved) ==>
              TimelyAll(s', id, effect, resolved)
              && Twins(ResolveAll(s, id, effect, resolved), ResolveAll(s', id, effect, resolved), d, held)
    ensures s.clock == s'.clock ==>
              (TimelyAll(s', id, effect, resolved) ==> TimelyAll(s, id, effect, resolved))
              && (TimelyAll(s, id, effect, resolved) ==>
                    ResolveAll(s, id, effect, resolved).clock == ResolveAll(s', id, effect, resolved).clock)
  {
    hide ProcessPlay, HoldsBack;
    if resolved != [] {
      var init, r := resolved[..|resolved| - 1], resolved[|resolved| - 1];
      ResolveAllTwins(s, s', d, held, id, effect, init);
      var s1, s1' := ResolveAll(s, id, effect, init), ResolveAll(s', id, effect, init);
      if TimelyAll(s, id, effect, init) {
        assert s1'.clock <= s1.clock by { HeldClock(s1, s1', d, held); }
        if Timely(s1.clock, r.at) {
          ProcessPlayTwins(s1, s1', d, held, r.device, id, effect, r.at);
        }
      }
    }
  }

  lemma HeldClock(s: AppState, s': AppState, d: DeviceId, held: PendingPlay)
    requires Twins(s, s', d, held)
    ensures s'.clock <= s.clock
  {
  }

  lemma NeutralUpload(s: AppState, s': AppState, d: DeviceId, held: PendingPlay, e: Event)
    requires Twins(s, s', d, held) && e.Upload? && e.effectId != held.effectId
    ensures Enabled(s, e) ==> Enabled(s', e) && Twins(Step(s, e), Step(s', e), d, held)
    ensures s.clock == s'.clock && Enabled(s', e) ==> Enabled(s, e) && Step(s, e).clock == Step(s', e).clock
  {
    hide ProcessPlay, ResolveAll, TimelyAll, Listed;
    assert WaitingOn(s.pending, e.effectId) == WaitingOn(s'.pending, e.effectId);
    ResolveAllTwins(Uploaded(s, e.tgid, e.effectId, e.effect), Uploaded(s', e.tgid, e.effectId, e.effect), d, held,
                    e.effectId, e.effect, e.resolved);
  }

  lemma NeutralPlay(s: AppState, s': AppState, d: DeviceId, held: PendingPlay, e: Event)
    requires Twins(s, s', d, held) && e.Play? && e.device != d
    ensures Enabled(s, e) ==> Enabled(s', e) && Twins(Step(s, e), Step(s', e), d, held)
    ensures s.clock == s'.clock && Enabled(s', e) ==> Enabled(s, e) && Step(s, e).clock == Step(s', e).clock
  {
    hide ProcessPlay;
    if Timely(s.clock, e.at) && e.found.Some? && e.found.value in s.store {
      ProcessPlayTwins(s.(pending := s.pending - {e.device}), s'.(pending := s'.pending - {e.device}), d, held,
                       e.device, e.effectId, s.store[e.found.value], e.at);
    }
  }

  /** A neutral event does the same with and without the held Play. */
  lemma NeutralStep(s: AppState, s': AppState, d: DeviceId, held: PendingPlay, e: Event)
    requires Twins(s, s', d, held) && Neutral(e, d, held.effectId)
    ensures Enabled(s, e) ==> Enabled(s', e) && Twins(Step(s, e), Step(s', e), d, held)
    ensures s.clock == s'.clock && Enabled(s', e) ==> Enabled(s, e) && Step(s, e).clock == Step(s', e).clock
  {
    hide Step, Enabled, HoldsBack;
    match e
    case Upload(_, _, _, _) => NeutralUpload(s, s', d, held, e);
    case Play(_, _, _, _) => NeutralPlay(s, s', d, held, e);
    case Erase(_, _) => NeutralErase(s, s', d, held, e);
    case Stop(_, _) => NeutralStop(s, s', d, held, e);
  }

  lemma NeutralErase(s: AppState, s': AppState, d: DeviceId, held: PendingPlay, e: Event)
    requires Twins(s, s', d, held) && e.Erase? && e.effectId != held.effectId
    ensures Enabled(s, e) && Enabled(s', e) && Twins(Step(s, e), Step(s', e), d, held)
    ensures s.clock == s'.clock ==> Step(s, e).clock == Step(s', e).clock
  {
    assert WaitingOn(s.pending, e.effectId) == WaitingOn(s'.pending, e.effectId);
  }

  lemma NeutralStop(s: AppState, s': AppState, d: DeviceId, held: PendingPlay, e: Event)
    requires Twins(s, s', d, held) && e.Stop? && e.device != d
    ensures Enabled(s, e) && Enabled(s', e) && Twins(Step(s, e), Step(s', e), d, held)
    ensures s.clock == s'.clock ==> Step(s, e).clock == Step(s', e).clock
  {
  }

  lemma {:induction false} NeutralGap(s: AppState, s': AppState, d: DeviceId, held: PendingPlay, gap: seq<Event>)
    requires Twins(s, s', d, held) && NeutralRun(gap, d, held.effectId)
    ensures Exec(s, gap).Some? ==> Exec(s', gap).Some? && Twins(Exec(s, gap).value, Exec(s', gap).value, d, held)
    ensures s.clock == s'.clock && Exec(s', gap).Some? ==>
              Exec(s, gap).Some? && Exec(s, gap).value.clock == Exec(s', gap).value.clock
  {
    hide Enabled, Step, HoldsBack, Neutral;
    if gap != [] {
      var init, e := gap[..|gap| - 1], gap[|gap| - 1];
      NeutralGap(s, s', d, held, init);
      if Exec(s, init).Some? {
        NeutralStep(Exec(s, init).value, Exec(s', init).value, d, held, e);
      }
    }
  }

  lemma {:induction false} ExecAppend(s: AppState, a: seq<Event>, b: seq<Event>)
    ensures Exec(s, a + b) == if Exec(s, a).Some? then Exec(Exec(s, a).value, b) else None
  {
    hide Enabled, Step;
    if b == [] {
      assert a + b == a;
    } else {
      var init := b[..|b| - 1];
      ExecAppend(s, a, init);
      assert (a + b)[..|a + b| - 1] == a + init;
    }
  }

  lemma ExecOne(s: AppState, e: Event)
    ensures Exec(s, [e]) == if Enabled(s, e) then Some(Step(s, e)) else None
  {
    hide Enabled, Step;
    assert [e][..0] == [];
  }

  /** The Play overtakes the upload; every waiting device is then resolved. */
  function Overtaking(d: DeviceId, id: EffectId, issued: Reading, gap: seq<Event>,
                      tgid: Tgid, effect: FfEffect, resolved: seq<Resolution>): seq<Event> {
    [Play(d, id, None, issued)] + (gap + [Upload(tgid, id, effect, resolved)])
  }

  /** The same events with the Play right after the upload. */
  function InOrder(d: DeviceId, id: EffectId, at: Reading, gap: seq<Event>,
                   tgid: Tgid, effect: FfEffect, others: seq<Resolution>): seq<Event> {
    gap + [Upload(tgid, id, effect, others)] + [Play(d, id, Some((tgid, id)), at)]
  }

  /** A state in which a Play of `id` on `d` is about to overtake its upload. */
  ghost predicate AboutToRace(s: AppState, d: DeviceId, id: EffectId) {
    Consistent(s) && d !in s.pending && forall k :: k in s.store ==> k.1 != id
  }

  /** Resolving the held Play last is uploading for the others and then playing. */
  lemma UploadThenPlay(s: AppState, s': AppState, d: DeviceId, held: PendingPlay,
                       tgid: Tgid, effect: FfEffect, others: seq<Resolution>, at: Reading)
    requires Twins(s, s', d, held) && effect.id == held.effectId && Consistent(s')
    ensures var id := held.effectId;
            var both := Upload(tgid, id, effect, others + [Resolution(d, at)]);
            var first, then' := Upload(tgid, id, effect, others), Play(d, id, Some((tgid, id)), at);
            && (Enabled(s, both) ==>
                  Enabled(s', first) && Enabled(Step(s', first), then')
                  && Step(s, both) == Step(Step(s', first), then'))
            && (s.clock == s'.clock && Enabled(s', first) && Enabled(Step(s', first), then') ==> Enabled(s, both))
  {
    var id := held.effectId;
    var all := others + [Resolution(d, at)];
    var u, u' := Uploaded(s, tgid, id, effect), Uploaded(s', tgid, id, effect);
    ListTogether(s.pending, s'.pending, d, held, others, at);
    ResolveLast(u, id, effect, others, Resolution(d, at));
    ResolveAllFrame(u', id, effect, others);
    UploadedTwins(s, s', d, held, tgid, effect);
    ResolveAllLaterClock(u, u', id, effect, others);
    ClockForgotten(u, u', d, id, effect, at);
    PlayHits(ResolveAll(u', id, effect, others), tgid, effect, d, at);
    hide ProcessPlay, ResolveAll, TimelyAll, ResolvesEach, Finds, Uploaded;
    NothingResolved(u, u', id, effect);
  }

  lemma NothingResolved(s: AppState, s': AppState, id: EffectId, effect: FfEffect)
    ensures ResolveAll(s, id, effect, []) == s && ResolveAll(s', id, effect, []) == s'
  {
  }

  lemma UploadedTwins(s: AppState, s': AppState, d: DeviceId, held: PendingPlay, tgid: Tgid, effect: FfEffect)
    requires Twins(s, s', d, held)
    ensures var id := held.effectId;
            var u, u' := Uploaded(s, tgid, id, effect), Uploaded(s', tgid, id, effect);
            && u == u'.(clock := u.clock) && u.clock == s.clock && u'.clock == s'.clock && s'.clock <= s.clock
            && d !in u'.pending && (tgid, id) in u'.store && u'.store[(tgid, id)] == effect
  {
    assert WaitingOn(s.pending, held.effectId) == WaitingOn(s'.pending, held.effectId) + {d};
    assert s.pending - WaitingOn(s.pending, held.effectId) == s'.pending - WaitingOn(s'.pending, held.effectId);
  }

  lemma ResolveLast(s: AppState, id: EffectId, effect: FfEffect, others: seq<Resolution>, r: Resolution)
    ensures TimelyAll(s, id, effect, others + [r])
            <==> TimelyAll(s, id, effect, others) && Timely(ResolveAll(s, id, effect, others).clock, r.at)
    ensures ResolveAll(s, id, effect, others + [r])
            == ProcessPlay(ResolveAll(s, id, effect, others), r.device, id, effect, r.at)
  {
    hide ProcessPlay;
    assert (others + [r])[..|others|] == others;
  }

  lemma PlayHits(s: AppState, tgid: Tgid, effect: FfEffect, d: DeviceId, at: Reading)
    requires (tgid, effect.id) in s.store && s.store[(tgid, effect.id)] == effect && d !in s.pending
    ensures var play := Play(d, effect.id, Some((tgid, effect.id)), at);
            && (Enabled(s, play) <==> Timely(s.clock, at))
            && (Enabled(s, play) ==> Step(s, play) == ProcessPlay(s, d, effect.id, effect, at))
  {
    hide ProcessPlay;
    assert s.pending - {d} == s.pending;
    assert s == s.(pending := s.pending - {d});
  }

  lemma ClockForgotten(s: AppState, s': AppState, d: DeviceId, id: EffectId, effect: FfEffect, at: Reading)
    requires s == s'.(clock := s.clock)
    ensures ProcessPlay(s, d, id, effect, at) == ProcessPlay(s', d, id, effect, at)
  {
    hide Translate;
  }

  lemma {:induction false} ResolveAllLaterClock(s: AppState, s': AppState, id: EffectId, effect: FfEffect,
          resolved: seq<Resolution>)
    requires s == s'.(clock := s.clock) && s'.clock <= s.clock
    ensures TimelyAll(s, id, effect, resolved) ==> TimelyAll(s', id, effect, resolved)
    ensures s.clock == s'.clock ==> s == s'
    ensures resolved != [] ==> ResolveAll(s, id, effect, resolved) == ResolveAll(s', id, effect, resolved)
  {
    hide ProcessPlay;
    if resolved != [] {
      var init, r := resolved[..|resolved| - 1], resolved[|resolved| - 1];
      ResolveAllLaterClock(s, s', id, effect, init);
      if init == [] { ClockForgotten(s, s', r.device, id, effect, r.at); }
    }
  }

  lemma ListTogether(pending: Pending, pending': Pending, d: DeviceId, held: PendingPlay,
          others: seq<Resolution>, at: Reading)
    requires d !in pending' && pending == pending'[d := held]
    ensures WaitingOn(pending, held.effectId) == WaitingOn(pending', held.effectId) + {d}
    ensures ResolvesEach(pending, held.effectId, others + [Resolution(d, at)])
            <==> ResolvesEach(pending', held.effectId, others)
  {
    var id, all := held.effectId, others + [Resolution(d, at)];
    assert all[|others|].device == d;
    assert forall i :: 0 <= i < |others| ==> all[i] == others[i];
    if ResolvesEach(pending, id, all) {
      forall d' | d' in WaitingOn(pending', id)
        ensures Listed(d', others)
      {
        assert Listed(d', all);
        var i :| 0 <= i < |all| && all[i].device == d';
        assert others[i].device == d';
      }
    }
    if ResolvesEach(pending', id, others) {
      forall d' | d' in WaitingOn(pending, id)
        ensures Listed(d', all)
      {
        if d' != d {
          assert Listed(d', others);
          var i :| 0 <= i < |others| && others[i].device == d';
          assert all[i].device == d';
        }
      }
    }
  }

  /** Race transparency. When the held Play is resolved last, the overtaking run
      can happen only if the in-order run can, and both end in the same state:
      store, pending table, throttle, clock and output. If the miss costs no
      time, the converse holds as well. */
  lemma RaceTransparent(s: AppState, d: DeviceId, id: EffectId, issued: Reading, gap: seq<Event>,
                        tgid: Tgid, effect: FfEffect, others: seq<Resolution>, at: Reading)
    requires AboutToRace(s, d, id) && effect.id == id
    requires NeutralRun(gap, d, id) && WellFormedRun(gap)
    ensures var overtaking := Overtaking(d, id, issued, gap, tgid, effect, others + [Resolution(d, at)]);
            var inOrder := InOrder(d, id, at, gap, tgid, effect, others);
            && (Exec(s, overtaking).Some? ==> Exec(s, inOrder) == Exec(s, overtaking))
            && (Timely(s.clock, issued) && issued.checkedAt == s.clock && Exec(s, inOrder).Some? ==>
                  Exec(s, overtaking) == Exec(s, inOrder))
  {
    var miss := Play(d, id, None, issued);
    var held := PendingPlay(id, issued.checkedAt);
    var both := Upload(tgid, id, effect, others + [Resolution(d, at)]);
    var first, then' := Upload(tgid, id, effect, others), Play(d, id, Some((tgid, id)), at);
    ExecAppend(s, [miss], gap + [both]);
    ExecOne(s, miss);
    ExecAppend(s, gap + [first], [then']);
    ExecAppend(s, gap, [first]);
    if Timely(s.clock, issued) {
      assert Finds(s.store, id, None);
      var s1 := Step(s, miss);
      assert Twins(s1, s, d, held);
      ExecAppend(s1, gap, [both]);
      NeutralGap(s1, s, d, held, gap);
      if Exec(s, gap).Some? {
        var g := Exec(s, gap).value;
        GapConsistent(s, gap);
        ExecOne(g, first);
        if Enabled(g, first) { ExecOne(Step(g, first), then'); }
        if Exec(s1, gap).Some? {
          ExecOne(Exec(s1, gap).value, both);
          UploadThenPlay(Exec(s1, gap).value, g, d, held, tgid, effect, others, at);
        }
      }
    }
  }

  lemma {:induction false} GapConsistent(s: AppState, run: seq<Event>)
    requires Consistent(s) && WellFormedRun(run) && Exec(s, run).Some?
    ensures Consistent(Exec(s, run).value)
  {
    hide Enabled, Step, Consistent;
    if run != [] {
      GapConsistent(s, run[..|run| - 1]);
      StepConsistent(Exec(s, run[..|run| - 1]).value, run[|run| - 1]);
    }
  }

  /** What a Play that is processed last puts out last is about its own device. */
  lemma PlayedLast(s: AppState, d: DeviceId, id: EffectId, at: Reading, gap: seq<Event>,
                   tgid: Tgid, effect: FfEffect, others: seq<Resolution>)
    requires Exec(s, InOrder(d, id, at, gap, tgid, effect, others)).Some?
    ensures var out := Exec(s, InOrder(d, id, at, gap, tgid, effect, others)).value.output;
            out != [] && !out[|out| - 1].Stopped? && out[|out| - 1].device == d
  {
    var first, then' := Upload(tgid, id, effect, others), Play(d, id, Some((tgid, id)), at);
    ExecAppend(s, gap + [first], [then']);
    var g := Exec(s, gap + [first]).value;
    ExecOne(g, then');
    ProcessPlayFrame(g.(pending := g.pending - {d}), d, id, g.store[(tgid, id)], at);
  }

  /** Some run with the Play right after the upload ends like the overtaking one. */
  ghost predicate HasInOrder(s: AppState, d: DeviceId, id: EffectId, issued: Reading, gap: seq<Event>,
                             tgid: Tgid, effect: FfEffect, resolved: seq<Resolution>) {
    exists others: seq<Resolution>, at: Reading ::
      Exec(s, InOrder(d, id, at, gap, tgid, effect, others)) ==
      Exec(s, Overtaking(d, id, issued, gap, tgid, effect, resolved))
  }

  /** When several devices wait for the upload the order they are resolved in
      shows: the overtaking run matches an in-order run exactly when the
      overtaken device comes last. */
  lemma TransparentIffResolvedLast(s: AppState, d: DeviceId, id: EffectId, issued: Reading, gap: seq<Event>,
                                   tgid: Tgid, effect: FfEffect, resolved: seq<Resolution>)
    requires AboutToRace(s, d, id) && effect.id == id
    requires NeutralRun(gap, d, id) && WellFormedRun(gap)
    requires Exec(s, Overtaking(d, id, issued, gap, tgid, effect, resolved)).Some?
    ensures resolved != []
    ensures HasInOrder(s, d, id, issued, gap, tgid, effect, resolved) <==> resolved[|resolved| - 1].device == d
  {
    var end := OvertakingEnds(s, d, id, issued, gap, tgid, effect, resolved);
    hide Exec, AboutToRace, NeutralRun, WellFormedRun, InOrder, Overtaking;
    var last := resolved[|resolved| - 1];
    if last.device == d {
      var others := resolved[..|resolved| - 1];
      assert resolved == others + [Resolution(d, last.at)];
      RaceTransparent(s, d, id, issued, gap, tgid, effect, others, last.at);
      assert Exec(s, InOrder(d, id, last.at, gap, tgid, effect, others)) == Some(end);
    } else {
      EndsElsewhere(s, d, id, gap, tgid, effect, end);
    }
  }

  /** No in-order run ends with an output about another device. */
  lemma EndsElsewhere(s: AppState, d: DeviceId, id: EffectId, gap: seq<Event>,
                      tgid: Tgid, effect: FfEffect, end: AppState)
    requires end.output != [] && !end.output[|end.output| - 1].Stopped? && end.output[|end.output| - 1].device != d
    ensures forall others: seq<Resolution>, at: Reading ::
              Exec(s, InOrder(d, id, at, gap, tgid, effect, others)) != Some(end)
  {
    hide Exec, InOrder;
    forall others: seq<Resolution>, at: Reading
      ensures Exec(s, InOrder(d, id, at, gap, tgid, effect, others)) != Some(end)
    {
      if Exec(s, InOrder(d, id, at, gap, tgid, effect, others)).Some? {
        PlayedLast(s, d, id, at, gap, tgid, effect, others);
      }
    }
  }

  lemma OvertakingEnds(s: AppState, d: DeviceId, id: EffectId, issued: Reading, gap: seq<Event>,
                       tgid: Tgid, effect: FfEffect, resolved: seq<Resolution>)
    returns (end: AppState)
    requires AboutToRace(s, d, id) && NeutralRun(gap, d, id)
    requires Exec(s, Overtaking(d, id, issued, gap, tgid, effect, resolved)).Some?
    ensures Exec(s, Overtaking(d, id, issued, gap, tgid, effect, resolved)) == Some(end)
    ensures resolved != [] && end.output != []
    ensures !end.output[|end.output| - 1].Stopped?
    ensures end.output[|end.output| - 1].device == resolved[|resolved| - 1].device
  {
    var miss, upload := Play(d, id, None, issued), Upload(tgid, id, effect, resolved);
    ExecAppend(s, [miss], gap + [upload]);
    ExecOne(s, miss);
    var s1 := Step(s, miss);
    var held := PendingPlay(id, issued.checkedAt);
    ExecAppend(s1, gap, [upload]);
    NeutralGap(s1, s, d, held, gap);
    var g := Exec(s1, gap).value;
    ExecOne(g, upload);
    end := Step(g, upload);
    ResolveAllFrame(Uploaded(g, tgid, id, effect), id, effect, resolved);
    assert d in WaitingOn(g.pending, id);
    assert Listed(d, resolved);
    var outs := Since(Uploaded(g, tgid, id, effect), end);
    assert end.output[|end.output| - 1] == outs[|outs| - 1];
  }

  /** With nobody else waiting for the effect by then the race never shows: the
      run ends like the one with the Play right after an upload that resolves
      nobody. */
  lemma RaceTransparentAlone(s: AppState, d: DeviceId, id: EffectId, issued: Reading, gap: seq<Event>,
                             tgid: Tgid, effect: FfEffect, resolved: seq<Resolution>)
    returns (at: Reading)
    requires AboutToRace(s, d, id) && effect.id == id
    requires NeutralRun(gap, d, id) && WellFormedRun(gap)
    requires Exec(s, Overtaking(d, id, issued, gap, tgid, effect, resolved)).Some?
    ensures Exec(s, gap).Some?
    ensures WaitingOn(Exec(s, gap).value.pending, id) == {} ==>
              && resolved == [Resolution(d, at)]
              && Exec(s, InOrder(d, id, at, gap, tgid, effect, [])) ==
                 Exec(s, Overtaking(d, id, issued, gap, tgid, effect, resolved))
  {
    var miss, upload := Play(d, id, None, issued), Upload(tgid, id, effect, resolved);
    ExecAppend(s, [miss], gap + [upload]);
    ExecOne(s, miss);
    var s1 := Step(s, miss);
    ExecAppend(s1, gap, [upload]);
    NeutralGap(s1, s, d, PendingPlay(id, issued.checkedAt), gap);
    var g1 := Exec(s1, gap).value;
    ExecOne(g1, upload);
    at := issued;
    if WaitingOn(Exec(s, gap).value.pending, id) == {} {
      OnlyOneListed(g1.pending, Exec(s, gap).value.pending, d, PendingPlay(id, issued.checkedAt), resolved);
      hide Exec, Enabled, Step;
      at := resolved[0].at;
      assert resolved == [] + [Resolution(d, at)];
      RaceTransparent(s, d, id, issued, gap, tgid, effect, [], at);
    }
  }

  lemma OnlyOneListed(pending: Pending, pending': Pending, d: DeviceId, held: PendingPlay, resolved: seq<Resolution>)
    requires d !in pending' && pending == pending'[d := held] && WaitingOn(pending', held.effectId) == {}
    requires ResolvesEach(pending, held.effectId, resolved)
    ensures |resolved| == 1 && resolved[0].device == d
  {
    assert WaitingOn(pending, held.effectId) == {d};
    assert Listed(d, resolved);
    ResolvedSize(resolved, {d});
  }

  // ---- When the race can show ----

  /** Every run in which the Play overtakes the upload across this gap. */
  ghost predicate NeverShows(s: AppState, d: DeviceId, id: EffectId, gap: seq<Event>, tgid: Tgid, effect: FfEffect) {
    forall issued: Reading, resolved: seq<Resolution> ::
      Exec(s, Overtaking(d, id, issued, gap, tgid, effect, resolved)).Some? ==>
        HasInOrder(s, d, id, issued, gap, tgid, effect, resolved)
  }

  /** The devices in some order, all to be resolved at one reading. */
  lemma {:induction false} ListAtOnce(devices: set<DeviceId>, c: Instant) returns (listed: seq<Resolution>)
    ensures forall i, j :: 0 <= i < j < |listed| ==> listed[i].device != listed[j].device
    ensures forall i :: 0 <= i < |listed| ==> listed[i].device in devices && listed[i].at == Reading(c, c)
    ensures forall d :: d in devices ==> Listed(d, listed)
  {
    listed := [];
    if devices != {} {
      var d :| d in devices;
      var rest := ListAtOnce(devices - {d}, c);
      listed := rest + [Resolution(d, Reading(c, c))];
      assert listed[|rest|].device == d;
      forall d' | d' in devices - {d} ensures Listed(d', listed) {
        assert Listed(d', rest);
        var i :| 0 <= i < |rest| && rest[i].device == d';
        assert listed[i].device == d';
      }
    }
  }

  lemma {:induction false} ResolvedAtOnce(s: AppState, id: EffectId, effect: FfEffect, resolved: seq<Resolution>)
    requires forall i :: 0 <= i < |resolved| ==> resolved[i].at == Reading(s.clock, s.clock)
    ensures TimelyAll(s, id, effect, resolved) && ResolveAll(s, id, effect, resolved).clock == s.clock
  {
    hide Translate;
    if resolved != [] {
      ResolvedAtOnce(s, id, effect, resolved[..|resolved| - 1]);
    }
  }

  /** The waiting devices with the newcomer first. */
  lemma ListNewcomerFirst(pending: Pending, pending': Pending, d: DeviceId, held: PendingPlay,
                          rest: seq<Resolution>, at: Reading)
    requires d !in pending' && pending == pending'[d := held] && ResolvesEach(pending', held.effectId, rest)
    ensures ResolvesEach(pending, held.effectId, [Resolution(d, at)] + rest)
  {
    var all := [Resolution(d, at)] + rest;
    assert all[0].device == d;
    assert forall i :: 0 < i < |all| ==> all[i] == rest[i - 1];
    forall d' | d' in WaitingOn(pending, held.effectId)
      ensures Listed(d', all)
    {
      if d' != d {
        assert Listed(d', rest);
        var i :| 0 <= i < |rest| && rest[i].device == d';
        assert all[i + 1].device == d';
      }
    }
  }

  /** With another device waiting, the upload may resolve the newcomer first. */
  lemma ContendedRace(s: AppState, d: DeviceId, id: EffectId, gap: seq<Event>, tgid: Tgid, effect: FfEffect)
    returns (issued: Reading, resolved: seq<Resolution>)
    requires AboutToRace(s, d, id) && NeutralRun(gap, d, id) && Exec(s, gap).Some?
    requires WaitingOn(Exec(s, gap).value.pending, id) != {}
    ensures Exec(s, Overtaking(d, id, issued, gap, tgid, effect, resolved)).Some?
    ensures resolved != [] && resolved[|resolved| - 1].device != d
  {
    issued := Reading(s.clock, s.clock);
    var miss, held := Play(d, id, None, issued), PendingPlay(id, s.clock);
    ExecOne(s, miss);
    var s1 := Step(s, miss);
    NeutralGap(s1, s, d, held, gap);
    var g, g1 := Exec(s, gap).value, Exec(s1, gap).value;
    var rest := ListAtOnce(WaitingOn(g.pending, id), g1.clock);
    resolved := [Resolution(d, Reading(g1.clock, g1.clock))] + rest;
    NewcomerFirst(g1, g, d, held, tgid, effect, rest);
    var upload := Upload(tgid, id, effect, resolved);
    hide Step, Enabled;
    ExecAppend(s, [miss], gap + [upload]);
    ExecAppend(s1, gap, [upload]);
    ExecOne(g1, upload);
  }

  lemma NewcomerFirst(g1: AppState, g: AppState, d: DeviceId, held: PendingPlay, tgid: Tgid, effect: FfEffect,
                      rest: seq<Resolution>)
    requires Twins(g1, g, d, held) && WaitingOn(g.pending, held.effectId) != {}
    requires ResolvesEach(g.pending, held.effectId, rest)
    requires forall i :: 0 <= i < |rest| ==> rest[i].at == Reading(g1.clock, g1.clock)
    ensures var all := [Resolution(d, Reading(g1.clock, g1.clock))] + rest;
            Enabled(g1, Upload(tgid, held.effectId, effect, all)) && all[|all| - 1].device != d
  {
    ListNewcomerFirst(g1.pending, g.pending, d, held, rest, Reading(g1.clock, g1.clock));
    var all := [Resolution(d, Reading(g1.clock, g1.clock))] + rest;
    ResolvedAtOnce(Uploaded(g1, tgid, held.effectId, effect), held.effectId, effect, all);
    hide TimelyAll, ResolveAll;
    var other :| other in WaitingOn(g.pending, held.effectId);
    assert Listed(other, rest);
    assert all[|all| - 1] == rest[|rest| - 1];
  }

  lemma NeverShowsAlone(s: AppState, d: DeviceId, id: EffectId, gap: seq<Event>, tgid: Tgid, effect: FfEffect)
    requires AboutToRace(s, d, id) && effect.id == id && NeutralRun(gap, d, id) && WellFormedRun(gap)
    requires Exec(s, gap).Some? ==> WaitingOn(Exec(s, gap).value.pending, id) == {}
    ensures NeverShows(s, d, id, gap, tgid, effect)
  {
    hide Exec, AboutToRace;
    forall issued: Reading, resolved: seq<Resolution> |
      Exec(s, Overtaking(d, id, issued, gap, tgid, effect, resolved)).Some?
      ensures HasInOrder(s, d, id, issued, gap, tgid, effect, resolved)
    {
      var at := RaceTransparentAlone(s, d, id, issued, gap, tgid, effect, resolved);
      assert Exec(s, InOrder(d, id, at, gap, tgid, effect, [])) ==
             Exec(s, Overtaking(d, id, issued, gap, tgid, effect, resolved));
    }
  }

  /** Across a given gap the race never shows exactly when nobody else waits for
      the effect at its end. */
  lemma NeverShowsIffAlone(s: AppState, d: DeviceId, id: EffectId, gap: seq<Event>, tgid: Tgid, effect: FfEffect)
    requires AboutToRace(s, d, id) && effect.id == id
    requires NeutralRun(gap, d, id) && WellFormedRun(gap) && Exec(s, gap).Some?
    ensures NeverShows(s, d, id, gap, tgid, effect) <==> WaitingOn(Exec(s, gap).value.pending, id) == {}
  {
    if WaitingOn(Exec(s, gap).value.pending, id) == {} {
      NeverShowsAlone(s, d, id, gap, tgid, effect);
    } else {
      hide Exec, HasInOrder, AboutToRace;
      var issued, resolved := ContendedRace(s, d, id, gap, tgid, effect);
      TransparentIffResolvedLast(s, d, id, issued, gap, tgid, effect, resolved);
    }
  }

  /** So, judged before the Play: no overtaking run can show the race, whatever
      happens in between, exactly when no other device waits for the effect. */
  lemma RaceTransparentIffAlone(s: AppState, d: DeviceId, id: EffectId, tgid: Tgid, effect: FfEffect)
    requires AboutToRace(s, d, id) && effect.id == id
    ensures (forall gap: seq<Event> :: NeutralRun(gap, d, id) && WellFormedRun(gap) ==>
               NeverShows(s, d, id, gap, tgid, effect))
            <==> WaitingOn(s.pending, id) == {}
  {
    hide AboutToRace, HasInOrder;
    if WaitingOn(s.pending, id) == {} {
      forall gap: seq<Event> | NeutralRun(gap, d, id) && WellFormedRun(gap)
        ensures NeverShows(s, d, id, gap, tgid, effect)
      {
        if Exec(s, gap).Some? { NoneJoin(s, d, id, gap); }
        NeverShowsAlone(s, d, id, gap, tgid, effect);
      }
    } else {
      assert Exec(s, []) == Some(s);
      NeverShowsIffAlone(s, d, id, [], tgid, effect);
      assert NeutralRun([], d, id) && WellFormedRun([]);
    }
  }

  /** Neutral events start no wait for the effect. */
  lemma {:induction false} NoneJoin(s: AppState, d: DeviceId, id: EffectId, gap: seq<Event>)
    requires WaitingOn(s.pending, id) == {} && NeutralRun(gap, d, id) && Exec(s, gap).Some?
    ensures WaitingOn(Exec(s, gap).value.pending, id) == {}
  {
    if gap != [] {
      var init, e := gap[..|gap| - 1], gap[|gap| - 1];
      NoneJoin(s, d, id, init);
      var s' := Exec(s, init).value;
      StoreAfterStep(init, s', e);
      assert WaitingOn(Step(s', e).pending, id) <= WaitingOn(s'.pending, id);
    }
  }
}
