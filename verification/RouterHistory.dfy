/** What a run of the router means, read off its events alone: which effect is
    stored, which device waits, what became of every Play. The state, the
    output and the counts are proved to agree with this reading. */
module RouterHistory {
  import opened Counting
  import opened Effects
  import opened Throttling
  import opened Translation
  import opened RouterModel

  // ---- Reading a run ----

  /** The event decides whether `id` is stored. */
  predicate Settles(e: Event, id: EffectId) {
    !e.Play? && e.effectId == id
  }

  predicate Gestures(e: Event, d: DeviceId) {
    (e.Play? || e.Stop?) && e.device == d
  }

  /** The effect a held Play of `id` waits for arrives, or is gone for good. */
  predicate Releases(e: Event, id: EffectId) {
    (e.Upload? || e.Erase?) && e.effectId == id
  }

  /** Event `i` uploaded `id`, and no Upload, Erase or Stop of `id` came later. */
  ghost predicate StoredSince(run: seq<Event>, id: EffectId, i: nat) {
    && 0 <= i < |run| && run[i].Upload? && run[i].effectId == id
    && forall j :: i < j < |run| ==> !Settles(run[j], id)
  }

  ghost predicate InStore(run: seq<Event>, id: EffectId) {
    exists i: nat :: StoredSince(run, id, i)
  }

  /** Event `i` is the last gesture on `d`, a Play that missed, and neither an
      Upload nor an Erase of its effect came later. */
  ghost predicate WaitingSince(run: seq<Event>, d: DeviceId, i: nat) {
    && 0 <= i < |run| && run[i].Play? && run[i].device == d
    && !InStore(run[..i], run[i].effectId)
    && forall j :: i < j < |run| ==> !Gestures(run[j], d) && !Releases(run[j], run[i].effectId)
  }

  lemma StoredSinceStep(run: seq<Event>, e: Event, id: EffectId, i: nat)
    ensures StoredSince(run + [e], id, i) <==>
            if i == |run| then e.Upload? && e.effectId == id else StoredSince(run, id, i) && !Settles(e, id)
  {
    var longer := run + [e];
    assert longer[|run|] == e;
    assert forall j :: 0 <= j < |run| ==> longer[j] == run[j];
  }

  lemma WaitingSinceStep(run: seq<Event>, e: Event, d: DeviceId, i: nat)
    ensures WaitingSince(run + [e], d, i) <==>
            if i == |run| then e.Play? && e.device == d && !InStore(run, e.effectId)
            else WaitingSince(run, d, i) && !Gestures(e, d) && !Releases(e, run[i].effectId)
  {
    hide InStore;
    var longer := run + [e];
    assert longer[|run|] == e && longer[..|run|] == run;
    assert forall j :: 0 <= j < |run| ==> longer[j] == run[j];
    if 0 <= i < |run| {
      assert longer[..i] == run[..i];
    }
  }

  // ---- The state agrees with the reading ----

  ghost predicate StoreAgrees(run: seq<Event>, s: AppState) {
    && (forall id: EffectId, i: nat {:trigger StoredSince(run, id, i)} :: StoredSince(run, id, i) ==>
          (run[i].tgid, id) in s.store && s.store[(run[i].tgid, id)] == run[i].effect)
    && (forall k {:trigger k in s.store} :: k in s.store ==>
            exists i: nat :: StoredSince(run, k.1, i) && run[i].tgid == k.0)
  }

  ghost predicate PendingAgrees(run: seq<Event>, s: AppState) {
    && (forall d, i: nat :: WaitingSince(run, d, i) ==>
          d in s.pending && s.pending[d] == PendingPlay(run[i].effectId, run[i].at.checkedAt))
    && (forall d :: d in s.pending ==> exists i: nat :: WaitingSince(run, d, i))
  }

  lemma StoreAfterStep(run: seq<Event>, s: AppState, e: Event)
    requires Enabled(s, e)
    ensures Step(s, e).sine == s.sine
    ensures Step(s, e).store == match e
              case Upload(tgid, id, effect, _) => Upsert(s.store, tgid, id, effect)
              case Erase(_, id) => Purge(s.store, id)
              case Stop(_, id) => Purge(s.store, id)
              case Play(_, _, _, _) => s.store
    ensures Step(s, e).pending == match e
              case Upload(_, id, _, _) => s.pending - WaitingOn(s.pending, id)
              case Erase(_, id) => s.pending - WaitingOn(s.pending, id)
              case Stop(d, _) => s.pending - {d}
              case Play(d, id, found, at) =>
                if found.Some? then s.pending - {d} else s.pending[d := PendingPlay(id, at.checkedAt)]
  {
    hide ProcessPlay, ResolveAll, TimelyAll;
    match e
    case Upload(tgid, id, effect, resolved) =>
      ResolveAllFrame(Uploaded(s, tgid, id, effect), id, effect, resolved);
    case Play(device, id, Some(key), at) =>
      ProcessPlayFrame(s.(pending := s.pending - {device}), device, id, s.store[key], at);
    case _ =>
  }

  /** The scan finds the effect exactly when the history says it is stored. */
  lemma FoundIffStored(run: seq<Event>, s: AppState, id: EffectId, found: Option<Key>)
    requires Consistent(s) && StoreAgrees(run, s) && Finds(s.store, id, found)
    ensures found.Some? <==> InStore(run, id)
    ensures found.Some? ==> exists u: nat :: StoredSince(run, id, u) && s.store[found.value] == run[u].effect
  {
    if found.Some? {
      assert found.value.1 == id;
      var u: nat :| StoredSince(run, id, u) && run[u].tgid == found.value.0;
    }
    if u: nat :| StoredSince(run, id, u) {
      assert (run[u].tgid, id) in s.store;
    }
  }

  lemma StoreAgreesStep(run: seq<Event>, s: AppState, e: Event)
    requires StoreAgrees(run, s) && Enabled(s, e)
    ensures StoreAgrees(run + [e], Step(s, e))
  {
    StoreAfterStep(run, s, e);
    hide Step, Enabled;
    var s', longer := Step(s, e), run + [e];
    forall id: EffectId, i: nat {:trigger StoredSince(longer, id, i)} | StoredSince(longer, id, i)
      ensures (longer[i].tgid, id) in s'.store && s'.store[(longer[i].tgid, id)] == longer[i].effect
    {
      StoredSinceStep(run, e, id, i);
    }
    forall k | k in s'.store
      ensures exists i: nat :: StoredSince(longer, k.1, i) && longer[i].tgid == k.0
    {
      if e.Upload? && k == (e.tgid, e.effectId) {
        StoredSinceStep(run, e, k.1, |run|);
      } else {
        var i: nat :| StoredSince(run, k.1, i) && run[i].tgid == k.0;
        StoredSinceStep(run, e, k.1, i);
      }
    }
  }

  lemma PendingAgreesStep(run: seq<Event>, s: AppState, e: Event)
    requires Consistent(s) && StoreAgrees(run, s) && PendingAgrees(run, s) && Enabled(s, e)
    ensures PendingAgrees(run + [e], Step(s, e))
  {
    StoreAfterStep(run, s, e);
    if e.Play? {
      FoundIffStored(run, s, e.effectId, e.found);
    }
    hide Step, Enabled, StoreAgrees;
    var s', longer := Step(s, e), run + [e];
    forall d, i: nat | WaitingSince(longer, d, i)
      ensures d in s'.pending && s'.pending[d] == PendingPlay(longer[i].effectId, longer[i].at.checkedAt)
    {
      WaitingSinceStep(run, e, d, i);
    }
    forall d | d in s'.pending
      ensures exists i: nat :: WaitingSince(longer, d, i)
    {
      if e.Play? && d == e.device {
        WaitingSinceStep(run, e, d, |run|);
      } else {
        var i: nat :| WaitingSince(run, d, i);
        WaitingSinceStep(run, e, d, i);
      }
    }
  }

  /** After any run with well-formed uploads, the store holds exactly the last
      Upload of each id not followed by a Stop or Erase of it, and a device waits
      exactly for its last Play if that missed and nothing released it since. */
  lemma {:induction false} StateReadsOffRun(sine: SineFn, start: Instant, run: seq<Event>)
    requires WellFormedRun(run) && Exec(Initial(sine, start), run).Some?
    ensures StoreAgrees(run, Exec(Initial(sine, start), run).value)
    ensures PendingAgrees(run, Exec(Initial(sine, start), run).value)
  {
    hide Enabled, Step, StoreAgrees, PendingAgrees, Consistent, WellFormed, Initial;
    if run == [] {
      NothingStored(sine, start);
      NobodyWaits(sine, start);
    } else {
      var init, e := run[..|run| - 1], run[|run| - 1];
      StateReadsOffRun(sine, start, init);
      ReachableConsistent(sine, start, init);
      var s := Exec(Initial(sine, start), init).value;
      StoreAgreesStep(init, s, e);
      PendingAgreesStep(init, s, e);
      assert init + [e] == run;
    }
  }

  lemma NobodyWaits(sine: SineFn, start: Instant)
    ensures PendingAgrees([], Initial(sine, start))
  {
  }

  lemma {:induction false} StoreReadsOffRun(sine: SineFn, start: Instant, run: seq<Event>)
    requires Exec(Initial(sine, start), run).Some?
    ensures StoreAgrees(run, Exec(Initial(sine, start), run).value)
  {
    hide Enabled, Step, StoreAgrees;
    if run != [] {
      var init, e := run[..|run| - 1], run[|run| - 1];
      StoreReadsOffRun(sine, start, init);
      StoreAgreesStep(init, Exec(Initial(sine, start), init).value, e);
      assert init + [e] == run;
    } else {
      assert StoreAgrees([], Initial(sine, start)) by { NothingStored(sine, start); }
    }
  }

  lemma NothingStored(sine: SineFn, start: Instant)
    ensures StoreAgrees([], Initial(sine, start))
  {
  }

  // ---- When the scan is decided ----

  /** Upload `i` is still stored and its effect carries `id`, whatever id it was uploaded under. */
  ghost predicate CandidateSince(run: seq<Event>, id: EffectId, i: nat) {
    i < |run| && run[i].Upload? && run[i].effect.id == id && StoredSince(run, run[i].effectId, i)
  }

  /** For every run, well-formed or not: the scan for an id gives one result in
      whatever order the table yields its entries exactly when no two uploads
      still stored carry that id. */
  lemma LookupDecidedIff(sine: SineFn, start: Instant, run: seq<Event>, id: EffectId)
    requires Exec(Initial(sine, start), run).Some?
    ensures var store := Exec(Initial(sine, start), run).value.store;
            (forall found, found' :: Finds(store, id, found) && Finds(store, id, found') ==> found == found')
            <==> (forall i: nat, j: nat :: CandidateSince(run, id, i) && CandidateSince(run, id, j) ==> i == j)
  {
    StoreReadsOffRun(sine, start, run);
    var s := Exec(Initial(sine, start), run).value;
    hide Exec, StoredSince;
    forall k | k in s.store && s.store[k].id == id
      ensures exists i: nat :: CandidateSince(run, id, i) && k == (run[i].tgid, run[i].effectId)
    {
      var i: nat :| StoredSince(run, k.1, i) && run[i].tgid == k.0;
      StoredUpload(run, k.1, i);
    }
    forall i: nat, j: nat | CandidateSince(run, id, i) && CandidateSince(run, id, j)
      ensures Finds(s.store, id, Some((run[i].tgid, run[i].effectId)))
      ensures run[i].effectId == run[j].effectId ==> i == j
    {
      if run[i].effectId == run[j].effectId { OneStored(run, run[i].effectId, i, j); }
    }
  }

  lemma StoredUpload(run: seq<Event>, id: EffectId, i: nat)
    requires StoredSince(run, id, i)
    ensures i < |run| && run[i].Upload? && run[i].effectId == id
  {
  }

  lemma OneStored(run: seq<Event>, id: EffectId, i: nat, j: nat)
    requires StoredSince(run, id, i) && StoredSince(run, id, j)
    ensures i == j
  {
  }

  // ---- What becomes of a Play ----

  datatype Fate = Processed | ClearedByStop | ClearedByErase | Superseded | Held

  /** Play `i` met its fate at event `j`; a Play still held has met it at the end. */
  ghost predicate HasFate(run: seq<Event>, i: nat, fate: Fate, j: nat)
    requires 0 <= i < |run| && run[i].Play?
  {
    var d, id := run[i].device, run[i].effectId;
    if j == i then fate == Processed && InStore(run[..i], id)
    else
      && i < j <= |run|
      && WaitingSince(run[..j], d, i)
      && match fate
         case Processed => j < |run| && run[j].Upload? && run[j].effectId == id
         case ClearedByStop => j < |run| && run[j].Stop? && run[j].device == d
         case ClearedByErase => j < |run| && run[j].Erase? && run[j].effectId == id
         case Superseded => j < |run| && run[j].Play? && run[j].device == d
         case Held => j == |run|
  }

  ghost predicate MeetsFate(run: seq<Event>, i: nat, fate: Fate)
    requires 0 <= i < |run| && run[i].Play?
  {
    exists j: nat :: HasFate(run, i, fate, j)
  }

  lemma WaitingEarlier(run: seq<Event>, d: DeviceId, i: nat, j: nat, k: nat)
    requires 0 <= i < j <= k <= |run| && WaitingSince(run[..k], d, i)
    ensures WaitingSince(run[..j], d, i)
    ensures forall m :: j <= m < k ==> !Gestures(run[m], d) && !Releases(run[m], run[i].effectId)
  {
    hide InStore;
    assert run[..k][..i] == run[..j][..i] == run[..i];
    assert forall m :: 0 <= m < k ==> run[..k][m] == run[m];
    assert forall m :: 0 <= m < j ==> run[..j][m] == run[m];
  }

  /** Every Play meets one fate, at one event: no held Play is processed twice
      and none is lost. */
  lemma FateUnique(run: seq<Event>, i: nat, fate: Fate, j: nat, fate': Fate, j': nat)
    requires 0 <= i < |run| && run[i].Play?
    requires HasFate(run, i, fate, j) && HasFate(run, i, fate', j')
    ensures fate == fate' && j == j'
  {
    hide InStore, WaitingSince;
    if i < j < j' {
      WaitingEarlier(run, run[i].device, i, j, j');
    } else if i < j' < j {
      WaitingEarlier(run, run[i].device, i, j', j);
    } else if i == j < j' {
      WaitedHasMissed(run, i, j');
    } else if i == j' < j {
      WaitedHasMissed(run, i, j);
    }
  }

  lemma WaitedHasMissed(run: seq<Event>, i: nat, j: nat)
    requires 0 <= i < j <= |run| && run[i].Play? && WaitingSince(run[..j], run[i].device, i)
    ensures !InStore(run[..i], run[i].effectId)
  {
    hide InStore;
    assert run[..j][..i] == run[..i];
  }

  lemma {:induction false} FateExists(run: seq<Event>, i: nat, j: nat) returns (fate: Fate, k: nat)
    requires 0 <= i < |run| && run[i].Play? && i < j <= |run|
    requires WaitingSince(run[..j], run[i].device, i)
    ensures HasFate(run, i, fate, k) && j <= k
    decreases |run| - j
  {
    var d, id := run[i].device, run[i].effectId;
    if j == |run| {
      return Held, j;
    }
    var e := run[j];
    if Gestures(e, d) {
      return if e.Stop? then ClearedByStop else Superseded, j;
    }
    if Releases(e, id) {
      return if e.Upload? then Processed else ClearedByErase, j;
    }
    assert run[..j + 1] == run[..j] + [e];
    WaitingSinceStep(run[..j], e, d, i);
    fate, k := FateExists(run, i, j + 1);
  }

  lemma EveryPlayHasAFate(run: seq<Event>, i: nat) returns (fate: Fate, j: nat)
    requires 0 <= i < |run| && run[i].Play?
    ensures HasFate(run, i, fate, j)
  {
    if InStore(run[..i], run[i].effectId) {
      return Processed, i;
    }
    assert run[..i + 1] == run[..i] + [run[i]];
    WaitingSinceStep(run[..i], run[i], run[i].device, i);
    fate, j := FateExists(run, i, i + 1);
  }

  /** A fate met stays met, and was met already when its event happened. */
  lemma FateStable(run: seq<Event>, i: nat, fate: Fate, j: nat, k: nat)
    requires 0 <= i <= j < k <= |run| && i < k && run[i].Play? && !fate.Held?
    ensures HasFate(run[..k], i, fate, j) <==> HasFate(run, i, fate, j)
  {
    hide InStore, WaitingSince;
    assert run[..k][..i] == run[..i];
    assert run[..k][..j] == run[..j];
    assert run[..k][i] == run[i] && run[..k][j] == run[j];
  }

  // ---- Provenance of every outcome ----

  /** What the last event of a run put out. */
  ghost function LastOutput(s: AppState, run: seq<Event>): seq<Output>
    requires run != [] && Exec(s, run).Some?
  {
    Since(Exec(s, run[..|run| - 1]).value, Exec(s, run).value)
  }

  /** Outcome `o` answers Play `i`, due at the last event of the run, with the
      effect last uploaded under its id. */
  ghost predicate Owed(sine: SineFn, run: seq<Event>, o: Output, i: nat, u: nat) {
    && 0 <= i < |run| && run[i].Play? && HasFate(run, i, Processed, |run| - 1)
    && StoredSince(run, run[i].effectId, u)
    && Answers(o, sine, run[i].device, run[i].effectId, run[u].effect)
  }

  ghost predicate IsOwed(sine: SineFn, run: seq<Event>, o: Output) {
    exists i: nat, u: nat :: Owed(sine, run, o, i, u)
  }

  ghost predicate Answered(outs: seq<Output>, d: DeviceId) {
    exists m :: 0 <= m < |outs| && !outs[m].Stopped? && outs[m].device == d
  }

  /** The one Play `d` is answered for at the last event. */
  ghost predicate DueAt(run: seq<Event>, d: DeviceId, i: nat) {
    0 <= i < |run| && run[i].Play? && run[i].device == d && HasFate(run, i, Processed, |run| - 1)
  }

  lemma DueOnUpload(run: seq<Event>, e: Event, d: DeviceId, i: nat)
    requires e.Upload?
    ensures DueAt(run + [e], d, i) <==> WaitingSince(run, d, i) && run[i].effectId == e.effectId
  {
    hide InStore, WaitingSince;
    var longer := run + [e];
    assert longer[..|run|] == run && longer[|run|] == e;
    if WaitingSince(run, d, i) {
      WaitingIsAPlay(run, d, i);
      assert longer[i] == run[i];
    }
    if 0 <= i < |run| { assert longer[i] == run[i]; }
  }

  lemma WaitingIsAPlay(run: seq<Event>, d: DeviceId, i: nat)
    requires WaitingSince(run, d, i)
    ensures 0 <= i < |run| && run[i].Play? && run[i].device == d
  {
  }

  lemma DueOnPlay(run: seq<Event>, e: Event, d: DeviceId, i: nat)
    requires e.Play?
    ensures DueAt(run + [e], d, i) <==> i == |run| && d == e.device && InStore(run, e.effectId)
  {
    hide InStore, WaitingSince;
    var longer := run + [e];
    assert longer[..|run|] == run && longer[|run|] == e;
  }

  lemma NothingDue(run: seq<Event>, e: Event, d: DeviceId, i: nat)
    requires e.Stop? || e.Erase?
    ensures !DueAt(run + [e], d, i)
  {
    hide InStore, WaitingSince;
    var longer := run + [e];
    assert longer[|run|] == e;
  }

  /** The history and the state it leads to. */
  ghost predicate Agrees(run: seq<Event>, s: AppState) {
    Consistent(s) && StoreAgrees(run, s) && PendingAgrees(run, s)
  }

  lemma ReachableAgrees(sine: SineFn, start: Instant, run: seq<Event>)
    requires WellFormedRun(run) && Exec(Initial(sine, start), run).Some?
    ensures Agrees(run, Exec(Initial(sine, start), run).value)
    ensures Exec(Initial(sine, start), run).value.sine == sine
  {
    ReachableConsistent(sine, start, run);
    StateReadsOffRun(sine, start, run);
    SineKept(Initial(sine, start), run);
  }

  lemma {:induction false} SineKept(s: AppState, run: seq<Event>)
    requires Exec(s, run).Some?
    ensures Exec(s, run).value.sine == s.sine
  {
    if run != [] {
      SineKept(s, run[..|run| - 1]);
      StoreAfterStep(run[..|run| - 1], Exec(s, run[..|run| - 1]).value, run[|run| - 1]);
    }
  }

  lemma UploadOutcomes(run: seq<Event>, s: AppState, e: Event, outs: seq<Output>)
    requires Agrees(run, s) && Enabled(s, e) && e.Upload? && outs == Since(s, Step(s, e))
    ensures |outs| == |e.resolved| && Step(s, e).output == s.output + outs
    ensures forall m :: 0 <= m < |outs| ==>
              !outs[m].Stopped? && outs[m].device == e.resolved[m].device && IsOwed(s.sine, run + [e], outs[m])
  {
    var s0, longer := Uploaded(s, e.tgid, e.effectId, e.effect), run + [e];
    ResolveAllFrame(s0, e.effectId, e.effect, e.resolved);
    assert outs == Since(s0, Step(s, e));
    StoredSinceStep(run, e, e.effectId, |run|);
    hide Step, ResolveAll, TimelyAll, StoreAgrees, Consistent, Since, StoredSince, WaitingSince, HasFate;
    forall m | 0 <= m < |outs|
      ensures !outs[m].Stopped? && outs[m].device == e.resolved[m].device && IsOwed(s.sine, longer, outs[m])
    {
      var d := e.resolved[m].device;
      assert d in WaitingOn(s.pending, e.effectId);
      var i: nat :| WaitingSince(run, d, i);
      DueOnUpload(run, e, d, i);
      assert Owed(s.sine, longer, outs[m], i, |run|);
    }
  }

  lemma PlayOutcome(run: seq<Event>, s: AppState, e: Event, outs: seq<Output>)
    requires Agrees(run, s) && Enabled(s, e) && e.Play? && outs == Since(s, Step(s, e))
    ensures Step(s, e).output == s.output + outs
    ensures |outs| == if e.found.Some? then 1 else 0
    ensures e.found.Some? <==> InStore(run, e.effectId)
    ensures e.found.Some? ==> !outs[0].Stopped? && outs[0].device == e.device && IsOwed(s.sine, run + [e], outs[0])
  {
    FoundIffStored(run, s, e.effectId, e.found);
    if e.found.Some? {
      var effect := s.store[e.found.value];
      ProcessPlayFrame(s.(pending := s.pending - {e.device}), e.device, e.effectId, effect, e.at);
      var u: nat :| StoredSince(run, e.effectId, u) && effect == run[u].effect;
      StoredSinceStep(run, e, e.effectId, u);
      DueOnPlay(run, e, e.device, |run|);
      assert (run + [e])[u] == run[u];
      assert Owed(s.sine, run + [e], outs[0], |run|, u);
    }
  }

  lemma StepOutcomes(run: seq<Event>, s: AppState, e: Event, outs: seq<Output>)
    requires Agrees(run, s) && Enabled(s, e) && outs == Since(s, Step(s, e))
    ensures forall m :: 0 <= m < |outs| && !outs[m].Stopped? ==> IsOwed(s.sine, run + [e], outs[m])
    ensures forall m, m' :: 0 <= m < m' < |outs| ==> outs[m].device != outs[m'].device
  {
    hide Agrees, IsOwed, InStore, ResolveAll, TimelyAll, ProcessPlay, Finds, Listed;
    if e.Upload? {
      UploadOutcomes(run, s, e, outs);
      assert ResolvesEach(s.pending, e.effectId, e.resolved);
    } else if e.Play? {
      PlayOutcome(run, s, e, outs);
    } else {
      QuietOutputs(s, e, outs);
    }
    hide *;
  }

  lemma QuietOutputs(s: AppState, e: Event, outs: seq<Output>)
    requires Enabled(s, e) && (e.Stop? || e.Erase?) && outs == Since(s, Step(s, e))
    ensures |outs| <= 1 && forall m :: 0 <= m < |outs| ==> outs[m].Stopped?
  {
  }

  /** Provenance: every outcome the last event of a run puts out answers a Play
      due there, with the translation of the effect last uploaded under its id;
      no device gets two; and every Play due there is answered. */
  lemma OutcomesAreOwed(sine: SineFn, start: Instant, run: seq<Event>)
    requires WellFormedRun(run) && run != [] && Exec(Initial(sine, start), run).Some?
    ensures var outs := LastOutput(Initial(sine, start), run);
            && (forall m :: 0 <= m < |outs| && !outs[m].Stopped? ==> IsOwed(sine, run, outs[m]))
            && (forall m, m' :: 0 <= m < m' < |outs| ==> outs[m].device != outs[m'].device)
            && (forall d, i: nat :: DueAt(run, d, i) ==> Answered(outs, d))
  {
    var before, e := run[..|run| - 1], run[|run| - 1];
    assert run == before + [e];
    ReachableAgrees(sine, start, before);
    var s := Exec(Initial(sine, start), before).value;
    hide Agrees, Step, Enabled, IsOwed, DueAt, Answered, Since;
    var outs := LastOutput(Initial(sine, start), run);
    StepOutcomes(before, s, e, outs);
    forall d, i: nat | DueAt(run, d, i)
      ensures Answered(outs, d)
    {
      DueIsAnswered(before, s, e, outs, d, i);
    }
  }

  lemma DueIsAnswered(run: seq<Event>, s: AppState, e: Event, outs: seq<Output>, d: DeviceId, i: nat)
    requires Agrees(run, s) && Enabled(s, e) && outs == Since(s, Step(s, e))
    requires DueAt(run + [e], d, i)
    ensures Answered(outs, d)
  {
    hide InStore, WaitingSince, HasFate, Step, ResolveAll, TimelyAll, Since;
    if e.Upload? {
      DueOnUpload(run, e, d, i);
      UploadOutcomes(run, s, e, outs);
      assert d in WaitingOn(s.pending, e.effectId);
      assert Listed(d, e.resolved);
      var m :| 0 <= m < |e.resolved| && e.resolved[m].device == d;
      assert outs[m].device == d;
    } else if e.Play? {
      DueOnPlay(run, e, d, i);
      PlayOutcome(run, s, e, outs);
      assert outs[0].device == d;
    } else {
      NothingDue(run, e, d, i);
    }
  }

  /** Stop safety: whatever is scheduled on a device after a Stop answers a
      fresh Play on that device, made after the Stop. */
  lemma NothingAfterStop(sine: SineFn, start: Instant, run: seq<Event>, k: nat, o: Output)
    requires WellFormedRun(run) && run != [] && Exec(Initial(sine, start), run).Some?
    requires 0 <= k < |run| && run[k].Stop?
    requires o in LastOutput(Initial(sine, start), run) && o.Scheduled? && o.device == run[k].device
    ensures exists i: nat, u: nat :: k < i && Owed(sine, run, o, i, u)
  {
    OutcomesAreOwed(sine, start, run);
    hide InStore, StoredSince, Exec, LastOutput;
    var i: nat, u: nat :| Owed(sine, run, o, i, u);
    if i < k {
      StopEndsWaiting(run, i, k);
    }
  }

  lemma StepTellsOfStops(s: AppState, e: Event)
    requires Enabled(s, e)
    ensures Step(s, e).output == s.output + Since(s, Step(s, e))
    ensures e.Stop? ==> Since(s, Step(s, e)) == [Stopped(e.device)]
    ensures !e.Stop? ==> forall m :: 0 <= m < |Since(s, Step(s, e))| ==> !Since(s, Step(s, e))[m].Stopped?
  {
    hide ProcessPlay, ResolveAll, TimelyAll;
    match e
    case Upload(tgid, id, effect, resolved) =>
      ResolveAllFrame(Uploaded(s, tgid, id, effect), id, effect, resolved);
    case Play(device, id, Some(key), at) =>
      ProcessPlayFrame(s.(pending := s.pending - {device}), device, id, s.store[key], at);
    case _ =>
  }

  /** Every Stop tells playback to stop its device, whatever is stored or waiting,
      and puts out nothing else; no other event tells it to stop anything. */
  lemma StopsAreTold(s: AppState, run: seq<Event>)
    requires run != [] && Exec(s, run).Some?
    ensures var e, outs := run[|run| - 1], LastOutput(s, run);
            && (e.Stop? ==> outs == [Stopped(e.device)])
            && (!e.Stop? ==> forall m :: 0 <= m < |outs| ==> !outs[m].Stopped?)
            && Exec(s, run).value.output == Exec(s, run[..|run| - 1]).value.output + outs
  {
    StepTellsOfStops(Exec(s, run[..|run| - 1]).value, run[|run| - 1]);
  }

  /** The devices playback is told to stop, and those the events stop, in order. */
  function StoppedDevices(output: seq<Output>): seq<DeviceId> {
    if output == [] then []
    else
      var last := output[|output| - 1];
      StoppedDevices(output[..|output| - 1]) + if last.Stopped? then [last.device] else []
  }

  function StopEvents(run: seq<Event>): seq<DeviceId> {
    if run == [] then []
    else
      var last := run[|run| - 1];
      StopEvents(run[..|run| - 1]) + if last.Stop? then [last.device] else []
  }

  lemma {:induction false} NoStopsAppended(a: seq<Output>, b: seq<Output>)
    requires forall m :: 0 <= m < |b| ==> !b[m].Stopped?
    ensures StoppedDevices(a + b) == StoppedDevices(a)
  {
    if b == [] {
      assert a + b == a;
    } else {
      NoStopsAppended(a, b[..|b| - 1]);
      assert (a + b)[..|a + b| - 1] == a + b[..|b| - 1];
    }
  }

  /** Over every run playback is told of exactly the Stops, each once and in order. */
  lemma {:induction false} StopsConserved(sine: SineFn, start: Instant, run: seq<Event>)
    requires Exec(Initial(sine, start), run).Some?
    ensures StoppedDevices(Exec(Initial(sine, start), run).value.output) == StopEvents(run)
  {
    if run != [] {
      var s0, init, e := Initial(sine, start), run[..|run| - 1], run[|run| - 1];
      StopsConserved(sine, start, init);
      StopsAreTold(s0, run);
      var before, outs := Exec(s0, init).value.output, LastOutput(s0, run);
      hide Exec, LastOutput;
      if e.Stop? {
        assert (before + [Stopped(e.device)])[..|before|] == before;
      } else {
        NoStopsAppended(before, outs);
      }
    }
  }

  lemma StopEndsWaiting(run: seq<Event>, i: nat, k: nat)
    requires 0 <= i < k < |run| && run[i].Play? && run[k].Stop? && run[k].device == run[i].device
    ensures !HasFate(run, i, Processed, |run| - 1)
  {
    hide InStore;
    var init := run[..|run| - 1];
    if k < |run| - 1 {
      assert init[k] == run[k] && init[i] == run[i];
    }
  }

  // ---- Conservation ----

  ghost function Plays(run: seq<Event>): set<nat> {
    set i: nat | 0 <= i < |run| && run[i].Play?
  }

  ghost function Fated(run: seq<Event>, fate: Fate): set<nat> {
    set i: nat | 0 <= i < |run| && run[i].Play? && MeetsFate(run, i, fate)
  }

  /** The outcomes of processed Plays: scheduled, throttled or without points. */
  function Outcomes(output: seq<Output>): nat {
    if output == [] then 0
    else Outcomes(output[..|output| - 1]) + if output[|output| - 1].Stopped? then 0 else 1
  }

  lemma {:induction false} OutcomesAppend(a: seq<Output>, b: seq<Output>)
    requires forall m :: 0 <= m < |b| ==> !b[m].Stopped?
    ensures Outcomes(a + b) == Outcomes(a) + |b|
  {
    if b == [] {
      assert a + b == a;
    } else {
      var init := b[..|b| - 1];
      OutcomesAppend(a, init);
      assert (a + b)[..|a + b| - 1] == a + init;
    }
  }

  lemma {:induction false} ResolvedSize(resolved: seq<Resolution>, devices: set<DeviceId>)
    requires forall i, j :: 0 <= i < j < |resolved| ==> resolved[i].device != resolved[j].device
    requires forall i :: 0 <= i < |resolved| ==> resolved[i].device in devices
    requires forall d :: d in devices ==> Listed(d, resolved)
    ensures |resolved| == |devices|
  {
    if resolved == [] {
      assert devices == {};
    } else {
      var init, d := resolved[..|resolved| - 1], resolved[|resolved| - 1].device;
      forall d' | d' in devices - {d}
        ensures Listed(d', init)
      {
        var i: nat :| 0 <= i < |resolved| && resolved[i].device == d';
        assert init[i].device == d';
      }
      ResolvedSize(init, devices - {d});
    }
  }

  lemma FatedApart(run: seq<Event>, f: Fate, f': Fate)
    requires f != f'
    ensures Fated(run, f) !! Fated(run, f')
  {
    hide HasFate;
    forall i: nat | i in Fated(run, f) && i in Fated(run, f')
      ensures false
    {
      var j: nat, j': nat :| HasFate(run, i, f, j) && HasFate(run, i, f', j');
      FateUnique(run, i, f, j, f', j');
    }
  }

  /** The five fates share out the Plays of a run. */
  lemma FatesPartition(run: seq<Event>)
    ensures |Plays(run)| == |Fated(run, Processed)| + |Fated(run, ClearedByStop)| + |Fated(run, ClearedByErase)|
                            + |Fated(run, Superseded)| + |Fated(run, Held)|
  {
    hide HasFate;
    var p, cs, ce := Fated(run, Processed), Fated(run, ClearedByStop), Fated(run, ClearedByErase);
    var su, h := Fated(run, Superseded), Fated(run, Held);
    forall i: nat | i in Plays(run)
      ensures i in p + cs + ce + su + h
    {
      var fate, j := EveryPlayHasAFate(run, i);
      assert MeetsFate(run, i, fate);
    }
    assert Plays(run) == p + cs + ce + su + h;
    FatedApart(run, Processed, ClearedByStop);
    FatedApart(run, Processed, ClearedByErase);
    FatedApart(run, Processed, Superseded);
    FatedApart(run, Processed, Held);
    FatedApart(run, ClearedByStop, ClearedByErase);
    FatedApart(run, ClearedByStop, Superseded);
    FatedApart(run, ClearedByStop, Held);
    FatedApart(run, ClearedByErase, Superseded);
    FatedApart(run, ClearedByErase, Held);
    FatedApart(run, Superseded, Held);
    DisjointSizes(p, cs, ce, su, h);
  }

  /** The Plays still held are the entries of the pending table. */
  lemma HeldArePending(run: seq<Event>, s: AppState)
    requires PendingAgrees(run, s)
    ensures |Fated(run, Held)| == |s.pending|
  {
    hide WaitingSince, MeetsFate;
    var m := map i: nat | i in Fated(run, Held) :: run[i].device;
    forall i: nat | 0 <= i < |run| && run[i].Play?
      ensures i in m <==> WaitingSince(run, run[i].device, i)
    {
      HeldMeansWaiting(run, i);
    }
    forall d | d in s.pending
      ensures exists i: nat :: i in m && m[i] == d
    {
      var i: nat :| WaitingSince(run, d, i);
      WaitingIsAPlay(run, d, i);
      assert i in m && m[i] == d;
    }
    assert m.Keys == Fated(run, Held);
    WaitersByDevice(run, m, s.pending.Keys);
  }

  lemma HeldMeansWaiting(run: seq<Event>, i: nat)
    requires 0 <= i < |run| && run[i].Play?
    ensures MeetsFate(run, i, Held) <==> WaitingSince(run, run[i].device, i)
  {
    hide WaitingSince, InStore;
    assert run[..|run|] == run;
    if WaitingSince(run, run[i].device, i) {
      assert HasFate(run, i, Held, |run|);
    }
  }

  /** Waiting Plays and waiting devices are as many. */
  lemma WaitersByDevice(run: seq<Event>, m: map<nat, DeviceId>, devices: set<DeviceId>)
    requires forall i: nat :: i in m ==> WaitingSince(run, m[i], i)
    requires forall d :: d in devices ==> exists i: nat :: i in m && m[i] == d
    requires forall i: nat :: i in m ==> m[i] in devices
    ensures |m| == |devices|
  {
    hide WaitingSince;
    forall i: nat, i': nat | i in m && i' in m && m[i] == m[i']
      ensures i == i'
    {
      OneWaits(run, m[i], i, i');
    }
    assert devices == set i | i in m.Keys :: m[i];
    InjectiveImageSize(m.Keys, m, devices);
  }

  lemma OneWaits(run: seq<Event>, d: DeviceId, i: nat, i': nat)
    requires WaitingSince(run, d, i) && WaitingSince(run, d, i')
    ensures i == i'
  {
  }

  /** The Plays due at the last event, one per outcome it puts out. */
  ghost function Due(run: seq<Event>): set<nat> {
    set i: nat | 0 <= i < |run| && run[i].Play? && DueAt(run, run[i].device, i)
  }

  lemma DueMatchesOutcomes(run: seq<Event>, s: AppState, e: Event)
    requires Agrees(run, s) && Enabled(s, e)
    ensures Outcomes(Step(s, e).output) == Outcomes(s.output) + |Due(run + [e])|
  {
    hide Agrees, Due, Enabled, Outcomes;
    var outs := Since(s, Step(s, e));
    if e.Upload? {
      UploadMatchesOutcomes(run, s, e);
    } else if e.Play? {
      hide Step, Since;
      PlayOutcome(run, s, e, outs);
      PlayDueSize(run, e);
      OutcomesAppend(s.output, outs);
    } else {
      NothingDueSize(run, e);
      if e.Stop? { StoppedIsNoOutcome(s.output, e.device); }
    }
  }

  lemma StoppedIsNoOutcome(output: seq<Output>, device: DeviceId)
    ensures Outcomes(output + [Stopped(device)]) == Outcomes(output)
  {
    assert (output + [Stopped(device)])[..|output|] == output;
  }

  lemma PlayDueSize(run: seq<Event>, e: Event)
    requires e.Play?
    ensures |Due(run + [e])| == if InStore(run, e.effectId) then 1 else 0
  {
    hide InStore, DueAt;
    var longer := run + [e];
    forall i: nat | 0 <= i < |longer| && longer[i].Play?
      ensures i in Due(longer) <==> i == |run| && InStore(run, e.effectId)
    {
      DueOnPlay(run, e, longer[i].device, i);
    }
    assert Due(longer) == if InStore(run, e.effectId) then {|run|} else {};
  }

  lemma NothingDueSize(run: seq<Event>, e: Event)
    requires e.Stop? || e.Erase?
    ensures |Due(run + [e])| == 0
  {
    hide DueAt;
    var longer := run + [e];
    forall i: nat | 0 <= i < |longer| && longer[i].Play?
      ensures i !in Due(longer)
    {
      NothingDue(run, e, longer[i].device, i);
    }
    assert Due(longer) == {};
  }

  lemma UploadMatchesOutcomes(run: seq<Event>, s: AppState, e: Event)
    requires Agrees(run, s) && Enabled(s, e) && e.Upload?
    ensures Outcomes(Step(s, e).output) == Outcomes(s.output) + |Due(run + [e])|
  {
    var outs := Since(s, Step(s, e));
    UploadOutcomes(run, s, e, outs);
    assert ResolvesEach(s.pending, e.effectId, e.resolved);
    hide Step, Since, Due, Enabled, Agrees, Outcomes, WaitingOn;
    OutcomesAppend(s.output, outs);
    ResolvedSize(e.resolved, WaitingOn(s.pending, e.effectId));
    DueAreWaiting(run, s, e);
  }

  lemma DueAreWaiting(run: seq<Event>, s: AppState, e: Event)
    requires Agrees(run, s) && e.Upload?
    ensures |Due(run + [e])| == |WaitingOn(s.pending, e.effectId)|
  {
    hide WaitingSince, HasFate;
    var longer := run + [e];
    var m := map i: nat | i in Due(longer) :: longer[i].device;
    forall i: nat | i in m
      ensures WaitingSince(run, m[i], i) && m[i] in WaitingOn(s.pending, e.effectId)
    {
      DueOnUpload(run, e, m[i], i);
    }
    forall d | d in WaitingOn(s.pending, e.effectId)
      ensures exists i: nat :: i in m && m[i] == d
    {
      var i: nat :| WaitingSince(run, d, i);
      DueOnUpload(run, e, d, i);
      assert i in m && m[i] == d;
    }
    assert m.Keys == Due(longer);
    WaitersByDevice(run, m, WaitingOn(s.pending, e.effectId));
  }

  /** Plays processed so far are the outcomes put out so far. */
  lemma {:induction false} ProcessedAreOutcomes(sine: SineFn, start: Instant, run: seq<Event>)
    requires WellFormedRun(run) && Exec(Initial(sine, start), run).Some?
    ensures |Fated(run, Processed)| == Outcomes(Exec(Initial(sine, start), run).value.output)
  {
    if run != [] {
      var init, e := run[..|run| - 1], run[|run| - 1];
      assert init + [e] == run;
      ProcessedAreOutcomes(sine, start, init);
      ReachableAgrees(sine, start, init);
      DueMatchesOutcomes(init, Exec(Initial(sine, start), init).value, e);
      ProcessedGrows(run);
    }
  }

  lemma ProcessedGrows(run: seq<Event>)
    requires run != []
    ensures |Fated(run, Processed)| == |Fated(run[..|run| - 1], Processed)| + |Due(run)|
  {
    hide HasFate;
    var init := run[..|run| - 1];
    forall i: nat | 0 <= i < |run| && run[i].Play?
      ensures i in Fated(run, Processed) <==> i in Fated(init, Processed) || i in Due(run)
      ensures !(i in Fated(init, Processed) && i in Due(run))
    {
      ProcessedEarlierOrNow(run, i);
    }
    assert Fated(run, Processed) == Fated(init, Processed) + Due(run);
    assert Fated(init, Processed) !! Due(run);
  }

  lemma ProcessedEarlierOrNow(run: seq<Event>, i: nat)
    requires 0 <= i < |run| && run[i].Play?
    ensures i in Fated(run, Processed) <==> i in Fated(run[..|run| - 1], Processed) || i in Due(run)
    ensures !(i in Fated(run[..|run| - 1], Processed) && i in Due(run))
  {
    var n: nat, init := |run| - 1, run[..|run| - 1];
    hide WaitingSince, InStore;
    if j: nat :| HasFate(run, i, Processed, j) {
      if j < n { FateStable(run, i, Processed, j, n); }
    }
    if i < n {
      if j: nat :| HasFate(init, i, Processed, j) {
        FateStable(run, i, Processed, j, n);
        if i in Due(run) { FateUnique(run, i, Processed, j, Processed, n); }
      }
    }
  }

  /** Conservation: the Plays a run receives are those processed, one outcome
      each, those cleared by a Stop or an Erase, those superseded by a later Play
      on their device, and those the pending table still holds. */
  lemma PlaysConserved(sine: SineFn, start: Instant, run: seq<Event>)
    requires WellFormedRun(run) && Exec(Initial(sine, start), run).Some?
    ensures var s := Exec(Initial(sine, start), run).value;
            |Plays(run)| == Outcomes(s.output) + |Fated(run, ClearedByStop)| + |Fated(run, ClearedByErase)|
                            + |Fated(run, Superseded)| + |s.pending|
  {
    FatesPartition(run);
    ReachableAgrees(sine, start, run);
    HeldArePending(run, Exec(Initial(sine, start), run).value);
    ProcessedAreOutcomes(sine, start, run);
  }
}
