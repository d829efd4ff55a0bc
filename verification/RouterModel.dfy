/** The daemon's event handling as a transition system: what src/app.rs holds
    between events and what each event does to it. Whatever the program does not
    decide itself, the order a hash table yields its entries and the readings of
    the clock, is part of the event. */
module RouterModel {
  import opened Effects
  import opened Throttling
  import opened Translation

  type EffectId = Short
  type Tgid = DWord
  type Key = (Tgid, EffectId)
  type Store = map<Key, FfEffect>
  type Pending = map<DeviceId, PendingPlay>

  /** A Play held until its effect arrives. */
  datatype PendingPlay = PendingPlay(effectId: EffectId, issuedAt: Instant)

  /** What the daemon asks of playback, and the two ways it drops a Play. */
  datatype Output =
    | Scheduled(device: DeviceId, effectId: EffectId, points: seq<HapticPoint>, checkedAt: Instant, recordedAt: Instant)
    | Throttled(device: DeviceId, effectId: EffectId)
    | NoPoints(device: DeviceId, effectId: EffectId)
    | Stopped(device: DeviceId)

  datatype AppState = AppState(
    sine: SineFn,
    store: Store,
    pending: Pending,
    lastHaptic: Option<Instant>,
    clock: Instant,
    output: seq<Output>)

  /** The throttle is asked at one reading and told at a later one. */
  datatype Reading = Reading(checkedAt: Instant, recordedAt: Instant)

  datatype Resolution = Resolution(device: DeviceId, at: Reading)

  datatype Event =
    | Upload(tgid: Tgid, effectId: EffectId, effect: FfEffect, resolved: seq<Resolution>)
    | Erase(tgid: Tgid, effectId: EffectId)
    | Play(device: DeviceId, effectId: EffectId, found: Option<Key>, at: Reading)
    | Stop(device: DeviceId, effectId: EffectId)

  function Initial(sine: SineFn, start: Instant): AppState {
    AppState(sine, map[], map[], None, start, [])
  }

  // ---- What each event does ----

  function Purge(store: Store, id: EffectId): Store {
    map k | k in store && k.1 != id :: store[k]
  }

  function Upsert(store: Store, tgid: Tgid, id: EffectId, effect: FfEffect): Store {
    Purge(store, id)[(tgid, id) := effect]
  }

  function WaitingOn(pending: Pending, id: EffectId): set<DeviceId> {
    set d | d in pending && pending[d].effectId == id
  }

  function ProcessPlay(s: AppState, device: DeviceId, id: EffectId, effect: FfEffect, at: Reading): AppState {
    if MayEmit(s.lastHaptic, at.checkedAt) then
      var points := Translate(s.sine, effect);
      if points != [] then
        s.(lastHaptic := Some(at.recordedAt), clock := at.recordedAt,
           output := s.output + [Scheduled(device, id, points, at.checkedAt, at.recordedAt)])
      else
        s.(clock := at.checkedAt, output := s.output + [NoPoints(device, id)])
    else
      s.(clock := at.checkedAt, output := s.output + [Throttled(device, id)])
  }

  function ResolveAll(s: AppState, id: EffectId, effect: FfEffect, resolved: seq<Resolution>): AppState {
    if resolved == [] then s
    else
      var r := resolved[|resolved| - 1];
      ProcessPlay(ResolveAll(s, id, effect, resolved[..|resolved| - 1]), r.device, id, effect, r.at)
  }

  function Uploaded(s: AppState, tgid: Tgid, id: EffectId, effect: FfEffect): AppState {
    s.(store := Upsert(s.store, tgid, id, effect), pending := s.pending - WaitingOn(s.pending, id))
  }

  /** The state after an event that can happen in `s`. */
  function Step(s: AppState, e: Event): AppState
    requires Enabled(s, e)
  {
    match e
    case Upload(tgid, id, effect, resolved) =>
      ResolveAll(Uploaded(s, tgid, id, effect), id, effect, resolved)
    case Erase(_, id) =>
      s.(store := Purge(s.store, id), pending := s.pending - WaitingOn(s.pending, id))
    case Stop(device, id) =>
      s.(store := Purge(s.store, id), pending := s.pending - {device}, output := s.output + [Stopped(device)])
    case Play(device, id, Some(key), at) =>
      ProcessPlay(s.(pending := s.pending - {device}), device, id, s.store[key], at)
    case Play(device, id, None, at) =>
      s.(pending := s.pending[device := PendingPlay(id, at.checkedAt)], clock := at.checkedAt)
  }

  // ---- When an event can happen ----

  predicate Timely(clock: Instant, at: Reading) {
    clock <= at.checkedAt <= at.recordedAt
  }

  predicate TimelyAll(s: AppState, id: EffectId, effect: FfEffect, resolved: seq<Resolution>) {
    resolved == [] ||
    var init := resolved[..|resolved| - 1];
    && TimelyAll(s, id, effect, init)
    && Timely(ResolveAll(s, id, effect, init).clock, resolved[|resolved| - 1].at)
  }

  /** `resolved` lists the devices waiting on `id`, each once, in some order. */
  ghost predicate ResolvesEach(pending: Pending, id: EffectId, resolved: seq<Resolution>) {
    && (forall i, j :: 0 <= i < j < |resolved| ==> resolved[i].device != resolved[j].device)
    && (forall i :: 0 <= i < |resolved| ==> resolved[i].device in WaitingOn(pending, id))
    && (forall d :: d in WaitingOn(pending, id) ==> Listed(d, resolved))
  }

  ghost predicate Listed(d: DeviceId, resolved: seq<Resolution>) {
    exists i :: 0 <= i < |resolved| && resolved[i].device == d
  }

  /** The scan of the table's values yields some entry that carries the id, if any does. */
  ghost predicate Finds(store: Store, id: EffectId, found: Option<Key>) {
    match found
    case Some(key) => key in store && store[key].id == id
    case None => forall k :: k in store ==> store[k].id != id
  }

  ghost predicate Enabled(s: AppState, e: Event) {
    match e
    case Upload(tgid, id, effect, resolved) =>
      ResolvesEach(s.pending, id, resolved) && TimelyAll(Uploaded(s, tgid, id, effect), id, effect, resolved)
    case Erase(_, _) => true
    case Stop(_, _) => true
    case Play(_, id, found, at) => Finds(s.store, id, found) && Timely(s.clock, at)
  }

  ghost predicate Transition(s: AppState, e: Event, s': AppState) {
    Enabled(s, e) && s' == Step(s, e)
  }

  // ---- Runs ----

  /** The state a run leads to, if each of its events can happen when it does. */
  ghost function Exec(s: AppState, run: seq<Event>): Option<AppState> {
    if run == [] then Some(s)
    else
      var before := Exec(s, run[..|run| - 1]);
      var e := run[|run| - 1];
      if before.Some? && Enabled(before.value, e) then Some(Step(before.value, e)) else None
  }

  lemma ExecNext(s: AppState, run: seq<Event>, at: AppState, e: Event)
    requires Exec(s, run) == Some(at) && Enabled(at, e)
    ensures Exec(s, run + [e]) == Some(Step(at, e))
  {
    hide Enabled, Step;
    assert (run + [e])[..|run|] == run;
  }

  lemma ExecNothing(s: AppState)
    ensures Exec(s, []) == Some(s)
  {
  }

  /** The probe's promise: the effect carries the id it is uploaded under. */
  predicate WellFormed(e: Event) {
    e.Upload? ==> e.effect.id == e.effectId
  }

  ghost predicate WellFormedRun(run: seq<Event>) {
    forall i :: 0 <= i < |run| ==> WellFormed(run[i])
  }

  // ---- Processing a batch touches only throttle, clock and output ----

  /** What was put out on the way from `s` to `s'`. */
  function Since(s: AppState, s': AppState): seq<Output> {
    if |s.output| <= |s'.output| then s'.output[|s.output|..] else []
  }

  lemma ProcessPlayFrame(s: AppState, device: DeviceId, id: EffectId, effect: FfEffect, at: Reading)
    ensures var s' := ProcessPlay(s, device, id, effect, at);
            && s'.sine == s.sine && s'.store == s.store && s'.pending == s.pending
            && |Since(s, s')| == 1 && s'.output == s.output + Since(s, s')
            && Answers(Since(s, s')[0], s.sine, device, id, effect)
  {
  }

  lemma {:induction false} ResolveAllFrame(s: AppState, id: EffectId, effect: FfEffect, resolved: seq<Resolution>)
    ensures var s' := ResolveAll(s, id, effect, resolved);
            && s'.sine == s.sine && s'.store == s.store && s'.pending == s.pending
            && |Since(s, s')| == |resolved| && s'.output == s.output + Since(s, s')
            && forall i :: 0 <= i < |resolved| ==> Answers(Since(s, s')[i], s.sine, resolved[i].device, id, effect)
  {
    hide ProcessPlay, Answers;
    if resolved != [] {
      var init, r := resolved[..|resolved| - 1], resolved[|resolved| - 1];
      var s1, s' := ResolveAll(s, id, effect, init), ResolveAll(s, id, effect, resolved);
      ResolveAllFrame(s, id, effect, init);
      ProcessPlayFrame(s1, r.device, id, effect, r.at);
      assert Since(s, s') == Since(s, s1) + Since(s1, s');
    }
  }

  /** An outcome of a Play of `effect` under `id` on `device`; if it was
      scheduled, then with exactly the translation of the effect. */
  predicate Answers(o: Output, sine: SineFn, device: DeviceId, id: EffectId, effect: FfEffect) {
    match o
    case Scheduled(d, i, points, _, _) => d == device && i == id && points == Translate(sine, effect) && points != []
    case Throttled(d, i) => d == device && i == id
    case NoPoints(d, i) => d == device && i == id && Translate(sine, effect) == []
    case Stopped(_) => false
  }

  // ---- The store and the waiting plays ----

  /** Each entry is stored under its own id, ids are unique across processes,
      and nothing waits for an effect that is already here. */
  ghost predicate Consistent(s: AppState) {
    && (forall k :: k in s.store ==> s.store[k].id == k.1)
    && (forall k, k' :: k in s.store && k' in s.store && k.1 == k'.1 ==> k == k')
    && (forall d, k :: d in s.pending && k in s.store ==> k.1 != s.pending[d].effectId)
  }

  lemma StepConsistent(s: AppState, e: Event)
    requires Consistent(s) && WellFormed(e) && Enabled(s, e)
    ensures Consistent(Step(s, e))
  {
    hide ProcessPlay, ResolveAll, TimelyAll, Purge, Upsert, Consistent, WaitingOn;
    match e
    case Upload(tgid, id, effect, resolved) =>
      UploadedConsistent(s, tgid, id, effect);
      ResolveAllFrame(Uploaded(s, tgid, id, effect), id, effect, resolved);
      SameTablesConsistent(Uploaded(s, tgid, id, effect), Step(s, e));
    case Play(device, id, Some(key), at) =>
      var freed := s.(pending := s.pending - {device});
      FewerConsistent(s, freed);
      ProcessPlayFrame(freed, device, id, s.store[key], at);
      SameTablesConsistent(freed, Step(s, e));
    case Play(_, _, None, _) =>
      MissConsistent(s, e);
    case Erase(_, id) =>
      PurgeIsFewer(s.store, id);
      FewerConsistent(s, Step(s, e));
    case Stop(_, id) =>
      PurgeIsFewer(s.store, id);
      FewerConsistent(s, Step(s, e));
  }

  lemma SameTablesConsistent(s: AppState, s': AppState)
    requires Consistent(s) && s'.store == s.store && s'.pending == s.pending
    ensures Consistent(s')
  {
  }

  ghost predicate FewerIn<K, V>(m: map<K, V>, m': map<K, V>) {
    forall k {:trigger k in m'} :: k in m' ==> k in m && m'[k] == m[k]
  }

  lemma PurgeIsFewer(store: Store, id: EffectId)
    ensures FewerIn(store, Purge(store, id))
  {
  }

  /** Taking entries out of the tables keeps them consistent. */
  lemma FewerConsistent(s: AppState, s': AppState)
    requires Consistent(s) && FewerIn(s.store, s'.store) && FewerIn(s.pending, s'.pending)
    ensures Consistent(s')
  {
  }

  lemma UploadedConsistent(s: AppState, tgid: Tgid, id: EffectId, effect: FfEffect)
    requires Consistent(s) && effect.id == id
    ensures Consistent(Uploaded(s, tgid, id, effect))
  {
  }

  lemma MissConsistent(s: AppState, e: Event)
    requires Consistent(s) && Enabled(s, e) && e.Play? && e.found.None?
    ensures Consistent(Step(s, e))
  {
  }

  /** The invariant holds in every state a run with well-formed uploads reaches. */
  lemma {:induction false} ReachableConsistent(sine: SineFn, start: Instant, run: seq<Event>)
    requires WellFormedRun(run) && Exec(Initial(sine, start), run).Some?
    ensures Consistent(Exec(Initial(sine, start), run).value)
  {
    if run != [] {
      var init := run[..|run| - 1];
      ReachableConsistent(sine, start, init);
      StepConsistent(Exec(Initial(sine, start), init).value, run[|run| - 1]);
    }
  }

  /** Whichever order the table yields its entries in, the scan finds the same one. */
  lemma LookupOrderIndependent(s: AppState, id: EffectId, found: Option<Key>, found': Option<Key>)
    requires Consistent(s) && Finds(s.store, id, found) && Finds(s.store, id, found')
    ensures found == found'
    ensures found.Some? <==> exists tgid: Tgid :: (tgid, id) in s.store
  {
    if found.Some? {
      assert (found.value.0, id) in s.store;
    }
  }

  /** Without the probe's promise the scan can depend on the order: two uploads
      that both carry id 7 leave two candidates for a Play of 7. */
  lemma LookupAmbiguousWithoutPromise(sine: SineFn)
    ensures exists run: seq<Event>, s: AppState, k: Key, k': Key ::
              Exec(Initial(sine, 0), run) == Some(s) && k != k' && Finds(s.store, 7, Some(k))
                      && Finds(s.store, 7, Some(k'))
  {
    hide *;
    var run, s := AmbiguousRun(sine);
    var k: Key, k': Key := (1, 5), (1, 6);
    assert Exec(Initial(sine, 0), run) == Some(s) && k != k'
           && Finds(s.store, 7, Some(k)) && Finds(s.store, 7, Some(k'));
  }

  lemma AmbiguousRun(sine: SineFn) returns (run: seq<Event>, s: AppState)
    ensures Exec(Initial(sine, 0), run) == Some(s)
    ensures Finds(s.store, 7, Some((1, 5))) && Finds(s.store, 7, Some((1, 6)))
  {
    var effect := FfEffect(FF_RUMBLE, 7, 0, 0, 0, 100, 0, [0, 0, 0, 0, 0, 0, 0]);
    var e, e' := Upload(1, 5, effect, []), Upload(1, 6, effect, []);
    hide Enabled, Step, Exec;
    var s1: AppState;
    s1, s := TwoStored(sine, effect, e, e');
    ExecNothing(Initial(sine, 0));
    ExecNext(Initial(sine, 0), [], Initial(sine, 0), e);
    ExecNext(Initial(sine, 0), [] + [e], s1, e');
    run := [] + [e] + [e'];
  }

  lemma TwoStored(sine: SineFn, effect: FfEffect, e: Event, e': Event) returns (s1: AppState, s2: AppState)
    requires effect.id == 7 && e == Upload(1, 5, effect, []) && e' == Upload(1, 6, effect, [])
    ensures Enabled(Initial(sine, 0), e) && s1 == Step(Initial(sine, 0), e)
    ensures Enabled(s1, e') && s2 == Step(s1, e')
    ensures s2.store == map[(1, 5) := effect, (1, 6) := effect]
  {
    s1 := Step(Initial(sine, 0), e);
    s2 := Step(s1, e');
  }
}
