/** `App` of src/app.rs: the object that updates the daemon's tables in place.
    Every handler is proved to perform a transition of the router model. */
module Router {
  import opened Effects
  import opened Throttling
  import opened Translation
  import opened RouterModel

  lemma NoneResolved(s: AppState, id: EffectId, effect: FfEffect)
    ensures TimelyAll(s, id, effect, []) && ResolveAll(s, id, effect, []) == s
  {
  }

  lemma OneMoreResolved(s: AppState, id: EffectId, effect: FfEffect, resolved: seq<Resolution>, r: Resolution)
    ensures TimelyAll(s, id, effect, resolved + [r])
            <==> TimelyAll(s, id, effect, resolved) && Timely(ResolveAll(s, id, effect, resolved).clock, r.at)
    ensures ResolveAll(s, id, effect, resolved + [r])
            == RouterModel.ProcessPlay(ResolveAll(s, id, effect, resolved), r.device, id, effect, r.at)
  {
    hide RouterModel.ProcessPlay;
    assert (resolved + [r])[..|resolved|] == resolved;
  }

  /** The devices taken are those waiting, so the resolutions cover them. */
  lemma TakenAreResolved(pending: Pending, id: EffectId, taken: seq<(DeviceId, PendingPlay)>, resolved: seq<Resolution>)
    requires |resolved| == |taken| && forall i :: 0 <= i < |taken| ==> resolved[i].device == taken[i].0
    requires forall i, j :: 0 <= i < j < |taken| ==> taken[i].0 != taken[j].0
    requires forall i :: 0 <= i < |taken| ==> taken[i].0 in WaitingOn(pending, id)
    requires forall d :: d in WaitingOn(pending, id) ==> exists i :: 0 <= i < |taken| && taken[i].0 == d
    ensures ResolvesEach(pending, id, resolved)
  {
    hide WaitingOn;
    forall d | d in WaitingOn(pending, id)
      ensures Listed(d, resolved)
    {
      var i :| 0 <= i < |taken| && taken[i].0 == d;
      assert resolved[i].device == d;
    }
  }

  class App {
    const sine: SineFn
    const throttle: Throttle
    const clock: Clock
    var effectStore: Store
    var pendingPlays: Pending
    /** The calls made to playback and the plays dropped, in order. */
    var output: seq<Output>

    ghost function Snapshot(): AppState
      reads this, throttle, clock
    {
      AppState(sine, effectStore, pendingPlays, throttle.lastHaptic, clock.now, output)
    }

    constructor (sine: SineFn, clock: Clock)
      ensures this.sine == sine && this.clock == clock && fresh(throttle)
      ensures Snapshot() == Initial(sine, clock.now)
    {
      this.sine := sine;
      this.clock := clock;
      throttle := new Throttle();
      effectStore := map[];
      pendingPlays := map[];
      output := [];
    }

    method HandleEffectUploaded(tgid: Tgid, effectId: EffectId, effect: FfEffect)
      modifies this, throttle, clock
      ensures exists resolved ::
                Transition(old(Snapshot()), Upload(tgid, effectId, effect, resolved), Snapshot())
    {
      ghost var s0 := Snapshot();
      UpsertEffect(tgid, effectId, effect);
      var taken := TakeAllPendingMatchingEffect(effectId);
      ghost var s1 := Snapshot();
      assert s1 == Uploaded(s0, tgid, effectId, effect);
      hide TimelyAll, ResolveAll, RouterModel.ProcessPlay, Upsert, Purge, ResolvesEach, WaitingOn;
      ghost var resolved := ResolveTaken(effectId, effect, taken);
      TakenAreResolved(s0.pending, effectId, taken, resolved);
      assert Transition(s0, Upload(tgid, effectId, effect, resolved), Snapshot());
    }

    /** The loop of `handle_effect_uploaded`. */
    method ResolveTaken(effectId: EffectId, effect: FfEffect, taken: seq<(DeviceId, PendingPlay)>)
      returns (ghost resolved: seq<Resolution>)
      requires forall i :: 0 <= i < |taken| ==> taken[i].1.effectId == effectId
      modifies this`output, throttle, clock
      ensures |resolved| == |taken| && forall i :: 0 <= i < |taken| ==> resolved[i].device == taken[i].0
      ensures TimelyAll(old(Snapshot()), effectId, effect, resolved)
      ensures Snapshot() == ResolveAll(old(Snapshot()), effectId, effect, resolved)
    {
      ghost var s := Snapshot();
      resolved := [];
      NoneResolved(s, effectId, effect);
      hide TimelyAll, ResolveAll, RouterModel.ProcessPlay;
      for i := 0 to |taken|
        invariant |resolved| == i && forall j :: 0 <= j < i ==> resolved[j].device == taken[j].0
        invariant TimelyAll(s, effectId, effect, resolved)
        invariant Snapshot() == ResolveAll(s, effectId, effect, resolved)
      {
        ghost var at := ProcessPlay(taken[i].0, taken[i].1.effectId, effect);
        OneMoreResolved(s, effectId, effect, resolved, Resolution(taken[i].0, at));
        resolved := resolved + [Resolution(taken[i].0, at)];
      }
    }

    method HandleEffectErased(tgid: Tgid, effectId: EffectId)
      modifies this
      ensures Transition(old(Snapshot()), Erase(tgid, effectId), Snapshot())
    {
      PurgeEffectId(effectId);
      var _ := TakeAllPendingMatchingEffect(effectId);
    }

    /** The two arms of `handle_ff_event`. */
    method HandleStop(device: DeviceId, effectId: EffectId)
      modifies this
      ensures Transition(old(Snapshot()), Stop(device, effectId), Snapshot())
    {
      PurgeEffectId(effectId);
      var _ := TakePendingForDevice(device);
      output := output + [Stopped(device)];
    }

    method HandlePlay(device: DeviceId, effectId: EffectId)
      modifies this, throttle, clock
      ensures exists found, at :: Transition(old(Snapshot()), Play(device, effectId, found, at), Snapshot())
    {
      var found := FindEffect(effectId);
      match found {
        case Some(key) =>
          var effect := effectStore[key];
          var _ := TakePendingForDevice(device);
          ghost var at := ProcessPlay(device, effectId, effect);
          assert Transition(old(Snapshot()), Play(device, effectId, found, at), Snapshot());
        case None =>
          var now := clock.Read();
          InsertPending(device, effectId, now);
          assert Transition(old(Snapshot()), Play(device, effectId, found, Reading(now, now)), Snapshot());
      }
    }

    /** Throttle check, translation, scheduling; the throttle is told only when
        something was scheduled. */
    method ProcessPlay(device: DeviceId, effectId: EffectId, effect: FfEffect) returns (ghost at: Reading)
      modifies this`output, throttle, clock
      ensures Timely(old(clock.now), at)
      ensures Snapshot() == RouterModel.ProcessPlay(old(Snapshot()), device, effectId, effect, at)
    {
      var ok := throttle.ShouldEmitHaptic(clock);
      var checkedAt := clock.now;
      at := Reading(checkedAt, checkedAt);
      if ok {
        var points := Translate(sine, effect);
        if points != [] {
          ghost var before := output;
          throttle.RecordHapticEmitted(clock);
          at := Reading(checkedAt, clock.now);
          output := output + [Scheduled(device, effectId, points, checkedAt, clock.now)];
        } else {
          output := output + [NoPoints(device, effectId)];
        }
      } else {
        output := output + [Throttled(device, effectId)];
      }
    }

    method PurgeEffectId(effectId: EffectId)
      modifies this`effectStore
      ensures effectStore == Purge(old(effectStore), effectId)
    {
      effectStore := map k | k in effectStore && k.1 != effectId :: effectStore[k];
    }

    method UpsertEffect(tgid: Tgid, effectId: EffectId, effect: FfEffect)
      modifies this`effectStore
      ensures effectStore == Upsert(old(effectStore), tgid, effectId, effect)
    {
      PurgeEffectId(effectId);
      effectStore := effectStore[(tgid, effectId) := effect];
    }

    /** `values().find(..)`: the first match in whatever order the table yields. */
    method FindEffect(effectId: EffectId) returns (found: Option<Key>)
      ensures Finds(effectStore, effectId, found)
    {
      var rest := effectStore.Keys;
      while rest != {}
        invariant rest <= effectStore.Keys
        invariant forall k :: k in effectStore && k !in rest ==> effectStore[k].id != effectId
        decreases |rest|
      {
        var k :| k in rest;
        if effectStore[k].id == effectId {
          return Some(k);
        }
        rest := rest - {k};
      }
      return None;
    }

    method InsertPending(device: DeviceId, effectId: EffectId, issuedAt: Instant)
      modifies this`pendingPlays
      ensures pendingPlays == old(pendingPlays)[device := PendingPlay(effectId, issuedAt)]
    {
      pendingPlays := pendingPlays[device := PendingPlay(effectId, issuedAt)];
    }

    method TakePendingForDevice(device: DeviceId) returns (taken: Option<PendingPlay>)
      modifies this`pendingPlays
      ensures pendingPlays == old(pendingPlays) - {device}
      ensures taken == if device in old(pendingPlays) then Some(old(pendingPlays)[device]) else None
    {
      taken := if device in pendingPlays then Some(pendingPlays[device]) else None;
      pendingPlays := pendingPlays - {device};
    }

    /** Collect the matching devices, then remove them one by one. */
    method TakeAllPendingMatchingEffect(effectId: EffectId) returns (taken: seq<(DeviceId, PendingPlay)>)
      modifies this`pendingPlays
      ensures pendingPlays == old(pendingPlays) - WaitingOn(old(pendingPlays), effectId)
      ensures forall i, j :: 0 <= i < j < |taken| ==> taken[i].0 != taken[j].0
      ensures forall i :: 0 <= i < |taken| ==>
                taken[i].0 in WaitingOn(old(pendingPlays), effectId) && taken[i].1 == old(pendingPlays)[taken[i].0]
      ensures forall d :: d in WaitingOn(old(pendingPlays), effectId) ==>
                exists i :: 0 <= i < |taken| && taken[i].0 == d
    {
      ghost var all := pendingPlays;
      var devices := MatchingDevices(effectId);
      taken := [];
      for i := 0 to |devices|
        invariant |taken| == i
        invariant forall j :: 0 <= j < i ==> taken[j].0 == devices[j] && taken[j].1 == all[devices[j]]
        invariant pendingPlays == all - set j | 0 <= j < i :: devices[j]
      {
        ghost var gone := set j | 0 <= j < i :: devices[j];
        var d := devices[i];
        assert d !in gone;
        var p := TakePendingForDevice(d);
        taken := taken + [(d, p.value)];
        assert (set j | 0 <= j < i + 1 :: devices[j]) == gone + {d};
      }
      assert (set j | 0 <= j < |devices| :: devices[j]) == WaitingOn(all, effectId);
      forall d | d in WaitingOn(all, effectId)
        ensures exists i :: 0 <= i < |taken| && taken[i].0 == d
      {
        var i :| 0 <= i < |devices| && devices[i] == d;
        assert taken[i].0 == d;
      }
    }

    method MatchingDevices(effectId: EffectId) returns (devices: seq<DeviceId>)
      ensures forall i, j :: 0 <= i < j < |devices| ==> devices[i] != devices[j]
      ensures forall i :: 0 <= i < |devices| ==> devices[i] in WaitingOn(pendingPlays, effectId)
      ensures forall d :: d in WaitingOn(pendingPlays, effectId) ==> d in devices
    {
      devices := [];
      var rest := pendingPlays.Keys;
      while rest != {}
        invariant rest <= pendingPlays.Keys
        invariant forall i, j :: 0 <= i < j < |devices| ==> devices[i] != devices[j]
        invariant forall d :: d in devices <==> d in WaitingOn(pendingPlays, effectId) && d !in rest
        decreases |rest|
      {
        var d :| d in rest;
        rest := rest - {d};
        if pendingPlays[d].effectId == effectId {
          devices := devices + [d];
        }
      }
    }
  }
}
