/** `PlaybackInner` of src/playback.rs, one method per atomic section: what
    happens between two awaits, or while the table is locked. Each is proved to
    perform its step of the playback model. */
module Playback {
  import opened Effects
  import opened Interpolation
  import opened Lines
  import opened Translation
  import opened PlaybackModel

  lemma HoldersOwnTheirDevice(s: PlaybackState)
    requires TableSound(s)
    ensures forall d :: d in s.slots ==> s.slots[d].task < |s.tasks| && s.tasks[s.slots[d].task].device == d
  {
    assert forall d :: d in s.slots ==> SlotSound(s, d);
  }

  /** A table drained down to the devices in `kept`. */
  ghost predicate DrainedTo(s: PlaybackState, spawned: seq<PlayTask>, kept: set<DeviceId>) {
    && |spawned| == |s.tasks|
    && forall i :: 0 <= i < |spawned| ==>
         (spawned[i] == if s.tasks[i].device in kept then s.tasks[i] else AbortEvery(s)[i])
  }

  lemma DrainOne(s: PlaybackState, spawned: seq<PlayTask>, kept: set<DeviceId>, device: DeviceId)
    requires DrainedTo(s, spawned, kept) && device in kept && device in s.slots
    requires s.slots[device].task < |s.tasks| && s.tasks[s.slots[device].task].device == device
    ensures DrainedTo(s, AbortTask(spawned, s.slots[device].task), kept - {device})
  {
  }

  lemma DrainedEnds(s: PlaybackState, spawned: seq<PlayTask>, kept: set<DeviceId>)
    requires kept == {} || kept == s.slots.Keys
    ensures kept == {} && DrainedTo(s, spawned, kept) ==> spawned == AbortEvery(s)
    ensures kept == s.slots.Keys ==> DrainedTo(s, s.tasks, kept)
  {
  }

  /** What is left of a table as entries are removed. */
  ghost predicate RestOfTable(full: map<DeviceId, Slot>, rest: map<DeviceId, Slot>) {
    forall d :: d in rest ==> d in full && rest[d] == full[d]
  }

  lemma WholeTable(full: map<DeviceId, Slot>)
    ensures RestOfTable(full, full)
  {
  }

  lemma TableEntry(full: map<DeviceId, Slot>, rest: map<DeviceId, Slot>, d: DeviceId)
    requires RestOfTable(full, rest) && d in rest
    ensures d in full && rest[d] == full[d] && RestOfTable(full, rest - {d})
    ensures (rest - {d}).Keys == rest.Keys - {d}
  {
  }

  class PlaybackInner {
    const deviceMap: DeviceMap
    /** The connected toys. */
    const toys: set<ToyId>
    var scale: real
    /** The table: the generation and the handle of each device's task. */
    var tasks: map<DeviceId, Slot>
    var genCounter: nat
    /** The tasks the handles stand for, in the order they were spawned. */
    var spawned: seq<PlayTask>
    var stopping: multiset<DeviceId>
    var stoppingAll: nat
    var sent: seq<Command>

    ghost function Snapshot(): PlaybackState
      reads this
    {
      PlaybackState(deviceMap, toys, scale, spawned, tasks, genCounter, stopping, stoppingAll, sent)
    }

    constructor (deviceMap: DeviceMap, toys: set<ToyId>, scale: real)
      ensures Snapshot() == Connected(deviceMap, toys, scale)
    {
      this.deviceMap := deviceMap;
      this.toys := toys;
      this.scale := scale;
      tasks := map[];
      genCounter := 0;
      spawned := [];
      stopping := multiset{};
      stoppingAll := 0;
      sent := [];
    }

    method SetScale(newScale: real)
      modifies this`scale
      ensures Snapshot() == After(old(Snapshot()), PlaybackStep.SetScale(newScale))
    {
      scale := newScale;
    }

    /** `schedule_sequence`: take a generation and spawn the task, then lock the
        table, insert it and abort the one it replaces. */
    method ScheduleSequence(device: DeviceId, points: seq<HapticPoint>)
      requires U32Times(points)
      modifies this`genCounter, this`spawned, this`tasks
      ensures Possible(After(old(Snapshot()), Spawn(device, points)), Insert(|old(spawned)|))
      ensures Snapshot() == After(After(old(Snapshot()), Spawn(device, points)), Insert(|old(spawned)|))
    {
      var n := SpawnTask(device, points);
      InsertTask(n);
    }

    method SpawnTask(device: DeviceId, points: seq<HapticPoint>) returns (n: nat)
      requires U32Times(points)
      modifies this`genCounter, this`spawned
      ensures n == |old(spawned)|
      ensures Snapshot() == After(old(Snapshot()), Spawn(device, points))
    {
      genCounter := (genCounter + 1) % GENERATIONS;
      var schedule := InterpolatePoints(points);
      n := |spawned|;
      spawned := spawned + [PlayTask(device, genCounter, schedule, 0, Running, false)];
    }

    method InsertTask(n: nat)
      requires Possible(Snapshot(), Insert(n))
      modifies this`spawned, this`tasks
      ensures Snapshot() == After(old(Snapshot()), Insert(n))
    {
      var device := spawned[n].device;
      var slot := Slot(spawned[n].generation, n);
      if device in tasks {
        Abort(tasks[device].task);
      }
      tasks := tasks[device := slot];
      spawned := spawned[n := spawned[n].(inserted := true)];
    }

    /** Aborting a task that is over does nothing. */
    method Abort(n: nat)
      modifies this`spawned
      ensures spawned == if n < |old(spawned)| then AbortTask(old(spawned), n) else old(spawned)
    {
      if n < |spawned| && spawned[n].progress.Running? {
        spawned := spawned[n := spawned[n].(progress := Aborted)];
      }
    }

    /** One turn of the loop in `play_sequence`. */
    method EmitFrame(n: nat)
      requires Possible(Snapshot(), Emit(n))
      modifies this`spawned, this`sent
      ensures Snapshot() == After(old(Snapshot()), Emit(n))
    {
      var t := spawned[n];
      SendScalar(ByTask(n, t.next), ResolveTargets(deviceMap, t.device), scale, t.schedule[t.next].intensity);
      spawned := spawned[n := t.(next := t.next + 1)];
    }

    /** The end of `play_sequence`: leave the table, if still its occupant. */
    method FinishTask(n: nat)
      requires Possible(Snapshot(), Finish(n))
      modifies this`spawned, this`tasks
      ensures Snapshot() == After(old(Snapshot()), Finish(n))
    {
      var t := spawned[n];
      if t.device in tasks && tasks[t.device].generation == t.generation {
        tasks := tasks - {t.device};
      }
      spawned := spawned[n := t.(progress := Finished)];
    }

    /** `stop`: first the table, then, the lock released, the zero. */
    method Stop(device: DeviceId)
      modifies this`spawned, this`tasks, this`stopping, this`sent
      ensures Possible(After(old(Snapshot()), BeginStop(device)), SendStop(device))
      ensures Snapshot() == After(After(old(Snapshot()), BeginStop(device)), SendStop(device))
    {
      StartStop(device);
      FinishStop(device);
    }

    method StartStop(device: DeviceId)
      modifies this`spawned, this`tasks, this`stopping
      ensures Snapshot() == After(old(Snapshot()), BeginStop(device))
    {
      if device in tasks {
        Abort(tasks[device].task);
      }
      tasks := tasks - {device};
      stopping := stopping + multiset{device};
    }

    method FinishStop(device: DeviceId)
      requires Possible(Snapshot(), SendStop(device))
      modifies this`stopping, this`sent
      ensures Snapshot() == After(old(Snapshot()), SendStop(device))
    {
      SendScalar(ByStop(device), ResolveTargets(deviceMap, device), 1.0, 0.0);
      stopping := stopping - multiset{device};
    }

    /** `stop_all`: drain the table, aborting every task in it. */
    method StartStopAll()
      requires TableSound(Snapshot())
      modifies this`spawned, this`tasks, this`stoppingAll
      ensures Snapshot() == After(old(Snapshot()), BeginStopAll)
    {
      DrainTable();
      stoppingAll := stoppingAll + 1;
    }

    method DrainTable()
      requires TableSound(Snapshot())
      modifies this`spawned, this`tasks
      ensures tasks == map[] && spawned == AbortEvery(old(Snapshot()))
    {
      ghost var s := Snapshot();
      HoldersOwnTheirDevice(s);
      DrainedEnds(s, spawned, tasks.Keys);
      hide TableSound, AbortEvery, AbortTask, DrainedTo, RestOfTable;
      WholeTable(s.slots);
      while tasks.Keys != {}
        invariant RestOfTable(s.slots, tasks) && |spawned| == |s.tasks| && DrainedTo(s, spawned, tasks.Keys)
        decreases |tasks.Keys|
      {
        var device :| device in tasks.Keys;
        TableEntry(s.slots, tasks, device);
        DrainOne(s, spawned, tasks.Keys, device);
        Abort(tasks[device].task);
        tasks := tasks - {device};
      }
      DrainedEnds(s, spawned, {});
    }

    method FinishStopAll()
      requires Possible(Snapshot(), SendStopAll)
      modifies this`stoppingAll, this`sent
      ensures Snapshot() == After(old(Snapshot()), SendStopAll)
    {
      SendScalar(ByStopAll, None, 1.0, 0.0);
      assert Reached(None, toys) == toys;
      stoppingAll := stoppingAll - 1;
    }

    /** Send one clamped intensity to every connected toy the targets allow. */
    method SendScalar(author: Author, targets: Option<seq<ToyId>>, factor: real, intensity: real)
      modifies this`sent
      ensures sent == old(sent) + [Tick(author, Reached(targets, toys), factor, intensity)]
    {
      var level := Clamp(Part(intensity, factor));
      var addressed: set<ToyId> := {};
      var rest := toys;
      while rest != {}
        invariant rest <= toys
        invariant addressed == Reached(targets, toys) - rest
        decreases |rest|
      {
        var toy :| toy in rest;
        rest := rest - {toy};
        if targets.None? || toy in targets.value {
          addressed := addressed + {toy};
        }
      }
      assert addressed == Reached(targets, toys);
      sent := sent + [Command(author, addressed, factor, level)];
    }

    /** `play_sequence` left alone: every remaining frame at the scale set by the
        time it is sent, then the table. */
    method PlayToEnd(n: nat, scales: seq<real>)
      requires n < |spawned| && spawned[n].progress.Running?
      requires spawned[n].next + |scales| == |spawned[n].schedule|
      modifies this`spawned, this`tasks, this`sent, this`scale
      ensures spawned == old(spawned)[n := old(spawned[n]).(next := |old(spawned[n]).schedule|, progress := Finished)]
      ensures tasks == if HoldsSlot(old(Snapshot()), n) then old(tasks) - {old(spawned[n]).device} else old(tasks)
      ensures scale == if scales == [] then old(scale) else scales[|scales| - 1]
      ensures sent == old(sent) + FramesFrom(old(Snapshot()), n, scales)
    {
      SendFrames(n, scales);
      FinishTask(n);
    }

    /** The loop of `play_sequence`. */
    method SendFrames(n: nat, scales: seq<real>)
      requires n < |spawned| && spawned[n].progress.Running?
      requires spawned[n].next + |scales| == |spawned[n].schedule|
      modifies this`spawned, this`sent, this`scale
      ensures spawned == old(spawned)[n := old(spawned[n]).(next := |old(spawned[n]).schedule|)]
      ensures scale == if scales == [] then old(scale) else scales[|scales| - 1]
      ensures sent == old(sent) + FramesFrom(old(Snapshot()), n, scales)
    {
      ghost var s, t := Snapshot(), spawned[n];
      ghost var frames := FramesFrom(s, n, scales);
      hide Part, Clamp, Targets, FramesFrom, Tick, AbortHolder, AbortEvery;
      for k := 0 to |scales|
        invariant spawned == s.tasks[n := t.(next := t.next + k)]
        invariant scale == if k == 0 then s.scale else scales[k - 1]
        invariant |frames| == |scales| && sent == s.sent + frames[..k]
      {
        FrameAt(s, Snapshot().(scale := scales[k]), n, scales, k);
        SendFrame(n, scales[k]);
        SnocFrames(s.sent, frames, k);
      }
      assert frames[..|scales|] == frames;
    }

    /** A frame at the scale set just before it. */
    method SendFrame(n: nat, newScale: real)
      requires Possible(Snapshot(), Emit(n))
      modifies this`spawned, this`sent, this`scale
      ensures scale == newScale && spawned == old(spawned)[n := old(spawned[n]).(next := old(spawned[n]).next + 1)]
      ensures var t := old(spawned[n]);
              sent == old(sent) + [Tick(ByTask(n, t.next), Targets(old(Snapshot()), t.device), newScale,
                                        t.schedule[t.next].intensity)]
    {
      hide Tick;
      SetScale(newScale);
      EmitFrame(n);
    }
  }

  lemma SnocFrames(sent: seq<Command>, frames: seq<Command>, k: nat)
    requires k < |frames|
    ensures sent + frames[..k] + [frames[k]] == sent + frames[..k + 1]
  {
  }

  /** The table holds the task's generation for its device. */
  predicate HoldsSlot(s: PlaybackState, n: nat)
    requires n < |s.tasks|
  {
    s.tasks[n].device in s.slots && s.slots[s.tasks[n].device].generation == s.tasks[n].generation
  }

  /** The task's remaining frames as commands, each at its own scale. */
  function FramesFrom(s: PlaybackState, n: nat, scales: seq<real>): seq<Command>
    requires n < |s.tasks| && s.tasks[n].next + |scales| == |s.tasks[n].schedule|
  {
    var t := s.tasks[n];
    seq(|scales|, k requires 0 <= k < |scales| =>
      Tick(ByTask(n, t.next + k), Targets(s, t.device), scales[k], t.schedule[t.next + k].intensity))
  }

  /** The frame a task is about to send. */
  lemma FrameAt(s: PlaybackState, now: PlaybackState, n: nat, scales: seq<real>, k: nat)
    requires n < |s.tasks| && s.tasks[n].next + |scales| == |s.tasks[n].schedule| && k < |scales|
    requires now.deviceMap == s.deviceMap && now.toys == s.toys && now.scale == scales[k]
    requires now.tasks == s.tasks[n := s.tasks[n].(next := s.tasks[n].next + k)]
    ensures |FramesFrom(s, n, scales)| == |scales|
    ensures var t := now.tasks[n];
            Tick(ByTask(n, t.next), Targets(now, t.device), now.scale, t.schedule[t.next].intensity)
            == FramesFrom(s, n, scales)[k]
  {
    hide Part, Clamp;
  }
}
