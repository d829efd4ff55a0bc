/** The tracepoint handlers of linux-game-haptics-router-ebpf/src/main.rs, which
    update the scratch map and the event buffer in place. Each is proved to
    perform its step of the probe model. */
module Probe {
  import opened Effects
  import opened ProbeModel

  class Tracepoints {
    var enterScratch: map<Thread, EnterScratch>
    /** What was submitted to the ring buffer, in order. */
    var events: seq<ProbeEvent>

    ghost function Snapshot(): ProbeState
      reads this
    {
      ProbeState(enterScratch, events)
    }

    constructor ()
      ensures Snapshot() == Attached()
    {
      enterScratch := map[];
      events := [];
    }

    method TryEnter(th: Thread, cmd: Option<nat>, arg: Option<nat>, structs: map<nat, Raw>,
                    inserted: bool, reserved: bool)
      modifies this
      ensures Snapshot() == Next(old(Snapshot()), Enter(th, cmd, arg, structs, inserted, reserved))
    {
      if cmd.None? {
        return;
      }
      var number := Low32(cmd.value);
      if number == EVIOCRMFF {
        TryEnterErase(th, arg, reserved);
        return;
      }
      if number != EVIOCSFF || arg.None? || arg.value !in structs {
        return;
      }
      var effect := ParseEffect(structs[arg.value]);
      if inserted {
        enterScratch := enterScratch[th := EnterScratch(arg.value, effect)];
      }
    }

    /** An erase passes its id by value, so it is reported at once. */
    method TryEnterErase(th: Thread, arg: Option<nat>, reserved: bool)
      modifies this`events
      ensures events == if arg.None? then old(events)
              else Report(old(events), Erased(th.tgid, Wrap16(arg.value)), reserved)
    {
      if arg.Some? {
        Submit(Erased(th.tgid, Wrap16(arg.value)), reserved);
      }
    }

    method TryExit(th: Thread, pairs: map<nat, (Byte, Byte)>, stored: bool, reserved: bool)
      modifies this
      ensures Snapshot() == Next(old(Snapshot()), Exit(th, pairs, stored, reserved))
    {
      if th !in enterScratch {
        return;
      }
      var scratch := enterScratch[th];
      if scratch.ptr + 2 !in pairs {
        return;
      }
      var effectId := IdFrom(pairs[scratch.ptr + 2]);
      var effect := scratch.effect.(id := effectId);
      if !stored {
        return;
      }
      enterScratch := enterScratch - {th};
      Submit(Uploaded(th.tgid, effectId, effect), reserved);
    }

    /** A full buffer drops the event. */
    method Submit(e: ProbeEvent, reserved: bool)
      modifies this`events
      ensures events == Report(old(events), e, reserved)
    {
      if reserved {
        events := events + [e];
      }
    }

    /** The least recently used entry makes room, whoever's it is. */
    method Evict(th: Thread)
      modifies this`enterScratch
      ensures Snapshot() == Next(old(Snapshot()), ProbeStep.Evict(th))
    {
      enterScratch := enterScratch - {th};
    }
  }
}
