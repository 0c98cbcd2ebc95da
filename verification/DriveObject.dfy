// The sweep, clearing functions and controller callbacks of main/sketch.cpp as an
// object over the time-slicer, proved against the Failsafe steps. The ten runtime
// arrays of the source are one array of per-binding records.
module DriveObject {
  import opened Bits
  import opened ConfigLine
  import opened ConfigTable
  import opened Curves
  import opened ControlLaw
  import opened Machines
  import opened Sweep
  import opened Failsafe
  import opened SlicerObject
  import Protocol
  import B = Broadcast

  // ---- One binding ------------------------------------------------------------------

  method StepLatch(l: Latch, pressed: bool) returns (l': Latch)
    ensures l' == LatchTick(l, pressed)
  {
    l' := l;
    if pressed && !l'.prev {
      l' := l'.(on := !l'.on);
    }
    l' := l'.(prev := pressed);
  }

  method StepPulse(p: Pulse, pressed: bool, frame: int, frames: nat) returns (p': Pulse)
    ensures p' == PulseTick(p, pressed, frame, frames)
  {
    p' := p;
    var isNewPress := pressed && !p'.prev;
    p' := p'.(prev := pressed);
    if isNewPress {
      if !p'.armed && !p'.active {
        p' := p'.(armed := true, armedFrame := frame);
      }
    }
    if p'.armed && frame != p'.armedFrame {
      p' := p'.(armed := false);
      p' := p'.(active := true);
      p' := p'.(startFrame := frame);
    }
    if p'.active && frame >= p'.startFrame + frames {
      p' := p'.(active := false);
    }
  }

  method StepLock(l: Lock, pressed: bool, imuReady: bool, heading: real) returns (l': Lock)
    ensures l' == LockTick(l, pressed, imuReady, heading)
  {
    l' := l;
    var isNewPress := pressed && !l'.prev;
    l' := l'.(prev := pressed);
    if isNewPress {
      if l'.engaged {
        l' := l'.(engaged := false);
      } else if !imuReady {
      } else {
        l' := l'.(engaged := true);
        l' := l'.(reference := heading);
      }
    }
  }

  // The class and mode chain of pass 1.
  method StepBinding(b: Binding, s: Slot, k: Tick, rig: Rig) returns (s': Slot, raw: Level)
    ensures s' == NextSlot(b, s, k, rig)
    ensures raw == RawLevel(b, s', k, rig)
  {
    hide StickLevel, TriggerLevel, LockLevel, LatchTick, PulseTick, LockTick;
    s' := s;
    if Class(b.input) == AXIS {
      raw := StickLevel(ReadTokenRaw(k, b.input));
    } else if Class(b.input) == TRIGGER && b.mode == PROPORTIONAL {
      raw := TriggerLevel(ReadTokenRaw(k, b.input));
    } else {
      var pressed := if Class(b.input) == TRIGGER then ReadTokenRaw(k, b.input) > 1023 / 2
                     else ReadTokenRaw(k, b.input) != 0;
      if b.mode == LATCHED {
        var latch := StepLatch(s'.latch, pressed);
        s' := s'.(latch := latch);
        raw := if s'.latch.on then 0xFF else 0x80;
      } else if b.mode == PULSE {
        var pulse := StepPulse(s'.pulse, pressed, k.frame, rig.pulseFrames);
        s' := s'.(pulse := pulse);
        raw := if s'.pulse.active then 0xFF else 0x80;
      } else if b.mode == THL {
        var lock := StepLock(s'.lock, pressed, k.imuReady, k.heading);
        s' := s'.(lock := lock);
        raw := if s'.lock.engaged then LockLevel(rig, s'.lock.reference, k.heading) else 0x80;
      } else {
        raw := if pressed then 0xFF else 0x80;
      }
    }
  }

  // ---- One port -----------------------------------------------------------------------

  // The three passes over the bindings of one port, with the raw bytes in an array.
  method SweepBindings(bs: Bindings, was: Slots, k: Tick, rig: Rig) returns (slots: Slots, level: Level)
    ensures PortResult(slots, level) == SweepPort(bs, was, k, rig)
  {
    hide NextSlot, RawLevel, Overrides, ApplyBinding;
    var rawBytes := new Level[8](_ => NEUTRAL_LEVEL);
    slots := was;
    for i := 0 to |bs|
      invariant forall j :: 0 <= j < i ==> slots[j] == NextSlot(bs[j], was[j], k, rig)
      invariant forall j :: i <= j < 8 ==> slots[j] == was[j]
      invariant forall j :: 0 <= j < i ==> rawBytes[j] == RawLevel(bs[j], slots[j], k, rig)
    {
      var slot, raw := StepBinding(bs[i], slots[i], k, rig);
      slots := slots[i := slot];
      rawBytes[i] := raw;
    }
    ghost var next := Pass1Slots(bs, was, k, rig);
    ghost var raws := Pass1Levels(bs, next, k, rig);
    assert slots == next && rawBytes[..|bs|] == raws;
    slots := ArbitrateInPlace(bs, slots, rawBytes, rig);
    ghost var swept := Arbitrate(bs, next, raws, rig);
    var sumDelta: int := 0;
    for i := 0 to |bs|
      invariant sumDelta == SumOf(bs, swept.raws, i)
    {
      assert rawBytes[i] == rawBytes[..|bs|][i];
      var finalByte: int := ApplyBinding(rawBytes[i], bs[i]);
      sumDelta := sumDelta + (finalByte - 0x80);
    }
    if sumDelta > 127 {
      sumDelta := 127;
    }
    if sumDelta < -128 {
      sumDelta := -128;
    }
    level := 0x80 + sumDelta;
  }

  // Pass 2: find an engaged lock, cancel it or suppress its siblings.
  method ArbitrateInPlace(bs: Bindings, slots: Slots, rawBytes: array<Level>, rig: Rig) returns (slots': Slots)
    requires rawBytes.Length == 8
    modifies rawBytes
    ensures Swept(slots', rawBytes[..|bs|]) == Arbitrate(bs, slots, old(rawBytes[..|bs|]), rig)
  {
    hide Overrides;
    ghost var raws := rawBytes[..|bs|];
    slots' := slots;
    var lock := 0;
    while lock < |bs| && !(bs[lock].mode == THL && slots[lock].lock.engaged)
      invariant 0 <= lock <= |bs|
      invariant LockIndex(bs, slots, 0) == LockIndex(bs, slots, lock)
    {
      lock := lock + 1;
    }
    if lock < |bs| {
      var b := 0;
      while b < |bs| && (b == lock || !Overrides(rig, rawBytes[b]))
        invariant 0 <= b <= |bs|
        invariant CancelIndex(rig, raws, lock, 0) == CancelIndex(rig, raws, lock, b)
      {
        assert rawBytes[b] == raws[b];
        b := b + 1;
      }
      if b < |bs| {
        assert rawBytes[b] == raws[b];
        slots' := slots[lock := Disengaged(slots[lock])];
        rawBytes[lock] := NEUTRAL_LEVEL;
        assert rawBytes[..|bs|] == raws[lock := NEUTRAL_LEVEL];
      } else {
        for i := 0 to |bs|
          invariant forall j :: 0 <= j < i ==> rawBytes[j] == Suppressed(raws, lock)[j]
          invariant forall j :: i <= j < |bs| ==> rawBytes[j] == raws[j]
        {
          if i != lock {
            rawBytes[i] := NEUTRAL_LEVEL;
          }
        }
        assert rawBytes[..|bs|] == Suppressed(raws, lock);
      }
    }
  }

  // One more port of a sweep, and of the failsafe writes.
  lemma {:induction false} SweepNext(s: System, k: Tick, rig: Rig, times: Times, d: nat, p: nat)
    requires d < 3 && p < 6
    ensures SweepTo(s, k, rig, times, 6 * d + p + 1) ==
            var prev := SweepTo(s, k, rig, times, 6 * d + p);
            if prev.table[d][p].bindings == [] then prev
            else
              var r := SweepPort(prev.table[d][p].bindings, prev.grid[d][p], k, rig);
              prev.(grid := PortOf(prev.grid, d, p, r.slots),
                    slicer := B.SetChannel(prev.slicer, d, p, AsByte(r.level), times[6 * d + p]))
  {
    hide SweepPort, B.SetChannel, AsByte;
    assert HubOf(6 * d + p + 1 - 1) == d && PortNr(6 * d + p + 1 - 1) == p;
  }

  lemma {:induction false} NeutralNext(s: System, times: Times, d: nat, p: nat)
    requires d < 3 && p < 6
    ensures NeutralTo(s, times, 6 * d + p + 1) ==
            var prev := NeutralTo(s, times, 6 * d + p);
            if prev.table[d][p].bindings == [] then prev
            else prev.(slicer := B.SetChannel(prev.slicer, d, p, Protocol.NEUTRAL, times[6 * d + p]))
  {
    hide B.SetChannel;
    assert HubOf(6 * d + p + 1 - 1) == d && PortNr(6 * d + p + 1 - 1) == p;
  }

  lemma {:induction false} NothingSwept(s: System, k: Tick, rig: Rig, times: Times)
    ensures SweepTo(s, k, rig, times, 0) == s
  {
  }

  lemma {:induction false} NothingNeutralized(s: System, times: Times)
    ensures NeutralTo(s, times, 0) == s
  {
  }

  // ---- The firmware loop's state -----------------------------------------------------------

  class Drive {
    var table: MappingTable
    const pads: array<int>
    const cells: array<PortSlots>
    const slicer: TimeSlicer

    ghost predicate Valid()
      reads this, slicer
    {
      pads.Length == 4 && cells.Length == 3 && slicer.Valid()
      && pads != slicer.lastEventSendUs && pads != slicer.pendingOffServices
      && cells as object != slicer.channelValue as object && cells as object != slicer.callbackQueued as object
      && cells as object != slicer.lastEventSendUs as object && cells as object != pads as object
      && pads as object != slicer.channelValue as object && pads as object != slicer.callbackQueued as object
    }

    ghost function View(): (s: System)
      requires Valid()
      reads this, pads, cells, slicer, slicer.channelValue, slicer.deviceActive, slicer.pendingOffServices,
            slicer.deviceTransitioning, slicer.hubBroadcasting, slicer.lastEventSendUs, slicer.callbackQueued
    {
      System(table, pads[..], cells[..], slicer.View())
    }

    constructor (table: MappingTable)
      ensures Valid() && View() == BootSystem(table)
    {
      this.table := table;
      pads := new int[4](_ => 0);
      cells := new PortSlots[3](_ => CLEARED_ROW);
      slicer := new TimeSlicer();
      new;
      assert pads[..] == [0, 0, 0, 0];
      assert cells[..] == CLEARED_GRID;
    }

    // processMappedInputs.
    method ProcessMappedInputs(k: Tick, rig: Rig, times: Times)
      requires Valid()
      modifies cells, slicer`events, slicer.channelValue, slicer.lastEventSendUs, slicer.callbackQueued
      ensures Valid()
      ensures View() == SweepTo(old(View()), k, rig, times, 18)
    {
      hide SweepPort, B.SetChannel, SweepTo, AsByte;
      ghost var was := View();
      NothingSwept(was, k, rig, times);
      for dev := 0 to 3
        invariant Valid()
        invariant View() == SweepTo(was, k, rig, times, 6 * dev)
      {
        for port := 0 to 6
          invariant Valid()
          invariant View() == SweepTo(was, k, rig, times, 6 * dev + port)
        {
          SweepOne(dev, port, k, rig, times[6 * dev + port]);
          SweepNext(was, k, rig, times, dev, port);
        }
      }
    }

    // One port of the sweep.
    method SweepOne(dev: nat, port: nat, k: Tick, rig: Rig, now: int)
      requires Valid() && dev < 3 && port < 6
      modifies cells, slicer`events, slicer.channelValue, slicer.lastEventSendUs, slicer.callbackQueued
      ensures Valid()
      ensures View() == if table[dev][port].bindings == [] then old(View())
                        else
                          var r := SweepPort(table[dev][port].bindings, old(View()).grid[dev][port], k, rig);
                          old(View()).(grid := PortOf(old(View()).grid, dev, port, r.slots),
                                       slicer := B.SetChannel(old(View()).slicer, dev, port, AsByte(r.level), now))
    {
      hide SweepPort, B.SetChannel, AsByte;
      var bs := table[dev][port].bindings;
      if |bs| == 0 {
        return;
      }
      var slots, level := SweepBindings(bs, cells[dev][port], k, rig);
      cells[dev] := cells[dev][port := slots];
      slicer.MkhSetChannel(dev, port, AsByte(level), now);
    }

    // clearLatchStateForPort.
    method ClearLatchStateForPort(dev: nat, port: nat)
      requires Valid() && dev < 3 && port < 6
      modifies cells
      ensures cells[..] == old(cells[..])[dev := old(cells[dev])[port := CLEARED_SLOTS]]
    {
      for b := 0 to 8
        invariant forall e :: 0 <= e < 3 && e != dev ==> cells[e] == old(cells[e])
        invariant forall p :: 0 <= p < 6 && p != port ==> cells[dev][p] == old(cells[dev])[p]
        invariant forall i :: 0 <= i < b ==> cells[dev][port][i] == CLEARED
      {
        cells[dev] := cells[dev][port := cells[dev][port][b := CLEARED]];
      }
      assert cells[dev][port] == CLEARED_SLOTS;
      assert cells[dev] == old(cells[dev])[port := CLEARED_SLOTS];
    }

    // clearLatchStateForDevice.
    method ClearLatchStateForDevice(dev: nat)
      requires Valid() && dev < 3
      modifies cells
      ensures cells[..] == old(cells[..])[dev := CLEARED_ROW]
    {
      for p := 0 to 6
        invariant forall e :: 0 <= e < 3 && e != dev ==> cells[e] == old(cells[e])
        invariant forall q :: 0 <= q < p ==> cells[dev][q] == CLEARED_SLOTS
      {
        ClearLatchStateForPort(dev, p);
        assert cells[dev] == cells[..][dev];
        assert forall e :: 0 <= e < 3 ==> cells[e] == cells[..][e];
      }
      assert cells[dev] == CLEARED_ROW;
    }

    // clearAllLatchState.
    method ClearAllLatchState()
      requires Valid()
      modifies cells
      ensures cells[..] == CLEARED_GRID
    {
      for d := 0 to 3
        invariant forall e :: 0 <= e < d ==> cells[e] == CLEARED_ROW
      {
        ClearLatchStateForDevice(d);
        assert forall e :: 0 <= e < 3 ==> cells[e] == cells[..][e];
      }
    }

    // One dirty port of pushPendingSessionToLiveTable.
    method PushPort(dev: nat, port: nat, bindings: Bindings)
      requires Valid() && dev < 3 && port < 6
      modifies this`table, cells
      ensures Valid()
      ensures View() == Edited(old(View()), dev, port, bindings)
    {
      table := SetPort(table, dev, port, Port(bindings, true));
      ClearLatchStateForPort(dev, port);
    }

    // RESET ALL: every port emptied, all state cleared, no channel written.
    method ResetAll()
      requires Valid()
      modifies this`table, cells
      ensures Valid()
      ensures View() == Apply(old(View()), Failsafe.ResetAll)
    {
      for dev := 0 to 3
        invariant forall e :: 0 <= e < dev ==> table[e] == RESET_ROW
      {
        for port := 0 to 6
          invariant forall e :: 0 <= e < dev ==> table[e] == RESET_ROW
          invariant forall q :: 0 <= q < port ==> table[dev][q] == RESET_ROW[q]
        {
          table := SetPort(table, dev, port, Port([], true));
        }
        assert table[dev] == RESET_ROW;
      }
      assert table == RESET_TABLE;
      ClearAllLatchState();
    }

    // onConnectedController.
    method OnConnectedController(id: int)
      requires Valid() && id != 0
      modifies pads
      ensures Valid()
      ensures View() == Connected(old(View()), id)
    {
      hide B.SetChannel;
      var i := 0;
      while i < 4 && pads[i] != 0
        invariant 0 <= i <= 4
        invariant SlotOf(pads[..], 0, 0) == SlotOf(pads[..], 0, i)
      {
        i := i + 1;
      }
      if i < 4 {
        pads[i] := id;
      }
    }

    // onDisconnectedController.
    method OnDisconnectedController(id: int, times: Times)
      requires Valid() && id != 0
      modifies pads, cells, slicer`events, slicer.channelValue, slicer.lastEventSendUs, slicer.callbackQueued
      ensures Valid()
      ensures View() == Disconnected(old(View()), id, times)
    {
      hide B.SetChannel;
      var i := 0;
      while i < 4 && pads[i] != id
        invariant 0 <= i <= 4
        invariant SlotOf(pads[..], id, 0) == SlotOf(pads[..], id, i)
      {
        i := i + 1;
      }
      if i < 4 {
        pads[i] := 0;
        if i == 0 {
          NeutralizeAssigned(times);
          ClearAllLatchState();
        }
      }
    }

    // The failsafe writes of onDisconnectedController.
    method NeutralizeAssigned(times: Times)
      requires Valid()
      modifies slicer`events, slicer.channelValue, slicer.lastEventSendUs, slicer.callbackQueued
      ensures Valid()
      ensures View() == NeutralTo(old(View()), times, 18)
    {
      hide B.SetChannel, NeutralTo;
      ghost var gone := View();
      NothingNeutralized(gone, times);
      for dev := 0 to 3
        invariant Valid()
        invariant View() == NeutralTo(gone, times, 6 * dev)
      {
        for port := 0 to 6
          invariant Valid()
          invariant View() == NeutralTo(gone, times, 6 * dev + port)
        {
          if |table[dev][port].bindings| > 0 {
            slicer.MkhSetChannel(dev, port, Protocol.NEUTRAL, times[6 * dev + port]);
          }
          NeutralNext(gone, times, dev, port);
        }
      }
    }
  }
}
