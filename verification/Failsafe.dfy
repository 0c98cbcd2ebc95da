// The whole machine: mapping table, controller slots, per-binding state and the
// time-slicer, with the steps of main/sketch.cpp that touch them.
module Failsafe {
  import opened Wrappers
  import opened Bits
  import opened ConfigLine
  import opened ConfigTable
  import opened Curves
  import opened Machines
  import opened Sweep
  import opened Protocol
  import B = Broadcast
  import R = BroadcastRuns

  const MAX_GAMEPADS: nat := 4

  type PortSlots = r: seq<Slots> | |r| == 6 witness seq(6, _ => CLEARED_SLOTS)
  type Grid = g: seq<PortSlots> | |g| == 3 witness seq(3, _ => seq(6, _ => CLEARED_SLOTS))

  const CLEARED_SLOTS: Slots := [CLEARED, CLEARED, CLEARED, CLEARED, CLEARED, CLEARED, CLEARED, CLEARED]
  const CLEARED_ROW: PortSlots := [CLEARED_SLOTS, CLEARED_SLOTS, CLEARED_SLOTS,
                                   CLEARED_SLOTS, CLEARED_SLOTS, CLEARED_SLOTS]
  const CLEARED_GRID: Grid := [CLEARED_ROW, CLEARED_ROW, CLEARED_ROW]

  // Controller slots hold 0 for an empty slot, otherwise the controller's identity.
  type Pads = c: seq<int> | |c| == 4 witness [0, 0, 0, 0]

  type Times = t: seq<int> | |t| == 18 witness seq(18, _ => 0)

  predicate Capped(t: Table) {
    forall d, p :: 0 <= d < 3 && 0 <= p < 6 ==> |t[d][p].bindings| <= MAX_BINDINGS_PER_PORT
  }

  type MappingTable = t: Table | Capped(t) witness seq(3, _ => seq(6, _ => Port([], false)))

  datatype System = System(table: MappingTable, pads: Pads, grid: Grid, slicer: B.Slicer)

  // ---- The sweep over all ports ------------------------------------------------------

  function PortOf(g: Grid, d: nat, p: nat, s: Slots): Grid
    requires d < 3 && p < 6
  {
    g[d := g[d][p := s]]
  }

  // The q-th port in sweep order: hub by hub.
  function HubOf(q: nat): (d: nat)
    requires q < 18
    ensures d < 3 && 6 * d <= q < 6 * d + 6
  {
    q / 6
  }

  function PortNr(q: nat): (p: nat)
    requires q < 18
    ensures p < 6 && 6 * HubOf(q) + p == q
  {
    q % 6
  }

  // The first q ports of one sweep; times are the clock readings of the channel writes.
  function SweepTo(s: System, k: Tick, rig: Rig, times: Times, q: nat): System
    requires q <= 18
  {
    if q == 0 then s
    else
      hide SweepPort, B.SetChannel;
      var prev := SweepTo(s, k, rig, times, q - 1);
      var d, p := HubOf(q - 1), PortNr(q - 1);
      var bs := prev.table[d][p].bindings;
      if bs == [] then prev
      else
        var r := SweepPort(bs, prev.grid[d][p], k, rig);
        prev.(grid := PortOf(prev.grid, d, p, r.slots),
              slicer := B.SetChannel(prev.slicer, d, p, AsByte(r.level), times[q - 1]))
  }

  // The neutral writes of the failsafe, on the first q ports.
  function NeutralTo(s: System, times: Times, q: nat): System
    requires q <= 18
  {
    if q == 0 then s
    else
      hide B.SetChannel;
      var prev := NeutralTo(s, times, q - 1);
      var d, p := HubOf(q - 1), PortNr(q - 1);
      if prev.table[d][p].bindings == [] then prev
      else prev.(slicer := B.SetChannel(prev.slicer, d, p, NEUTRAL, times[q - 1]))
  }

  // ---- Controllers ----------------------------------------------------------------------

  // First slot from i on that holds x; MAX_GAMEPADS if none does.
  function SlotOf(pads: Pads, x: int, i: nat): (n: nat)
    requires i <= MAX_GAMEPADS
    ensures i <= n <= MAX_GAMEPADS && (n < MAX_GAMEPADS ==> pads[n] == x)
    ensures forall j :: i <= j < n ==> pads[j] != x
    decreases MAX_GAMEPADS - i
  {
    if i == MAX_GAMEPADS || pads[i] == x then i else SlotOf(pads, x, i + 1)
  }

  function Connected(s: System, id: int): System {
    var i := SlotOf(s.pads, 0, 0);
    if i == MAX_GAMEPADS then s else s.(pads := s.pads[i := id])
  }

  function Disconnected(s: System, id: int, times: Times): System {
    var i := SlotOf(s.pads, id, 0);
    if i == MAX_GAMEPADS then s
    else
      var gone := s.(pads := s.pads[i := 0]);
      if i == 0 then NeutralTo(gone, times, 18).(grid := CLEARED_GRID) else gone
  }

  // ---- Steps --------------------------------------------------------------------------------

  datatype Step =
    | Loop(tick: Tick, rig: Rig, loopTimes: Times)
    | Connect(id: int)
    | Disconnect(gone: int, offTimes: Times)
    | HubTap(device: nat, tapTimes: B.SixTimes)
    | Edit(hubSlot: nat, port: nat, bindings: Bindings)
    | ResetAll
    | Reload(saved: MappingTable)
    | Timer
    | Callback(hub: int)

  // One port pushed by the editor: new bindings, cleared state, channel untouched.
  function Edited(s: System, d: nat, p: nat, bs: Bindings): System
    requires d < 3 && p < 6
  {
    s.(table := SetPort(s.table, d, p, Port(bs, true)), grid := PortOf(s.grid, d, p, CLEARED_SLOTS))
  }

  const RESET_ROW: Row := [Port([], true), Port([], true), Port([], true),
                           Port([], true), Port([], true), Port([], true)]
  const RESET_TABLE: MappingTable := [RESET_ROW, RESET_ROW, RESET_ROW]

  function Apply(s: System, a: Step): System {
    hide SweepTo, Connected, Disconnected, Edited, B.ToggleOff, B.ToggleOn, B.TimerFires, B.EventCallback;
    match a
    case Loop(tick, rig, times) => if s.pads[0] != 0 then SweepTo(s, tick, rig, times, 18) else s
    case Connect(id) => if id == 0 then s else Connected(s, id)
    case Disconnect(id, times) => if id == 0 then s else Disconnected(s, id, times)
    case HubTap(d, times) =>
      if d >= 3 || s.slicer.transitioning[d] then s
      else if s.slicer.broadcasting[d] then
        s.(slicer := B.ToggleOff(s.slicer, d, times), grid := s.grid[d := CLEARED_ROW])
      else s.(slicer := B.ToggleOn(s.slicer, d, times))
    case Edit(d, p, bs) => if d < 3 && p < 6 then Edited(s, d, p, bs) else s
    case ResetAll => s.(table := RESET_TABLE, grid := CLEARED_GRID)
    case Reload(saved) => s.(table := saved)
    case Timer => s.(slicer := B.TimerFires(s.slicer))
    case Callback(h) => s.(slicer := B.EventCallback(s.slicer, h))
  }

  function After(s: System, run: seq<Step>, i: nat): System
    requires i <= |run|
  {
    if i == 0 then s else Apply(After(s, run, i - 1), run[i - 1])
  }

  function BootSystem(t: MappingTable): System {
    System(t, [0, 0, 0, 0], CLEARED_GRID, B.Boot())
  }

  // Controllers: one that connects takes the lowest empty slot, if any; one that leaves empties the
  // lowest slot that holds it, and only its leaving slot 0 touches anything else.
  lemma {:induction false} ControllersComeAndGo(s: System, id: int, times: Times)
    requires id != 0
    ensures var t := Apply(s, Connect(id));
            t == s.(pads := t.pads)
            && forall i :: 0 <= i < 4 ==>
                 t.pads[i] == if s.pads[i] == 0 && (forall j :: 0 <= j < i ==> s.pads[j] != 0) then id else s.pads[i]
    ensures var t := Apply(s, Disconnect(id, times));
            (s.pads[0] != id ==> t == s.(pads := t.pads))
            && t.pads[0] == (if s.pads[0] == id then 0 else s.pads[0])
    ensures var t := Disconnected(s, id, times);
            s.pads[0] != id ==>
              forall i :: 0 <= i < 4 ==>
                t.pads[i] == if s.pads[i] == id && (forall j :: 0 <= j < i ==> s.pads[j] != id) then 0 else s.pads[i]
  {
    hide NeutralTo;
    var i, j := SlotOf(s.pads, 0, 0), SlotOf(s.pads, id, 0);
    if s.pads[0] == id {
      NeutralKeepsPads(s.(pads := s.pads[0 := 0]), times, 18);
    }
  }

  lemma {:induction false} NeutralKeepsPads(s: System, times: Times, q: nat)
    requires q <= 18
    ensures NeutralTo(s, times, q).pads == s.pads
  {
    hide HubOf, PortNr, B.SetChannel;
    if q > 0 {
      NeutralKeepsPads(s, times, q - 1);
    }
  }

  // ---- The failsafe invariant ------------------------------------------------------------

  predicate AllNeutral(s: System) {
    forall d :: 0 <= d < 3 ==> s.slicer.channels[d] == B.NEUTRAL_ROW
  }

  // A port without bindings is not driven, and without a controller in slot 0 no port is.
  predicate Tended(s: System, d: nat, p: nat)
    requires d < 3 && p < 6
  {
    s.table[d][p].bindings == [] || s.pads[0] == 0 ==> s.slicer.channels[d][p] == NEUTRAL
  }

  // Without a controller in slot 0 no latch, pulse or lock is set.
  predicate Cleared(s: System) {
    B.Inv(s.slicer) && (s.pads[0] == 0 ==> s.grid == CLEARED_GRID)
  }

  predicate Failsafe(s: System) {
    Cleared(s) && forall d, p :: 0 <= d < 3 && 0 <= p < 6 ==> Tended(s, d, p)
  }

  // A table edit that takes the bindings of a port while the port is driven.
  predicate Orphans(s: System, a: Step, d: nat, p: nat)
    requires d < 3 && p < 6
  {
    (a.Edit? || a.ResetAll? || a.Reload?)
    && Apply(s, a).table[d][p].bindings == [] && s.slicer.channels[d][p] != NEUTRAL
  }

  // A sequence of channel writes, as far as the rest of the slicer can tell.
  predicate OnlyWrites(s: B.Slicer, t: B.Slicer) {
    t.active == s.active && t.pending == s.pending && t.transitioning == s.transitioning
    && t.broadcasting == s.broadcasting && t.lastDevice == s.lastDevice && t.sent == s.sent
  }

  lemma {:induction false} WriteEffect(s: B.Slicer, d: nat, p: nat, v: byte, now: int)
    requires B.Inv(s) && d < 3 && p < 6
    ensures var t := B.SetChannel(s, d, p, v, now);
            B.Inv(t) && OnlyWrites(s, t) && t.channels == s.channels[d := s.channels[d][p := v]]
  {
    B.StepKeepsInv(s, B.Write(d, p, v, now));
  }

  lemma {:induction false} SweepEffect(s: System, k: Tick, rig: Rig, times: Times, q: nat)
    requires B.Inv(s.slicer) && q <= 18
    ensures var t := SweepTo(s, k, rig, times, q);
            t.table == s.table && t.pads == s.pads && B.Inv(t.slicer) && OnlyWrites(s.slicer, t.slicer)
            && (forall d, p :: 0 <= d < 3 && 0 <= p < 6 && s.table[d][p].bindings == [] ==>
                  t.slicer.channels[d][p] == s.slicer.channels[d][p])
  {
    hide HubOf, PortNr, B.SetChannel, B.Inv, SweepPort, AsByte, PortOf;
    if q > 0 {
      SweepEffect(s, k, rig, times, q - 1);
      var prev := SweepTo(s, k, rig, times, q - 1);
      var d, p := HubOf(q - 1), PortNr(q - 1);
      if prev.table[d][p].bindings != [] {
        var r := SweepPort(prev.table[d][p].bindings, prev.grid[d][p], k, rig);
        WriteEffect(prev.slicer, d, p, AsByte(r.level), times[q - 1]);
      }
    }
  }

  lemma {:induction false} NeutralEffect(s: System, times: Times, q: nat)
    requires B.Inv(s.slicer) && q <= 18
    ensures var t := NeutralTo(s, times, q);
            t.table == s.table && t.pads == s.pads && t.grid == s.grid
            && B.Inv(t.slicer) && OnlyWrites(s.slicer, t.slicer)
  {
    hide HubOf, PortNr, B.SetChannel, B.Inv;
    if q > 0 {
      NeutralEffect(s, times, q - 1);
      var prev := NeutralTo(s, times, q - 1);
      var d, p := HubOf(q - 1), PortNr(q - 1);
      if prev.table[d][p].bindings != [] {
        WriteEffect(prev.slicer, d, p, NEUTRAL, times[q - 1]);
      }
    }
  }

  lemma {:induction false} NeutralWrite(s: B.Slicer, e: nat, r: nat, now: int, d: nat, p: nat)
    requires B.Inv(s) && e < 3 && r < 6 && d < 3 && p < 6
    ensures B.SetChannel(s, e, r, NEUTRAL, now).channels[d][p]
         == if e == d && r == p then NEUTRAL else s.channels[d][p]
  {
    hide B.SetChannel, B.Inv, OnlyWrites;
    WriteEffect(s, e, r, NEUTRAL, now);
  }

  lemma {:induction false} NeutralChannel(s: System, times: Times, q: nat, d: nat, p: nat)
    requires B.Inv(s.slicer) && q <= 18 && d < 3 && p < 6
    ensures NeutralTo(s, times, q).slicer.channels[d][p]
         == if s.table[d][p].bindings != [] && 6 * d + p < q then NEUTRAL else s.slicer.channels[d][p]
  {
    hide HubOf, PortNr, B.SetChannel, B.Inv, OnlyWrites;
    if q > 0 {
      NeutralChannel(s, times, q - 1, d, p);
      NeutralEffect(s, times, q - 1);
      var prev := NeutralTo(s, times, q - 1);
      var e, r := HubOf(q - 1), PortNr(q - 1);
      assert e == d && r == p <==> q - 1 == 6 * d + p;
      NeutralWrite(prev.slicer, e, r, times[q - 1], d, p);
    }
  }

  // After the failsafe writes: assigned ports neutral, the others as they were.
  lemma {:induction false} AllNeutralWrites(s: System, times: Times)
    requires B.Inv(s.slicer)
    ensures forall d, p :: 0 <= d < 3 && 0 <= p < 6 ==>
                             NeutralTo(s, times, 18).slicer.channels[d][p]
                             == if s.table[d][p].bindings != [] then NEUTRAL else s.slicer.channels[d][p]
  {
    forall d, p | 0 <= d < 3 && 0 <= p < 6
      ensures NeutralTo(s, times, 18).slicer.channels[d][p]
           == if s.table[d][p].bindings != [] then NEUTRAL else s.slicer.channels[d][p]
    {
      hide NeutralTo, B.Inv;
      NeutralChannel(s, times, 18, d, p);
    }
  }

  // Losing slot 0 makes every channel neutral exactly when the ports without bindings,
  // which the failsafe skips, were neutral already; the runtime state is always cleared.
  lemma {:induction false} DisconnectNeutralizesExactly(s: System, times: Times)
    requires B.Inv(s.slicer) && s.pads[0] != 0
    ensures var t := Disconnected(s, s.pads[0], times);
            t.grid == CLEARED_GRID && t.pads[0] == 0
            && (AllNeutral(t) <==>
                  forall d, p :: 0 <= d < 3 && 0 <= p < 6 && s.table[d][p].bindings == [] ==>
                                   s.slicer.channels[d][p] == NEUTRAL)
  {
    hide B.Inv, NeutralTo;
    var gone := s.(pads := s.pads[0 := 0]);
    NeutralEffect(gone, times, 18);
    AllNeutralWrites(gone, times);
    var t := Disconnected(s, s.pads[0], times);
    assert SlotOf(s.pads, s.pads[0], 0) == 0;
    if AllNeutral(t) {
      forall d, p | 0 <= d < 3 && 0 <= p < 6 && s.table[d][p].bindings == []
        ensures s.slicer.channels[d][p] == NEUTRAL
      {
        assert t.slicer.channels[d] == B.NEUTRAL_ROW;
      }
    }
    if forall d, p :: 0 <= d < 3 && 0 <= p < 6 && s.table[d][p].bindings == [] ==> s.slicer.channels[d][p] == NEUTRAL {
      forall d | 0 <= d < 3
        ensures t.slicer.channels[d] == B.NEUTRAL_ROW
      {
        assert forall p :: 0 <= p < 6 ==> t.slicer.channels[d][p] == NEUTRAL;
      }
    }
  }

  // A toggle or radio step leaves each row as it is or makes it neutral.
  lemma {:induction false} RowsKeptOrNeutral(s: B.Slicer, a: B.Action)
    requires B.Inv(s) && !a.Write?
    ensures B.Inv(B.Step(s, a))
    ensures forall d :: 0 <= d < 3 ==>
                          B.Step(s, a).channels[d] == s.channels[d] || B.Step(s, a).channels[d] == B.NEUTRAL_ROW
  {
    hide B.Inv, B.Step;
    B.StepKeepsInv(s, a);
    forall d | 0 <= d < 3
      ensures B.Step(s, a).channels[d] == s.channels[d] || B.Step(s, a).channels[d] == B.NEUTRAL_ROW
    {
      R.ChannelStep(s, a, d);
    }
  }

  // What a step that is no edit does to a channel: keep it, make it neutral, or, in a sweep
  // with a controller, drive it if its port is assigned.
  lemma {:induction false} ChannelAfter(s: System, a: Step, d: nat, p: nat)
    requires B.Inv(s.slicer) && d < 3 && p < 6 && !a.Edit? && !a.ResetAll? && !a.Reload?
    ensures var t := Apply(s, a);
            B.Inv(t.slicer) && t.table == s.table
            && (t.slicer.channels[d][p] == s.slicer.channels[d][p] || t.slicer.channels[d][p] == NEUTRAL
                || (a.Loop? && t.pads == s.pads && s.pads[0] != 0 && s.table[d][p].bindings != []))
            && (t.pads[0] == 0 && s.pads[0] != 0 && s.table[d][p].bindings != [] ==>
                  t.slicer.channels[d][p] == NEUTRAL)
  {
    hide B.Inv, SweepTo, B.TimerFires, B.EventCallback, B.ToggleOff, B.ToggleOn, NeutralTo;
    match a
    case Loop(tick, rig, times) => SweepEffect(s, tick, rig, times, 18);
    case Connect(id) =>
    case Disconnect(id, times) =>
      var gone := s.(pads := s.pads[0 := 0]);
      NeutralEffect(gone, times, 18);
      NeutralChannel(gone, times, 18, d, p);
    case HubTap(e, times) =>
      RowsKeptOrNeutral(s.slicer, B.Off(e, times));
      RowsKeptOrNeutral(s.slicer, B.On(e, times));
    case Timer => RowsKeptOrNeutral(s.slicer, B.Timer);
    case Callback(h) => RowsKeptOrNeutral(s.slicer, B.Callback(h));
  }

  // A step leaves a tended port tended exactly when it does not take the bindings of the
  // port while it is driven.
  lemma {:induction false} TendedExactly(s: System, a: Step, d: nat, p: nat)
    requires B.Inv(s.slicer) && d < 3 && p < 6 && Tended(s, d, p)
    ensures Tended(Apply(s, a), d, p) <==> !Orphans(s, a, d, p)
  {
    hide B.Inv, SweepTo, Disconnected, B.TimerFires, B.EventCallback, B.ToggleOff, B.ToggleOn;
    if !a.Edit? && !a.ResetAll? && !a.Reload? {
      hide Apply;
      ChannelAfter(s, a, d, p);
    }
  }

  lemma {:induction false} ApplyKeepsCleared(s: System, a: Step)
    requires Cleared(s)
    ensures Cleared(Apply(s, a))
  {
    hide B.Inv, SweepTo, B.TimerFires, B.EventCallback, B.ToggleOff, B.ToggleOn, NeutralTo;
    if !a.Edit? && !a.ResetAll? && !a.Reload? {
      ChannelAfter(s, a, 0, 0);
    }
    match a
    case Disconnect(id, times) => NeutralEffect(s.(pads := s.pads[0 := 0]), times, 18);
    case HubTap(d, times) => assert d < 3 ==> CLEARED_GRID[d := CLEARED_ROW] == CLEARED_GRID;
    case Edit(d, p, bs) =>
      if d < 3 && p < 6 {
        assert CLEARED_ROW[p := CLEARED_SLOTS] == CLEARED_ROW;
        assert CLEARED_GRID[d := CLEARED_ROW] == CLEARED_GRID;
      }
    case Loop(tick, rig, times) => SweepEffect(s, tick, rig, times, 18);
    case _ =>
  }

  lemma {:induction false} BootIsSafe(t: MappingTable)
    ensures Failsafe(BootSystem(t))
  {
    B.BootInv();
  }

  // No step of the run takes the bindings of this port while it is driven.
  predicate NotOrphaned(t: MappingTable, run: seq<Step>, d: nat, p: nat, i: nat)
    requires d < 3 && p < 6 && i <= |run|
  {
    forall j :: 0 <= j < i ==> !Orphans(After(BootSystem(t), run, j), run[j], d, p)
  }

  // In every run from boot, with any edits, taps and reconnections: while slot 0 holds no
  // controller every latch, pulse and lock is cleared, and every port is neutral that did
  // not lose its bindings while it was driven.
  lemma {:induction false} FailsafePerPort(t: MappingTable, run: seq<Step>, d: nat, p: nat, i: nat)
    requires d < 3 && p < 6 && i <= |run| && NotOrphaned(t, run, d, p, i)
    ensures Cleared(After(BootSystem(t), run, i)) && Tended(After(BootSystem(t), run, i), d, p)
  {
    hide Cleared, Tended, Apply, Orphans;
    if i == 0 {
      BootIsSafe(t);
      assert Failsafe(BootSystem(t));
    } else {
      FailsafePerPort(t, run, d, p, i - 1);
      var s := After(BootSystem(t), run, i - 1);
      ApplyKeepsCleared(s, run[i - 1]);
      ClearedHasInv(s);
      TendedExactly(s, run[i - 1], d, p);
    }
  }

  lemma {:induction false} ClearedHasInv(s: System)
    requires Cleared(s)
    ensures B.Inv(s.slicer)
  {
  }

  predicate NoneOrphaned(t: MappingTable, run: seq<Step>, i: nat)
    requires i <= |run|
  {
    forall d, p :: 0 <= d < 3 && 0 <= p < 6 ==> NotOrphaned(t, run, d, p, i)
  }

  // With the table fixed, or edited only at ports that are at rest, all eighteen channels
  // are neutral whenever slot 0 holds no controller.
  lemma {:induction false} FailsafeHolds(t: MappingTable, run: seq<Step>, i: nat)
    requires i <= |run| && NoneOrphaned(t, run, i)
    ensures Failsafe(After(BootSystem(t), run, i))
    ensures After(BootSystem(t), run, i).pads[0] == 0 ==> AllNeutral(After(BootSystem(t), run, i))
  {
    hide After, Cleared, NotOrphaned;
    var s := After(BootSystem(t), run, i);
    forall d, p | 0 <= d < 3 && 0 <= p < 6
      ensures Cleared(s) && Tended(s, d, p)
    {
      FailsafePerPort(t, run, d, p, i);
    }
    assert Tended(s, 0, 0);
    if s.pads[0] == 0 {
      forall d | 0 <= d < 3
        ensures s.slicer.channels[d] == B.NEUTRAL_ROW
      {
        forall p | 0 <= p < 6
          ensures s.slicer.channels[d][p] == NEUTRAL
        {
          assert Tended(s, d, p);
        }
      }
    }
  }

  // In particular with the table fixed after boot.
  lemma {:induction false} FixedTableIsSafe(t: MappingTable, run: seq<Step>, i: nat)
    requires i <= |run|
    requires forall j :: 0 <= j < i ==> !run[j].Edit? && !run[j].ResetAll? && !run[j].Reload?
    ensures var s := After(BootSystem(t), run, i);
            s.pads[0] == 0 ==> AllNeutral(s) && s.grid == CLEARED_GRID
  {
    hide After, Apply;
    assert NoneOrphaned(t, run, i);
    FailsafeHolds(t, run, i);
  }
}
