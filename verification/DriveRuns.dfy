// Runs of the whole machine: what the hubs hear when the controller is lost, the reference
// of a heading lock, and the runs in which a hub is dropped or left without having been
// told to stop.
module DriveRuns {
  import opened Wrappers
  import opened Bits
  import opened Protocol
  import opened ConfigLine
  import opened ConfigTable
  import opened Curves
  import opened Machines
  import opened Sweep
  import opened Failsafe
  import B = Broadcast
  import R = BroadcastRuns
  import L = LampRuns

  // ---- On the air without a controller -------------------------------------------------

  // The telegram staged last, as the hubs hear it.
  function HeardLast(s: System): Option<(nat, seq<byte>)> {
    var sent := s.slicer.sent;
    if sent == [] then None else B.HeardOf(sent[|sent| - 1])
  }

  // A firing services an active hub or leaves it next in line.
  lemma {:induction false} FiringServesOrNears(s: System, d: nat)
    requires B.Inv(s.slicer) && d < 3 && s.slicer.active[d]
    ensures var t := Apply(s, Timer);
            if B.NextActive(s.slicer.active, s.slicer.lastDevice) == d then
              HeardLast(t) == Some((d, s.slicer.channels[d]))
            else R.Distance(t.slicer, d) == 1 && R.Distance(s.slicer, d) == 2
  {
    hide B.Inv, B.HeardOf, B.NextActive, R.Distance, B.TimerFires;
    R.DistanceStep(s.slicer, B.Timer, d);
    if B.NextActive(s.slicer.active, s.slicer.lastDevice) == d {
      R.TimerStages(s.slicer, d);
      B.SentIsHeard(B.Control(d, true, s.slicer.channels[d]));
    }
  }

  lemma {:induction false} QuietStepKeepsDistance(s: System, a: Step, d: nat)
    requires B.Inv(s.slicer) && !a.Timer? && d < 3
    ensures R.Distance(Apply(s, a).slicer, d) == R.Distance(s.slicer, d)
  {
    hide B.Inv, SweepTo, B.EventCallback, B.ToggleOff, B.ToggleOn, NeutralTo;
    match a
    case Loop(tick, rig, times) => SweepEffect(s, tick, rig, times, 18);
    case Disconnect(id, times) => NeutralEffect(s.(pads := s.pads[0 := 0]), times, 18);
    case HubTap(e, times) =>
      R.NonTimerKeepsLast(s.slicer, B.Off(e, times));
      R.NonTimerKeepsLast(s.slicer, B.On(e, times));
    case Callback(h) => R.NonTimerKeepsLast(s.slicer, B.Callback(h));
    case _ =>
  }

  lemma {:induction false} ClearedAlways(t: MappingTable, run: seq<Step>, i: nat)
    requires i <= |run|
    ensures Cleared(After(BootSystem(t), run, i)) && B.Inv(After(BootSystem(t), run, i).slicer)
  {
    hide Apply, B.Inv;
    if i == 0 {
      BootIsSafe(t);
    } else {
      ClearedAlways(t, run, i - 1);
      ApplyKeepsCleared(After(BootSystem(t), run, i - 1), run[i - 1]);
    }
  }

  lemma {:induction false} DistanceKept(t: MappingTable, run: seq<Step>, d: nat, from: nat, i: nat)
    requires d < 3 && from <= i <= |run|
    requires forall j :: from <= j < i ==> !run[j].Timer?
    ensures R.Distance(After(BootSystem(t), run, i).slicer, d) == R.Distance(After(BootSystem(t), run, from).slicer, d)
    decreases i
  {
    hide Apply, Cleared, B.Inv, R.Distance;
    if i > from {
      DistanceKept(t, run, d, from, i - 1);
      ClearedAlways(t, run, i - 1);
      QuietStepKeepsDistance(After(BootSystem(t), run, i - 1), run[i - 1], d);
    }
  }

  lemma {:induction false} NoneOrphanedBefore(t: MappingTable, run: seq<Step>, i: nat, j: nat)
    requires i <= j <= |run| && NoneOrphaned(t, run, j)
    ensures NoneOrphaned(t, run, i)
  {
    hide Orphans, After;
    forall d, p | 0 <= d < 3 && 0 <= p < 6
      ensures NotOrphaned(t, run, d, p, i)
    {
      assert NotOrphaned(t, run, d, p, j);
    }
  }

  // With slot 0 empty, of any two successive timer firings one puts a telegram on the air
  // that any hub active at both hears as all channels neutral.
  lemma {:induction false} LostControllerStopsHubs(t: MappingTable, run: seq<Step>, d: nat, i: nat, j: nat)
    returns (n: nat)
    requires d < 3 && i < j < |run| && run[i].Timer? && run[j].Timer? && NoneOrphaned(t, run, j)
    requires forall m :: i < m < j ==> !run[m].Timer?
    requires After(BootSystem(t), run, i).pads[0] == 0 && After(BootSystem(t), run, j).pads[0] == 0
    requires After(BootSystem(t), run, i).slicer.active[d] && After(BootSystem(t), run, j).slicer.active[d]
    ensures n == i || n == j
    ensures HeardLast(After(BootSystem(t), run, n + 1)) == Some((d, B.NEUTRAL_ROW))
  {
    hide Apply, B.Inv, HeardLast, R.Distance, B.NextActive;
    NoneOrphanedBefore(t, run, i, j);
    FailsafeHolds(t, run, i);
    FailsafeHolds(t, run, j);
    var s, u := After(BootSystem(t), run, i), After(BootSystem(t), run, j);
    FiringServesOrNears(s, d);
    FiringServesOrNears(u, d);
    if B.NextActive(s.slicer.active, s.slicer.lastDevice) == d {
      n := i;
    } else {
      DistanceKept(t, run, d, i + 1, j);
      n := j;
    }
  }

  // What one step stages is heard as CONNECT by no hub, or with the channels of its hub.
  lemma {:induction false} StagedByStep(s: System, a: Step)
    requires B.Inv(s.slicer)
    ensures var t := Apply(s, a);
            t.slicer.sent != s.slicer.sent ==>
              if a.HubTap? then HeardLast(t) == None
              else exists d :: 0 <= d < 3 && HeardLast(t) == Some((d, s.slicer.channels[d]))
  {
    hide B.Inv, SweepTo, NeutralTo, B.HeardOf, B.NextActive, B.Neutralize, B.CountDown;
    match a
    case Loop(tick, rig, times) => SweepEffect(s, tick, rig, times, 18);
    case Disconnect(id, times) => NeutralEffect(s.(pads := s.pads[0 := 0]), times, 18);
    case HubTap(d, times) =>
      if d < 3 {
        B.NeutralizeEffect(B.MarkOff(s.slicer, d), d, times, 6);
        B.NeutralizeEffect(B.MarkOn(s.slicer, d), d, times, 6);
        B.SentIsHeard(B.Connect);
      }
    case Timer =>
      var d := B.NextActive(s.slicer.active, s.slicer.lastDevice);
      if d >= 0 {
        R.TimerStages(s.slicer, d);
        B.SentIsHeard(B.Control(d, true, s.slicer.channels[d]));
      }
    case Callback(h) =>
      if 0 <= h < 3 {
        B.SentIsHeard(B.Control(h, false, s.slicer.channels[h]));
      }
    case _ =>
  }

  // A tap that passed its debounce re-acquires a hub exactly when the hub rotates at all, shows its
  // lamp off, and is neither in transition nor already on; it then sends one CONNECT telegram, and
  // otherwise none.
  lemma {:induction false} TapConnectsExactly(s: System, d: nat, times: B.SixTimes)
    ensures Apply(s, HubTap(d, times)).slicer.sent
         == if d < 2 && !s.slicer.transitioning[d] && !s.slicer.broadcasting[d]
               && !(s.slicer.active[d] && s.slicer.pending[d] == 0)
            then s.slicer.sent + [B.Connect] else s.slicer.sent
  {
    hide B.Neutralize;
    if d < 3 {
      R.StepSends(s.slicer, B.Off(d, times));
      R.StepSends(s.slicer, B.On(d, times));
    }
  }

  // Every telegram put on the air while slot 0 is empty is the CONNECT telegram of a toggle-on
  // or is heard as all channels neutral.
  lemma {:induction false} OnlyNeutralWithoutController(t: MappingTable, run: seq<Step>, i: nat)
    requires i < |run| && NoneOrphaned(t, run, i) && After(BootSystem(t), run, i).pads[0] == 0
    ensures var s, u := After(BootSystem(t), run, i), After(BootSystem(t), run, i + 1);
            u.slicer.sent != s.slicer.sent ==>
              if run[i].HubTap? then HeardLast(u) == None
              else exists d :: 0 <= d < 3 && HeardLast(u) == Some((d, B.NEUTRAL_ROW))
  {
    hide Apply, B.Inv, HeardLast, NoneOrphaned;
    FailsafeHolds(t, run, i);
    StagedByStep(After(BootSystem(t), run, i), run[i]);
  }

  // ---- The reference of a heading lock ---------------------------------------------------

  lemma {:induction false} SweepSlots(s: System, k: Tick, rig: Rig, times: Times, q: nat, d: nat, p: nat)
    requires q <= 18 && d < 3 && p < 6
    ensures var t := SweepTo(s, k, rig, times, q);
            t.table == s.table
            && t.grid[d][p] == if s.table[d][p].bindings != [] && 6 * d + p < q
                               then SweepPort(s.table[d][p].bindings, s.grid[d][p], k, rig).slots
                               else s.grid[d][p]
  {
    hide HubOf, PortNr, SweepPort, B.SetChannel, AsByte, PortOf;
    if q > 0 {
      SweepSlots(s, k, rig, times, q - 1, d, p);
      var prev := SweepTo(s, k, rig, times, q - 1);
      var e, r := HubOf(q - 1), PortNr(q - 1);
      assert e == d && r == p <==> q - 1 == 6 * d + p;
      PortOfAt(prev.grid, e, r, SweepPort(prev.table[e][r].bindings, prev.grid[e][r], k, rig).slots, d, p);
    }
  }

  // The byte a sweep leaves on each channel: the level of its port, or what was there.
  lemma {:induction false} SweepChannel(s: System, k: Tick, rig: Rig, times: Times, q: nat, d: nat, p: nat)
    requires q <= 18 && d < 3 && p < 6
    ensures SweepTo(s, k, rig, times, q).slicer.channels[d][p]
         == if s.table[d][p].bindings != [] && 6 * d + p < q
            then AsByte(SweepPort(s.table[d][p].bindings, s.grid[d][p], k, rig).level)
            else s.slicer.channels[d][p]
  {
    hide HubOf, PortNr, SweepPort, B.SetChannel, AsByte, PortOf;
    if q > 0 {
      SweepChannel(s, k, rig, times, q - 1, d, p);
      var prev := SweepTo(s, k, rig, times, q - 1);
      var e, r := HubOf(q - 1), PortNr(q - 1);
      SweepSlots(s, k, rig, times, q - 1, e, r);
      assert e == d && r == p <==> q - 1 == 6 * d + p;
      var level := SweepPort(prev.table[e][r].bindings, prev.grid[e][r], k, rig).level;
      B.SetChannelEffect(prev.slicer, e, r, AsByte(level), times[q - 1]);
    }
  }

  // One sweep of the machine: every assigned port's channel holds the level of its bindings, as
  // a byte; every other channel is kept.
  lemma {:induction false} SweepSetsChannels(s: System, k: Tick, rig: Rig, times: Times, d: nat, p: nat)
    requires s.pads[0] != 0 && d < 3 && p < 6
    ensures var bs := s.table[d][p].bindings;
            Apply(s, Loop(k, rig, times)).slicer.channels[d][p] as int
            == if bs != [] then SweepPort(bs, s.grid[d][p], k, rig).level else s.slicer.channels[d][p] as int
  {
    hide SweepPort, SweepTo, AsByte;
    SweepChannel(s, k, rig, times, 18, d, p);
    ByteOfLevel(SweepPort(s.table[d][p].bindings, s.grid[d][p], k, rig).level);
  }

  lemma {:induction false} PortOfAt(g: Grid, e: nat, r: nat, slots: Slots, d: nat, p: nat)
    requires e < 3 && r < 6 && d < 3 && p < 6
    ensures PortOf(g, e, r, slots)[d][p] == if e == d && r == p then slots else g[d][p]
  {
  }

  // One step, seen from a port with one lock: it ends engaged only if it was, with the same
  // reference, or if a sweep with a calibrated gyro has just captured its heading.
  lemma {:induction false} LockOverStep(s: System, a: Step, d: nat, p: nat, t: nat)
    requires d < 3 && p < 6 && t < 8 && OneLock(s.table[d][p].bindings, t)
    ensures var l, m := s.grid[d][p][t].lock, Apply(s, a).grid[d][p][t].lock;
            m.engaged ==>
              if l.engaged then m.reference == l.reference
              else a.Loop? && a.tick.imuReady && s.pads[0] != 0 && m.reference == a.tick.heading
  {
    hide SweepPort, SweepTo, NeutralTo, B.TimerFires, B.EventCallback, B.ToggleOff, B.ToggleOn, OneLock;
    match a
    case Loop(tick, rig, times) =>
      SweepSlots(s, tick, rig, times, 18, d, p);
      LockOverSweep(s.table[d][p].bindings, s.grid[d][p], tick, rig, t);
    case Disconnect(id, times) => NeutralKeepsGrid(s.(pads := s.pads[0 := 0]), times, 18);
    case _ =>
  }

  lemma {:induction false} NeutralKeepsGrid(s: System, times: Times, q: nat)
    requires q <= 18
    ensures NeutralTo(s, times, q).grid == s.grid
  {
    hide B.SetChannel;
    if q > 0 {
      NeutralKeepsGrid(s, times, q - 1);
    }
  }

  // In every run, with taps, edits, reconnections and retuning: the reference of an engaged
  // lock is the heading of the sweep that engaged it, however long ago.
  lemma {:induction false} ReferenceIsHeld(b: MappingTable, run: seq<Step>, d: nat, p: nat, t: nat, i: nat)
    returns (e: nat)
    requires d < 3 && p < 6 && t < 8 && i <= |run| && After(BootSystem(b), run, i).grid[d][p][t].lock.engaged
    requires forall j :: 0 <= j < i ==> OneLock(After(BootSystem(b), run, j).table[d][p].bindings, t)
    ensures e < i && run[e].Loop? && run[e].tick.imuReady
    ensures After(BootSystem(b), run, i).grid[d][p][t].lock.reference == run[e].tick.heading
    ensures !After(BootSystem(b), run, e).grid[d][p][t].lock.engaged
    ensures forall j :: e < j <= i ==> After(BootSystem(b), run, j).grid[d][p][t].lock.engaged
  {
    hide Apply, OneLock;
    LockOverStep(After(BootSystem(b), run, i - 1), run[i - 1], d, p, t);
    if After(BootSystem(b), run, i - 1).grid[d][p][t].lock.engaged {
      e := ReferenceIsHeld(b, run, d, p, t, i - 1);
    } else {
      e := i - 1;
    }
  }

  // ---- A held button ---------------------------------------------------------------------

  const HELD_BUTTON := Binding(BTN_A, false, 100, MOMENTARY)

  // One binding on port A of hub 1, nothing else.
  function Single(b: Binding): MappingTable {
    SetPort([BLANK_ROW, BLANK_ROW, BLANK_ROW], 0, 0, Port([b], true))
  }

  function ButtonTable(): MappingTable {
    Single(HELD_BUTTON)
  }

  const DRIVEN_ROW: B.Row := B.NEUTRAL_ROW[0 := 0xFF]

  lemma {:induction false} HeldButtonIsFull(slots: Slots, k: Tick, rig: Rig)
    requires BTN_A in k.buttons
    ensures SweepPort([HELD_BUTTON], slots, k, rig).level == 0xFF
  {
    hide ApplyBinding;
    var bs: Bindings := [HELD_BUTTON];
    var next := Pass1Slots(bs, slots, k, rig);
    var raws := Pass1Levels(bs, next, k, rig);
    assert raws == [0xFF];
    assert LockIndex(bs, next, 0) == 1;
    BindingShare(0xFF, HELD_BUTTON);
    assert SumOf(bs, raws, 1) == SumOf(bs, raws, 0) + Contribution(raws[0], bs[0]) == 127;
  }

  lemma {:induction false} FullByte()
    ensures AsByte(0xFF) == 0xFF
  {
  }

  lemma {:induction false} OtherPortsAreFree(b: Binding, d: nat, p: nat)
    requires d < 3 && p < 6 && (d, p) != (0, 0)
    ensures Single(b)[d][p].bindings == [] && Single(b)[0][0].bindings == [b]
  {
  }

  lemma {:induction false} OnlyFirstPort(s: System, b: Binding, k: Tick, rig: Rig, times: Times, q: nat)
    requires s.table == Single(b) && SweepPort([b], s.grid[0][0], k, rig).level == 0xFF && 1 <= q <= 18
    ensures SweepTo(s, k, rig, times, q).slicer == B.SetChannel(s.slicer, 0, 0, 0xFF, times[0])
  {
    hide HubOf, PortNr, SweepPort, B.SetChannel, PortOf, AsByte;
    if q == 1 {
      FullByte();
      assert SweepTo(s, k, rig, times, 0) == s;
    } else {
      OnlyFirstPort(s, b, k, rig, times, q - 1);
      SweepSlots(s, k, rig, times, q - 1, 0, 0);
      OtherPortsAreFree(b, HubOf(q - 1), PortNr(q - 1));
    }
  }

  // A sweep that gives the one binding full level drives its port fully.
  lemma {:induction false} FullSweep(s: System, b: Binding, k: Tick, rig: Rig, times: Times)
    requires s.table == Single(b) && SweepPort([b], s.grid[0][0], k, rig).level == 0xFF && s.pads[0] != 0
    ensures var t := Apply(s, Loop(k, rig, times));
            t.slicer.channels == s.slicer.channels[0 := s.slicer.channels[0][0 := 0xFF]]
            && t.slicer.active == s.slicer.active && t.slicer.pending == s.slicer.pending
            && t.slicer.lastDevice == s.slicer.lastDevice
            && t.pads == s.pads && t.table == s.table
            && t.grid[0][0] == SweepPort([b], s.grid[0][0], k, rig).slots
  {
    hide SweepTo, SweepPort;
    OnlyFirstPort(s, b, k, rig, times, 18);
    SweepKeepsPads(s, k, rig, times, 18);
    SweepSlots(s, k, rig, times, 18, 0, 0);
  }

  lemma {:induction false} SweepKeepsPads(s: System, k: Tick, rig: Rig, times: Times, q: nat)
    requires q <= 18
    ensures SweepTo(s, k, rig, times, q).pads == s.pads
  {
    hide SweepPort, B.SetChannel;
    if q > 0 {
      SweepKeepsPads(s, k, rig, times, q - 1);
    }
  }

  // ---- A hub dropped, or left, without a stop ---------------------------------------------

  // The button table in force, both hubs in the rotation or hub 1 dropped, and hub 1's row
  // and countdown.
  predicate At(s: System, row: B.Row, count: int, active: bool, last: int) {
    s.table == ButtonTable() && s.slicer.channels[0] == row && s.slicer.active == [active, true, false]
    && s.slicer.pending == [count, 0, 0] && s.slicer.lastDevice == last
  }

  // A firing that services hub 1.
  lemma {:induction false} FirstHubServed(s: System, row: B.Row, count: int, last: int)
    requires At(s, row, count, true, last) && count >= 0 && (last == -1 || last == 1)
    ensures At(Apply(s, Timer), row, if count == 0 then 0 else count - 1, count != 1, 0)
    ensures HeardLast(Apply(s, Timer)) == Some((0, row))
  {
    hide HeardLast, B.NextFrom, ButtonTable, B.TimerFires;
    L.FiringEffect(s.slicer, 0);
    B.NextActiveIsRoundRobin(s.slicer.active, last);
    ServedIsHeard(s, 0);
  }

  lemma {:induction false} TimerFiresSlicer(s: System)
    ensures Apply(s, Timer).slicer == B.TimerFires(s.slicer)
  {
    hide B.TimerFires;
  }

  lemma {:induction false} ServedIsHeard(s: System, d: nat)
    requires d < 3 && B.NextActive(s.slicer.active, s.slicer.lastDevice) == d
    ensures HeardLast(Apply(s, Timer)) == Some((d, s.slicer.channels[d]))
  {
    hide Apply, B.HeardOf, B.NextActive, B.TimerFires;
    TimerFiresSlicer(s);
    R.TimerStages(s.slicer, d);
    B.SentIsHeard(B.Control(d, true, s.slicer.channels[d]));
  }

  // A firing that services hub 2.
  lemma {:induction false} SecondHubServed(s: System, row: B.Row, count: int)
    requires At(s, row, count, true, 0)
    ensures At(Apply(s, Timer), row, count, true, 1)
  {
    hide ButtonTable, B.NextFrom, B.TimerFires;
    L.FiringEffect(s.slicer, 1);
  }

  lemma {:induction false} FirstSteps(t: B.SixTimes)
    ensures var s := Apply(Apply(BootSystem(ButtonTable()), Timer), HubTap(0, t));
            At(s, B.NEUTRAL_ROW, 3, true, 0) && s.pads == [0, 0, 0, 0]
  {
    hide ButtonTable, B.NextFrom, B.Neutralize, B.TimerFires;
    var b := BootSystem(ButtonTable());
    L.FiringEffect(b.slicer, 0);
    var s := Apply(b, Timer);
    L.NothingToNeutralize(B.MarkOff(s.slicer, 0), 0, t, 6);
  }

  lemma {:induction false} ConnectFirst(s: System)
    requires s.pads == [0, 0, 0, 0]
    ensures Apply(s, Connect(1)) == s.(pads := [1, 0, 0, 0])
  {
  }

  lemma {:induction false} HeldAt(s: System, k: Tick, rig: Rig, times: Times, count: int, last: int)
    requires At(s, B.NEUTRAL_ROW, count, true, last) && s.pads[0] != 0 && BTN_A in k.buttons
    ensures At(Apply(s, Loop(k, rig, times)), DRIVEN_ROW, count, true, last)
    ensures Apply(s, Loop(k, rig, times)).pads == s.pads
  {
    hide Apply, Single, SweepPort;
    HeldButtonIsFull(s.grid[0][0], k, rig);
    FullSweep(s, HELD_BUTTON, k, rig, times);
  }

  lemma {:induction false} AfterStates(t: MappingTable, run: seq<Step>, states: seq<System>)
    requires |states| == |run| + 1 && states[0] == BootSystem(t)
    requires forall i :: 0 <= i < |run| ==> states[i + 1] == Apply(states[i], run[i])
    ensures forall i :: 0 <= i <= |run| ==> After(BootSystem(t), run, i) == states[i]
  {
    hide Apply, BootSystem;
    for i := 0 to |run|
      invariant forall j :: 0 <= j <= i ==> After(BootSystem(t), run, j) == states[j]
    {
    }
  }

  lemma {:induction false} CallbackKeepsAt(s: System, row: B.Row, count: int, active: bool, last: int)
    requires At(s, row, count, active, last)
    ensures At(Apply(s, Callback(0)), row, count, active, last)
  {
    hide ButtonTable;
  }

  // A hub is toggled off and then a button is held: all three services of its countdown air
  // full power, and it is dropped without having heard neutral since.
  lemma {:induction false} DropWithoutNeutral(t: B.SixTimes, k: Tick, rig: Rig, times: Times) returns (run: seq<Step>)
    requires BTN_A in k.buttons
    ensures run == [Timer, HubTap(0, t), Connect(1), Loop(k, rig, times), Callback(0),
                    Timer, Timer, Timer, Timer, Timer, Timer]
    ensures var b := BootSystem(ButtonTable());
            After(b, run, 10).slicer.active[0] && !After(b, run, 11).slicer.active[0]
            && HeardLast(After(b, run, 7)) == Some((0, DRIVEN_ROW))
            && HeardLast(After(b, run, 9)) == Some((0, DRIVEN_ROW))
            && HeardLast(After(b, run, 11)) == Some((0, DRIVEN_ROW))
  {
    hide Apply, HeardLast, After, ButtonTable, BootSystem, DRIVEN_ROW;
    run := [Timer, HubTap(0, t), Connect(1), Loop(k, rig, times), Callback(0),
            Timer, Timer, Timer, Timer, Timer, Timer];
    var s0 := BootSystem(ButtonTable());
    var s1 := Apply(s0, run[0]);
    var s2 := Apply(s1, run[1]);
    FirstSteps(t);
    var s3 := Apply(s2, run[2]);
    ConnectFirst(s2);
    var s4 := Apply(s3, run[3]);
    HeldAt(s3, k, rig, times, 3, 0);
    var s5 := Apply(s4, run[4]);
    CallbackKeepsAt(s4, DRIVEN_ROW, 3, true, 0);
    var s6 := Apply(s5, run[5]);
    SecondHubServed(s5, DRIVEN_ROW, 3);
    var s7 := Apply(s6, run[6]);
    FirstHubServed(s6, DRIVEN_ROW, 3, 1);
    var s8 := Apply(s7, run[7]);
    SecondHubServed(s7, DRIVEN_ROW, 2);
    var s9 := Apply(s8, run[8]);
    FirstHubServed(s8, DRIVEN_ROW, 2, 1);
    var s10 := Apply(s9, run[9]);
    SecondHubServed(s9, DRIVEN_ROW, 1);
    var s11 := Apply(s10, run[10]);
    FirstHubServed(s10, DRIVEN_ROW, 1, 1);
    AfterStates(ButtonTable(), run, [s0, s1, s2, s3, s4, s5, s6, s7, s8, s9, s10, s11]);
  }

  // RESET ALL while the button is held, then the controller is lost: the failsafe skips the
  // port, which now has no bindings, and the hub goes on hearing full power.
  lemma {:induction false} ResetLeavesPortDriven(k: Tick, rig: Rig, times: Times, offTimes: Times)
    returns (run: seq<Step>)
    requires BTN_A in k.buttons
    ensures run == [Connect(1), Loop(k, rig, times), ResetAll, Disconnect(1, offTimes), Timer]
    ensures var b := BootSystem(ButtonTable());
            After(b, run, 4).pads[0] == 0 && HeardLast(After(b, run, 5)) == Some((0, DRIVEN_ROW))
  {
    hide HeardLast, After, ButtonTable, BootSystem, DRIVEN_ROW, B.TimerFires, SweepTo, Apply, B.Inv;
    run := [Connect(1), Loop(k, rig, times), ResetAll, Disconnect(1, offTimes), Timer];
    var s0 := BootSystem(ButtonTable());
    BootAt();
    var s1 := Apply(s0, run[0]);
    ConnectFirst(s0);
    var s2 := Apply(s1, run[1]);
    HeldAt(s1, k, rig, times, 0, -1);
    ChannelAfter(s1, run[1], 0, 0);
    var s3 := Apply(s2, run[2]);
    var s4 := Apply(s3, run[3]);
    LostAfterReset(s2, offTimes);
    var s5 := Apply(s4, run[4]);
    B.NextActiveIsRoundRobin(s4.slicer.active, -1);
    ServedIsHeard(s4, 0);
    AfterStates(ButtonTable(), run, [s0, s1, s2, s3, s4, s5]);
  }

  lemma {:induction false} BootAt()
    ensures At(BootSystem(ButtonTable()), B.NEUTRAL_ROW, 0, true, -1)
    ensures BootSystem(ButtonTable()).pads == [0, 0, 0, 0] && B.Inv(BootSystem(ButtonTable()).slicer)
  {
    hide ButtonTable;
    B.BootInv();
  }

  // The failsafe after RESET ALL empties the slot and touches no channel.
  lemma {:induction false} LostAfterReset(s: System, times: Times)
    requires B.Inv(s.slicer) && s.pads == [1, 0, 0, 0]
    ensures var t := Apply(Apply(s, ResetAll), Disconnect(1, times));
            t.pads[0] == 0 && t.slicer == s.slicer
  {
    var gone := s.(table := RESET_TABLE, grid := CLEARED_GRID, pads := [0, 0, 0, 0]);
    NoBindingsNoWrites(gone, times, 18);
    hide NeutralTo;
    assert SlotOf(s.pads, 1, 0) == 0;
    assert s.pads[0 := 0] == [0, 0, 0, 0];
  }

  lemma {:induction false} ResetIsEmpty(d: nat, p: nat)
    requires d < 3 && p < 6
    ensures RESET_TABLE[d][p].bindings == []
  {
  }

  lemma {:induction false} NoBindingsNoWrites(s: System, times: Times, q: nat)
    requires s.table == RESET_TABLE && q <= 18
    ensures NeutralTo(s, times, q) == s
  {
    hide HubOf, PortNr, B.SetChannel, RESET_TABLE;
    if q > 0 {
      NoBindingsNoWrites(s, times, q - 1);
      ResetIsEmpty(HubOf(q - 1), PortNr(q - 1));
    }
  }
}
