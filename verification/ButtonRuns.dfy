// Latches and pulses over runs of the whole machine: taps, edits, reconnections and reloads
// included. A slot lives from one clearing to the next, whatever bindings it serves.
module ButtonRuns {
  import opened ConfigLine
  import opened ConfigTable
  import opened Curves
  import opened Machines
  import opened Sweep
  import opened Failsafe
  import opened DriveRuns
  import B = Broadcast

  // ---- One step, seen from one slot ----------------------------------------------------

  // The steps that clear the state of a port: it is pushed by the editor, its hub is tapped off,
  // everything is reset, or the controller of slot 0 goes.
  predicate Clears(s: System, a: Step, d: nat, p: nat) {
    match a
    case Edit(e, q, _) => e == d && q == p
    case HubTap(e, _) => e == d < 3 && !s.slicer.transitioning[e] && s.slicer.broadcasting[e]
    case ResetAll => true
    case Disconnect(id, _) => id != 0 && SlotOf(s.pads, id, 0) == 0
    case _ => false
  }

  // A sweep in which slot i of the port serves a button binding of this mode.
  predicate Serves(s: System, a: Step, d: nat, p: nat, i: nat, mode: Mode)
    requires d < 3 && p < 6
  {
    a.Loop? && s.pads[0] != 0 && i < |s.table[d][p].bindings|
    && s.table[d][p].bindings[i].mode == mode && IsButton(s.table[d][p].bindings[i])
  }

  predicate PressedAt(s: System, a: Step, d: nat, p: nat, i: nat)
    requires d < 3 && p < 6 && a.Loop? && i < |s.table[d][p].bindings|
  {
    Pressed(a.tick, s.table[d][p].bindings[i].input)
  }

  lemma {:induction false} SlotOverSweep(bs: Bindings, slots: Slots, k: Tick, rig: Rig, i: nat)
    requires i < 8
    ensures var m := SweepPort(bs, slots, k, rig).slots[i];
            m.latch == (if i < |bs| && bs[i].mode == LATCHED && IsButton(bs[i])
                        then LatchTick(slots[i].latch, Pressed(k, bs[i].input)) else slots[i].latch)
            && m.pulse == (if i < |bs| && bs[i].mode == PULSE && IsButton(bs[i])
                           then PulseTick(slots[i].pulse, Pressed(k, bs[i].input), k.frame, rig.pulseFrames)
                           else slots[i].pulse)
  {
    hide SweepPort, Pressed, IsButton, PulseTick, LatchTick, LockTick;
    if i < |bs| {
      ArbitrationKeepsMachines(bs, slots, k, rig, i);
    } else {
      SpareSlotsAreKept(bs, slots, k, rig, i);
    }
  }

  lemma {:induction false} SlotOverStep(s: System, a: Step, d: nat, p: nat, i: nat)
    requires d < 3 && p < 6 && i < 8
    ensures var l, m := s.grid[d][p][i], Apply(s, a).grid[d][p][i];
            if Clears(s, a, d, p) then m == CLEARED
            else
              m.latch == (if Serves(s, a, d, p, i, LATCHED)
                          then LatchTick(l.latch, PressedAt(s, a, d, p, i)) else l.latch)
              && m.pulse == (if Serves(s, a, d, p, i, PULSE)
                             then PulseTick(l.pulse, PressedAt(s, a, d, p, i), a.tick.frame, a.rig.pulseFrames)
                             else l.pulse)
  {
    hide SweepPort, SweepTo, NeutralTo, Pressed, IsButton, PulseTick, LatchTick, B.TimerFires, B.EventCallback,
         B.ToggleOff, B.ToggleOn;
    match a
    case Loop(tick, rig, times) =>
      SweepSlots(s, tick, rig, times, 18, d, p);
      SlotOverSweep(s.table[d][p].bindings, s.grid[d][p], tick, rig, i);
    case Disconnect(id, times) => NeutralKeepsGrid(s.(pads := s.pads[0 := 0]), times, 18);
    case _ =>
  }

  // ---- From one step of a run to another -----------------------------------------------

  predicate NoClear(t: MappingTable, run: seq<Step>, d: nat, p: nat, from: nat, until: nat)
    requires until <= |run|
  {
    forall j :: from <= j < until ==> !Clears(After(BootSystem(t), run, j), run[j], d, p)
  }

  // The state of the slot was cleared by step from - 1, or is that of boot.
  predicate ClearedAt(t: MappingTable, run: seq<Step>, d: nat, p: nat, from: nat)
    requires from <= |run|
  {
    from == 0 || Clears(After(BootSystem(t), run, from - 1), run[from - 1], d, p)
  }

  // What the latched bindings of slot i saw pressed in steps [from, until).
  function PressesIn(t: MappingTable, run: seq<Step>, d: nat, p: nat, i: nat, from: nat, until: nat): seq<bool>
    requires d < 3 && p < 6 && until <= |run|
    decreases until
  {
    if until <= from then []
    else
      var s, a := After(BootSystem(t), run, until - 1), run[until - 1];
      PressesIn(t, run, d, p, i, from, until - 1)
      + if Serves(s, a, d, p, i, LATCHED) then [PressedAt(s, a, d, p, i)] else []
  }

  // What its pulse bindings saw.
  function BeatsIn(t: MappingTable, run: seq<Step>, d: nat, p: nat, i: nat, from: nat, until: nat): seq<Beat>
    requires d < 3 && p < 6 && until <= |run|
    decreases until
  {
    if until <= from then []
    else
      var s, a := After(BootSystem(t), run, until - 1), run[until - 1];
      BeatsIn(t, run, d, p, i, from, until - 1)
      + if Serves(s, a, d, p, i, PULSE) then [Beat(PressedAt(s, a, d, p, i), a.tick.frame)] else []
  }

  function SlotAt(t: MappingTable, run: seq<Step>, d: nat, p: nat, i: nat, n: nat): Slot
    requires d < 3 && p < 6 && i < 8 && n <= |run|
  {
    After(BootSystem(t), run, n).grid[d][p][i]
  }

  lemma {:induction false} SlotOverNext(t: MappingTable, run: seq<Step>, d: nat, p: nat, i: nat, n: nat)
    requires d < 3 && p < 6 && i < 8 && 0 < n <= |run|
    ensures var s, a := After(BootSystem(t), run, n - 1), run[n - 1];
            var l, m := SlotAt(t, run, d, p, i, n - 1), SlotAt(t, run, d, p, i, n);
            if Clears(s, a, d, p) then m == CLEARED
            else
              m.latch == (if Serves(s, a, d, p, i, LATCHED)
                          then LatchTick(l.latch, PressedAt(s, a, d, p, i)) else l.latch)
              && m.pulse == (if Serves(s, a, d, p, i, PULSE)
                             then PulseTick(l.pulse, PressedAt(s, a, d, p, i), a.tick.frame, a.rig.pulseFrames)
                             else l.pulse)
  {
    hide Apply, Clears, Serves, PressedAt, PulseTick, LatchTick;
    SlotOverStep(After(BootSystem(t), run, n - 1), run[n - 1], d, p, i);
  }

  lemma {:induction false} StartsClear(t: MappingTable, run: seq<Step>, d: nat, p: nat, i: nat, from: nat)
    requires d < 3 && p < 6 && i < 8 && from <= |run| && ClearedAt(t, run, d, p, from)
    ensures SlotAt(t, run, d, p, i, from) == CLEARED
  {
    if from > 0 {
      hide After, Clears, Serves;
      SlotOverNext(t, run, d, p, i, from);
    }
  }

  lemma {:induction false} LatchFromAppend(l: Latch, presses: seq<bool>, pressed: bool)
    ensures LatchFrom(l, presses + [pressed]) == LatchTick(LatchFrom(l, presses), pressed)
  {
    assert (presses + [pressed])[..|presses|] == presses;
  }

  // Between clearings the latch follows what its bindings saw pressed.
  lemma {:induction false} LatchOverStretch(t: MappingTable, run: seq<Step>, d: nat, p: nat, i: nat, from: nat, n: nat)
    requires d < 3 && p < 6 && i < 8 && from <= n <= |run| && NoClear(t, run, d, p, from, n)
    ensures SlotAt(t, run, d, p, i, n).latch
         == LatchFrom(SlotAt(t, run, d, p, i, from).latch, PressesIn(t, run, d, p, i, from, n))
    decreases n
  {
    hide After, Clears, PressedAt, PulseTick, LatchTick, LatchFrom, SlotAt;
    if n == from {
      NoPresses(SlotAt(t, run, d, p, i, from).latch);
    } else {
      LatchOverStretch(t, run, d, p, i, from, n - 1);
      SlotOverNext(t, run, d, p, i, n);
      var s, a := After(BootSystem(t), run, n - 1), run[n - 1];
      var presses := PressesIn(t, run, d, p, i, from, n - 1);
      if Serves(s, a, d, p, i, LATCHED) {
        LatchFromAppend(SlotAt(t, run, d, p, i, from).latch, presses, PressedAt(s, a, d, p, i));
      } else {
        assert presses + [] == presses;
      }
    }
  }

  lemma {:induction false} NoPresses(l: Latch)
    ensures LatchFrom(l, []) == l
  {
  }

  // Since it was last cleared, a latch is on exactly after an odd number of the press edges seen
  // through its slot.
  lemma {:induction false} LatchIsParityOverRuns(t: MappingTable, run: seq<Step>, d: nat, p: nat, i: nat,
                                                 from: nat, n: nat)
    requires d < 3 && p < 6 && i < 8 && from <= n <= |run|
    requires ClearedAt(t, run, d, p, from) && NoClear(t, run, d, p, from, n)
    ensures SlotAt(t, run, d, p, i, n).latch.on <==> Edges(PressesIn(t, run, d, p, i, from, n)) % 2 == 1
  {
    hide After, Clears, PressesIn, SlotAt, ClearedAt, NoClear, LatchFrom;
    StartsClear(t, run, d, p, i, from);
    LatchOverStretch(t, run, d, p, i, from, n);
    LatchIsParity(PressesIn(t, run, d, p, i, from, n));
  }

  // From a reload on, which clears nothing, the latch law holds for the presses of the reloaded
  // bindings exactly when the slot was off, or on with its button then held and the new
  // binding's button pressed at the first sweep.
  lemma {:induction false} ReloadedLatchExactly(t: MappingTable, run: seq<Step>, d: nat, p: nat, i: nat,
                                                from: nat, n: nat)
    requires d < 3 && p < 6 && i < 8 && from < n <= |run| && run[from].Reload? && NoClear(t, run, d, p, from, n)
    requires PressesIn(t, run, d, p, i, from + 1, n) != []
    ensures var was, presses := SlotAt(t, run, d, p, i, from).latch, PressesIn(t, run, d, p, i, from + 1, n);
            SlotAt(t, run, d, p, i, n).latch == LatchAfter(presses) <==> was.on == (presses[0] && was.prev)
  {
    hide After, Clears, PressesIn, SlotAt, LatchFrom, PressedAt;
    SlotOverNext(t, run, d, p, i, from + 1);
    LatchOverStretch(t, run, d, p, i, from + 1, n);
    CarriedLatchExactly(SlotAt(t, run, d, p, i, from).latch, PressesIn(t, run, d, p, i, from + 1, n));
  }

  // ---- Pulses ------------------------------------------------------------------------------

  // The pulse length is the same at every sweep; frame numbers never fall.
  predicate Paced(run: seq<Step>, frames: nat) {
    (forall j :: 0 <= j < |run| && run[j].Loop? ==> run[j].rig.pulseFrames == frames)
    && forall j, k :: 0 <= j <= k < |run| && run[j].Loop? && run[k].Loop? ==> run[j].tick.frame <= run[k].tick.frame
  }

  lemma {:induction false} PulseFromPrefix(p: Pulse, beats: seq<Beat>, beat: Beat, frames: nat, i: nat)
    requires i <= |beats|
    ensures PulseFrom(p, beats + [beat], frames, i) == PulseFrom(p, beats, frames, i)
  {
    if i > 0 {
      hide PulseTick;
      PulseFromPrefix(p, beats, beat, frames, i - 1);
    }
  }

  lemma {:induction false} PulseFromAppend(p: Pulse, beats: seq<Beat>, beat: Beat, frames: nat)
    ensures PulseFrom(p, beats + [beat], frames, |beats| + 1)
         == PulseTick(PulseFrom(p, beats, frames, |beats|), beat.pressed, beat.frame, frames)
  {
    hide PulseTick;
    PulseFromPrefix(p, beats, beat, frames, |beats|);
  }

  // Between clearings the pulse follows what its bindings saw.
  lemma {:induction false} PulseOverStretch(t: MappingTable, run: seq<Step>, d: nat, p: nat, i: nat, from: nat,
                                            n: nat, frames: nat)
    requires d < 3 && p < 6 && i < 8 && from <= n <= |run| && NoClear(t, run, d, p, from, n) && Paced(run, frames)
    ensures var beats := BeatsIn(t, run, d, p, i, from, n);
            SlotAt(t, run, d, p, i, n).pulse
            == PulseFrom(SlotAt(t, run, d, p, i, from).pulse, beats, frames, |beats|)
    decreases n
  {
    hide After, Clears, PressedAt, PulseTick, LatchTick, PulseFrom, SlotAt;
    if n == from {
      NoBeats(SlotAt(t, run, d, p, i, from).pulse, frames);
    } else {
      PulseOverStretch(t, run, d, p, i, from, n - 1, frames);
      SlotOverNext(t, run, d, p, i, n);
      var s, a := After(BootSystem(t), run, n - 1), run[n - 1];
      var beats := BeatsIn(t, run, d, p, i, from, n - 1);
      if Serves(s, a, d, p, i, PULSE) {
        var beat := Beat(PressedAt(s, a, d, p, i), a.tick.frame);
        PulseFromAppend(SlotAt(t, run, d, p, i, from).pulse, beats, beat, frames);
      } else {
        assert beats + [] == beats;
      }
    }
  }

  lemma {:induction false} NoBeats(p: Pulse, frames: nat)
    ensures PulseFrom(p, [], frames, 0) == p
  {
  }

  predicate UpTo(beats: seq<Beat>, top: int) {
    forall q :: 0 <= q < |beats| ==> beats[q].frame <= top
  }

  lemma {:induction false} BeatsUpTo(t: MappingTable, run: seq<Step>, d: nat, p: nat, i: nat, from: nat, n: nat,
                                     top: int)
    requires d < 3 && p < 6 && n <= |run|
    requires forall j :: 0 <= j < n && run[j].Loop? ==> run[j].tick.frame <= top
    ensures UpTo(BeatsIn(t, run, d, p, i, from, n), top)
    decreases n
  {
    hide After, PressedAt;
    if n > from {
      BeatsUpTo(t, run, d, p, i, from, n - 1, top);
    }
  }

  lemma {:induction false} BeatsAreOrdered(t: MappingTable, run: seq<Step>, d: nat, p: nat, i: nat, from: nat,
                                           n: nat, frames: nat)
    requires d < 3 && p < 6 && n <= |run| && Paced(run, frames)
    ensures Ordered(BeatsIn(t, run, d, p, i, from, n))
    decreases n
  {
    hide After, PressedAt;
    if n > from {
      BeatsAreOrdered(t, run, d, p, i, from, n - 1, frames);
      if run[n - 1].Loop? {
        BeatsUpTo(t, run, d, p, i, from, n - 1, run[n - 1].tick.frame);
      }
    }
  }

  lemma {:induction false} PulseIsFull(b: Binding, s: Slot, k: Tick, rig: Rig)
    requires b.mode == PULSE && IsButton(b)
    ensures RawLevel(b, s, k, rig) == 0xFF <==> s.pulse.active
  {
    hide StickLevel, TriggerLevel, LockLevel, Pressed;
  }

  // Since it was last cleared, a slot gives a pulse binding full level exactly in the windows
  // opened by the presses seen through it.
  lemma {:induction false} PulseLevelsOverRuns(t: MappingTable, run: seq<Step>, d: nat, p: nat, i: nat, from: nat,
                                               n: nat, frames: nat)
    requires d < 3 && p < 6 && i < 8 && from < n <= |run| && frames >= 1 && Paced(run, frames)
    requires ClearedAt(t, run, d, p, from) && NoClear(t, run, d, p, from, n)
    requires Serves(After(BootSystem(t), run, n - 1), run[n - 1], d, p, i, PULSE)
    ensures var beats := BeatsIn(t, run, d, p, i, from, n);
            var b := After(BootSystem(t), run, n - 1).table[d][p].bindings[i];
            |beats| > 0
            && (RawLevel(b, SlotAt(t, run, d, p, i, n), run[n - 1].tick, run[n - 1].rig) == 0xFF
                <==> InAWindow(beats, frames, |beats| - 1))
  {
    var beats := BeatsIn(t, run, d, p, i, from, n);
    hide After, Apply, Clears, PressedAt, SlotAt, ClearedAt, NoClear, InAWindow, PulseFrom, Paced;
    assert |beats| > 0;
    hide BeatsIn, RawLevel, IsButton;
    PulseIsFull(After(BootSystem(t), run, n - 1).table[d][p].bindings[i], SlotAt(t, run, d, p, i, n),
                run[n - 1].tick, run[n - 1].rig);
    StartsClear(t, run, d, p, i, from);
    PulseOverStretch(t, run, d, p, i, from, n, frames);
    BeatsAreOrdered(t, run, d, p, i, from, n, frames);
    PulseLevels(beats, frames, |beats| - 1);
  }

  // Armed and active exclude each other at every point of every run.
  lemma {:induction false} NeverBothOverRuns(t: MappingTable, run: seq<Step>, d: nat, p: nat, i: nat, n: nat)
    requires d < 3 && p < 6 && i < 8 && n <= |run|
    ensures !(SlotAt(t, run, d, p, i, n).pulse.armed && SlotAt(t, run, d, p, i, n).pulse.active)
    decreases n
  {
    hide Apply, Clears, PressedAt, PulseTick, LatchTick;
    if n == 0 {
      StartsClear(t, run, d, p, i, 0);
    } else {
      NeverBothOverRuns(t, run, d, p, i, n - 1);
      SlotOverNext(t, run, d, p, i, n);
      var s, a := After(BootSystem(t), run, n - 1), run[n - 1];
      if Serves(s, a, d, p, i, PULSE) {
        TickNeverBoth(SlotAt(t, run, d, p, i, n - 1).pulse, PressedAt(s, a, d, p, i), a.tick.frame, a.rig.pulseFrames);
      }
    }
  }

  lemma {:induction false} TickNeverBoth(p: Pulse, pressed: bool, frame: int, frames: nat)
    requires !(p.armed && p.active)
    ensures !(PulseTick(p, pressed, frame, frames).armed && PulseTick(p, pressed, frame, frames).active)
  {
  }

  // From a reload on, the pulse keeps to the levels of a cleared one, whatever its bindings see,
  // exactly when the slot was idle at the reload.
  lemma {:induction false} ReloadedPulseExactly(t: MappingTable, run: seq<Step>, d: nat, p: nat, i: nat, from: nat,
                                                frames: nat)
    requires d < 3 && p < 6 && i < 8 && from < |run| && run[from].Reload? && frames >= 1
    ensures Idle(SlotAt(t, run, d, p, i, from).pulse)
            <==> AlwaysSameLevel(SlotAt(t, run, d, p, i, from + 1).pulse, frames)
  {
    hide After, SlotAt, AlwaysSameLevel, Idle;
    SlotOverNext(t, run, d, p, i, from + 1);
    NeverBothOverRuns(t, run, d, p, i, from);
    CarriedPulseExactly(SlotAt(t, run, d, p, i, from).pulse, frames);
  }

  // ---- A latch left on ----------------------------------------------------------------------

  const LATCH_A := Binding(BTN_A, false, 100, LATCHED)
  const LATCH_B := Binding(BTN_B, false, 100, LATCHED)

  lemma {:induction false} LatchIsFull(b: Binding, slots: Slots, k: Tick, rig: Rig)
    requires b == LATCH_A || b == LATCH_B
    requires LatchTick(slots[0].latch, Pressed(k, b.input)).on
    ensures SweepPort([b], slots, k, rig).level == 0xFF
    ensures SweepPort([b], slots, k, rig).slots[0].latch == LatchTick(slots[0].latch, Pressed(k, b.input))
  {
    hide ApplyBinding, Pressed;
    var bs: Bindings := [b];
    var next := Pass1Slots(bs, slots, k, rig);
    var raws := Pass1Levels(bs, next, k, rig);
    assert raws == [0xFF];
    assert LockIndex(bs, next, 0) == 1;
    BindingShare(0xFF, b);
    assert SumOf(bs, raws, 1) == SumOf(bs, raws, 0) + Contribution(raws[0], bs[0]) == 127;
  }

  lemma {:induction false} EditedSingle(a: Binding, b: Binding)
    ensures SetPort(Single(b), 0, 0, Port([a], true)) == Single(a)
  {
    assert BLANK_ROW[0 := Port([b], true)][0 := Port([a], true)] == BLANK_ROW[0 := Port([a], true)];
    assert Single(b)[0 := Single(a)[0]] == Single(a);
  }

  // The saved mapping latches button B. The editor tries button A on that port, A is pressed
  // once, and the settings page's RESET reloads the saved mapping: the port is now driven fully
  // by the latch of button B, which was never pressed.
  lemma {:induction false} ReloadLeavesLatchOn(k: Tick, k': Tick, rig: Rig, times: Times) returns (run: seq<Step>)
    requires BTN_A in k.buttons && BTN_B !in k.buttons && BTN_B !in k'.buttons
    ensures run == [Connect(1), Edit(0, 0, [LATCH_A]), Loop(k, rig, times), Reload(Single(LATCH_B)),
                    Loop(k', rig, times)]
    ensures var s := After(BootSystem(Single(LATCH_B)), run, 5);
            s.table == Single(LATCH_B) && s.slicer.channels[0][0] == 0xFF
  {
    hide Apply, After, Single, SweepPort, BootSystem;
    run := [Connect(1), Edit(0, 0, [LATCH_A]), Loop(k, rig, times), Reload(Single(LATCH_B)), Loop(k', rig, times)];
    var s0 := BootSystem(Single(LATCH_B));
    BootFacts(Single(LATCH_B));
    var s1 := Apply(s0, run[0]);
    ConnectFirst(s0);
    var s2 := Apply(s1, run[1]);
    EditFirst(s1, [LATCH_A]);
    EditedSingle(LATCH_A, LATCH_B);
    var s3 := Apply(s2, run[2]);
    LatchIsFull(LATCH_A, s2.grid[0][0], k, rig);
    FullSweep(s2, LATCH_A, k, rig, times);
    var s4 := Apply(s3, run[3]);
    ReloadEffect(s3, Single(LATCH_B));
    var s5 := Apply(s4, run[4]);
    LatchIsFull(LATCH_B, s4.grid[0][0], k', rig);
    FullSweep(s4, LATCH_B, k', rig, times);
    AfterStates(Single(LATCH_B), run, [s0, s1, s2, s3, s4, s5]);
  }

  lemma {:induction false} BootFacts(t: MappingTable)
    ensures BootSystem(t).table == t && BootSystem(t).pads == [0, 0, 0, 0]
  {
  }

  lemma {:induction false} EditFirst(s: System, bs: Bindings)
    ensures var t := Apply(s, Edit(0, 0, bs));
            t.pads == s.pads && t.table == SetPort(s.table, 0, 0, Port(bs, true)) && t.grid[0][0] == CLEARED_SLOTS
  {
  }

  lemma {:induction false} ReloadEffect(s: System, t: MappingTable)
    ensures Apply(s, Reload(t)).table == t && Apply(s, Reload(t)).grid == s.grid && Apply(s, Reload(t)).pads == s.pads
  {
  }
}
