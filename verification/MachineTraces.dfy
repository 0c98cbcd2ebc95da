// Every run of the whole machine is, for the time-slicer, one run of its own steps; so the
// theorems about slicer runs, deep sleep included, hold of the machine.
module MachineTraces {
  import opened Bits
  import opened Protocol
  import opened ConfigTable
  import opened Curves
  import opened Sweep
  import opened Failsafe
  import B = Broadcast
  import R = BroadcastRuns
  import Z = SleepRuns

  // The channel writes of the first q ports of a sweep, and of the failsafe.
  function SweepWrites(s: System, k: Tick, rig: Rig, times: Times, q: nat): seq<B.Action>
    requires q <= 18
  {
    if q == 0 then []
    else
      hide SweepPort;
      var prev := SweepTo(s, k, rig, times, q - 1);
      var d, p := HubOf(q - 1), PortNr(q - 1);
      var bs := prev.table[d][p].bindings;
      SweepWrites(s, k, rig, times, q - 1)
      + if bs == [] then []
        else [B.Write(d, p, AsByte(SweepPort(bs, prev.grid[d][p], k, rig).level), times[q - 1])]
  }

  function NeutralWrites(t: MappingTable, times: Times, q: nat): seq<B.Action>
    requires q <= 18
  {
    if q == 0 then []
    else
      var d, p := HubOf(q - 1), PortNr(q - 1);
      NeutralWrites(t, times, q - 1) + if t[d][p].bindings == [] then [] else [B.Write(d, p, NEUTRAL, times[q - 1])]
  }

  // What one step of the machine asks of the slicer.
  function ActionsOf(s: System, a: Step): seq<B.Action> {
    match a
    case Loop(tick, rig, times) => if s.pads[0] != 0 then SweepWrites(s, tick, rig, times, 18) else []
    case Disconnect(id, times) =>
      if id != 0 && SlotOf(s.pads, id, 0) == 0 then NeutralWrites(s.table, times, 18) else []
    case HubTap(d, times) =>
      if d >= 3 || s.slicer.transitioning[d] then []
      else if s.slicer.broadcasting[d] then [B.Off(d, times)] else [B.On(d, times)]
    case Timer => [B.Timer]
    case Callback(h) => [B.Callback(h)]
    case _ => []
  }

  function Trace(t: MappingTable, run: seq<Step>, i: nat): seq<B.Action>
    requires i <= |run|
  {
    if i == 0 then [] else Trace(t, run, i - 1) + ActionsOf(After(BootSystem(t), run, i - 1), run[i - 1])
  }

  function Reached(s: B.Slicer, run: seq<B.Action>): B.Slicer {
    B.StateAt(s, run, |run|)
  }

  lemma {:induction false} ReachedAppend(s: B.Slicer, a: seq<B.Action>, b: seq<B.Action>)
    ensures Reached(s, a + b) == Reached(Reached(s, a), b)
  {
    hide B.StateAt;
    B.StateAtAppend(s, a, b, |b|);
  }

  lemma {:induction false} ReachedOne(s: B.Slicer, a: B.Action)
    ensures Reached(s, [a]) == B.Step(s, a) && Reached(s, []) == s
  {
    hide B.Step;
    assert B.StateAt(s, [a], 0) == s;
  }

  lemma {:induction false} ReachedWrite(s: B.Slicer, run: seq<B.Action>, d: nat, p: nat, v: byte, now: int)
    ensures Reached(s, run + [B.Write(d, p, v, now)]) == B.SetChannel(Reached(s, run), d, p, v, now)
  {
    hide Reached, B.SetChannel;
    ReachedAppend(s, run, [B.Write(d, p, v, now)]);
    ReachedOne(Reached(s, run), B.Write(d, p, v, now));
  }

  lemma {:induction false} SweepIsWrites(s: System, k: Tick, rig: Rig, times: Times, q: nat)
    requires q <= 18
    ensures Reached(s.slicer, SweepWrites(s, k, rig, times, q)) == SweepTo(s, k, rig, times, q).slicer
    ensures forall i :: 0 <= i < |SweepWrites(s, k, rig, times, q)| ==> SweepWrites(s, k, rig, times, q)[i].Write?
  {
    hide HubOf, PortNr, SweepPort, AsByte, B.SetChannel, Reached, PortOf;
    if q == 0 {
      ReachedOne(s.slicer, B.Timer);
    } else {
      SweepIsWrites(s, k, rig, times, q - 1);
      var prev := SweepTo(s, k, rig, times, q - 1);
      var d, p := HubOf(q - 1), PortNr(q - 1);
      var writes := SweepWrites(s, k, rig, times, q - 1);
      if prev.table[d][p].bindings == [] {
        assert writes + [] == writes;
      } else {
        var level := SweepPort(prev.table[d][p].bindings, prev.grid[d][p], k, rig).level;
        ReachedWrite(s.slicer, writes, d, p, AsByte(level), times[q - 1]);
      }
    }
  }

  lemma {:induction false} NeutralIsWrites(s: System, times: Times, q: nat)
    requires q <= 18
    ensures Reached(s.slicer, NeutralWrites(s.table, times, q)) == NeutralTo(s, times, q).slicer
    ensures NeutralTo(s, times, q).table == s.table
    ensures forall i :: 0 <= i < |NeutralWrites(s.table, times, q)| ==> NeutralWrites(s.table, times, q)[i].Write?
  {
    hide HubOf, PortNr, B.SetChannel, Reached;
    if q == 0 {
      ReachedOne(s.slicer, B.Timer);
    } else {
      NeutralIsWrites(s, times, q - 1);
      var d, p := HubOf(q - 1), PortNr(q - 1);
      var writes := NeutralWrites(s.table, times, q - 1);
      if s.table[d][p].bindings == [] {
        assert writes + [] == writes;
      } else {
        ReachedWrite(s.slicer, writes, d, p, NEUTRAL, times[q - 1]);
      }
    }
  }

  lemma {:induction false} StepIsActions(s: System, a: Step)
    ensures Reached(s.slicer, ActionsOf(s, a)) == Apply(s, a).slicer
  {
    hide SweepTo, NeutralTo, SweepWrites, NeutralWrites, Reached, B.ToggleOff, B.ToggleOn, B.TimerFires,
         B.EventCallback;
    ReachedOne(s.slicer, B.Timer);
    match a
    case Loop(tick, rig, times) => SweepIsWrites(s, tick, rig, times, 18);
    case Disconnect(id, times) => NeutralIsWrites(s.(pads := s.pads[0 := 0]), times, 18);
    case HubTap(d, times) =>
      ReachedOne(s.slicer, B.Off(d, times));
      ReachedOne(s.slicer, B.On(d, times));
    case Callback(h) => ReachedOne(s.slicer, B.Callback(h));
    case _ =>
  }

  // Whatever the machine does, its slicer is where the trace leads from boot.
  lemma {:induction false} TraceIsARun(t: MappingTable, run: seq<Step>, i: nat)
    requires i <= |run|
    ensures Reached(B.Boot(), Trace(t, run, i)) == After(BootSystem(t), run, i).slicer
  {
    hide Apply, ActionsOf, Reached;
    if i == 0 {
      ReachedOne(B.Boot(), B.Timer);
    } else {
      TraceIsARun(t, run, i - 1);
      var s := After(BootSystem(t), run, i - 1);
      ReachedAppend(B.Boot(), Trace(t, run, i - 1), ActionsOf(s, run[i - 1]));
      StepIsActions(s, run[i - 1]);
    }
  }

  // ---- Sleep ------------------------------------------------------------------------------

  function Firings(run: seq<Step>, from: nat, until: nat): nat
    requires until <= |run|
    decreases until
  {
    if until <= from then 0 else Firings(run, from, until - 1) + if run[until - 1].Timer? then 1 else 0
  }

  predicate NoToggle(run: seq<B.Action>, from: nat) {
    forall i :: from <= i < |run| ==> !run[i].Off? && !run[i].On?
  }

  // Without a tap a step toggles nothing, and only a timer step fires the timer.
  lemma {:induction false} QuietActions(s: System, a: Step)
    requires !a.HubTap?
    ensures NoToggle(ActionsOf(s, a), 0)
    ensures R.Timers(ActionsOf(s, a), 0, |ActionsOf(s, a)|) == if a.Timer? then 1 else 0
  {
    hide SweepWrites, NeutralWrites, SweepTo, NeutralTo;
    match a
    case Loop(tick, rig, times) =>
      SweepIsWrites(s, tick, rig, times, 18);
      WritesFireNothing(SweepWrites(s, tick, rig, times, 18), |SweepWrites(s, tick, rig, times, 18)|);
    case Disconnect(id, times) =>
      NeutralIsWrites(s, times, 18);
      WritesFireNothing(NeutralWrites(s.table, times, 18), |NeutralWrites(s.table, times, 18)|);
    case Timer => assert R.Timers([B.Timer], 0, 0) == 0;
    case Callback(h) => assert R.Timers([B.Callback(h)], 0, 0) == 0;
    case _ =>
  }

  lemma {:induction false} WritesFireNothing(run: seq<B.Action>, n: nat)
    requires n <= |run| && forall i :: 0 <= i < |run| ==> run[i].Write?
    ensures R.Timers(run, 0, n) == 0
  {
    if n > 0 {
      WritesFireNothing(run, n - 1);
    }
  }

  lemma {:induction false} TimersAppend(a: seq<B.Action>, b: seq<B.Action>, from: nat, n: nat)
    requires from <= |a| && n <= |b|
    ensures R.Timers(a + b, from, |a| + n) == R.Timers(a, from, |a|) + R.Timers(b, 0, n)
    decreases n
  {
    if n == 0 {
      TimersPrefix(a, b, from, |a|);
    } else {
      TimersAppend(a, b, from, n - 1);
    }
  }

  lemma {:induction false} TimersPrefix(a: seq<B.Action>, b: seq<B.Action>, from: nat, n: nat)
    requires n <= |a|
    ensures R.Timers(a + b, from, n) == R.Timers(a, from, n)
    decreases n
  {
    if from < n {
      TimersPrefix(a, b, from, n - 1);
    }
  }

  // A stretch of the run without a tap is, in the trace, a stretch without a toggle and with
  // the same firings.
  lemma {:induction false} QuietStretch(t: MappingTable, run: seq<Step>, from: nat, i: nat)
    requires from <= i <= |run| && forall j :: from <= j < i ==> !run[j].HubTap?
    ensures |Trace(t, run, from)| <= |Trace(t, run, i)|
    ensures NoToggle(Trace(t, run, i), |Trace(t, run, from)|)
    ensures R.Timers(Trace(t, run, i), |Trace(t, run, from)|, |Trace(t, run, i)|) == Firings(run, from, i)
    decreases i
  {
    hide ActionsOf, After, R.Timers;
    if i == from {
      NoneFired(Trace(t, run, i));
    } else {
      QuietStretch(t, run, from, i - 1);
      var was := Trace(t, run, i - 1);
      var actions := ActionsOf(After(BootSystem(t), run, i - 1), run[i - 1]);
      QuietActions(After(BootSystem(t), run, i - 1), run[i - 1]);
      TimersAppend(was, actions, |Trace(t, run, from)|, |actions|);
    }
  }

  lemma {:induction false} NoneFired(run: seq<B.Action>)
    ensures R.Timers(run, |run|, |run|) == 0
  {
  }

  // A machine that sees no tap for seven firings and then enters sleep does so from the idle
  // page's guarantee, in the state its own run led to: every theorem about sleep applies.
  lemma {:induction false} MachineSleepsFromIdle(t: MappingTable, run: seq<Step>, lastTap: nat, t0: B.SixTimes,
                                                 t1: B.SixTimes, t2: B.SixTimes, wait: seq<B.Action>)
    requires lastTap <= |run| && forall j :: lastTap <= j < |run| ==> !run[j].HubTap?
    requires Firings(run, lastTap, |run|) >= Z.IDLE_FIRINGS && Z.Waiting(wait)
    ensures var z := Z.Sleep(Trace(t, run, |run|), |Trace(t, run, lastTap)|, t0, t1, t2, wait);
            Z.FromIdle(z) && Z.AtEntry(z) == After(BootSystem(t), run, |run|).slicer
  {
    hide Trace, After, R.Timers, B.StateAt;
    QuietStretch(t, run, lastTap, |run|);
    TraceIsARun(t, run, |run|);
  }
}
