// The dashboard lamp of a hub, the event callbacks that can break it, and the taps that
// depend on it.
module LampRuns {
  import opened Wrappers
  import opened Bits
  import opened Protocol
  import opened Broadcast
  import opened BroadcastRuns

  // ---- The lamp and the tap ------------------------------------------------------------

  // mkh_hub_broadcasting claims no more than the rotation does.
  predicate LampHonest(s: Slicer) {
    forall d :: 0 <= d < 3 && s.broadcasting[d] ==> s.active[d]
  }

  predicate IsStrayCallback(s: Slicer, a: Action) {
    a.Callback? && 0 <= a.device < 3 && s.queued[a.device] && !s.active[a.device]
  }

  // Only an event callback that runs after its hub was dropped breaks the lamp.
  lemma {:induction false} LampBreaksExactlyOnStrayCallback(s: Slicer, a: Action)
    requires Inv(s) && LampHonest(s)
    ensures LampHonest(Step(s, a)) <==> !IsStrayCallback(s, a)
  {
    hide Neutralize, Spaced;
    match a
    case Timer =>
    case Off(e, times) =>
      if 0 <= e < 3 {
        NeutralizeEffect(MarkOff(s, e), e, times, 6);
      }
    case On(e, times) =>
      if 0 <= e < 3 {
        NeutralizeEffect(MarkOn(s, e), e, times, 6);
      }
    case Write(_, _, _, _) =>
    case Callback(e) =>
      if IsStrayCallback(s, a) {
        assert Step(s, a).broadcasting[e] && !Step(s, a).active[e];
      }
  }

  // No event callback runs for a dropped hub in the first i steps.
  predicate NoStray(s: Slicer, run: seq<Action>, i: nat)
    requires i <= |run|
  {
    forall j :: 0 <= j < i ==> !IsStrayCallback(StateAt(s, run, j), run[j])
  }

  lemma {:induction false} LampStaysHonest(s: Slicer, run: seq<Action>, i: nat)
    requires Inv(s) && LampHonest(s) && i <= |run| && NoStray(s, run, i)
    ensures LampHonest(StateAt(s, run, i))
    decreases i
  {
    hide Inv, Step, LampHonest, IsStrayCallback;
    if i > 0 {
      LampStaysHonest(s, run, i - 1);
      ReachableInv(s, run, i - 1);
      LampBreaksExactlyOnStrayCallback(StateAt(s, run, i - 1), run[i - 1]);
    }
  }

  lemma {:induction false} StaysOff(s: Slicer, run: seq<Action>, d: nat, i: nat)
    requires Inv(s) && d < 3 && i <= |run| && !s.active[d] && s.pending[d] == 0 && NoOn(run, d, 0, i)
    ensures !StateAt(s, run, i).active[d] && StateAt(s, run, i).pending[d] == 0
    decreases i
  {
    hide Inv, Step, NextActive;
    if i > 0 {
      StaysOff(s, run, d, i - 1);
      ReachableInv(s, run, i - 1);
      CountdownStep(StateAt(s, run, i - 1), run[i - 1], d);
      assert !IsOn(run[i - 1], d);
    }
  }

  // A dashboard tap that passed its debounce.
  function Tap(s: Slicer, d: nat, times: SixTimes): Slicer
    requires d < 3
  {
    if s.transitioning[d] then s
    else if s.broadcasting[d] then ToggleOff(s, d, times)
    else ToggleOn(s, d, times)
  }

  // A tap brings a dropped hub back exactly when its lamp is off; with the lamp
  // left on by a stray callback, taps do nothing at all.
  lemma {:induction false} TapRevivesExactlyWhenLampIsOff(s: Slicer, d: nat, times: SixTimes)
    requires Inv(s) && d < TIME_SLICE_NUM_DEVICES && !s.active[d]
    ensures Tap(s, d, times).active[d] <==> !s.broadcasting[d]
    ensures s.broadcasting[d] ==> Tap(s, d, times) == s
  {
    hide Neutralize, Spaced;
    NeutralizeEffect(MarkOn(s, d), d, times, 6);
  }

  // Nothing but a toggle-on ever turns that lamp off again.
  lemma {:induction false} LampOfDroppedHubStaysOn(s: Slicer, a: Action, d: nat)
    requires Inv(s) && d < 3 && !s.active[d] && s.broadcasting[d] && !IsOn(a, d)
    ensures !Step(s, a).active[d] && Step(s, a).broadcasting[d]
  {
    hide Neutralize, Spaced, NextFrom;
    match a
    case Timer =>
    case Off(e, times) =>
      if 0 <= e < 3 {
        NeutralizeEffect(MarkOff(s, e), e, times, 6);
      }
    case On(e, times) =>
      if 0 <= e < 3 {
        NeutralizeEffect(MarkOn(s, e), e, times, 6);
      }
    case Write(_, _, _, _) =>
    case Callback(_) =>
  }

  lemma {:induction false} StrandedLampStaysOn(s: Slicer, run: seq<Action>, d: nat, from: nat, i: nat)
    requires Inv(s) && d < 3 && from <= i <= |run| && NoOn(run, d, from, i)
    requires !StateAt(s, run, from).active[d] && StateAt(s, run, from).broadcasting[d]
    ensures !StateAt(s, run, i).active[d] && StateAt(s, run, i).broadcasting[d]
    decreases i
  {
    hide Inv, Step;
    if i > from {
      StrandedLampStaysOn(s, run, d, from, i - 1);
      ReachableInv(s, run, i - 1);
      assert !IsOn(run[i - 1], d);
      LampOfDroppedHubStaysOn(StateAt(s, run, i - 1), run[i - 1], d);
    }
  }

  // ---- Prompt callbacks ------------------------------------------------------------------

  predicate RanBetween(run: seq<Action>, d: nat, i: nat, j: nat)
    requires j <= |run|
  {
    exists m :: i < m < j && run[m] == Callback(d)
  }

  // The BTstack run loop drains its callbacks before it processes timers, so a callback
  // that waits at one firing has run by the next.
  predicate Prompt(s: Slicer, run: seq<Action>) {
    forall i, j, d :: 0 <= i < j < |run| && 0 <= d < 3 && run[i].Timer? && run[j].Timer? ==>
                        StateAt(s, run, i).queued[d] ==> RanBetween(run, d, i, j)
  }

  // A step that accepts an event send for d.
  predicate EventAccepted(s: Slicer, a: Action, d: nat) {
    |Step(s, a).events| > |s.events| && Step(s, a).events[|s.events|].device == d
  }

  lemma {:induction false} NeutralizeQueue(s: Slicer, device: int, times: SixTimes, n: nat)
    requires n <= 6 && 0 <= device < 3
    ensures var r := Neutralize(s, device, times, n);
            |r.events| >= |s.events|
            && (s.queued[device] ==> r.queued[device])
            && (r.queued[device] && !s.queued[device] ==> |r.events| > |s.events|)
            && (|r.events| > |s.events| ==> r.queued[device] && r.events[|s.events|].device == device)
            && (!s.active[device] ==> r.queued == s.queued)
  {
    if n > 0 {
      NeutralizeQueue(s, device, times, n - 1);
      NeutralizeEffect(s, device, times, n - 1);
    }
  }

  // A callback waits until it runs, and a new one comes only with an event send accepted
  // for an active hub.
  lemma {:induction false} QueueStep(s: Slicer, a: Action, d: nat)
    requires d < 3
    ensures a != Callback(d) && s.queued[d] ==> Step(s, a).queued[d]
    ensures a == Callback(d) ==> !Step(s, a).queued[d]
    ensures Step(s, a).queued[d] && !s.queued[d] ==> EventAccepted(s, a, d) && s.active[d]
    ensures EventAccepted(s, a, d) ==> Step(s, a).queued[d]
  {
    hide Neutralize, NextActive;
    match a
    case Timer =>
    case Off(e, times) =>
      if 0 <= e < 3 {
        NeutralizeQueue(MarkOff(s, e), e, times, 6);
        NeutralizeEffect(MarkOff(s, e), e, times, 6);
      }
    case On(e, times) =>
      if 0 <= e < 3 {
        NeutralizeQueue(MarkOn(s, e), e, times, 6);
        NeutralizeEffect(MarkOn(s, e), e, times, 6);
      }
    case Write(_, _, _, _) =>
    case Callback(_) =>
  }

  predicate NoCallback(run: seq<Action>, d: nat, from: nat, until: nat)
    requires until <= |run|
  {
    forall m :: from <= m < until ==> run[m] != Callback(d)
  }

  // A callback that waits for a dropped hub was waiting when the hub was dropped.
  lemma {:induction false} WaitedAtDrop(s: Slicer, run: seq<Action>, d: nat, j: nat) returns (i: nat)
    requires Inv(s) && d < 3 && j <= |run| && !s.queued[d]
    requires StateAt(s, run, j).queued[d] && !StateAt(s, run, j).active[d]
    ensures i < j && Serviced(s, run, d, i) && NoCallback(run, d, i, j) && NoOn(run, d, i, j)
    ensures d < TIME_SLICE_NUM_DEVICES
    ensures StateAt(s, run, i).queued[d] && StateAt(s, run, i).pending[d] == 1
    ensures StateAt(s, run, i).active[d] && !StateAt(s, run, i + 1).active[d]
    decreases j
  {
    hide Inv, Step, NextActive, EventAccepted;
    var t, a := StateAt(s, run, j - 1), run[j - 1];
    ReachableInv(s, run, j - 1);
    CountdownStep(t, a, d);
    QueueStep(t, a, d);
    FiringAcceptsNothing(t, a, d);
    EligibleOnly(t, d);
    PendingBound(t, d);
    if t.active[d] {
      i := j - 1;
    } else {
      i := WaitedAtDrop(s, run, d, j - 1);
    }
  }

  // A waiting callback has been waiting since an accepted event send.
  lemma {:induction false} WaitsSinceEvent(s: Slicer, run: seq<Action>, d: nat, i: nat) returns (m: nat)
    requires d < 3 && i <= |run| && !s.queued[d] && StateAt(s, run, i).queued[d]
    ensures m < i && EventAccepted(StateAt(s, run, m), run[m], d)
    ensures forall x :: m < x <= i ==> StateAt(s, run, x).queued[d]
    ensures NoCallback(run, d, m, i)
    decreases i
  {
    hide Step, EventAccepted;
    QueueStep(StateAt(s, run, i - 1), run[i - 1], d);
    if StateAt(s, run, i - 1).queued[d] {
      m := WaitsSinceEvent(s, run, d, i - 1);
    } else {
      m := i - 1;
    }
  }

  predicate NoFiring(run: seq<Action>, from: nat, until: nat)
    requires until <= |run|
  {
    forall x :: from <= x < until ==> !run[x].Timer?
  }

  // Step m accepts an event send for d, and no callback for d runs before step j; firing i,
  // the first since step m, drops d; and d is not toggled on, nor is there another firing,
  // before step j.
  predicate LateEvent(s: Slicer, run: seq<Action>, d: nat, m: nat, i: nat, j: nat)
    requires d < 3
  {
    m < i < j <= |run| && EventAccepted(StateAt(s, run, m), run[m], d) && NoCallback(run, d, m, j)
    && Serviced(s, run, d, i) && StateAt(s, run, i).pending[d] == 1 && NoOn(run, d, i, j)
    && NoFiring(run, m, i) && NoFiring(run, i + 1, j)
  }

  // With prompt callbacks, one that waits for a dropped hub was queued by such a late event.
  lemma {:induction false} StrayNeedsLateEvent(s: Slicer, run: seq<Action>, d: nat, j: nat) returns (m: nat, i: nat)
    requires Inv(s) && d < 3 && j <= |run| && !s.queued[d] && Prompt(s, run)
    requires StateAt(s, run, j).queued[d] && !StateAt(s, run, j).active[d]
    ensures LateEvent(s, run, d, m, i, j)
    ensures StateAt(s, run, i).active[d] && !StateAt(s, run, i + 1).active[d]
  {
    hide Inv, Step, EventAccepted, NextActive;
    i := WaitedAtDrop(s, run, d, j);
    m := WaitsSinceEvent(s, run, d, i);
    forall x | m <= x < i
      ensures !run[x].Timer?
    {
      FiringAcceptsNothing(StateAt(s, run, m), run[m], d);
      assert run[x].Timer? ==> StateAt(s, run, x).queued[d];
      assert run[x].Timer? ==> RanBetween(run, d, x, i);
    }
    forall x | i + 1 <= x < j
      ensures !run[x].Timer?
    {
      assert run[x].Timer? ==> RanBetween(run, d, i, x);
    }
  }

  // And such a late event always leaves a callback waiting for the dropped hub.
  lemma {:induction false} LateEventLeavesStray(s: Slicer, run: seq<Action>, d: nat, m: nat, i: nat, j: nat)
    requires Inv(s) && d < 3 && LateEvent(s, run, d, m, i, j)
    ensures StateAt(s, run, j).queued[d] && !StateAt(s, run, j).active[d] && StateAt(s, run, j).pending[d] == 0
    decreases j
  {
    hide Inv, Step, EventAccepted, NextActive;
    var t, a := StateAt(s, run, j - 1), run[j - 1];
    ReachableInv(s, run, j - 1);
    CountdownStep(t, a, d);
    if j - 1 > i {
      LateEventLeavesStray(s, run, d, m, i, j - 1);
      QueueStep(t, a, d);
      assert a != Callback(d) && !IsOn(a, d);
    } else {
      StaysQueued(s, run, d, m, j);
    }
  }

  lemma {:induction false} StaysQueued(s: Slicer, run: seq<Action>, d: nat, m: nat, j: nat)
    requires d < 3 && m < j <= |run| && EventAccepted(StateAt(s, run, m), run[m], d) && NoCallback(run, d, m, j)
    ensures StateAt(s, run, j).queued[d]
    decreases j
  {
    hide Step, EventAccepted;
    QueueStep(StateAt(s, run, j - 1), run[j - 1], d);
    if j - 1 > m {
      StaysQueued(s, run, d, m, j - 1);
    }
  }

  // So a callback waits for a dropped hub if and only if a late event queued it.
  lemma {:induction false} StrayWaitsExactly(s: Slicer, run: seq<Action>, d: nat, j: nat)
    requires Inv(s) && d < 3 && j <= |run| && !s.queued[d] && Prompt(s, run)
    ensures StateAt(s, run, j).queued[d] && !StateAt(s, run, j).active[d]
            <==> exists m: nat, i: nat :: LateEvent(s, run, d, m, i, j)
  {
    hide Inv, StateAt, Prompt, LateEvent;
    if StateAt(s, run, j).queued[d] && !StateAt(s, run, j).active[d] {
      var m, i := StrayNeedsLateEvent(s, run, d, j);
    }
    if m: nat, i: nat :| LateEvent(s, run, d, m, i, j) {
      LateEventLeavesStray(s, run, d, m, i, j);
    }
  }

  lemma {:induction false} FiringAcceptsNothing(s: Slicer, a: Action, d: nat)
    ensures a.Timer? || a.Callback? ==> !EventAccepted(s, a, d)
  {
    hide NextActive, ToggleOff, ToggleOn, SetChannel;
  }

  // ---- A lamp left on -------------------------------------------------------------------

  lemma {:induction false} NothingToNeutralize(s: Slicer, device: int, times: SixTimes, n: nat)
    requires n <= 6 && 0 <= device < 3 && s.channels[device] == NEUTRAL_ROW
    ensures Neutralize(s, device, times, n) == s
  {
    if n > 0 {
      NothingToNeutralize(s, device, times, n - 1);
      assert NEUTRAL_ROW[n - 1 := NEUTRAL] == NEUTRAL_ROW;
      assert s.channels[device := NEUTRAL_ROW] == s.channels;
    }
  }

  // One firing with both hubs active, after device 1 or at boot, or after device 0.
  lemma {:induction false} FiringEffect(s: Slicer, d: nat)
    requires d < 2 && s.active == [true, true, false] && s.lastDevice in (if d == 0 then {-1, 1} else {0})
    ensures var t := Step(s, Timer);
            t.channels == s.channels && t.queued == s.queued && t.lastEvent == s.lastEvent && t.lastDevice == d
            && t.pending == (if s.pending[d] <= 0 then s.pending else s.pending[d := s.pending[d] - 1])
            && t.active == (if s.pending[d] == 1 then s.active[d := false] else s.active)
            && t.transitioning == (if s.pending[d] == 1 then s.transitioning[d := false] else s.transitioning)
            && t.broadcasting[d] == (s.pending[d] != 1)
  {
    hide NextFrom;
    NextActiveIsRoundRobin(s.active, s.lastDevice);
  }

  lemma {:induction false} OffAtBoot(t: SixTimes)
    ensures Step(Boot(), Off(0, t)) == Boot().(transitioning := [true, false, false], pending := [3, 0, 0])
  {
    NothingToNeutralize(MarkOff(Boot(), 0), 0, t, 6);
  }

  const LATE_WRITE := Write(0, 0, 0xFF, EVENT_SEND_MIN_INTERVAL_US)

  lemma {:induction false} LateWriteIsQueued(s: Slicer)
    requires s.active[0] && s.lastEvent[0] == 0 && s.channels[0] == NEUTRAL_ROW
    ensures var t := Step(s, LATE_WRITE);
            t.queued == s.queued[0 := true] && t.active == s.active && t.pending == s.pending
            && t.lastDevice == s.lastDevice
  {
  }

  lemma {:induction false} CallbackLightsLamp(s: Slicer)
    requires s.queued[0]
    ensures Step(s, Callback(0)).active == s.active && Step(s, Callback(0)).broadcasting[0]
  {
  }

  // Reachable with prompt callbacks: a hub is toggled off and has one count left, the
  // sweep writes to it, the next firing drops it, and then the callback runs.
  lemma {:induction false} StrayCallbackIsReachable(t: SixTimes) returns (run: seq<Action>)
    ensures Prompt(Boot(), run)
    ensures var s := StateAt(Boot(), run, |run|);
            !s.active[0] && s.broadcasting[0]
  {
    hide StateAt, Step;
    run := [Off(0, t), Timer, Timer, Timer, Timer, LATE_WRITE, Timer, Callback(0)];
    var s0 := Boot();
    var s1 := Step(s0, run[0]);
    OffAtBoot(t);
    var s2 := Step(s1, Timer);
    FiringEffect(s1, 0);
    var s3 := Step(s2, Timer);
    FiringEffect(s2, 1);
    var s4 := Step(s3, Timer);
    FiringEffect(s3, 0);
    var s5 := Step(s4, Timer);
    FiringEffect(s4, 1);
    var s6 := Step(s5, LATE_WRITE);
    LateWriteIsQueued(s5);
    var s7 := Step(s6, Timer);
    FiringEffect(s6, 0);
    var s8 := Step(s7, Callback(0));
    CallbackLightsLamp(s7);
    RunStates(s0, run, [s0, s1, s2, s3, s4, s5, s6, s7, s8]);
  }

  lemma {:induction false} RunStates(s: Slicer, run: seq<Action>, states: seq<Slicer>)
    requires |states| == |run| + 1 && states[0] == s
    requires forall i :: 0 <= i < |run| ==> states[i + 1] == Step(states[i], run[i])
    ensures forall i :: 0 <= i <= |run| ==> StateAt(s, run, i) == states[i]
  {
    hide Step;
    for i := 0 to |run|
      invariant forall j :: 0 <= j <= i ==> StateAt(s, run, j) == states[j]
    {
    }
  }
}
