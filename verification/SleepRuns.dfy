// Deep sleep of main/sketch.cpp: every hub is toggled off, then the firmware only waits
// for the time-slicer. Sleep is entered from the idle page alone, so after a stretch of
// firings without a toggle.
module SleepRuns {
  import opened Wrappers
  import opened Bits
  import opened Protocol
  import opened Broadcast
  import opened BroadcastRuns
  import opened LampRuns

  // enterDeepSleep toggles every hub off, then only waits: no channel write runs.
  function SleepEntry(s: Slicer, t0: SixTimes, t1: SixTimes, t2: SixTimes): Slicer {
    ToggleOff(ToggleOff(ToggleOff(s, 0, t0), 1, t1), 2, t2)
  }

  predicate Waiting(run: seq<Action>) {
    forall i :: 0 <= i < |run| ==> run[i].Timer? || run[i].Callback?
  }

  // The exit test of the wait loop.
  predicate WaitClear(s: Slicer) {
    forall d :: 0 <= d < 3 ==> !s.broadcasting[d] && !s.transitioning[d]
  }

  lemma {:induction false} ToggleOffEffect(s: Slicer, e: nat, times: SixTimes, d: nat)
    requires Inv(s) && e < 3 && d < 3
    ensures var t := ToggleOff(s, e, times);
            Inv(t) && t.active == s.active && t.broadcasting == s.broadcasting
            && (if d == e && s.active[d] && s.pending[d] == 0 then
                  t.pending[d] == OFF_GRACE_SERVICES && t.channels[d] == NEUTRAL_ROW
                else t.pending[d] == s.pending[d] && t.channels[d] == s.channels[d])
  {
    StepKeepsInv(s, Off(e, times));
    hide Neutralize, Inv;
    NeutralizeEffect(MarkOff(s, e), e, times, 6);
    Neutralized(MarkOff(s, e), e, times);
  }

  lemma {:induction false} SleepEntryEffect(s: Slicer, t0: SixTimes, t1: SixTimes, t2: SixTimes, d: nat)
    requires Inv(s) && d < 3
    ensures var t := SleepEntry(s, t0, t1, t2);
            Inv(t) && t.active == s.active && t.broadcasting == s.broadcasting
            && (if s.active[d] && s.pending[d] == 0 then
                  t.pending[d] == OFF_GRACE_SERVICES && t.channels[d] == NEUTRAL_ROW
                else t.pending[d] == s.pending[d] && t.channels[d] == s.channels[d])
  {
    hide ToggleOff, Inv;
    var a := ToggleOff(s, 0, t0);
    var b := ToggleOff(a, 1, t1);
    ToggleOffEffect(s, 0, t0, d);
    ToggleOffEffect(a, 1, t1, d);
    ToggleOffEffect(b, 2, t2, d);
  }

  lemma {:induction false} WaitKeepsChannels(s: Slicer, run: seq<Action>, d: nat, i: nat)
    requires d < 3 && Waiting(run) && i <= |run|
    ensures StateAt(s, run, i).channels == s.channels
  {
    hide Step;
    if i > 0 {
      WaitKeepsChannels(s, run, d, i - 1);
      RadioKeepsChannels(StateAt(s, run, i - 1), run[i - 1]);
    }
  }

  lemma {:induction false} RadioKeepsChannels(s: Slicer, a: Action)
    requires a.Timer? || a.Callback?
    ensures Step(s, a).channels == s.channels
  {
    hide NextActive;
  }

  lemma {:induction false} NotPendingNotTransitioning(s: Slicer, d: nat)
    requires Inv(s) && d < 3
    ensures s.transitioning[d] <==> s.pending[d] > 0
  {
  }

  lemma {:induction false} ServicesCountDown(s: Slicer, run: seq<Action>, d: nat, i: nat)
    requires Inv(s) && d < 3 && Waiting(run) && i <= |run| && s.pending[d] > 0
    ensures Services(s, run, d, 0, i) == s.pending[d] - StateAt(s, run, i).pending[d]
    ensures StateAt(s, run, i).pending[d] == 0 ==> !StateAt(s, run, i).active[d]
    ensures StateAt(s, run, i).pending[d] >= 0
    decreases i
  {
    hide Inv, Step, NextActive;
    if i > 0 {
      ServicesCountDown(s, run, d, i - 1);
      var t := StateAt(s, run, i - 1);
      ReachableInv(s, run, i - 1);
      EligibleOnly(t, d);
      CountdownStep(t, run[i - 1], d);
      assert run[i - 1].Timer? || run[i - 1].Callback?;
      if Serviced(s, run, d, i - 1) {
        ServiceIsFresh(s, run, d, i - 1);
      }
    }
  }

  // ---- The exit test ---------------------------------------------------------------------

  // At any point of the wait the exit test holds exactly when no lamp was lying at entry, no
  // stray callback has run since, and every hub is out of the rotation.
  lemma {:induction false} WaitClearsExactly(s: Slicer, t0: SixTimes, t1: SixTimes, t2: SixTimes,
                                             run: seq<Action>, i: nat)
    requires Inv(s) && Waiting(run) && i <= |run|
    ensures var t := SleepEntry(s, t0, t1, t2);
            WaitClear(StateAt(t, run, i))
            <==> LampHonest(s) && NoStray(t, run, i) && forall d :: 0 <= d < 3 ==> !StateAt(t, run, i).active[d]
  {
    hide Inv, Step, SleepEntry, IsStrayCallback, LampHonest, StateAt, NoStray;
    var t := SleepEntry(s, t0, t1, t2);
    var u := StateAt(t, run, i);
    SleepEntryEffect(s, t0, t1, t2, 0);
    SameLamps(s, t);
    AtStart(t, run);
    ReachableInv(t, run, i);
    if WaitClear(u) {
      forall d | 0 <= d < 3
        ensures !u.active[d]
      {
        assert !u.broadcasting[d] && !u.transitioning[d];
        ClearMeansOut(s, t0, t1, t2, run, d, i);
      }
      if !LampHonest(s) {
        DishonestStaysLit(t, run, 0, i);
      } else if !NoStray(t, run, i) {
        StrayLeavesLit(t, run, i);
      }
    }
    if LampHonest(s) && NoStray(t, run, i) && forall d :: 0 <= d < 3 ==> !u.active[d] {
      LampStaysHonest(t, run, i);
      OutAndHonestIsClear(u);
    }
  }

  lemma {:induction false} SameLamps(s: Slicer, t: Slicer)
    requires s.active == t.active && s.broadcasting == t.broadcasting
    ensures LampHonest(s) <==> LampHonest(t)
  {
  }

  lemma {:induction false} OutAndHonestIsClear(s: Slicer)
    requires Inv(s) && LampHonest(s) && forall d :: 0 <= d < 3 ==> !s.active[d]
    ensures WaitClear(s)
  {
  }

  lemma {:induction false} ClearMeansOut(s: Slicer, t0: SixTimes, t1: SixTimes, t2: SixTimes,
                                         run: seq<Action>, d: nat, i: nat)
    requires Inv(s) && d < 3 && Waiting(run) && i <= |run|
    requires !StateAt(SleepEntry(s, t0, t1, t2), run, i).transitioning[d]
    ensures !StateAt(SleepEntry(s, t0, t1, t2), run, i).active[d]
  {
    hide Inv, Step, SleepEntry, StateAt, Services;
    var t := SleepEntry(s, t0, t1, t2);
    SleepEntryEffect(s, t0, t1, t2, d);
    PendingBound(s, d);
    EligibleOnly(s, d);
    ReachableInv(t, run, i);
    NotPendingNotTransitioning(StateAt(t, run, i), d);
    if s.active[d] {
      ServicesCountDown(t, run, d, i);
    } else {
      StaysOff(t, run, d, i);
    }
  }

  // A lamp that lies at some point of a wait lies from then on.
  lemma {:induction false} DishonestStaysLit(s: Slicer, run: seq<Action>, from: nat, i: nat)
    requires Inv(s) && Waiting(run) && from <= i <= |run| && !LampHonest(StateAt(s, run, from))
    ensures !WaitClear(StateAt(s, run, i))
  {
    hide Inv, StateAt;
    var d :| 0 <= d < 3 && StateAt(s, run, from).broadcasting[d] && !StateAt(s, run, from).active[d];
    StrandedLampStaysOn(s, run, d, from, i);
  }

  lemma {:induction false} StrayLeavesLit(s: Slicer, run: seq<Action>, i: nat)
    requires Inv(s) && Waiting(run) && i <= |run| && !NoStray(s, run, i)
    ensures !WaitClear(StateAt(s, run, i))
  {
    hide Inv, IsStrayCallback, LampHonest, WaitClear, Step, StateAt;
    var j :| 0 <= j < i && IsStrayCallback(StateAt(s, run, j), run[j]);
    ReachableInv(s, run, j);
    OneStep(s, run, j);
    if LampHonest(StateAt(s, run, j)) {
      LampBreaksExactlyOnStrayCallback(StateAt(s, run, j), run[j]);
      DishonestStaysLit(s, run, j + 1, i);
    } else {
      DishonestStaysLit(s, run, j, i);
    }
  }

  lemma {:induction false} OneStep(s: Slicer, run: seq<Action>, i: nat)
    requires i < |run|
    ensures StateAt(s, run, i + 1) == Step(StateAt(s, run, i), run[i])
  {
  }

  lemma {:induction false} OffAfterWait(s: Slicer, t0: SixTimes, t1: SixTimes, t2: SixTimes, run: seq<Action>, d: nat)
    requires Inv(s) && d < 3 && Waiting(run) && Timers(run, 0, |run|) >= 6
    ensures !StateAt(SleepEntry(s, t0, t1, t2), run, |run|).active[d]
  {
    hide Inv, Step, StateAt, SleepEntry, Timers;
    var t := SleepEntry(s, t0, t1, t2);
    SleepEntryEffect(s, t0, t1, t2, d);
    PendingBound(s, d);
    EligibleOnly(s, d);
    AtStart(t, run);
    if s.active[d] {
      DropWithinSix(t, run, d, 0, |run|);
    } else {
      StaysOff(t, run, d, |run|);
    }
  }

  lemma {:induction false} AtStart(s: Slicer, run: seq<Action>)
    ensures StateAt(s, run, 0) == s
  {
  }

  // Six firings into the wait: it ends if and only if no lamp was lying at entry and no stray
  // callback has run; otherwise it goes on into its timeout.
  lemma {:induction false} WaitEndsExactly(s: Slicer, t0: SixTimes, t1: SixTimes, t2: SixTimes, run: seq<Action>)
    requires Inv(s) && Waiting(run) && Timers(run, 0, |run|) >= 6
    ensures var t := SleepEntry(s, t0, t1, t2);
            WaitClear(StateAt(t, run, |run|)) <==> LampHonest(s) && NoStray(t, run, |run|)
  {
    hide Inv, Step, StateAt, SleepEntry, NoStray, LampHonest, WaitClear;
    WaitClearsExactly(s, t0, t1, t2, run, |run|);
    forall d | 0 <= d < 3
      ensures !StateAt(SleepEntry(s, t0, t1, t2), run, |run|).active[d]
    {
      OffAfterWait(s, t0, t1, t2, run, d);
    }
  }

  // ---- Sleep from the idle page ---------------------------------------------------------------

  // Thirty seconds on the dashboard without a touch hold about 300 firings of the 100 ms
  // timer; seven are enough for everything below.
  const IDLE_FIRINGS := 7

  // A run from boot, the point of the last touch in it, and the wait.
  datatype Sleep = Sleep(history: seq<Action>, lastTouch: nat, t0: SixTimes, t1: SixTimes, t2: SixTimes,
                         wait: seq<Action>)

  // What the idle page guarantees: no hub was toggled for at least IDLE_FIRINGS firings.
  predicate FromIdle(z: Sleep) {
    z.lastTouch <= |z.history| && Timers(z.history, z.lastTouch, |z.history|) >= IDLE_FIRINGS
    && (forall i :: z.lastTouch <= i < |z.history| ==> !z.history[i].Off? && !z.history[i].On?)
    && Waiting(z.wait)
  }

  function AtEntry(z: Sleep): Slicer {
    StateAt(Boot(), z.history, |z.history|)
  }

  function Entered(z: Sleep): Slicer {
    SleepEntry(AtEntry(z), z.t0, z.t1, z.t2)
  }

  function InWait(z: Sleep, i: nat): Slicer
    requires i <= |z.wait|
  {
    StateAt(Entered(z), z.wait, i)
  }

  function WholeRun(z: Sleep): seq<Action> {
    z.history + [Off(0, z.t0), Off(1, z.t1), Off(2, z.t2)] + z.wait
  }

  lemma {:induction false} NothingPendingStays(s: Slicer, run: seq<Action>, d: nat, from: nat, i: nat)
    requires Inv(s) && d < 3 && from <= i <= |run| && StateAt(s, run, from).pending[d] == 0
    requires forall j :: from <= j < i ==> !run[j].Off?
    ensures StateAt(s, run, i).pending[d] == 0
    decreases i
  {
    hide Inv, Step, NextActive;
    if i > from {
      NothingPendingStays(s, run, d, from, i - 1);
      ReachableInv(s, run, i - 1);
      CountdownStep(StateAt(s, run, i - 1), run[i - 1], d);
    }
  }

  // When sleep is entered no hub is counting down.
  lemma {:induction false} IdleSettles(z: Sleep, d: nat)
    requires FromIdle(z) && d < 3
    ensures Inv(AtEntry(z)) && AtEntry(z).pending[d] == 0
  {
    hide Inv, StateAt, Timers;
    BootInv();
    ReachableInv(Boot(), z.history, |z.history|);
    ReachableInv(Boot(), z.history, z.lastTouch);
    PendingBound(StateAt(Boot(), z.history, z.lastTouch), d);
    if StateAt(Boot(), z.history, z.lastTouch).pending[d] > 0 {
      DropWithinSix(Boot(), z.history, d, z.lastTouch, |z.history|);
    } else {
      NothingPendingStays(Boot(), z.history, d, z.lastTouch, |z.history|);
    }
  }

  // Every hub in the rotation is told to stop, and gets exactly three services before it is
  // dropped; six firings drop all of them. A hub out of the rotation stays out, unserviced.
  lemma {:induction false} SleepDropsEveryHub(z: Sleep, d: nat)
    requires FromIdle(z) && d < 3 && Timers(z.wait, 0, |z.wait|) >= 6
    ensures !InWait(z, |z.wait|).active[d] && !InWait(z, |z.wait|).transitioning[d]
    ensures Services(Entered(z), z.wait, d, 0, |z.wait|) == if AtEntry(z).active[d] then OFF_GRACE_SERVICES else 0
  {
    hide Inv, Step, StateAt, SleepEntry, AtEntry, Timers, FromIdle;
    IdleSettles(z, d);
    var s, t := AtEntry(z), Entered(z);
    WaitIsWaiting(z);
    SleepEntryEffect(s, z.t0, z.t1, z.t2, d);
    ReachableInv(t, z.wait, |z.wait|);
    OffAfterWait(s, z.t0, z.t1, z.t2, z.wait, d);
    NotPendingNotTransitioning(InWait(z, |z.wait|), d);
    EligibleOnly(InWait(z, |z.wait|), d);
    PendingBound(InWait(z, |z.wait|), d);
    if s.active[d] {
      ServicesCountDown(t, z.wait, d, |z.wait|);
    } else {
      NoServiceWhenOut(t, z.wait, d, |z.wait|);
    }
  }

  lemma {:induction false} WaitIsWaiting(z: Sleep)
    requires FromIdle(z)
    ensures Waiting(z.wait)
  {
  }

  lemma {:induction false} NoServiceWhenOut(s: Slicer, run: seq<Action>, d: nat, i: nat)
    requires Inv(s) && d < 3 && Waiting(run) && i <= |run| && !s.active[d] && s.pending[d] == 0
    ensures Services(s, run, d, 0, i) == 0
    decreases i
  {
    hide Inv, Step, NextActive, HeardAfter;
    if i > 0 {
      NoServiceWhenOut(s, run, d, i - 1);
      StaysOff(s, run, d, i - 1);
      if Serviced(s, run, d, i - 1) {
        ServiceIsFresh(s, run, d, i - 1);
      }
    }
  }

  // ---- No stray callback in the wait ---------------------------------------------------------

  lemma {:induction false} EntryIsThreeSteps(s: Slicer, t0: SixTimes, t1: SixTimes, t2: SixTimes)
    ensures StateAt(s, [Off(0, t0), Off(1, t1), Off(2, t2)], 3) == SleepEntry(s, t0, t1, t2)
  {
    hide ToggleOff;
    var run := [Off(0, t0), Off(1, t1), Off(2, t2)];
    assert StateAt(s, run, 1) == ToggleOff(s, 0, t0);
    assert StateAt(s, run, 2) == ToggleOff(ToggleOff(s, 0, t0), 1, t1);
  }

  lemma {:induction false} WaitInWholeRun(z: Sleep, i: nat)
    requires i <= |z.wait|
    ensures StateAt(Boot(), WholeRun(z), |z.history| + 3 + i) == InWait(z, i)
  {
    hide StateAt, SleepEntry;
    var entry := [Off(0, z.t0), Off(1, z.t1), Off(2, z.t2)];
    StateAtAppend(Boot(), z.history + entry, z.wait, i);
    StateAtAppend(Boot(), z.history, entry, 3);
    EntryIsThreeSteps(AtEntry(z), z.t0, z.t1, z.t2);
  }

  lemma {:induction false} HistoryInWholeRun(z: Sleep, i: nat)
    requires i <= |z.history|
    ensures StateAt(Boot(), WholeRun(z), i) == StateAt(Boot(), z.history, i)
  {
    hide StateAt;
    var entry := [Off(0, z.t0), Off(1, z.t1), Off(2, z.t2)];
    StateAtPrefix(Boot(), z.history, entry + z.wait, i);
    assert z.history + (entry + z.wait) == WholeRun(z);
  }

  lemma {:induction false} NoFiringNoTimers(run: seq<Action>, a: nat, b: nat)
    requires a <= b <= |run| && NoFiring(run, a, b)
    ensures Timers(run, a, b) == 0
    decreases b
  {
    if a < b {
      NoFiringNoTimers(run, a, b - 1);
    }
  }

  // A drop in the history leaves a firing after it, before sleep.
  lemma {:induction false} FiringAfterDrop(z: Sleep, d: nat, i: nat)
    requires FromIdle(z) && d < 3 && i < |z.history| && StateAt(Boot(), z.history, i).pending[d] == 1
    requires z.history[i].Timer?
    ensures !NoFiring(z.history, i + 1, |z.history|)
  {
    hide Inv, StateAt, Timers, NoFiring;
    BootInv();
    var h, from := z.history, z.lastTouch;
    ReachableInv(Boot(), h, i);
    if NoFiring(h, i + 1, |h|) {
      NoFiringNoTimers(h, i + 1, |h|);
      if i < from {
        TimersSplit(h, i + 1, from, |h|);
      } else {
        ReachableInv(Boot(), h, from);
        PendingBound(StateAt(Boot(), h, from), d);
        if StateAt(Boot(), h, from).pending[d] == 0 {
          NothingPendingStays(Boot(), h, d, from, i);
        } else {
          DropIsBounded(Boot(), h, d, from, i);
          TimersSplit(h, from, i, |h|);
          TimersSplit(h, i, i + 1, |h|);
          OneTimer(h, i);
          BudgetIsPositive(StateAt(Boot(), h, i), d);
        }
      }
    }
  }

  lemma {:induction false} BudgetIsPositive(s: Slicer, d: nat)
    requires d < 3 && s.pending[d] > 0
    ensures Budget(s, d) >= 1
  {
  }

  lemma {:induction false} OneTimer(run: seq<Action>, i: nat)
    requires i < |run|
    ensures Timers(run, i, i + 1) <= 1
  {
    assert Timers(run, i, i) == 0;
  }

  lemma {:induction false} NoFiringNoCount(s: Slicer, run: seq<Action>, d: nat, i: nat)
    requires Inv(s) && d < 3 && Waiting(run) && i <= |run| && NoFiring(run, 0, i)
    ensures StateAt(s, run, i).pending[d] == s.pending[d]
    decreases i
  {
    hide Inv, Step, NextActive;
    if i > 0 {
      NoFiringNoCount(s, run, d, i - 1);
      ReachableInv(s, run, i - 1);
      CountdownStep(StateAt(s, run, i - 1), run[i - 1], d);
    }
  }

  // With prompt callbacks no callback waits for a dropped hub in the sleep wait.
  lemma {:induction false} NoneWaitsForDropped(z: Sleep, d: nat, x: nat)
    requires FromIdle(z) && Prompt(Boot(), WholeRun(z)) && d < 3 && x <= |z.wait|
    ensures InWait(z, x).queued[d] ==> InWait(z, x).active[d]
  {
    hide Inv, StateAt, SleepEntry, Prompt, FromIdle, EventAccepted, Entered, AtEntry, Timers, NoFiring, NextActive;
    if InWait(z, x).queued[d] && !InWait(z, x).active[d] {
      var run, n := WholeRun(z), |z.history|;
      BootInv();
      WaitInWholeRun(z, x);
      var m, i := StrayNeedsLateEvent(Boot(), run, d, n + 3 + x);
      DropIsInWait(z, d, i, n + 3 + x);
      LateEventIsBeforeWait(z, d, m, i);
      DropNeedsFiring(z, d, m, i);
      assert false;
    }
  }

  lemma {:induction false} DropIsInWait(z: Sleep, d: nat, i: nat, j: nat)
    requires FromIdle(z) && d < 3 && i < j <= |WholeRun(z)| && j >= |z.history|
    requires Serviced(Boot(), WholeRun(z), d, i) && StateAt(Boot(), WholeRun(z), i).pending[d] == 1
    requires NoFiring(WholeRun(z), i + 1, j)
    ensures i >= |z.history| + 3
  {
    hide StateAt, FromIdle, NextActive;
    var run, n := WholeRun(z), |z.history|;
    assert run[i].Timer?;
    if i < n {
      HistoryInWholeRun(z, i);
      forall y | i + 1 <= y < n
        ensures !z.history[y].Timer?
      {
        assert run[y] == z.history[y];
      }
      FiringAfterDrop(z, d, i);
    }
  }

  lemma {:induction false} LateEventIsBeforeWait(z: Sleep, d: nat, m: nat, i: nat)
    requires FromIdle(z) && d < 3 && m < i < |WholeRun(z)|
    requires EventAccepted(StateAt(Boot(), WholeRun(z), m), WholeRun(z)[m], d)
    ensures m < |z.history| + 3
  {
    hide StateAt, EventAccepted;
    FiringAcceptsNothing(StateAt(Boot(), WholeRun(z), m), WholeRun(z)[m], d);
  }

  lemma {:induction false} DropNeedsFiring(z: Sleep, d: nat, m: nat, i: nat)
    requires FromIdle(z) && d < 3 && m < |z.history| + 3 <= i < |WholeRun(z)|
    requires StateAt(Boot(), WholeRun(z), i).pending[d] == 1
    ensures !NoFiring(WholeRun(z), m, i)
  {
    hide Inv, StateAt, SleepEntry, AtEntry, Timers;
    var n := |z.history|;
    IdleSettles(z, d);
    var s, t := AtEntry(z), Entered(z);
    SleepEntryEffect(s, z.t0, z.t1, z.t2, d);
    WaitInWholeRun(z, i - n - 3);
    if NoFiring(WholeRun(z), m, i) {
      forall y | 0 <= y < i - n - 3
        ensures !z.wait[y].Timer?
      {
        assert WholeRun(z)[n + 3 + y] == z.wait[y];
      }
      NoFiringNoCount(t, z.wait, d, i - n - 3);
    }
  }

  // ---- What the hubs hear while the firmware waits for sleep ---------------------------------

  // Every telegram put on the air in the wait, by a firing or by a callback, is heard as all
  // channels neutral, by a hub that was in the rotation at entry.
  lemma {:induction false} SleepTelegramsAreNeutral(z: Sleep, i: nat) returns (d: nat)
    requires FromIdle(z) && Prompt(Boot(), WholeRun(z)) && i < |z.wait|
    ensures InWait(z, i + 1).sent != InWait(z, i).sent ==>
              d < 3 && AtEntry(z).active[d] && InWait(z, i).active[d]
              && HeardAfter(Entered(z), z.wait, i) == Some((d, NEUTRAL_ROW))
  {
    hide Inv, StateAt, SleepEntry, AtEntry, Prompt, FromIdle, Timers, HeardAfter, Step;
    d := 0;
    WaitIsWaiting(z);
    if InWait(z, i + 1).sent != InWait(z, i).sent {
      d := Addressee(z, i);
      IdleSettles(z, d);
      EligibleOnly(AtEntry(z), d);
      var s, t := AtEntry(z), Entered(z);
      SleepEntryEffect(s, z.t0, z.t1, z.t2, d);
      if !s.active[d] {
        StaysOff(t, z.wait, d, i);
      }
      WaitKeepsChannels(t, z.wait, d, i);
    }
  }

  // The hub a telegram of the wait is for, and what it hears.
  lemma {:induction false} Addressee(z: Sleep, i: nat) returns (d: nat)
    requires FromIdle(z) && Prompt(Boot(), WholeRun(z)) && i < |z.wait|
    requires InWait(z, i + 1).sent != InWait(z, i).sent
    ensures d < 3 && InWait(z, i).active[d]
    ensures HeardAfter(Entered(z), z.wait, i) == Some((d, InWait(z, i).channels[d]))
  {
    hide Inv, SleepEntry, AtEntry, Prompt, FromIdle, Timers, HeardAfter, Step, NextActive;
    WaitIsWaiting(z);
    var u, a := InWait(z, i), z.wait[i];
    if a.Timer? {
      IdleFiring(u);
      d := NextActive(u.active, u.lastDevice);
      ServiceIsFresh(Entered(z), z.wait, d, i);
    } else {
      IdleCallback(u, a);
      d := a.device;
      NoneWaitsForDropped(z, d, i);
      CallbackIsHeard(Entered(z), z.wait, d, i);
    }
  }

  lemma {:induction false} IdleFiring(s: Slicer)
    ensures NextActive(s.active, s.lastDevice) < 0 ==> Step(s, Timer).sent == s.sent
  {
    hide NextActive, ToggleOff, ToggleOn, SetChannel;
  }

  lemma {:induction false} IdleCallback(s: Slicer, a: Action)
    requires a.Callback?
    ensures !(0 <= a.device < 3 && s.queued[a.device]) ==> Step(s, a).sent == s.sent
  {
    hide TimerFires, ToggleOff, ToggleOn, SetChannel;
  }

  // A callback puts the hub's current channels on the air.
  lemma {:induction false} CallbackIsHeard(s: Slicer, run: seq<Action>, d: nat, i: nat)
    requires d < 3 && i < |run| && run[i] == Callback(d) && StateAt(s, run, i).queued[d]
    ensures HeardAfter(s, run, i) == Some((d, StateAt(s, run, i).channels[d]))
  {
    hide HeardOf;
    SentIsHeard(Control(d, false, StateAt(s, run, i).channels[d]));
  }

  // From the idle page, with prompt callbacks, the wait ends within six firings if and only if
  // no lamp was lying at entry.
  lemma {:induction false} SleepEndsClearExactly(z: Sleep)
    requires FromIdle(z) && Prompt(Boot(), WholeRun(z)) && Timers(z.wait, 0, |z.wait|) >= 6
    ensures WaitClear(InWait(z, |z.wait|)) <==> LampHonest(AtEntry(z))
  {
    hide Inv, StateAt, SleepEntry, AtEntry, Prompt, FromIdle, Timers, LampHonest, WaitClear;
    IdleSettles(z, 0);
    WaitIsWaiting(z);
    forall j | 0 <= j < |z.wait|
      ensures !IsStrayCallback(StateAt(Entered(z), z.wait, j), z.wait[j])
    {
      var a := z.wait[j];
      if a.Callback? && 0 <= a.device < 3 {
        NoneWaitsForDropped(z, a.device, j);
      }
    }
    WaitEndsExactly(AtEntry(z), z.t0, z.t1, z.t2, z.wait);
  }
}
