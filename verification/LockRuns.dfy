// Heading locks over runs of the whole machine, from the presses seen since the port was last
// cleared.
module LockRuns {
  import opened ConfigLine
  import opened ConfigTable
  import opened Curves
  import opened ControlLaw
  import opened Machines
  import opened Sweep
  import opened Failsafe
  import opened DriveRuns
  import opened ButtonRuns
  import opened Readings
  import B = Broadcast

  // One sweep as a lock sees it: its button, the gyro, and whether the other inputs rest.
  datatype LockBeat = LockBeat(held: bool, ready: bool, calm: bool)

  predicate NewPress(beats: seq<LockBeat>, i: nat)
    requires i < |beats|
  {
    beats[i].held && (i == 0 || !beats[i - 1].held)
  }

  // Whether a lock that starts off is engaged after these sweeps.
  predicate Engaged(beats: seq<LockBeat>, n: nat)
    requires n <= |beats|
  {
    n > 0 && beats[n - 1].calm
    && if NewPress(beats, n - 1) then !Engaged(beats, n - 1) && beats[n - 1].ready else Engaged(beats, n - 1)
  }

  // Sweep e engages it; sweep j leaves it engaged.
  predicate Engages(beats: seq<LockBeat>, e: nat)
    requires e < |beats|
  {
    NewPress(beats, e) && beats[e].ready && beats[e].calm && !Engaged(beats, e)
  }

  predicate LeavesEngaged(beats: seq<LockBeat>, j: nat)
    requires j < |beats|
  {
    beats[j].calm && !NewPress(beats, j)
  }

  predicate EngagedSince(beats: seq<LockBeat>, e: nat, n: nat)
    requires e < n <= |beats|
  {
    Engages(beats, e) && forall j :: e < j < n ==> LeavesEngaged(beats, j)
  }

  // Engaged exactly when some new press engaged it, with the gyro calibrated and the other
  // inputs at rest, and since then there was no new press and the other inputs stayed at rest.
  lemma {:induction false} EngagedExactly(beats: seq<LockBeat>, n: nat)
    requires n <= |beats|
    ensures Engaged(beats, n) <==> exists e :: 0 <= e < n && EngagedSince(beats, e, n)
    decreases n
  {
    if n > 0 {
      EngagedExactly(beats, n - 1);
      if Engaged(beats, n) {
        if NewPress(beats, n - 1) {
          assert EngagedSince(beats, n - 1, n);
        } else {
          var e :| 0 <= e < n - 1 && EngagedSince(beats, e, n - 1);
          assert EngagedSince(beats, e, n);
        }
      }
      if e :| 0 <= e < n && EngagedSince(beats, e, n) {
        if e < n - 1 {
          assert EngagedSince(beats, e, n - 1);
          assert LeavesEngaged(beats, n - 1);
        }
      }
    }
  }

  // The sweeps of steps [from, until), as the lock at slot i of the port saw them.
  function LockBeatsIn(t: MappingTable, run: seq<Step>, d: nat, p: nat, i: nat, from: nat, until: nat): seq<LockBeat>
    requires d < 3 && p < 6 && i < 8 && until <= |run|
    requires forall j :: from <= j < until ==> OneLock(After(BootSystem(t), run, j).table[d][p].bindings, i)
    decreases until
  {
    if until <= from then []
    else
      var s, a := After(BootSystem(t), run, until - 1), run[until - 1];
      LockBeatsIn(t, run, d, p, i, from, until - 1)
      + if a.Loop? && s.pads[0] != 0 then [LockBeatOf(s, a, d, p, i)] else []
  }

  function LockBeatOf(s: System, a: Step, d: nat, p: nat, i: nat): LockBeat
    requires d < 3 && p < 6 && a.Loop? && OneLock(s.table[d][p].bindings, i)
  {
    var bs := s.table[d][p].bindings;
    LockBeat(Held(a.tick, bs[i].input), a.tick.imuReady,
             Calm(bs, SweepPort(bs, s.grid[d][p], a.tick, a.rig).slots, a.tick, a.rig, i))
  }

  lemma {:induction false} LockOverAnyStep(s: System, a: Step, d: nat, p: nat, i: nat)
    requires d < 3 && p < 6 && i < 8 && OneLock(s.table[d][p].bindings, i)
    ensures var l, m := s.grid[d][p][i].lock, Apply(s, a).grid[d][p][i].lock;
            if Clears(s, a, d, p) then m == CLEARED.lock
            else if a.Loop? && s.pads[0] != 0 then
              var beat := LockBeatOf(s, a, d, p, i);
              LockRule(l, beat.held, beat.ready, beat.calm, m, a.tick.heading)
            else m == l
  {
    hide SweepPort, SweepTo, NeutralTo, Held, Calm, OneLock, LockRule, B.TimerFires, B.EventCallback, B.ToggleOff,
         B.ToggleOn;
    match a
    case Loop(tick, rig, times) =>
      SweepSlots(s, tick, rig, times, 18, d, p);
      LockFollowsRule(s.table[d][p].bindings, s.grid[d][p], tick, rig, i);
      LockNeedsBindings(s.table[d][p].bindings, i);
    case Disconnect(id, times) => NeutralKeepsGrid(s.(pads := s.pads[0 := 0]), times, 18);
    case _ =>
  }

  lemma {:induction false} LockNeedsBindings(bs: Bindings, i: nat)
    requires OneLock(bs, i)
    ensures bs != []
  {
  }

  lemma {:induction false} EngagedPrefix(beats: seq<LockBeat>, beat: LockBeat, n: nat)
    requires n <= |beats|
    ensures Engaged(beats + [beat], n) == Engaged(beats, n)
  {
    if n > 0 {
      EngagedPrefix(beats, beat, n - 1);
    }
  }

  lemma {:induction false} EngagedAppend(beats: seq<LockBeat>, beat: LockBeat)
    ensures var press := beat.held && (beats == [] || !beats[|beats| - 1].held);
            Engaged(beats + [beat], |beats| + 1)
            <==> beat.calm && if press then !Engaged(beats, |beats|) && beat.ready else Engaged(beats, |beats|)
  {
    EngagedPrefix(beats, beat, |beats|);
  }

  predicate LastHeld(beats: seq<LockBeat>) {
    beats != [] && beats[|beats| - 1].held
  }

  // Over machine runs: since its port was last cleared, a lock is engaged exactly as those presses
  // say.
  lemma {:induction false} LockFollowsPresses(t: MappingTable, run: seq<Step>, d: nat, p: nat, i: nat,
                                              from: nat, n: nat)
    requires d < 3 && p < 6 && i < 8 && from <= n <= |run|
    requires forall j :: from <= j < n ==> OneLock(After(BootSystem(t), run, j).table[d][p].bindings, i)
    requires ClearedAt(t, run, d, p, from) && NoClear(t, run, d, p, from, n)
    ensures var beats := LockBeatsIn(t, run, d, p, i, from, n);
            var lock := SlotAt(t, run, d, p, i, n).lock;
            (lock.engaged <==> Engaged(beats, |beats|)) && (lock.prev <==> LastHeld(beats))
    decreases n
  {
    hide After, Apply, Clears, OneLock, Engaged, LockBeatOf, ClearedAt;
    if n == from {
      StartsClear(t, run, d, p, i, from);
      NothingEngaged();
    } else {
      LockFollowsPresses(t, run, d, p, i, from, n - 1);
      var s, a := After(BootSystem(t), run, n - 1), run[n - 1];
      NextState(t, run, n);
      LockOverAnyStep(s, a, d, p, i);
      var beats := LockBeatsIn(t, run, d, p, i, from, n - 1);
      if a.Loop? && s.pads[0] != 0 {
        EngagedAppend(beats, LockBeatOf(s, a, d, p, i));
      } else {
        assert beats + [] == beats;
      }
    }
  }

  lemma {:induction false} NextState(t: MappingTable, run: seq<Step>, n: nat)
    requires 0 < n <= |run|
    ensures After(BootSystem(t), run, n) == Apply(After(BootSystem(t), run, n - 1), run[n - 1])
  {
    hide Apply;
  }

  lemma {:induction false} NothingEngaged()
    ensures !Engaged([], 0)
  {
  }

  // ---- A lock that engages -------------------------------------------------------------------

  const LOCK_A := Binding(BTN_A, false, 100, THL)

  // Button A locks: one press with the gyro calibrated engages, at the heading of that sweep.
  lemma {:induction false} PressEngages(k: Tick, rig: Rig, times: Times) returns (run: seq<Step>)
    requires BTN_A in k.buttons && k.imuReady
    ensures run == [Connect(1), Loop(k, rig, times)]
    ensures var lock := SlotAt(Single(LOCK_A), run, 0, 0, 0, 2).lock;
            lock.engaged && lock.reference == k.heading
  {
    hide Apply, After, Single, BootSystem, SweepPort;
    run := [Connect(1), Loop(k, rig, times)];
    var s0 := BootSystem(Single(LOCK_A));
    BootFacts(Single(LOCK_A));
    BootSlot(Single(LOCK_A));
    var s1 := Apply(s0, run[0]);
    ConnectFirst(s0);
    var s2 := Apply(s1, run[1]);
    AfterStates(Single(LOCK_A), run, [s0, s1, s2]);
    SingleIsLock();
    LockOverAnyStep(s1, run[1], 0, 0, 0);
    RestingAlone(s1, run[1]);
  }

  lemma {:induction false} BootSlot(t: MappingTable)
    ensures BootSystem(t).grid[0][0][0] == CLEARED
  {
  }

  lemma {:induction false} SingleIsLock()
    ensures OneLock(Single(LOCK_A)[0][0].bindings, 0) && Single(LOCK_A)[0][0].bindings == [LOCK_A]
  {
  }

  lemma {:induction false} RestingAlone(s: System, a: Step)
    requires a.Loop? && s.table[0][0].bindings == [LOCK_A] && BTN_A in a.tick.buttons
    ensures LockBeatOf(s, a, 0, 0, 0) == LockBeat(true, a.tick.imuReady, true)
  {
    hide SweepPort;
  }
}
