// The runtime state of one binding in main/sketch.cpp: latch, pulse and heading lock.
module Machines {

  // ---- Latch -----------------------------------------------------------------------

  datatype Latch = Latch(on: bool, prev: bool)

  function LatchTick(l: Latch, pressed: bool): Latch {
    Latch(if pressed && !l.prev then !l.on else l.on, pressed)
  }

  const UNLATCHED := Latch(false, false)

  function LatchFrom(l: Latch, presses: seq<bool>): Latch {
    if presses == [] then l
    else LatchTick(LatchFrom(l, presses[..|presses| - 1]), presses[|presses| - 1])
  }

  function LatchAfter(presses: seq<bool>): Latch {
    LatchFrom(UNLATCHED, presses)
  }

  // Press edges, the level before the first tick being released.
  function Edges(presses: seq<bool>): nat {
    if presses == [] then 0
    else
      var n := |presses| - 1;
      Edges(presses[..n]) + if presses[n] && (n == 0 || !presses[n - 1]) then 1 else 0
  }

  // Since it was last cleared, a latch is on exactly after an odd number of edges.
  lemma {:induction false} LatchIsParity(presses: seq<bool>)
    ensures LatchAfter(presses).on <==> Edges(presses) % 2 == 1
    ensures LatchAfter(presses).prev == (presses != [] && presses[|presses| - 1])
  {
    if presses != [] {
      var n := |presses| - 1;
      LatchIsParity(presses[..n]);
      if n > 0 {
        assert presses[..n][n - 1] == presses[n - 1];
      }
    }
  }

  // A latch that was not cleared before the first of these presses counts them as a cleared
  // one does exactly when it was off, or on with the button then held and still pressed.
  lemma {:induction false} CarriedLatchExactly(l: Latch, presses: seq<bool>)
    requires presses != []
    ensures LatchFrom(l, presses).prev == LatchAfter(presses).prev
    ensures LatchFrom(l, presses) == LatchAfter(presses) <==> l.on == (presses[0] && l.prev)
  {
    if |presses| > 1 {
      CarriedLatchExactly(l, presses[..|presses| - 1]);
    } else {
      assert presses[..0] == [];
      assert LatchFrom(l, presses[..0]) == l && LatchFrom(UNLATCHED, presses[..0]) == UNLATCHED;
    }
  }

  // ---- Pulse -----------------------------------------------------------------------

  datatype Pulse = Pulse(armed: bool, armedFrame: int, active: bool, startFrame: int, prev: bool)

  const NO_PULSE := Pulse(false, 0, false, 0, false)

  function PulseArm(p: Pulse, pressed: bool, frame: int): Pulse {
    var edge := pressed && !p.prev;
    if edge && !p.armed && !p.active then p.(prev := pressed, armed := true, armedFrame := frame)
    else p.(prev := pressed)
  }

  function PulseStart(p: Pulse, frame: int): Pulse {
    if p.armed && frame != p.armedFrame then p.(armed := false, active := true, startFrame := frame) else p
  }

  function PulseEnd(p: Pulse, frame: int, frames: nat): Pulse {
    if p.active && frame >= p.startFrame + frames then p.(active := false) else p
  }

  function PulseTick(p: Pulse, pressed: bool, frame: int, frames: nat): Pulse {
    PulseEnd(PulseStart(PulseArm(p, pressed, frame), frame), frame, frames)
  }

  // One sweep as a pulse binding sees it.
  datatype Beat = Beat(pressed: bool, frame: int)

  predicate Ordered(beats: seq<Beat>) {
    forall i, j :: 0 <= i <= j < |beats| ==> beats[i].frame <= beats[j].frame
  }

  // The state before beat i, from p at the first.
  function PulseFrom(p: Pulse, beats: seq<Beat>, frames: nat, i: nat): Pulse
    requires i <= |beats|
  {
    if i == 0 then p
    else PulseTick(PulseFrom(p, beats, frames, i - 1), beats[i - 1].pressed, beats[i - 1].frame, frames)
  }

  function PulseAt(beats: seq<Beat>, frames: nat, i: nat): Pulse
    requires i <= |beats|
  {
    PulseFrom(NO_PULSE, beats, frames, i)
  }

  // Full level at beat i.
  predicate High(beats: seq<Beat>, frames: nat, i: nat)
    requires i < |beats|
  {
    PulseAt(beats, frames, i + 1).active
  }

  // A pulse starts at beat i.
  predicate Starts(beats: seq<Beat>, frames: nat, i: nat)
    requires i < |beats|
  {
    !PulseAt(beats, frames, i).active && PulseAt(beats, frames, i + 1).active
  }

  predicate Edge(beats: seq<Beat>, i: nat)
    requires i < |beats|
  {
    beats[i].pressed && (i == 0 || !beats[i - 1].pressed)
  }

  // A press edge that arms: neither armed nor active before it.
  predicate Arms(beats: seq<Beat>, frames: nat, i: nat)
    requires i < |beats|
  {
    Edge(beats, i) && !PulseAt(beats, frames, i).armed && !PulseAt(beats, frames, i).active
  }

  // Beat i lies in the window opened at beat j.
  predicate InWindow(beats: seq<Beat>, frames: nat, j: nat, i: nat)
    requires i < |beats| && j < |beats|
  {
    Starts(beats, frames, j) && beats[j].frame <= beats[i].frame < beats[j].frame + frames
  }

  predicate InAWindow(beats: seq<Beat>, frames: nat, i: nat)
    requires i < |beats|
  {
    exists j :: 0 <= j < |beats| && InWindow(beats, frames, j, i)
  }

  lemma {:induction false} PrevIsLastLevel(beats: seq<Beat>, frames: nat, i: nat)
    requires i <= |beats|
    ensures PulseAt(beats, frames, i).prev == (i > 0 && beats[i - 1].pressed)
  {
    if i > 0 {
      PrevIsLastLevel(beats, frames, i - 1);
    }
  }

  // Armed and active exclude each other in every reachable state.
  lemma {:induction false} NeverBoth(beats: seq<Beat>, frames: nat, i: nat)
    requires i <= |beats|
    ensures !(PulseAt(beats, frames, i).armed && PulseAt(beats, frames, i).active)
  {
    if i > 0 {
      NeverBoth(beats, frames, i - 1);
    }
  }

  // While armed: the arming edge, with every beat since in its frame and no start since.
  lemma {:induction false} ArmedSince(beats: seq<Beat>, frames: nat, i: nat) returns (a: nat)
    requires frames >= 1 && i <= |beats| && PulseAt(beats, frames, i).armed
    ensures a < i && Arms(beats, frames, a)
    ensures PulseAt(beats, frames, i).armedFrame == beats[a].frame
    ensures forall k :: a <= k < i ==> beats[k].frame == beats[a].frame && !High(beats, frames, k)
    ensures forall k :: a < k <= i ==> PulseAt(beats, frames, k).armed
    decreases i
  {
    NeverBoth(beats, frames, i - 1);
    PrevIsLastLevel(beats, frames, i - 1);
    if PulseAt(beats, frames, i - 1).armed {
      a := ArmedSince(beats, frames, i - 1);
    } else {
      a := i - 1;
    }
  }

  // While active: the start, with every beat since inside the window and at full level.
  lemma {:induction false} ActiveSince(beats: seq<Beat>, frames: nat, i: nat) returns (j: nat)
    requires frames >= 1 && i <= |beats| && PulseAt(beats, frames, i).active
    ensures j < i && Starts(beats, frames, j)
    ensures PulseAt(beats, frames, i).startFrame == beats[j].frame
    ensures forall k :: j <= k < i ==> beats[k].frame < beats[j].frame + frames && High(beats, frames, k)
    decreases i
  {
    NeverBoth(beats, frames, i - 1);
    if PulseAt(beats, frames, i - 1).active {
      j := ActiveSince(beats, frames, i - 1);
    } else {
      j := i - 1;
    }
  }

  // A window stays open to its end.
  lemma {:induction false} WindowStaysOpen(beats: seq<Beat>, frames: nat, j: nat, i: nat)
    requires frames >= 1 && Ordered(beats) && j <= i < |beats| && Starts(beats, frames, j)
    requires beats[i].frame < beats[j].frame + frames
    ensures High(beats, frames, i) && PulseAt(beats, frames, i + 1).startFrame == beats[j].frame
    decreases i
  {
    NeverBoth(beats, frames, i);
    if i > j {
      WindowStaysOpen(beats, frames, j, i - 1);
    }
  }

  // Each window opens in a later frame than its one arming edge; every frame before it
  // is earlier, and nothing is at full level from the edge to the start.
  lemma {:induction false} StartHasOneEdge(beats: seq<Beat>, frames: nat, j: nat) returns (a: nat)
    requires frames >= 1 && Ordered(beats) && j < |beats| && Starts(beats, frames, j)
    ensures a < j && Arms(beats, frames, a) && beats[a].frame < beats[j].frame
    ensures forall k :: a <= k < j ==> beats[k].frame == beats[a].frame && !High(beats, frames, k)
    ensures forall k :: a < k <= j ==> !Arms(beats, frames, k)
    ensures forall k :: 0 <= k < j ==> beats[k].frame < beats[j].frame
  {
    NeverBoth(beats, frames, j);
    a := ArmedSince(beats, frames, j);
    assert beats[j].frame != beats[a].frame;
  }

  // Full level exactly inside the windows.
  lemma {:induction false} PulseLevels(beats: seq<Beat>, frames: nat, i: nat)
    requires frames >= 1 && Ordered(beats) && i < |beats|
    ensures High(beats, frames, i) <==> InAWindow(beats, frames, i)
  {
    if High(beats, frames, i) {
      var j := ActiveSince(beats, frames, i + 1);
      assert InWindow(beats, frames, j, i);
    }
    if j :| 0 <= j < |beats| && InWindow(beats, frames, j, i) {
      if i < j {
        var a := StartHasOneEdge(beats, frames, j);
      }
      WindowStaysOpen(beats, frames, j, i);
    }
  }

  // Windows are disjoint, and each holds its own start.
  lemma {:induction false} WindowsAreDisjoint(beats: seq<Beat>, frames: nat, j: nat, k: nat)
    requires frames >= 1 && Ordered(beats) && j < k < |beats|
    requires Starts(beats, frames, j) && Starts(beats, frames, k)
    ensures beats[k].frame >= beats[j].frame + frames
    ensures High(beats, frames, j) && InWindow(beats, frames, j, j)
  {
    if beats[k].frame < beats[j].frame + frames {
      WindowStaysOpen(beats, frames, j, k - 1);
      assert false;
    }
  }

  // A press while armed or active changes nothing but the edge detector.
  lemma {:induction false} PressInLockoutIsIgnored(p: Pulse, pressed: bool, frame: int, frames: nat)
    requires p.armed || p.active
    ensures PulseTick(p, pressed, frame, frames) == PulseTick(p, p.prev, frame, frames).(prev := pressed)
  {
  }

  // An accepted edge fires at the first later frame, if there is one.
  lemma {:induction false} EdgeFires(beats: seq<Beat>, frames: nat, a: nat, j: nat)
    requires frames >= 1 && Ordered(beats) && a < j < |beats| && Arms(beats, frames, a)
    requires beats[j - 1].frame == beats[a].frame < beats[j].frame
    ensures Starts(beats, frames, j)
  {
    StaysArmed(beats, frames, a, j);
  }

  lemma {:induction false} StaysArmed(beats: seq<Beat>, frames: nat, a: nat, i: nat)
    requires frames >= 1 && Ordered(beats) && a < i <= |beats| && Arms(beats, frames, a)
    requires beats[i - 1].frame == beats[a].frame
    ensures var p := PulseAt(beats, frames, i); p.armed && !p.active && p.armedFrame == beats[a].frame
    decreases i
  {
    PrevIsLastLevel(beats, frames, a);
    if i > a + 1 {
      assert beats[a].frame <= beats[i - 2].frame <= beats[i - 1].frame;
      StaysArmed(beats, frames, a, i - 1);
    }
  }

  // Nothing of a former binding left: not armed, not active, the button not held.
  predicate Idle(p: Pulse) {
    !p.armed && !p.active && !p.prev
  }

  // The fields that still matter agree.
  predicate SamePulse(p: Pulse, q: Pulse) {
    p.armed == q.armed && p.active == q.active && p.prev == q.prev
    && (p.armed ==> p.armedFrame == q.armedFrame) && (p.active ==> p.startFrame == q.startFrame)
  }

  lemma {:induction false} SameFromThere(p: Pulse, q: Pulse, beats: seq<Beat>, frames: nat, i: nat)
    requires SamePulse(p, q) && i <= |beats|
    ensures SamePulse(PulseFrom(p, beats, frames, i), PulseFrom(q, beats, frames, i))
  {
    if i > 0 {
      SameFromThere(p, q, beats, frames, i - 1);
    }
  }

  // A beat, or two, at which a pulse that is not idle differs from a cleared one.
  function Telltale(p: Pulse): seq<Beat> {
    if p.active then [Beat(false, p.startFrame)]
    else if p.armed then [Beat(false, p.armedFrame + 1)]
    else [Beat(true, 0), Beat(false, 1)]
  }

  lemma {:induction false} TelltaleTells(p: Pulse, frames: nat)
    requires frames >= 1 && !Idle(p) && !(p.armed && p.active)
    ensures var beats := Telltale(p);
            PulseFrom(p, beats, frames, |beats|).active != PulseAt(beats, frames, |beats|).active
  {
    var beats := Telltale(p);
    assert PulseFrom(p, beats, frames, 0) == p && PulseAt(beats, frames, 0) == NO_PULSE;
    assert PulseFrom(p, beats, frames, 1) == PulseTick(p, beats[0].pressed, beats[0].frame, frames);
    assert PulseAt(beats, frames, 1) == PulseTick(NO_PULSE, beats[0].pressed, beats[0].frame, frames);
  }

  predicate SameLevel(p: Pulse, beats: seq<Beat>, frames: nat) {
    PulseFrom(p, beats, frames, |beats|).active == PulseAt(beats, frames, |beats|).active
  }

  ghost predicate AlwaysSameLevel(p: Pulse, frames: nat) {
    forall beats :: SameLevel(p, beats, frames)
  }

  // A pulse that was not cleared keeps to the levels of a cleared one, whatever follows, exactly
  // when it is idle.
  lemma {:induction false} CarriedPulseExactly(p: Pulse, frames: nat)
    requires frames >= 1 && !(p.armed && p.active)
    ensures Idle(p) <==> AlwaysSameLevel(p, frames)
  {
    if Idle(p) {
      forall beats
        ensures SameLevel(p, beats, frames)
      {
        SameFromThere(p, NO_PULSE, beats, frames, |beats|);
      }
    } else {
      TelltaleTells(p, frames);
      assert !SameLevel(p, Telltale(p), frames);
    }
  }

  // ---- Heading lock -------------------------------------------------------------------

  datatype Lock = Lock(engaged: bool, reference: real, prev: bool)

  const NO_LOCK := Lock(false, 0.0, false)

  function LockTick(l: Lock, pressed: bool, imuReady: bool, heading: real): Lock {
    var edge := pressed && !l.prev;
    if !edge then l.(prev := pressed)
    else if l.engaged then l.(engaged := false, prev := pressed)
    else if !imuReady then l.(prev := pressed)
    else Lock(true, heading, pressed)
  }

  // ---- One binding ----------------------------------------------------------------------

  datatype Slot = Slot(latch: Latch, pulse: Pulse, lock: Lock)

  const CLEARED := Slot(Latch(false, false), NO_PULSE, NO_LOCK)
}
