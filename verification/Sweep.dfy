// The drive sweep of main/sketch.cpp on one port: every binding's own level, the
// heading-lock arbitration, and the clamped sum.
module Sweep {
  import opened ConfigLine
  import opened ConfigTable
  import opened Curves
  import opened ControlLaw
  import opened Machines

  // What one sweep reads: the controller, the virtual frame number, the heading and
  // whether the gyro has calibrated.
  datatype Tick = Tick(lsns: int, lsew: int, rsns: int, rsew: int, lt: int, rt: int, buttons: set<Input>,
                       frame: int, heading: real, imuReady: bool)

  // The tunables and the pulse length in frames (1 in the source).
  datatype Rig = Rig(tuning: Tuning, pulseFrames: nat)

  type Slots = s: seq<Slot> | |s| == 8 witness seq(8, _ => CLEARED)
  type Bindings = s: seq<Binding> | |s| <= 8 witness []
  type Levels = seq<Level>

  function ReadTokenRaw(k: Tick, input: Input): int {
    match input
    case LSNS => k.lsns
    case LSEW => k.lsew
    case RSNS => k.rsns
    case RSEW => k.rsew
    case LT => k.lt
    case RT => k.rt
    case NONE => 0
    case _ => if input in k.buttons then 1 else 0
  }

  predicate Pressed(k: Tick, input: Input) {
    if Class(input) == TRIGGER then ReadTokenRaw(k, input) > 511 else ReadTokenRaw(k, input) != 0
  }

  // Whether a binding runs as a button.
  predicate IsButton(b: Binding) {
    Class(b.input) == DIGITAL || (Class(b.input) == TRIGGER && b.mode != PROPORTIONAL)
  }

  function LockLevel(rig: Rig, reference: real, heading: real): Level {
    ClampLevel(0x80 + LRound(OutputPct(rig.tuning, reference, heading) / 100.0 * 127.0))
  }

  // ---- Pass 1 --------------------------------------------------------------------------

  function NextSlot(b: Binding, s: Slot, k: Tick, rig: Rig): Slot {
    if !IsButton(b) then s
    else
      var pressed := Pressed(k, b.input);
      match b.mode
      case LATCHED => s.(latch := LatchTick(s.latch, pressed))
      case PULSE => s.(pulse := PulseTick(s.pulse, pressed, k.frame, rig.pulseFrames))
      case THL => s.(lock := LockTick(s.lock, pressed, k.imuReady, k.heading))
      case _ => s
  }

  function Full(on: bool): Level {
    if on then 0xFF else NEUTRAL_LEVEL
  }

  // The level of a binding, from its state after this sweep's transition.
  function RawLevel(b: Binding, s: Slot, k: Tick, rig: Rig): Level {
    if Class(b.input) == AXIS then StickLevel(ReadTokenRaw(k, b.input))
    else if !IsButton(b) then TriggerLevel(ReadTokenRaw(k, b.input))
    else
      match b.mode
      case LATCHED => Full(s.latch.on)
      case PULSE => Full(s.pulse.active)
      case THL => if s.lock.engaged then LockLevel(rig, s.lock.reference, k.heading) else NEUTRAL_LEVEL
      case _ => Full(Pressed(k, b.input))
  }

  function Pass1Slots(bs: Bindings, slots: Slots, k: Tick, rig: Rig): Slots {
    seq(8, i requires 0 <= i < 8 => if i < |bs| then NextSlot(bs[i], slots[i], k, rig) else slots[i])
  }

  function Pass1Levels(bs: Bindings, next: Slots, k: Tick, rig: Rig): (raws: Levels)
    ensures |raws| == |bs|
  {
    seq(|bs|, i requires 0 <= i < |bs| => RawLevel(bs[i], next[i], k, rig))
  }

  // ---- Pass 2 --------------------------------------------------------------------------

  predicate HoldsLock(b: Binding, s: Slot) {
    b.mode == THL && s.lock.engaged
  }

  // First binding from i on that holds an engaged lock; the count if none does.
  function LockIndex(bs: Bindings, slots: Slots, i: nat): (n: nat)
    requires i <= |bs|
    ensures i <= n <= |bs|
    ensures n < |bs| ==> HoldsLock(bs[n], slots[n])
    ensures forall j :: i <= j < n ==> !HoldsLock(bs[j], slots[j])
    decreases |bs| - i
  {
    if i == |bs| || HoldsLock(bs[i], slots[i]) then i else LockIndex(bs, slots, i + 1)
  }

  // More than the cancel threshold away from neutral, in percent of full scale.
  predicate Overrides(rig: Rig, raw: Level) {
    Abs((raw - 0x80) as real) / 127.0 * 100.0 > rig.tuning.cancel
  }

  // First binding from i on, other than the lock, whose deflection overrides it.
  function CancelIndex(rig: Rig, raws: Levels, lock: nat, i: nat): (n: nat)
    requires i <= |raws|
    ensures i <= n <= |raws|
    ensures n < |raws| ==> n != lock && Overrides(rig, raws[n])
    ensures forall j :: i <= j < n && j != lock ==> !Overrides(rig, raws[j])
    decreases |raws| - i
  {
    if i == |raws| || (i != lock && Overrides(rig, raws[i])) then i else CancelIndex(rig, raws, lock, i + 1)
  }

  function Suppressed(raws: Levels, lock: nat): (r: Levels)
    ensures |r| == |raws|
  {
    seq(|raws|, i requires 0 <= i < |raws| => if i == lock then raws[i] else NEUTRAL_LEVEL)
  }

  datatype Swept = Swept(slots: Slots, raws: Levels)

  function Disengaged(s: Slot): Slot {
    s.(lock := s.lock.(engaged := false))
  }

  function Arbitrate(bs: Bindings, slots: Slots, raws: Levels, rig: Rig): (r: Swept)
    requires |raws| == |bs|
    ensures |r.raws| == |bs|
  {
    var lock := LockIndex(bs, slots, 0);
    if lock == |bs| then Swept(slots, raws)
    else if CancelIndex(rig, raws, lock, 0) < |bs| then
      Swept(slots[lock := Disengaged(slots[lock])], raws[lock := NEUTRAL_LEVEL])
    else Swept(slots, Suppressed(raws, lock))
  }

  // ---- Pass 3 --------------------------------------------------------------------------

  function Contribution(raw: Level, b: Binding): int {
    ApplyBinding(raw, b) - 0x80
  }

  function SumOf(bs: Bindings, raws: Levels, n: nat): int
    requires |raws| == |bs| && n <= |bs|
  {
    if n == 0 then 0 else SumOf(bs, raws, n - 1) + Contribution(raws[n - 1], bs[n - 1])
  }

  function ClampSum(sum: int): Level {
    0x80 + if sum > 127 then 127 else if sum < -128 then -128 else sum
  }

  datatype PortResult = PortResult(slots: Slots, level: Level)

  function SweepPort(bs: Bindings, slots: Slots, k: Tick, rig: Rig): PortResult {
    var next := Pass1Slots(bs, slots, k, rig);
    var swept := Arbitrate(bs, next, Pass1Levels(bs, next, k, rig), rig);
    PortResult(swept.slots, ClampSum(SumOf(bs, swept.raws, |bs|)))
  }

  // ---- Heading-lock arbitration --------------------------------------------------------

  // A port whose one THL binding, at index t, is a button or trigger.
  predicate OneLock(bs: Bindings, t: nat) {
    t < |bs| && bs[t].mode == THL && Class(bs[t].input) != AXIS
    && forall i :: 0 <= i < |bs| && i != t ==> bs[i].mode != THL
  }

  // The sum of the contributions of every binding but the lock, at the levels their
  // own inputs give.
  function SumOfOthers(bs: Bindings, raws: Levels, t: nat, n: nat): int
    requires |raws| == |bs| && n <= |bs|
  {
    if n == 0 then 0
    else SumOfOthers(bs, raws, t, n - 1) + if n - 1 == t then 0 else Contribution(raws[n - 1], bs[n - 1])
  }

  lemma {:induction false} SumWithLockNeutral(bs: Bindings, raws: Levels, t: nat, n: nat)
    requires |raws| == |bs| && n <= |bs| && t < |bs| && raws[t] == NEUTRAL_LEVEL
    ensures SumOf(bs, raws, n) == SumOfOthers(bs, raws, t, n)
  {
    NeutralStays(bs[t]);
    hide ApplyBinding;
    if n > 0 {
      SumWithLockNeutral(bs, raws, t, n - 1);
    }
  }

  lemma {:induction false} SumOfSuppressed(bs: Bindings, raws: Levels, t: nat, n: nat)
    requires |raws| == |bs| && n <= |bs| && t < |bs|
    ensures SumOf(bs, Suppressed(raws, t), n) == if n > t then Contribution(raws[t], bs[t]) else 0
  {
    hide ApplyBinding;
    if n > 0 {
      SumOfSuppressed(bs, raws, t, n - 1);
      NeutralStays(bs[n - 1]);
    }
  }

  lemma {:induction false} OthersUnchanged(bs: Bindings, raws: Levels, other: Levels, t: nat, n: nat)
    requires |raws| == |other| == |bs| && n <= |bs|
    requires forall i :: 0 <= i < |bs| && i != t ==> raws[i] == other[i]
    ensures SumOfOthers(bs, raws, t, n) == SumOfOthers(bs, other, t, n)
  {
    hide ApplyBinding;
    if n > 0 {
      OthersUnchanged(bs, raws, other, t, n - 1);
    }
  }

  lemma {:induction false} OnlyLockIndex(bs: Bindings, slots: Slots, t: nat)
    requires OneLock(bs, t)
    ensures LockIndex(bs, slots, 0) == if slots[t].lock.engaged then t else |bs|
  {
    var n := LockIndex(bs, slots, 0);
    if slots[t].lock.engaged {
      assert HoldsLock(bs[t], slots[t]);
    }
  }

  // Every sweep ends in one of two ways. Either the lock is engaged and the port
  // carries the lock's own contribution alone; or it is off and the port carries the
  // clamped sum of the other bindings. It ends engaged exactly when its own press logic
  // leaves it engaged and no other binding deflects past the cancel threshold.
  lemma {:induction false} LockArbitration(bs: Bindings, slots: Slots, k: Tick, rig: Rig, t: nat)
    requires OneLock(bs, t)
    ensures var r := SweepPort(bs, slots, k, rig);
            var next := Pass1Slots(bs, slots, k, rig);
            var raws := Pass1Levels(bs, next, k, rig);
            var lock := LockTick(slots[t].lock, Pressed(k, bs[t].input), k.imuReady, k.heading);
            (r.slots[t].lock.engaged <==>
               lock.engaged && forall i :: 0 <= i < |bs| && i != t ==> !Overrides(rig, raws[i]))
            && (if r.slots[t].lock.engaged then
                  r.level == ClampSum(Contribution(LockLevel(rig, lock.reference, k.heading), bs[t]))
                else r.level == ClampSum(SumOfOthers(bs, raws, t, |bs|)))
            && r.slots[t].lock == lock.(engaged := r.slots[t].lock.engaged)
  {
    hide ApplyBinding, LockLevel, Overrides, StickLevel, TriggerLevel, ClampSum, Pressed;
    var next := Pass1Slots(bs, slots, k, rig);
    var raws := Pass1Levels(bs, next, k, rig);
    OnlyLockIndex(bs, next, t);
    assert next[t].lock == LockTick(slots[t].lock, Pressed(k, bs[t].input), k.imuReady, k.heading);
    if next[t].lock.engaged {
      var cancel := CancelIndex(rig, raws, t, 0);
      if cancel < |bs| {
        var cancelled := raws[t := NEUTRAL_LEVEL];
        SumWithLockNeutral(bs, cancelled, t, |bs|);
        OthersUnchanged(bs, raws, cancelled, t, |bs|);
      } else {
        SumOfSuppressed(bs, raws, t, |bs|);
      }
    } else {
      SumWithLockNeutral(bs, raws, t, |bs|);
    }
  }

  // Over one sweep an engaged lock keeps its reference, and one that engages captures the
  // heading of this sweep, from a calibrated gyro.
  lemma {:induction false} LockOverSweep(bs: Bindings, slots: Slots, k: Tick, rig: Rig, t: nat)
    requires OneLock(bs, t)
    ensures var m := SweepPort(bs, slots, k, rig).slots[t].lock;
            m.engaged ==>
              if slots[t].lock.engaged then m.reference == slots[t].lock.reference
              else k.imuReady && m.reference == k.heading
  {
    hide SweepPort, Pass1Levels, Overrides, OneLock, ClampSum, SumOfOthers, Contribution;
    LockArbitration(bs, slots, k, rig, t);
  }

  // Arbitration never disturbs the other machines: a pulse or latch binding runs on
  // its own presses alone, even while a lock suppresses its output.
  lemma {:induction false} ArbitrationKeepsMachines(bs: Bindings, slots: Slots, k: Tick, rig: Rig, i: nat)
    requires i < |bs|
    ensures var r := SweepPort(bs, slots, k, rig);
            r.slots[i].latch == NextSlot(bs[i], slots[i], k, rig).latch
            && r.slots[i].pulse == NextSlot(bs[i], slots[i], k, rig).pulse
  {
    hide ApplyBinding, LockLevel, Overrides, StickLevel, TriggerLevel, ClampSum;
  }

  // Slots past the last binding are left alone.
  lemma {:induction false} SpareSlotsAreKept(bs: Bindings, slots: Slots, k: Tick, rig: Rig, i: nat)
    requires |bs| <= i < 8
    ensures SweepPort(bs, slots, k, rig).slots[i] == slots[i]
  {
    hide RawLevel, NextSlot, SumOf, Overrides;
  }
}
