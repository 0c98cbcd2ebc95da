// What a port sends, from the controller's own readings: a second, direct account of the
// sweep that goes input by input, and the proof that the three passes compute it.
module Readings {
  import opened ConfigLine
  import opened Curves
  import opened ControlLaw
  import opened Machines
  import opened Sweep

  // Whether the button an input names is held down. A trigger counts from half way on.
  predicate Held(k: Tick, input: Input) {
    match input
    case LT => k.lt >= 512
    case RT => k.rt >= 512
    case NONE => false
    case LSNS => k.lsns != 0
    case LSEW => k.lsew != 0
    case RSNS => k.rsns != 0
    case RSEW => k.rsew != 0
    case BTN_A => BTN_A in k.buttons
    case BTN_B => BTN_B in k.buttons
    case BTN_X => BTN_X in k.buttons
    case BTN_Y => BTN_Y in k.buttons
    case LB => LB in k.buttons
    case RB => RB in k.buttons
    case DPAD_UP => DPAD_UP in k.buttons
    case DPAD_DOWN => DPAD_DOWN in k.buttons
    case DPAD_LEFT => DPAD_LEFT in k.buttons
    case DPAD_RIGHT => DPAD_RIGHT in k.buttons
    case L3 => L3 in k.buttons
    case R3 => R3 in k.buttons
  }

  function OnOff(on: bool): Level {
    if on then 255 else 128
  }

  // A button's level by its mode; a lock's own contribution is not counted here.
  function ButtonLevel(mode: Mode, held: bool, s: Slot): Level {
    match mode
    case PROPORTIONAL => OnOff(held)
    case MOMENTARY => OnOff(held)
    case LATCHED => OnOff(s.latch.on)
    case PULSE => OnOff(s.pulse.active)
    case THL => 128
  }

  // The level of one binding before invert and max, given its state after the sweep.
  function Deflection(b: Binding, s: Slot, k: Tick): Level {
    match b.input
    case LSNS => StickLevel(k.lsns)
    case LSEW => StickLevel(k.lsew)
    case RSNS => StickLevel(k.rsns)
    case RSEW => StickLevel(k.rsew)
    case LT => if b.mode == PROPORTIONAL then TriggerLevel(k.lt) else ButtonLevel(b.mode, Held(k, LT), s)
    case RT => if b.mode == PROPORTIONAL then TriggerLevel(k.rt) else ButtonLevel(b.mode, Held(k, RT), s)
    case _ => ButtonLevel(b.mode, Held(k, b.input), s)
  }

  // An input that locks a heading: a button or a trigger in that mode, not a stick.
  predicate Locks(b: Binding) {
    b.mode == THL && b.input !in {LSNS, LSEW, RSNS, RSEW}
  }

  lemma {:induction false} PressedIsHeld(k: Tick, input: Input)
    ensures Pressed(k, input) == Held(k, input)
  {
  }

  lemma {:induction false} LocksIsLockButton(b: Binding)
    ensures Locks(b) <==> b.mode == THL && IsButton(b)
  {
  }

  lemma {:induction false} RawIsDeflection(b: Binding, s: Slot, k: Tick, rig: Rig)
    ensures RawLevel(b, s, k, rig)
         == if Locks(b) && s.lock.engaged then LockLevel(rig, s.lock.reference, k.heading) else Deflection(b, s, k)
  {
    hide StickLevel, TriggerLevel, LockLevel, Pressed, Held;
    PressedIsHeld(k, b.input);
  }

  // The sum over the first n bindings of what each adds to neutral.
  function SumOfDeflections(bs: Bindings, slots: Slots, k: Tick, n: nat): int
    requires n <= |bs|
  {
    if n == 0 then 0
    else SumOfDeflections(bs, slots, k, n - 1) + ApplyBinding(Deflection(bs[n - 1], slots[n - 1], k), bs[n - 1]) - 128
  }

  lemma {:induction false} SumIsOfDeflections(bs: Bindings, slots: Slots, raws: Levels, k: Tick, n: nat)
    requires n <= |bs| == |raws| && forall i :: 0 <= i < |bs| ==> raws[i] == Deflection(bs[i], slots[i], k)
    ensures SumOf(bs, raws, n) == SumOfDeflections(bs, slots, k, n)
  {
    hide ApplyBinding, Deflection;
    if n > 0 {
      SumIsOfDeflections(bs, slots, raws, k, n - 1);
    }
  }

  predicate NoLocks(bs: Bindings) {
    forall i :: 0 <= i < |bs| ==> bs[i].mode != THL
  }

  // Without a lock binding a port sends neutral plus the sum of what its bindings add, cut to
  // what a byte holds.
  lemma {:induction false} PortSendsSum(bs: Bindings, slots: Slots, k: Tick, rig: Rig)
    requires NoLocks(bs)
    ensures var r := SweepPort(bs, slots, k, rig);
            var sum := SumOfDeflections(bs, r.slots, k, |bs|);
            r.level == if sum > 127 then 255 else if sum < -128 then 0 else 128 + sum
  {
    hide RawLevel, NextSlot, ApplyBinding, Deflection;
    var next := Pass1Slots(bs, slots, k, rig);
    var raws := Pass1Levels(bs, next, k, rig);
    assert LockIndex(bs, next, 0) == |bs|;
    forall i | 0 <= i < |bs|
      ensures raws[i] == Deflection(bs[i], next[i], k)
    {
      RawIsDeflection(bs[i], next[i], k, rig);
    }
    SumIsOfDeflections(bs, next, raws, k, |bs|);
  }

  // A port with one binding, input by input. The state after the sweep is the binding's latch
  // or pulse.
  lemma {:induction false} OneBinding(b: Binding, slots: Slots, k: Tick, rig: Rig)
    requires b.mode != THL
    ensures var r := SweepPort([b], slots, k, rig);
            (b.input == LSNS ==> r.level == ApplyBinding(StickLevel(k.lsns), b))
            && (b.input == LSEW ==> r.level == ApplyBinding(StickLevel(k.lsew), b))
            && (b.input == RSNS ==> r.level == ApplyBinding(StickLevel(k.rsns), b))
            && (b.input == RSEW ==> r.level == ApplyBinding(StickLevel(k.rsew), b))
            && (b.input == LT && b.mode == PROPORTIONAL ==> r.level == ApplyBinding(TriggerLevel(k.lt), b))
            && (b.input == RT && b.mode == PROPORTIONAL ==> r.level == ApplyBinding(TriggerLevel(k.rt), b))
            && (b.input == LT && b.mode == MOMENTARY ==> r.level == ApplyBinding(OnOff(k.lt >= 512), b))
            && (b.input == RT && b.mode == MOMENTARY ==> r.level == ApplyBinding(OnOff(k.rt >= 512), b))
            && (b.input !in {LSNS, LSEW, RSNS, RSEW, LT, RT, NONE} && b.mode in {PROPORTIONAL, MOMENTARY} ==>
                  r.level == ApplyBinding(OnOff(b.input in k.buttons), b))
            && (b.input !in {LSNS, LSEW, RSNS, RSEW} && b.mode == LATCHED ==>
                  r.level == ApplyBinding(OnOff(r.slots[0].latch.on), b))
            && (b.input !in {LSNS, LSEW, RSNS, RSEW} && b.mode == PULSE ==>
                  r.level == ApplyBinding(OnOff(r.slots[0].pulse.active), b))
            && (b.input == NONE && b.mode in {PROPORTIONAL, MOMENTARY} ==> r.level == 128)
  {
    hide SweepPort, StickLevel, TriggerLevel, ApplyBinding;
    var bs: Bindings := [b];
    var r := SweepPort(bs, slots, k, rig);
    PortSendsSum(bs, slots, k, rig);
    assert SumOfDeflections(bs, r.slots, k, 1)
        == SumOfDeflections(bs, r.slots, k, 0) + ApplyBinding(Deflection(b, r.slots[0], k), b) - 128;
    NeutralStays(b);
  }

  // ---- Only the readings a port names matter ------------------------------------------------

  predicate SameReading(k: Tick, k': Tick, input: Input) {
    match input
    case LSNS => k.lsns == k'.lsns
    case LSEW => k.lsew == k'.lsew
    case RSNS => k.rsns == k'.rsns
    case RSEW => k.rsew == k'.rsew
    case LT => k.lt == k'.lt
    case RT => k.rt == k'.rt
    case NONE => true
    case _ => input in k.buttons <==> input in k'.buttons
  }

  // The two ticks agree on all that a binding looks at.
  predicate SameFor(k: Tick, k': Tick, b: Binding) {
    SameReading(k, k', b.input)
    && (b.mode == PULSE ==> k.frame == k'.frame)
    && (b.mode == THL ==> k.heading == k'.heading && k.imuReady == k'.imuReady)
  }

  lemma {:induction false} SameReadingSameState(b: Binding, s: Slot, t: Slot, k: Tick, k': Tick, rig: Rig)
    requires SameFor(k, k', b)
    ensures NextSlot(b, s, k, rig) == NextSlot(b, s, k', rig)
    ensures RawLevel(b, t, k, rig) == RawLevel(b, t, k', rig)
  {
    hide PulseTick, LatchTick, LockTick, StickLevel, TriggerLevel, LockLevel;
    assert b.input == NONE || ReadTokenRaw(k, b.input) == ReadTokenRaw(k', b.input);
    assert Pressed(k, b.input) == Pressed(k', b.input);
  }

  lemma {:induction false} OnlyNamedReadingsMatter(bs: Bindings, slots: Slots, k: Tick, k': Tick, rig: Rig)
    requires forall i :: 0 <= i < |bs| ==> SameFor(k, k', bs[i])
    ensures SweepPort(bs, slots, k, rig) == SweepPort(bs, slots, k', rig)
  {
    hide NextSlot, RawLevel, Arbitrate, SumOf, SameFor;
    var next := Pass1Slots(bs, slots, k, rig);
    forall i | 0 <= i < |bs|
      ensures NextSlot(bs[i], slots[i], k, rig) == NextSlot(bs[i], slots[i], k', rig)
      ensures RawLevel(bs[i], next[i], k, rig) == RawLevel(bs[i], next[i], k', rig)
    {
      SameReadingSameState(bs[i], slots[i], next[i], k, k', rig);
    }
    assert next == Pass1Slots(bs, slots, k', rig);
    assert Pass1Levels(bs, next, k, rig) == Pass1Levels(bs, next, k', rig);
  }

  // ---- The heading lock ------------------------------------------------------------------------

  // No binding but the lock deflects past the cancel threshold, in percent of full scale.
  predicate Calm(bs: Bindings, slots: Slots, k: Tick, rig: Rig, t: nat) {
    forall i :: 0 <= i < |bs| && i != t ==>
      100.0 * Abs((Deflection(bs[i], slots[i], k) - 128) as real) <= 127.0 * rig.tuning.cancel
  }

  // What a sweep leaves of the lock of a one-lock port: a new press toggles it, engaging only
  // with a calibrated gyro; deflecting another input cancels it.
  predicate LockRule(was: Lock, held: bool, ready: bool, calm: bool, now: Lock, heading: real) {
    now.prev == held
    && (now.engaged <==> calm && (if held && !was.prev then !was.engaged && ready else was.engaged))
    && (now.engaged ==> now.reference == if was.engaged then was.reference else heading)
  }

  lemma {:induction false} LockFollowsRule(bs: Bindings, slots: Slots, k: Tick, rig: Rig, t: nat)
    requires OneLock(bs, t)
    ensures var r := SweepPort(bs, slots, k, rig);
            LockRule(slots[t].lock, Held(k, bs[t].input), k.imuReady, Calm(bs, r.slots, k, rig, t), r.slots[t].lock,
                     k.heading)
  {
    hide SweepPort, ApplyBinding, LockLevel, Pressed, Held, ClampSum, SumOfOthers, RawLevel, Deflection, NextSlot;
    LockArbitration(bs, slots, k, rig, t);
    PressedIsHeld(k, bs[t].input);
    SiblingsDeflect(bs, slots, k, rig, t);
  }

  lemma {:induction false} SiblingsDeflect(bs: Bindings, slots: Slots, k: Tick, rig: Rig, t: nat)
    requires OneLock(bs, t)
    ensures var next := Pass1Slots(bs, slots, k, rig);
            var raws := Pass1Levels(bs, next, k, rig);
            Calm(bs, SweepPort(bs, slots, k, rig).slots, k, rig, t)
            <==> forall i :: 0 <= i < |bs| && i != t ==> !Overrides(rig, raws[i])
  {
    hide SweepPort, ApplyBinding, LockLevel, Pressed, Held, RawLevel, Deflection, NextSlot, Overrides;
    var r := SweepPort(bs, slots, k, rig);
    var next := Pass1Slots(bs, slots, k, rig);
    var raws := Pass1Levels(bs, next, k, rig);
    forall i | 0 <= i < |bs| && i != t
      ensures 100.0 * Abs((Deflection(bs[i], r.slots[i], k) - 128) as real) <= 127.0 * rig.tuning.cancel
              <==> !Overrides(rig, raws[i])
    {
      SiblingKept(bs, slots, k, rig, i);
      RawIsDeflection(bs[i], next[i], k, rig);
      DeflectionOfState(bs[i], next[i], r.slots[i], k);
      Threshold(rig, raws[i]);
    }
  }

  lemma {:induction false} SiblingKept(bs: Bindings, slots: Slots, k: Tick, rig: Rig, i: nat)
    requires i < |bs| && bs[i].mode != THL
    ensures var next, r := Pass1Slots(bs, slots, k, rig), SweepPort(bs, slots, k, rig);
            r.slots[i].latch == next[i].latch && r.slots[i].pulse == next[i].pulse
  {
    hide SweepPort, NextSlot;
    ArbitrationKeepsMachines(bs, slots, k, rig, i);
  }

  lemma {:induction false} DeflectionOfState(b: Binding, s: Slot, u: Slot, k: Tick)
    requires s.latch == u.latch && s.pulse == u.pulse
    ensures Deflection(b, s, k) == Deflection(b, u, k)
  {
    hide StickLevel, TriggerLevel, Held;
  }

  lemma {:induction false} Threshold(rig: Rig, raw: Level)
    ensures !Overrides(rig, raw) <==> 100.0 * Abs((raw - 128) as real) <= 127.0 * rig.tuning.cancel
  {
  }

  // An engaged lock sends the nearest step to its output, out of 127 for 100 percent, and
  // nothing else.
  lemma {:induction false} LockSendsOutput(rig: Rig, reference: real, heading: real)
    ensures var out, delta := OutputPct(rig.tuning, reference, heading), LockLevel(rig, reference, heading) - 128;
            (-100.0 <= out <= 100.0 ==>
               -50.0 <= 100.0 * delta as real - 127.0 * out <= 50.0)
            && (out >= 101.0 ==> delta == 127) && (out <= -102.0 ==> delta == -128)
            && (out == 0.0 ==> delta == 0)
  {
    hide OutputPct;
  }

  // A one-lock port sends its lock's output alone while that is engaged, and else the sum of
  // the other bindings.
  lemma {:induction false} LockPortSends(bs: Bindings, slots: Slots, k: Tick, rig: Rig, t: nat)
    requires OneLock(bs, t)
    ensures var r := SweepPort(bs, slots, k, rig);
            r.slots[t].lock.engaged ==>
              r.level == ApplyBinding(LockLevel(rig, r.slots[t].lock.reference, k.heading), bs[t])
    ensures var r := SweepPort(bs, slots, k, rig);
            var sum := SumOfDeflections(bs, r.slots, k, |bs|);
            !r.slots[t].lock.engaged ==> r.level == if sum > 127 then 255 else if sum < -128 then 0 else 128 + sum
  {
    hide SweepPort, ApplyBinding, LockLevel, Pressed, RawLevel, Deflection, NextSlot, Overrides;
    LockArbitration(bs, slots, k, rig, t);
    var r := SweepPort(bs, slots, k, rig);
    var next := Pass1Slots(bs, slots, k, rig);
    OthersAreDeflections(bs, slots, k, rig, t, |bs|);
  }

  lemma {:induction false} OthersAreDeflections(bs: Bindings, slots: Slots, k: Tick, rig: Rig, t: nat, n: nat)
    requires OneLock(bs, t) && n <= |bs|
    ensures var next := Pass1Slots(bs, slots, k, rig);
            SumOfOthers(bs, Pass1Levels(bs, next, k, rig), t, n)
            == SumOfDeflections(bs, SweepPort(bs, slots, k, rig).slots, k, n)
  {
    hide SweepPort, ApplyBinding, RawLevel, NextSlot, Deflection;
    if n > 0 {
      OthersAreDeflections(bs, slots, k, rig, t, n - 1);
      var i := n - 1;
      var next, r := Pass1Slots(bs, slots, k, rig), SweepPort(bs, slots, k, rig);
      if i == t {
        LockDeflectsNothing(bs[i], r.slots[i], k);
        NeutralStays(bs[i]);
      } else {
        SiblingKept(bs, slots, k, rig, i);
        RawIsDeflection(bs[i], next[i], k, rig);
        DeflectionOfState(bs[i], next[i], r.slots[i], k);
      }
    }
  }

  lemma {:induction false} LockDeflectsNothing(b: Binding, s: Slot, k: Tick)
    requires b.mode == THL && Class(b.input) != AXIS
    ensures Deflection(b, s, k) == NEUTRAL_LEVEL
  {
  }
}
