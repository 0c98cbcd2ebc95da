// The response curves of main/sketch.cpp: raw readings to channel bytes, and the
// invert and max attributes of a binding. Exact arithmetic stands for float; roundf
// rounds half away from zero and integer division truncates.
module Curves {
  import opened ConfigLine
  import Protocol

  type Level = n: int | 0 <= n < 256

  const NEUTRAL_LEVEL: Level := 0x80
  const STICK_AXIS_MAGNITUDE := 512
  const STICK_DEADZONE := 40      // 512 * 8 / 100
  const TRIGGER_MAGNITUDE := 1023
  const TRIGGER_DEADZONE := 81    // 1023 * 8 / 100

  function LRound(x: real): int {
    if x >= 0.0 then (x + 0.5).Floor else -((-x + 0.5).Floor)
  }

  function CDiv(a: int, b: int): int
    requires b > 0
  {
    if a >= 0 then a / b else -((-a) / b)
  }

  // The (uint8_t) cast of a level.
  function AsByte(v: Level): bv8 {
    v as bv8
  }

  lemma {:induction false} NextByte(b: bv8)
    requires b as int < 255
    ensures (b + 1) as int == b as int + 1
  {
  }

  lemma {:induction false} CastIs(v: Level, b: bv8)
    requires b as int == v
    ensures AsByte(v) == b
  {
  }

  // The cast keeps the value.
  lemma {:induction false} ByteOfLevel(v: Level)
    ensures AsByte(v) as int == v
  {
    hide AsByte;
    if v == 0 {
      CastIs(0, 0);
    } else {
      ByteOfLevel(v - 1);
      NextByte(AsByte(v - 1));
      CastIs(v, AsByte(v - 1) + 1);
    }
  }

  function ClampLevel(v: int): Level {
    if v > 0xFF then 0xFF else if v < 0 then 0 else v
  }

  function Fraction(n: int, travel: int): real
    requires travel > 0
  {
    var f := n as real / travel as real;
    if f > 1.0 then 1.0 else f
  }

  // mkStickYToChannelByte: up is negative and means forward, a high byte.
  function StickLevel(axis: int): Level {
    if -STICK_DEADZONE <= axis <= STICK_DEADZONE then NEUTRAL_LEVEL
    else
      var forward := axis < 0;
      var magnitude := if forward then -axis else axis;
      var fraction := Fraction(magnitude - STICK_DEADZONE, STICK_AXIS_MAGNITUDE - STICK_DEADZONE);
      var scale := if forward then 127.0 else 128.0;
      ClampLevel(128 + LRound((if forward then 1.0 else -1.0) * fraction * scale))
  }

  // mkTriggerToChannelByte.
  function TriggerLevel(value: int): Level {
    if value <= TRIGGER_DEADZONE then NEUTRAL_LEVEL
    else
      var fraction := Fraction(value - TRIGGER_DEADZONE, TRIGGER_MAGNITUDE - TRIGGER_DEADZONE);
      ClampLevel(128 + LRound(fraction * 127.0))
  }

  // mkApplyBindingConfig: the lock's output is not scaled.
  function ApplyBinding(raw: Level, b: Binding): Level {
    var value := if b.invert then ClampLevel(0x100 - raw) else raw;
    if b.mode == THL then value
    else ClampLevel(0x80 + CDiv((value - 0x80) * b.max, 100))
  }

  // ---- Laws ------------------------------------------------------------------------

  lemma {:induction false} RoundOrder(x: real, y: real)
    requires x <= y
    ensures LRound(x) <= LRound(y)
    ensures y <= x + 1.0 && (x >= 0.0 || y <= 0.0) ==> LRound(y) <= LRound(x) + 1
  {
    if x >= 0.0 {
      assert (x + 0.5).Floor <= (y + 0.5).Floor;
    } else if y < 0.0 {
      assert (-y + 0.5).Floor <= (-x + 0.5).Floor;
    } else {
      assert (-x + 0.5).Floor >= 0 && (y + 0.5).Floor >= 0;
    }
  }

  // The signed rounding argument of the stick curve.
  function StickTravel(axis: int): real {
    if axis < -STICK_AXIS_MAGNITUDE then 127.0
    else if axis < -STICK_DEADZONE then (-axis - STICK_DEADZONE) as real * 127.0 / 472.0
    else if axis <= STICK_DEADZONE then 0.0
    else if axis <= STICK_AXIS_MAGNITUDE then -((axis - STICK_DEADZONE) as real * 128.0 / 472.0)
    else -128.0
  }

  lemma {:induction false} StickIsRoundedTravel(axis: int)
    ensures StickLevel(axis) == 128 + LRound(StickTravel(axis))
    ensures -128.0 <= StickTravel(axis) <= 127.0
  {
    var t := StickTravel(axis);
    RoundOrder(-128.0, t);
    RoundOrder(t, 127.0);
  }

  lemma {:induction false} TravelIsGentle(axis: int)
    ensures StickTravel(axis + 1) <= StickTravel(axis) <= StickTravel(axis + 1) + 1.0
  {
  }

  lemma {:induction false} TravelFalls(axis: int, other: int)
    requires axis <= other
    ensures StickTravel(other) <= StickTravel(axis)
    decreases other - axis
  {
    if axis < other {
      TravelFalls(axis, other - 1);
      TravelIsGentle(other - 1);
    }
  }

  // The stick byte falls as the axis grows, by at most one per raw unit, and meets both
  // ends of the scale at the documented extremes.
  lemma {:induction false} StickCurve(axis: int, other: int)
    ensures axis <= other ==> StickLevel(other) <= StickLevel(axis)
    ensures StickLevel(axis + 1) >= StickLevel(axis) - 1
    ensures -STICK_DEADZONE <= axis <= STICK_DEADZONE ==> StickLevel(axis) == NEUTRAL_LEVEL
    ensures axis <= -511 ==> StickLevel(axis) == 0xFF
    ensures axis >= 512 ==> StickLevel(axis) == 0x00
  {
    StickIsRoundedTravel(axis);
    StickIsRoundedTravel(axis + 1);
    StickIsRoundedTravel(other);
    TravelIsGentle(axis);
    RoundOrder(StickTravel(axis + 1), StickTravel(axis));
    if axis <= other {
      TravelFalls(axis, other);
      RoundOrder(StickTravel(other), StickTravel(axis));
    }
  }

  // Exactly the straight line from the dead zone to the end of travel, in whole numbers,
  // halves away from neutral.
  lemma {:induction false} StickIsStraight(axis: int)
    ensures -512 <= axis < -40 ==> StickLevel(axis) == 128 + (254 * (-axis - 40) + 472) / 944
    ensures 40 < axis <= 512 ==> StickLevel(axis) == 128 - (256 * (axis - 40) + 472) / 944
  {
    StickIsRoundedTravel(axis);
    if -512 <= axis < -40 {
      RoundedShare(StickTravel(axis), 127 * (-axis - 40), 472);
    } else if 40 < axis <= 512 {
      RoundedShare(-StickTravel(axis), 128 * (axis - 40), 472);
    }
  }

  // Rounding n shares of `travel`, in whole numbers.
  lemma {:induction false} RoundedShare(x: real, n: nat, travel: nat)
    requires travel > 0 && x * travel as real == n as real
    ensures LRound(x) == (2 * n + travel) / (2 * travel)
    ensures LRound(-x) == -((2 * n + travel) / (2 * travel))
  {
    NotNegative(x, travel as real, n as real);
    HalfMore(x, n, travel);
    FloorOfShare(x + 0.5, 2 * n + travel, 2 * travel);
    var q := (2 * n + travel) / (2 * travel);
    assert (x + 0.5).Floor == q && x >= 0.0;
    assert -(-x) + 0.5 == x + 0.5;
    if x == 0.0 {
      assert (0.0 + 0.5).Floor == 0;
    }
  }

  lemma {:induction false} NotNegative(x: real, d: real, p: real)
    requires d > 0.0 && p == x * d && p >= 0.0
    ensures x >= 0.0
  {
    assert (-x) * d == -(x * d);
    if x < 0.0 {
      ProductOfPositives(-x, d);
    }
  }

  lemma {:induction false} HalfMore(x: real, n: nat, travel: nat)
    requires x * travel as real == n as real
    ensures (x + 0.5) * (2 * travel) as real == (2 * n + travel) as real
  {
    var e := travel as real;
    assert (2 * travel) as real == 2.0 * e;
    assert (x + 0.5) * (2.0 * e) == 2.0 * (x * e) + e;
  }

  lemma {:induction false} ProductOfPositives(x: real, d: real)
    requires x >= 0.0 && d > 0.0
    ensures x * d >= 0.0 && (x > 0.0 ==> x * d > 0.0)
  {
  }

  lemma {:induction false} InUnit(z: real, d: real, p: real)
    requires d > 0.0 && p == z * d && 0.0 <= p < d
    ensures 0.0 <= z < 1.0
  {
    NotNegative(z, d, p);
    assert (z - 1.0) * d == z * d - d;
    if z >= 1.0 {
      ProductOfPositives(z - 1.0, d);
    }
  }

  lemma {:induction false} Division(n: nat, d: nat)
    requires d > 0
    ensures n == (n / d) * d + n % d && 0 <= n % d < d
  {
  }

  lemma {:induction false} FloorIs(y: real, q: int)
    requires 0.0 <= y - q as real < 1.0
    ensures y.Floor == q
  {
  }

  // The whole number of d-ths in y, when y holds q * d + r of them.
  lemma {:induction false} FloorOfParts(y: real, q: int, r: int, d: nat)
    requires d > 0 && 0 <= r < d && y * d as real == q as real * d as real + r as real
    ensures y.Floor == q
  {
    var e := d as real;
    assert (y - q as real) * e == y * e - q as real * e;
    assert (y - q as real) * e == r as real;
    InUnit(y - q as real, e, r as real);
    FloorIs(y, q);
  }

  lemma {:induction false} RealProduct(q: int, d: nat)
    ensures (q * d) as real == q as real * d as real
  {
  }

  lemma {:induction false} FloorOfShare(y: real, n: nat, d: nat)
    requires d > 0 && y * d as real == n as real
    ensures y.Floor == n / d
  {
    Division(n, d);
    RealProduct(n / d, d);
    FloorOfParts(y, n / d, n % d, d);
  }

  lemma {:induction false} TriggerIsStraight(value: int)
    ensures value <= 81 ==> TriggerLevel(value) == 128
    ensures 81 < value <= 1023 ==> TriggerLevel(value) == 128 + (254 * (value - 81) + 942) / 1884
  {
    TriggerIsRoundedTravel(value);
    if 81 < value <= 1023 {
      RoundedShare(TriggerTravel(value), 127 * (value - 81), 942);
    }
  }

  lemma {:induction false} TriggerCurve(value: int, other: int)
    ensures value <= other ==> TriggerLevel(value) <= TriggerLevel(other)
    ensures TriggerLevel(value + 1) <= TriggerLevel(value) + 1
    ensures NEUTRAL_LEVEL <= TriggerLevel(value)
    ensures value >= TRIGGER_MAGNITUDE ==> TriggerLevel(value) == 0xFF
  {
    TriggerIsRoundedTravel(value);
    TriggerIsRoundedTravel(value + 1);
    TriggerIsRoundedTravel(other);
    RoundOrder(TriggerTravel(value), TriggerTravel(value + 1));
    if value <= other {
      RoundOrder(TriggerTravel(value), TriggerTravel(other));
    }
  }

  function TriggerTravel(value: int): real {
    if value <= TRIGGER_DEADZONE then 0.0
    else if value <= TRIGGER_MAGNITUDE then (value - TRIGGER_DEADZONE) as real * 127.0 / 942.0
    else 127.0
  }

  lemma {:induction false} TriggerIsRoundedTravel(value: int)
    ensures TriggerLevel(value) == 128 + LRound(TriggerTravel(value))
    ensures 0.0 <= TriggerTravel(value) <= 127.0
  {
    RoundOrder(0.0, TriggerTravel(value));
    RoundOrder(TriggerTravel(value), 127.0);
  }

  lemma {:induction false} CDivScales(x: int, y: int, m: int)
    requires 0 <= m <= 100 && x <= y
    ensures CDiv(x * m, 100) <= CDiv(y * m, 100)
    ensures y <= x + 1 ==> CDiv(y * m, 100) <= CDiv(x * m, 100) + 1
  {
    MulOrder(x, y, m);
    if y == x + 1 {
      assert y * m == x * m + m;
    }
  }

  lemma {:induction false} MulOrder(x: int, y: int, m: int)
    requires 0 <= m && x <= y
    ensures x * m <= y * m
  {
  }

  // A share of at most max percent of full scale, on the side of neutral it came from.
  lemma {:induction false} ShareOfScale(x: int, m: int)
    requires 0 <= m <= 100 && -128 <= x <= 128
    ensures -128 * m <= 100 * CDiv(x * m, 100) <= 128 * m
    ensures -128 <= CDiv(x * m, 100) <= 128
  {
    MulOrder(-128, x, m);
    MulOrder(x, 128, m);
  }

  // The invert and max pipeline keeps the order of levels (or reverses it) and never
  // stretches a step.
  lemma {:induction false} BindingOrder(v: Level, w: Level, b: Binding)
    requires b.max <= 100 && v <= w
    ensures if b.invert then ApplyBinding(w, b) <= ApplyBinding(v, b) else ApplyBinding(v, b) <= ApplyBinding(w, b)
    ensures w <= v + 1 ==> -1 <= ApplyBinding(w, b) - ApplyBinding(v, b) <= 1
  {
    hide CDiv;
    var x := (if b.invert then ClampLevel(0x100 - v) else v) - 0x80;
    var y := (if b.invert then ClampLevel(0x100 - w) else w) - 0x80;
    if b.invert {
      CDivScales(y, x, b.max);
    } else {
      CDivScales(x, y, b.max);
    }
  }

  // It stays within its share of full scale; a plain binding changes nothing.
  lemma {:induction false} BindingShare(v: Level, b: Binding)
    requires b.max <= 100
    ensures b.mode != THL ==> -128 * b.max <= 100 * (ApplyBinding(v, b) - 0x80) <= 128 * b.max
    ensures b.max == 100 && !b.invert ==> ApplyBinding(v, b) == v
  {
    ShareOfScale((if b.invert then ClampLevel(0x100 - v) else v) - 0x80, b.max);
    if b.max == 100 {
      assert CDiv((v - 0x80) * 100, 100) == v - 0x80;
    }
  }

  // What a binding does to the distance from neutral: invert mirrors it, cut to what a byte
  // holds.
  function Mirrored(v: Level, invert: bool): int {
    if !invert then v - 128 else if v == 0 then 127 else 128 - v
  }

  // The lock passes that distance on; every other mode takes max percent of it, rounded
  // towards neutral.
  lemma {:induction false} BindingIsAccurate(v: Level, b: Binding)
    requires b.max <= 100
    ensures var delta, out := Mirrored(v, b.invert), ApplyBinding(v, b) - 128;
            if b.mode == THL then out == delta
            else if delta >= 0 then b.max * delta - 100 < 100 * out <= b.max * delta
            else b.max * delta <= 100 * out < b.max * delta + 100
  {
    var delta := Mirrored(v, b.invert);
    ShareOfScale(delta, b.max);
    CDivIsClose(delta * b.max);
    ScaledSide(delta, b.max);
    assert delta * b.max == b.max * delta;
  }

  lemma {:induction false} CDivIsClose(n: int)
    ensures n >= 0 ==> n - 100 < 100 * CDiv(n, 100) <= n
    ensures n <= 0 ==> n <= 100 * CDiv(n, 100) < n + 100
  {
  }

  lemma {:induction false} ScaledSide(x: int, m: nat)
    ensures x >= 0 ==> x * m >= 0
    ensures x <= 0 ==> x * m <= 0
  {
  }

  // Inverting twice at full scale gives every level back but the one it has to cut.
  lemma {:induction false} InvertTwice(v: Level, b: Binding)
    requires b.invert && b.max == 100
    ensures ApplyBinding(ApplyBinding(v, b), b) == if v == 0 then 1 else v
  {
    hide ApplyBinding;
    BindingIsAccurate(v, b);
    BindingIsAccurate(ApplyBinding(v, b), b);
  }

  // Neutral stays neutral through any binding, whatever its maximum.
  lemma {:induction false} NeutralStays(b: Binding)
    ensures ApplyBinding(NEUTRAL_LEVEL, b) == NEUTRAL_LEVEL
  {
    assert (0x80 - 0x80) * b.max == 0;
  }

  // From the raw axis through invert and max into the telegram: monotone in the axis,
  // at most one step per raw unit, neutral in the dead zone, both extremes reached by a
  // plain binding, and the byte written is the level computed.
  lemma {:induction false} StickEndToEnd(axis: int, other: int, b: Binding)
    requires b.max <= 100 && axis <= other
    ensures var near, far := ApplyBinding(StickLevel(axis), b), ApplyBinding(StickLevel(other), b);
            (if b.invert then near <= far else far <= near)
            && (other == axis + 1 ==> -1 <= far - near <= 1)
            && (b.mode != THL ==> -128 * b.max <= 100 * (near - 0x80) <= 128 * b.max)
            && (-STICK_DEADZONE <= axis <= STICK_DEADZONE ==> near == NEUTRAL_LEVEL)
            && (b.max == 100 && !b.invert ==> (axis <= -511 ==> near == 0xFF) && (axis >= 512 ==> near == 0x00))
            && (b.max == 100 && b.invert ==> (axis <= -511 ==> near == 0x01) && (axis >= 512 ==> near == 0xFF))
            && forall v: bv8 :: v as int == near ==> Protocol.PowerLevel(Protocol.PowerOf(v)) == near
  {
    hide StickLevel, ApplyBinding, Protocol.PowerLevel, Protocol.PowerOf;
    StickCurve(axis, other);
    BindingOrder(StickLevel(other), StickLevel(axis), b);
    BindingShare(StickLevel(axis), b);
    BindingIsAccurate(StickLevel(axis), b);
    NeutralStays(b);
    forall v: bv8 | v as int == ApplyBinding(StickLevel(axis), b)
      ensures Protocol.PowerLevel(Protocol.PowerOf(v)) == v as int
    {
      Protocol.PowerLevelOfByte(v);
    }
  }
}
