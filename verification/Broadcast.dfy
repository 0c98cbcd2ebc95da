// The time-slicer of main/mkh_broadcast.c as a step machine. One step is one
// toggle, one channel write, one event callback or one timer firing; everything
// handed to the radio is recorded in `sent`, every accepted event send in `events`.
module Broadcast {
  import opened Wrappers
  import opened Bits
  import opened Protocol

  const TIME_SLICE_NUM_DEVICES: nat := 2
  const OFF_GRACE_SERVICES := 3
  const EVENT_SEND_MIN_INTERVAL_US := 25000

  type Row = r: seq<byte> | |r| == 6 witness [0x80, 0x80, 0x80, 0x80, 0x80, 0x80]

  const NEUTRAL_ROW: Row := [0x80, 0x80, 0x80, 0x80, 0x80, 0x80]

  type Device = d: int | 0 <= d < 3

  // A telegram handed to the radio, by what it says.
  datatype Sent =
    | Connect
    | Control(device: Device, periodic: bool, values: Row)

  // The payload staged for it.
  function PayloadOf(x: Sent): (payload: seq<byte>) {
    match x
    case Connect => ConnectPayload()
    case Control(d, _, values) => ControlPayload(d, values)
  }

  // What the hubs make of it as a CONTROL telegram.
  function HeardOf(x: Sent): Option<(nat, seq<byte>)> {
    Heard(PayloadOf(x))
  }

  lemma {:induction false} SentIsHeard(x: Sent)
    ensures HeardOf(x) == match x case Connect => None case Control(d, _, values) => Some((d, values))
  {
    hide ControlPayload, ConnectPayload, Heard;
    match x
    case Connect => ConnectPayloadIsNotControl();
    case Control(d, _, values) => ControlPayloadIsHeard(d, values);
  }

  // An accepted event send: device and clock reading.
  datatype Event = Event(device: nat, time: int)

  datatype State = State(
    channels: seq<Row>,
    active: seq<bool>,
    pending: seq<int>,
    transitioning: seq<bool>,
    broadcasting: seq<bool>,
    lastDevice: int,
    lastEvent: seq<int>,
    queued: seq<bool>,
    sent: seq<Sent>,
    events: seq<Event>)

  predicate Shaped(s: State) {
    |s.channels| == 3 && |s.active| == 3 && |s.pending| == 3 && |s.transitioning| == 3
    && |s.broadcasting| == 3 && |s.lastEvent| == 3 && |s.queued| == 3 && s.lastDevice >= -1
  }

  type Slicer = s: State | Shaped(s) witness Boot()

  // After mkh_broadcast_init: the first two slots rotate, the third is parked.
  function Boot(): (s: State)
    ensures Shaped(s)
  {
    State([NEUTRAL_ROW, NEUTRAL_ROW, NEUTRAL_ROW], [true, true, false], [0, 0, 0], [false, false, false],
          [false, false, false], -1, [0, 0, 0], [false, false, false], [], [])
  }

  // The round-robin search: the i-th candidate after `after`, or -1.
  function NextFrom(active: seq<bool>, after: int, i: nat): (d: int)
    requires |active| == 3 && after >= -1 && i >= 1
    ensures -1 <= d < 3
    ensures d >= 0 ==> active[d]
    decreases 4 - i
  {
    if i > 3 then -1
    else if active[(after + i + 3) % 3] then (after + i + 3) % 3
    else NextFrom(active, after, i + 1)
  }

  function NextActive(active: seq<bool>, after: int): (d: int)
    requires |active| == 3 && after >= -1
    ensures -1 <= d < 3
  {
    NextFrom(active, after, 1)
  }

  // The candidates after `after` are the three devices in rotation order.
  lemma {:induction false} NextActiveIsRoundRobin(active: seq<bool>, after: int)
    requires |active| == 3 && -1 <= after < 3
    ensures NextActive(active, after) ==
            var a, b, c := (after + 1) % 3, (after + 2) % 3, (after + 3) % 3;
            if active[a] then a else if active[b] then b else if active[c] then c else -1
    ensures NextActive(active, after) < 0 <==> forall d :: 0 <= d < 3 ==> !active[d]
  {
    assert NextFrom(active, after, 4) == -1;
    assert (after + 1 + 3) % 3 == (after + 1) % 3 && (after + 2 + 3) % 3 == (after + 2) % 3;
    assert (after + 3 + 3) % 3 == (after + 3) % 3;
  }

  function SetChannel(s: Slicer, device: int, port: int, value: byte, now: int): Slicer {
    if !(0 <= device < 3) || !(0 <= port < 6) then s
    else
      var changed := s.channels[device][port] != value;
      var s1 := s.(channels := s.channels[device := s.channels[device][port := value]]);
      if changed && s.active[device] && now - s.lastEvent[device] >= EVENT_SEND_MIN_INTERVAL_US then
        s1.(lastEvent := s.lastEvent[device := now], queued := s.queued[device := true],
            events := s.events + [Event(device, now)])
      else s1
  }

  // Clock readings of the six channel writes of a toggle.
  type SixTimes = t: seq<int> | |t| == 6 witness [0, 0, 0, 0, 0, 0]

  // The first n channel writes of a toggle.
  function Neutralize(s: Slicer, device: int, times: SixTimes, n: nat): Slicer
    requires n <= 6
  {
    if n == 0 then s else SetChannel(Neutralize(s, device, times, n - 1), device, n - 1, NEUTRAL, times[n - 1])
  }

  // The bookkeeping before the channel writes.
  function MarkOff(s: Slicer, device: int): Slicer
    requires 0 <= device < 3
  {
    s.(transitioning := s.transitioning[device := true])
  }

  function MarkOn(s: Slicer, device: int): Slicer
    requires 0 <= device < 3
  {
    s.(transitioning := s.transitioning[device := true], pending := s.pending[device := 0])
  }

  function ToggleOff(s: Slicer, device: int, times: SixTimes): Slicer {
    if !(0 <= device < 3) then s
    else if !s.active[device] || s.pending[device] > 0 then s
    else
      var s1 := MarkOff(s, device);
      var s2 := Neutralize(s1, device, times, 6);
      s2.(pending := s2.pending[device := OFF_GRACE_SERVICES])
  }

  function ToggleOn(s: Slicer, device: int, times: SixTimes): Slicer {
    if !(0 <= device < 3) then s
    else if device >= TIME_SLICE_NUM_DEVICES then s
    else if s.active[device] && s.pending[device] == 0 then s
    else
      var s1 := MarkOn(s, device);
      var s2 := Neutralize(s1, device, times, 6);
      s2.(sent := s2.sent + [Connect],
          active := s2.active[device := true],
          broadcasting := s2.broadcasting[device := true],
          transitioning := s2.transitioning[device := false])
  }

  // The callback runs only while its registration is queued.
  function EventCallback(s: Slicer, device: int): Slicer {
    if !(0 <= device < 3) || !s.queued[device] then s
    else
      s.(queued := s.queued[device := false],
         sent := s.sent + [Control(device, false, s.channels[device])],
         broadcasting := s.broadcasting[device := true])
  }

  // The countdown that follows a periodic service.
  function CountDown(s: Slicer, d: int): Slicer
    requires 0 <= d < 3
  {
    if s.pending[d] <= 0 then s
    else if s.pending[d] == 1 then
      s.(pending := s.pending[d := 0], active := s.active[d := false],
         broadcasting := s.broadcasting[d := false], transitioning := s.transitioning[d := false])
    else s.(pending := s.pending[d := s.pending[d] - 1])
  }

  function TimerFires(s: Slicer): Slicer {
    hide CountDown;
    var d := NextActive(s.active, s.lastDevice);
    if d < 0 then s
    else
      CountDown(s.(lastDevice := d,
                   sent := s.sent + [Control(d, true, s.channels[d])],
                   broadcasting := s.broadcasting[d := true]), d)
  }

  datatype Action =
    | Timer
    | Off(device: int, times: SixTimes)
    | On(device: int, times: SixTimes)
    | Write(device: int, port: int, value: byte, now: int)
    | Callback(device: int)

  function Step(s: Slicer, a: Action): Slicer {
    match a
    case Timer => TimerFires(s)
    case Off(d, times) => ToggleOff(s, d, times)
    case On(d, times) => ToggleOn(s, d, times)
    case Write(d, p, v, now) => SetChannel(s, d, p, v, now)
    case Callback(d) => EventCallback(s, d)
  }

  // The state before step i of a run.
  function StateAt(s: Slicer, run: seq<Action>, i: nat): Slicer
    requires i <= |run|
  {
    if i == 0 then s else Step(StateAt(s, run, i - 1), run[i - 1])
  }

  // Runs compose.
  lemma {:induction false} StateAtAppend(s: Slicer, a: seq<Action>, b: seq<Action>, i: nat)
    requires i <= |b|
    ensures StateAt(s, a + b, |a| + i) == StateAt(StateAt(s, a, |a|), b, i)
    decreases i
  {
    hide Step;
    if i == 0 {
      StateAtPrefix(s, a, b, |a|);
    } else {
      StateAtAppend(s, a, b, i - 1);
    }
  }

  lemma {:induction false} StateAtPrefix(s: Slicer, a: seq<Action>, b: seq<Action>, i: nat)
    requires i <= |a|
    ensures StateAt(s, a + b, i) == StateAt(s, a, i)
    decreases i
  {
    hide Step;
    if i > 0 {
      StateAtPrefix(s, a, b, i - 1);
    }
  }

  // ---- What the channel writes of a toggle do ---------------------------------

  lemma {:induction false} SetChannelEffect(s: Slicer, device: int, port: int, value: byte, now: int)
    requires 0 <= device < 3 && 0 <= port < 6
    ensures var r := SetChannel(s, device, port, value, now);
            r.active == s.active && r.pending == s.pending && r.transitioning == s.transitioning
            && r.broadcasting == s.broadcasting && r.lastDevice == s.lastDevice && r.sent == s.sent
            && r.channels == s.channels[device := s.channels[device][port := value]]
            && (forall d :: 0 <= d < 3 && d != device ==> r.queued[d] == s.queued[d])
            && (Spaced(s) ==> Spaced(r))
  {
  }

  lemma {:induction false} NeutralizeEffect(s: Slicer, device: int, times: SixTimes, n: nat)
    requires n <= 6 && 0 <= device < 3
    ensures var r := Neutralize(s, device, times, n);
            r.active == s.active && r.pending == s.pending && r.transitioning == s.transitioning
            && r.broadcasting == s.broadcasting && r.lastDevice == s.lastDevice && r.sent == s.sent
            && (forall d :: 0 <= d < 3 && d != device ==> r.channels[d] == s.channels[d] && r.queued[d] == s.queued[d])
            && (forall p :: 0 <= p < n ==> r.channels[device][p] == NEUTRAL)
            && (forall p :: n <= p < 6 ==> r.channels[device][p] == s.channels[device][p])
            && (Spaced(s) ==> Spaced(r))
  {
    hide SetChannel, Spaced;
    if n > 0 {
      NeutralizeEffect(s, device, times, n - 1);
      SetChannelEffect(Neutralize(s, device, times, n - 1), device, n - 1, NEUTRAL, times[n - 1]);
    }
  }

  lemma {:induction false} Neutralized(s: Slicer, device: int, times: SixTimes)
    requires 0 <= device < 3
    ensures Neutralize(s, device, times, 6).channels == s.channels[device := NEUTRAL_ROW]
  {
    NeutralizeEffect(s, device, times, 6);
    hide Neutralize;
    assert Neutralize(s, device, times, 6).channels[device] == NEUTRAL_ROW;
  }

  // ---- Invariants of every reachable state ---------------------------------------

  // Accepted event sends of one device lie at least the minimum interval apart.
  predicate Spaced(s: Slicer) {
    (forall i :: 0 <= i < |s.events| ==> s.events[i].device < 3 && s.events[i].time <= s.lastEvent[s.events[i].device])
    && (forall i, j :: 0 <= i < j < |s.events| && s.events[i].device == s.events[j].device ==>
          s.events[j].time - s.events[i].time >= EVENT_SEND_MIN_INTERVAL_US)
  }

  predicate Rotation(s: Slicer) {
    s.lastDevice < TIME_SLICE_NUM_DEVICES
    && (forall d :: 0 <= d < 3 ==>
          0 <= s.pending[d] <= OFF_GRACE_SERVICES
          && (s.pending[d] > 0 <==> s.transitioning[d])
          && (s.pending[d] > 0 ==> s.active[d])
          && (d >= TIME_SLICE_NUM_DEVICES ==> !s.active[d]))
  }

  predicate Inv(s: Slicer) {
    Rotation(s) && Spaced(s)
  }

  lemma {:induction false} StepKeepsInv(s: Slicer, a: Action)
    requires Inv(s)
    ensures Inv(Step(s, a))
  {
    hide Neutralize;
    match a
    case Timer =>
    case Off(d, times) =>
      if 0 <= d < 3 {
        NeutralizeEffect(MarkOff(s, d), d, times, 6);
      }
    case On(d, times) =>
      if 0 <= d < 3 {
        NeutralizeEffect(MarkOn(s, d), d, times, 6);
      }
    case Write(_, _, _, _) =>
    case Callback(_) =>
  }

  lemma {:induction false} ReachableInv(s: Slicer, run: seq<Action>, i: nat)
    requires Inv(s) && i <= |run|
    ensures Inv(StateAt(s, run, i))
  {
    hide Inv, Step;
    if i > 0 {
      ReachableInv(s, run, i - 1);
      StepKeepsInv(StateAt(s, run, i - 1), run[i - 1]);
    }
  }

  lemma {:induction false} BootInv()
    ensures Inv(Boot())
  {
  }
}
