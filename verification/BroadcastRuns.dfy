// Whole runs of the time-slicer: when a hub leaves the rotation and what it has
// heard by then, how soon, and how fresh the telegrams of an active hub are.
module BroadcastRuns {
  import opened Wrappers
  import opened Bits
  import opened Protocol
  import opened Broadcast

  // Timer step i services device d.
  predicate Serviced(s: Slicer, run: seq<Action>, d: nat, i: nat)
    requires d < 3 && i < |run|
  {
    run[i].Timer? && NextActive(StateAt(s, run, i).active, StateAt(s, run, i).lastDevice) == d
  }

  // What the hubs hear of the telegram staged last before step i + 1.
  function HeardAfter(s: Slicer, run: seq<Action>, i: nat): Option<(nat, seq<byte>)>
    requires i < |run|
  {
    var sent := StateAt(s, run, i + 1).sent;
    if sent == [] then None else HeardOf(sent[|sent| - 1])
  }

  function Services(s: Slicer, run: seq<Action>, d: nat, from: nat, until: nat): nat
    requires d < 3 && until <= |run|
    decreases until
  {
    if until <= from then 0
    else Services(s, run, d, from, until - 1) + if Serviced(s, run, d, until - 1) then 1 else 0
  }

  function Timers(run: seq<Action>, from: nat, until: nat): nat
    requires until <= |run|
    decreases until
  {
    if until <= from then 0 else Timers(run, from, until - 1) + if run[until - 1].Timer? then 1 else 0
  }

  lemma {:induction false} TimersSplit(run: seq<Action>, a: nat, b: nat, c: nat)
    requires a <= b <= c <= |run|
    ensures Timers(run, a, c) == Timers(run, a, b) + Timers(run, b, c)
    decreases c
  {
    if b < c {
      TimersSplit(run, a, b, c - 1);
    }
  }

  // A toggle-off of d that starts a countdown.
  predicate AcceptedOff(s: Slicer, run: seq<Action>, d: nat, k: nat)
    requires d < 3 && k < |run|
  {
    run[k].Off? && run[k].device == d && StateAt(s, run, k).active[d] && StateAt(s, run, k).pending[d] == 0
  }

  predicate IsOn(a: Action, d: nat) {
    a.On? && a.device == d
  }

  predicate NoOn(run: seq<Action>, d: nat, from: nat, until: nat)
    requires until <= |run|
  {
    forall j :: from <= j < until ==> !IsOn(run[j], d)
  }

  // The value last written to port p of d in [from, until), if any.
  function LastWrite(run: seq<Action>, d: nat, p: nat, from: nat, until: nat): Option<byte>
    requires until <= |run|
    decreases until
  {
    if until <= from then None
    else
      var a := run[until - 1];
      if a.Write? && a.device == d && a.port == p then Some(a.value) else LastWrite(run, d, p, from, until - 1)
  }

  // A row that was neutral at `from` and has only been written to since.
  function RowSince(run: seq<Action>, d: nat, from: nat, until: nat): Row
    requires until <= |run|
  {
    seq(6, p requires 0 <= p < 6 =>
      match LastWrite(run, d, p, from, until) case Some(v) => v case None => NEUTRAL)
  }

  // Whatever was written to d in [from, until) was last overwritten with neutral.
  predicate LeftNeutral(run: seq<Action>, d: nat, from: nat, until: nat)
    requires until <= |run|
  {
    forall p :: 0 <= p < 6 ==>
                  LastWrite(run, d, p, from, until).None? || LastWrite(run, d, p, from, until).value == NEUTRAL
  }

  // ---- One step, seen from one device -----------------------------------------

  // A step changes the countdown of d only by an accepted toggle or by a service.
  lemma {:induction false} CountdownStep(s: Slicer, a: Action, d: nat)
    requires Inv(s) && d < 3
    ensures var t := Step(s, a);
            if a.Timer? && NextActive(s.active, s.lastDevice) == d && s.pending[d] > 0 then
              t.pending[d] == s.pending[d] - 1 && t.active[d] == (t.pending[d] > 0)
            else if a.Off? && a.device == d && s.active[d] && s.pending[d] == 0 then
              t.pending[d] == OFF_GRACE_SERVICES && t.active[d]
            else if IsOn(a, d) && d < TIME_SLICE_NUM_DEVICES then
              t.pending[d] == 0 && t.active[d]
            else
              t.pending[d] == s.pending[d] && t.active[d] == s.active[d]
  {
    hide Neutralize, Spaced;
    match a
    case Timer =>
    case Off(e, times) =>
      if 0 <= e < 3 {
        NeutralizeEffect(MarkOff(s, e), e, times, 6);
      }
    case On(e, times) =>
      if 0 <= e < 3 {
        NeutralizeEffect(MarkOn(s, e), e, times, 6);
      }
    case Write(_, _, _, _) =>
    case Callback(_) =>
  }

  // The channels of d: rewritten to neutral by accepted toggles, one byte by a write,
  // otherwise kept.
  lemma {:induction false} ChannelStep(s: Slicer, a: Action, d: nat)
    requires d < 3
    ensures Step(s, a).channels[d] ==
            if a.Off? && a.device == d && s.active[d] && s.pending[d] <= 0 then NEUTRAL_ROW
            else if IsOn(a, d) && d < TIME_SLICE_NUM_DEVICES && !(s.active[d] && s.pending[d] == 0) then NEUTRAL_ROW
            else if a.Write? && a.device == d && 0 <= a.port < 6 then s.channels[d][a.port := a.value]
            else s.channels[d]
  {
    hide Neutralize;
    match a
    case Timer =>
    case Off(e, times) =>
      if 0 <= e < 3 {
        Neutralized(MarkOff(s, e), e, times);
      }
    case On(e, times) =>
      if 0 <= e < 3 {
        Neutralized(MarkOn(s, e), e, times);
      }
    case Write(_, _, _, _) =>
    case Callback(_) =>
  }

  lemma {:induction false} TimerStages(s: Slicer, d: nat)
    requires d < 3 && NextActive(s.active, s.lastDevice) == d
    ensures TimerFires(s).sent == s.sent + [Control(d, true, s.channels[d])]
  {
    hide NextActive;
  }

  // ---- What one step puts on the air ------------------------------------------------

  // A toggle-on that has something to do: of a device that rotates and is not already on with
  // nothing pending.
  predicate Reconnects(s: Slicer, a: Action) {
    a.On? && 0 <= a.device < 2 && !(s.active[a.device] && s.pending[a.device] == 0)
  }

  // A toggle-on that has something to do sends one CONNECT telegram; a firing sends one periodic
  // telegram of an active device if there is one; a queued callback sends one telegram of its
  // device; nothing else is ever sent.
  lemma {:induction false} StepSends(s: Slicer, a: Action)
    ensures var sent := Step(s, a).sent;
            if Reconnects(s, a) then sent == s.sent + [Connect]
            else if a.Callback? && 0 <= a.device < 3 && s.queued[a.device] then
              sent == s.sent + [Control(a.device, false, s.channels[a.device])]
            else if a.Timer? && exists d :: 0 <= d < 3 && s.active[d] then
              exists d: Device :: s.active[d] && sent == s.sent + [Control(d, true, s.channels[d])]
            else sent == s.sent
  {
    hide Neutralize, NextFrom;
    match a
    case Timer =>
      NextIsActive(s.active, s.lastDevice);
    case Off(e, times) =>
      if 0 <= e < 3 {
        NeutralizeEffect(MarkOff(s, e), e, times, 6);
      }
    case On(e, times) =>
      if 0 <= e < 3 {
        NeutralizeEffect(MarkOn(s, e), e, times, 6);
      }
    case Write(_, _, _, _) =>
    case Callback(_) =>
  }

  lemma {:induction false} NextIsActive(active: seq<bool>, after: int)
    requires |active| == 3 && after >= -1
    ensures NextActive(active, after) >= 0 <==> exists d :: 0 <= d < 3 && active[d]
    ensures NextActive(active, after) >= 0 ==> active[NextActive(active, after)]
  {
    var a, b, c := (after + 4) % 3, (after + 5) % 3, (after + 6) % 3;
    assert NextFrom(active, after, 4) == -1;
    assert NextFrom(active, after, 3) == if active[c] then c else -1;
    assert NextFrom(active, after, 2) == if active[b] then b else NextFrom(active, after, 3);
    assert NextFrom(active, after, 1) == if active[a] then a else NextFrom(active, after, 2);
    assert {a, b, c} == {0, 1, 2};
    if d :| 0 <= d < 3 && active[d] {
      assert d in {a, b, c};
    }
  }

  // A step puts a telegram on the air that no hub hears as CONTROL exactly when it is such a
  // toggle-on, and what a receiver makes of it are the eight CONNECT bytes.
  lemma {:induction false} ConnectsExactly(s: Slicer, a: Action)
    ensures var sent := Step(s, a).sent;
            (sent != s.sent && sent != [] && HeardOf(sent[|sent| - 1]) == None <==> Reconnects(s, a))
            && (Reconnects(s, a) ==>
                  |sent| == |s.sent| + 1
                  && Receive(PayloadOf(sent[|sent| - 1])) == Some([0x6D, 0x7B, 0xA7, 0x80, 0x80, 0x80, 0x80, 0x92]))
  {
    hide Step, HeardOf, Receive, ConnectPayload, ControlPayload;
    StepSends(s, a);
    ConnectPayloadSays();
    var sent := Step(s, a).sent;
    if sent != s.sent && |sent| > 0 {
      SentIsHeard(sent[|sent| - 1]);
    }
  }

  // The lamp of a device after any step: lit by its service unless that drops it, by its callback
  // and by a toggle-on that has something to do; otherwise as it was.
  lemma {:induction false} LampStep(s: Slicer, a: Action, d: nat)
    requires Inv(s) && d < 3
    ensures Step(s, a).broadcasting[d] ==
            if a.Timer? && NextActive(s.active, s.lastDevice) == d then s.pending[d] != 1
            else if a == Callback(d) && s.queued[d] then true
            else if Reconnects(s, a) && a.device == d then true
            else s.broadcasting[d]
  {
    hide Neutralize, Spaced;
    match a
    case Timer =>
    case Off(e, times) =>
      if 0 <= e < 3 {
        NeutralizeEffect(MarkOff(s, e), e, times, 6);
      }
    case On(e, times) =>
      if 0 <= e < 3 {
        NeutralizeEffect(MarkOn(s, e), e, times, 6);
      }
    case Write(_, _, _, _) =>
    case Callback(_) =>
  }

  // A service puts exactly the current channels of exactly that hub on the air.
  lemma {:induction false} ServiceIsFresh(s: Slicer, run: seq<Action>, d: nat, i: nat)
    requires d < 3 && i < |run| && Serviced(s, run, d, i)
    ensures HeardAfter(s, run, i) == Some((d, StateAt(s, run, i).channels[d]))
    ensures StateAt(s, run, i).active[d]
  {
    hide HeardOf, TimerFires;
    var t := StateAt(s, run, i);
    SentIsHeard(Control(d, true, t.channels[d]));
    TimerStages(t, d);
    assert StateAt(s, run, i + 1) == TimerFires(t);
  }

  // ---- Drop safety -----------------------------------------------------------------

  // While d counts down, the run holds the toggle-off that started it, no toggle-on
  // since, and one service for every count gone.
  lemma {:induction false} CountdownHistory(s: Slicer, run: seq<Action>, d: nat, i: nat) returns (k: nat)
    requires Inv(s) && d < 3 && i <= |run| && s.pending[d] == 0
    requires StateAt(s, run, i).pending[d] > 0
    ensures k < i && AcceptedOff(s, run, d, k)
    ensures NoOn(run, d, k, i)
    ensures forall m :: k < m <= i ==> StateAt(s, run, m).pending[d] > 0
    ensures Services(s, run, d, k + 1, i) == OFF_GRACE_SERVICES - StateAt(s, run, i).pending[d]
    decreases i
  {
    hide Step, Inv, NextActive;
    ReachableInv(s, run, i - 1);
    CountdownStep(StateAt(s, run, i - 1), run[i - 1], d);
    assert TwoDevices(StateAt(s, run, i - 1), d) by {
      EligibleOnly(StateAt(s, run, i - 1), d);
    }
    if AcceptedOff(s, run, d, i - 1) {
      k := i - 1;
    } else {
      k := CountdownHistory(s, run, d, i - 1);
    }
  }

  predicate TwoDevices(s: Slicer, d: nat)
    requires d < 3
  {
    (s.active[d] ==> d < TIME_SLICE_NUM_DEVICES) && (s.pending[d] > 0 ==> s.active[d])
  }

  lemma {:induction false} EligibleOnly(s: Slicer, d: nat)
    requires Inv(s) && d < 3
    ensures TwoDevices(s, d)
  {
  }

  // While d counts down, its channels are what was written since the toggle-off, and
  // neutral where nothing was.
  lemma {:induction false} RowFollowsWrites(s: Slicer, run: seq<Action>, d: nat, k: nat, i: nat)
    requires d < 3 && k < i <= |run| && AcceptedOff(s, run, d, k) && NoOn(run, d, k, i)
    requires forall m :: k < m < i ==> StateAt(s, run, m).pending[d] > 0
    ensures StateAt(s, run, i).channels[d] == RowSince(run, d, k + 1, i)
    decreases i
  {
    hide Step;
    ChannelStep(StateAt(s, run, i - 1), run[i - 1], d);
    assert !IsOn(run[i - 1], d);
    if i == k + 1 {
      assert RowSince(run, d, i, i) == NEUTRAL_ROW;
    } else {
      RowFollowsWrites(s, run, d, k, i - 1);
      assert StateAt(s, run, i - 1).pending[d] > 0;
    }
  }

  lemma {:induction false} NeutralRowExactly(run: seq<Action>, d: nat, from: nat, until: nat)
    requires until <= |run|
    ensures RowSince(run, d, from, until) == NEUTRAL_ROW <==> LeftNeutral(run, d, from, until)
  {
    hide LastWrite;
    var row := RowSince(run, d, from, until);
    forall p | 0 <= p < 6
      ensures row[p] == NEUTRAL <==>
              LastWrite(run, d, p, from, until).None? || LastWrite(run, d, p, from, until).value == NEUTRAL
    {
    }
    if row != NEUTRAL_ROW {
      var p :| 0 <= p < 6 && row[p] != NEUTRAL_ROW[p];
    }
  }

  // A hub leaves the rotation only inside one of its own services, the third since a
  // toggle-off with no toggle-on between. What the services since then aired is exactly
  // what was written since the toggle-off: neutral if and only if on every port the last
  // such write, if there is one, was neutral.
  lemma {:induction false} DropSafety(s: Slicer, run: seq<Action>, d: nat, i: nat) returns (k: nat)
    requires Inv(s) && d < 3 && s.pending[d] == 0 && i < |run|
    requires StateAt(s, run, i).active[d] && !StateAt(s, run, i + 1).active[d]
    ensures Serviced(s, run, d, i)
    ensures k < i && AcceptedOff(s, run, d, k) && NoOn(run, d, k, i + 1)
    ensures Services(s, run, d, k + 1, i + 1) == OFF_GRACE_SERVICES
    ensures forall j :: k < j <= i && Serviced(s, run, d, j) ==>
                          HeardAfter(s, run, j) == Some((d, RowSince(run, d, k + 1, j)))
    ensures forall j :: k < j <= i && Serviced(s, run, d, j) ==>
                          (HeardAfter(s, run, j) == Some((d, NEUTRAL_ROW)) <==> LeftNeutral(run, d, k + 1, j))
  {
    hide Step, Inv, HeardAfter, NextActive, RowSince, LeftNeutral;
    ReachableInv(s, run, i);
    EligibleOnly(StateAt(s, run, i), d);
    CountdownStep(StateAt(s, run, i), run[i], d);
    k := CountdownHistory(s, run, d, i);
    forall j | k < j <= i && Serviced(s, run, d, j)
      ensures HeardAfter(s, run, j) == Some((d, RowSince(run, d, k + 1, j)))
    {
      ServiceIsFresh(s, run, d, j);
      RowFollowsWrites(s, run, d, k, j);
    }
    forall j | k < j <= i && Serviced(s, run, d, j)
      ensures HeardAfter(s, run, j) == Some((d, NEUTRAL_ROW)) <==> LeftNeutral(run, d, k + 1, j)
    {
      NeutralRowExactly(run, d, k + 1, j);
    }
  }

  // ---- Bounded drop ---------------------------------------------------------------

  // Timer firings until d is serviced next, at most.
  function Distance(s: Slicer, d: nat): nat {
    if s.lastDevice == d || (s.lastDevice == -1 && d == 1) then 2 else 1
  }

  // Timer firings until d is dropped, at most; six right after a toggle-off.
  function Budget(s: Slicer, d: nat): int
    requires d < 3
  {
    2 * (s.pending[d] - 1) + Distance(s, d)
  }

  // Every firing services an active d or brings it nearer; no other step moves it
  // away.
  lemma {:induction false} DistanceStep(s: Slicer, a: Action, d: nat)
    requires Inv(s) && d < 3 && s.active[d]
    ensures var t := Step(s, a);
            if !a.Timer? then t.lastDevice == s.lastDevice
            else NextActive(s.active, s.lastDevice) == d || (Distance(t, d) == 1 && Distance(s, d) == 2)
    ensures 1 <= Distance(s, d) <= 2
  {
    hide Neutralize, Spaced;
    match a
    case Timer =>
      hide NextActive;
      NextActiveIsRoundRobin(s.active, s.lastDevice);
      assert !s.active[2];
      assert s.lastDevice == -1 || s.lastDevice == 0 || s.lastDevice == 1;
    case Off(e, times) =>
      if 0 <= e < 3 {
        NeutralizeEffect(MarkOff(s, e), e, times, 6);
      }
    case On(e, times) =>
      if 0 <= e < 3 {
        NeutralizeEffect(MarkOn(s, e), e, times, 6);
      }
    case Write(_, _, _, _) =>
    case Callback(_) =>
  }

  // Whatever happens to the other hubs: unless toggled on again, a hub that counts
  // down is out after at most `Budget` timer firings, and stays out.
  lemma {:induction false} DropIsBounded(s: Slicer, run: seq<Action>, d: nat, k: nat, i: nat)
    requires Inv(s) && d < 3 && k <= i <= |run|
    requires StateAt(s, run, k).pending[d] > 0 && NoOn(run, d, k, i)
    ensures var t := StateAt(s, run, i);
            if t.pending[d] > 0 then
              t.active[d] && Budget(t, d) + Timers(run, k, i) <= Budget(StateAt(s, run, k), d)
            else
              !t.active[d]
    ensures 1 <= Budget(StateAt(s, run, k), d) <= 6
    decreases i
  {
    hide Step, Inv, NextActive, Distance;
    ReachableInv(s, run, k);
    EligibleOnly(StateAt(s, run, k), d);
    DistanceStep(StateAt(s, run, k), Timer, d);
    PendingBound(StateAt(s, run, k), d);
    if i > k {
      DropIsBounded(s, run, d, k, i - 1);
      var t, a := StateAt(s, run, i - 1), run[i - 1];
      ReachableInv(s, run, i - 1);
      ReachableInv(s, run, i);
      CountdownStep(t, a, d);
      assert !IsOn(a, d);
      if t.pending[d] > 0 {
        DistanceStep(t, a, d);
        EligibleOnly(StateAt(s, run, i), d);
        if StateAt(s, run, i).pending[d] > 0 {
          DistanceStep(StateAt(s, run, i), Timer, d);
          SameRotationSameDistance(t, StateAt(s, run, i), d);
        }
      }
    }
  }

  lemma {:induction false} PendingBound(s: Slicer, d: nat)
    requires Inv(s) && d < 3
    ensures 0 <= s.pending[d] <= 3
  {
  }

  lemma {:induction false} SameRotationSameDistance(s: Slicer, t: Slicer, d: nat)
    ensures s.lastDevice == t.lastDevice ==> Distance(s, d) == Distance(t, d)
  {
  }

  // Six firings are always enough.
  lemma {:induction false} DropWithinSix(s: Slicer, run: seq<Action>, d: nat, k: nat, i: nat)
    requires Inv(s) && d < 3 && k <= i <= |run|
    requires StateAt(s, run, k).pending[d] > 0 && NoOn(run, d, k, i)
    requires Timers(run, k, i) >= 6
    ensures !StateAt(s, run, i).active[d] && StateAt(s, run, i).pending[d] == 0
  {
    hide Step, Inv, Distance;
    DropIsBounded(s, run, d, k, i);
    ReachableInv(s, run, i);
    PendingBound(StateAt(s, run, i), d);
    if StateAt(s, run, i).pending[d] > 0 {
      EligibleOnly(StateAt(s, run, i), d);
      DistanceStep(StateAt(s, run, i), Timer, d);
    }
  }

  // ---- Rate limit ---------------------------------------------------------------------

  // In every run from boot, under any clock, two accepted event sends of one hub lie at
  // least 25 ms apart.
  lemma {:induction false} EventSendsAreSpaced(run: seq<Action>, n: nat, i: nat, j: nat)
    requires n <= |run| && i < j < |StateAt(Boot(), run, n).events|
    requires StateAt(Boot(), run, n).events[i].device == StateAt(Boot(), run, n).events[j].device
    ensures var e := StateAt(Boot(), run, n).events;
            e[j].time - e[i].time >= EVENT_SEND_MIN_INTERVAL_US
  {
    hide StateAt;
    BootInv();
    ReachableInv(Boot(), run, n);
  }

  // The clock reading of the last accepted event send of d; 0 before the first.
  function LastEventOf(events: seq<Event>, d: nat): int {
    if events == [] then 0
    else if events[|events| - 1].device == d then events[|events| - 1].time
    else LastEventOf(events[..|events| - 1], d)
  }

  predicate EventsRecorded(s: Slicer) {
    forall d :: 0 <= d < 3 ==> s.lastEvent[d] == LastEventOf(s.events, d)
  }

  lemma {:induction false} LastEventOfAppend(events: seq<Event>, e: Event, d: nat)
    ensures LastEventOf(events + [e], d) == if e.device == d then e.time else LastEventOf(events, d)
  {
    assert (events + [e])[..|events|] == events;
  }

  lemma {:induction false} WriteRecords(s: Slicer, d: int, p: int, v: byte, now: int)
    requires EventsRecorded(s)
    ensures EventsRecorded(SetChannel(s, d, p, v, now))
  {
    if 0 <= d < 3 {
      forall e | 0 <= e < 3
        ensures LastEventOf(s.events + [Event(d, now)], e) == if d == e then now else LastEventOf(s.events, e)
      {
        LastEventOfAppend(s.events, Event(d, now), e);
      }
    }
    hide LastEventOf;
  }

  lemma {:induction false} NeutralizeRecords(s: Slicer, device: int, times: SixTimes, n: nat)
    requires n <= 6 && EventsRecorded(s)
    ensures EventsRecorded(Neutralize(s, device, times, n))
  {
    hide SetChannel, EventsRecorded;
    if n > 0 {
      NeutralizeRecords(s, device, times, n - 1);
      WriteRecords(Neutralize(s, device, times, n - 1), device, n - 1, NEUTRAL, times[n - 1]);
    }
  }

  lemma {:induction false} StepRecords(s: Slicer, a: Action)
    requires EventsRecorded(s)
    ensures EventsRecorded(Step(s, a))
  {
    hide Neutralize, SetChannel, NextActive, LastEventOf;
    match a
    case Timer =>
    case Off(e, times) =>
      if 0 <= e < 3 {
        NeutralizeRecords(MarkOff(s, e), e, times, 6);
      }
    case On(e, times) =>
      if 0 <= e < 3 {
        NeutralizeRecords(MarkOn(s, e), e, times, 6);
      }
    case Write(d, p, v, now) => WriteRecords(s, d, p, v, now);
    case Callback(_) =>
  }

  lemma {:induction false} EventsAreRecorded(run: seq<Action>, i: nat)
    requires i <= |run|
    ensures EventsRecorded(StateAt(Boot(), run, i))
  {
    hide Step, LastEventOf;
    if i > 0 {
      EventsAreRecorded(run, i - 1);
      StepRecords(StateAt(Boot(), run, i - 1), run[i - 1]);
    } else {
      assert forall d :: LastEventOf([], d) == 0 by {
        NoEventYet();
      }
    }
  }

  lemma {:induction false} NoEventYet()
    ensures forall d :: LastEventOf([], d) == 0
  {
  }

  // In every run from boot a write to an existing channel is sent at once, out of turn, exactly when
  // it changes the value, the hub is in the rotation, and its last such send was 25000 us or more
  // ago. The value is stored either way; a write to no channel does nothing.
  lemma {:induction false} WriteIsSentExactly(run: seq<Action>, i: nat)
    requires i < |run| && run[i].Write?
    ensures var s, t, a := StateAt(Boot(), run, i), StateAt(Boot(), run, i + 1), run[i];
            if 0 <= a.device < 3 && 0 <= a.port < 6 then
              t.channels == s.channels[a.device := s.channels[a.device][a.port := a.value]]
              && if s.channels[a.device][a.port] != a.value && s.active[a.device]
                    && a.now - LastEventOf(s.events, a.device) >= 25000
                 then t.events == s.events + [Event(a.device, a.now)] && t.queued == s.queued[a.device := true]
                 else t.events == s.events && t.queued == s.queued
            else t == s
  {
    hide LastEventOf;
    EventsAreRecorded(run, i);
    NextStateIs(Boot(), run, i);
    hide StateAt;
  }

  lemma {:induction false} NextStateIs(s: Slicer, run: seq<Action>, i: nat)
    requires i < |run|
    ensures StateAt(s, run, i + 1) == Step(StateAt(s, run, i), run[i])
  {
    hide Step;
  }

  // ---- Fairness and freshness ----------------------------------------------------

  // Of two successive timer firings, one services any hub active at both; what it
  // airs is that hub's current channels, so a row that has settled is on the air
  // even when no event send was accepted for it.
  lemma {:induction false} ServedWithinTwoFirings(s: Slicer, run: seq<Action>, d: nat, i: nat, j: nat) returns (n: nat)
    requires Inv(s) && d < 3 && i < j < |run|
    requires run[i].Timer? && run[j].Timer? && Timers(run, i + 1, j) == 0
    requires StateAt(s, run, i).active[d] && StateAt(s, run, j).active[d]
    ensures n == i || n == j
    ensures Serviced(s, run, d, n)
    ensures HeardAfter(s, run, n) == Some((d, StateAt(s, run, n).channels[d]))
  {
    hide Step, Inv, HeardAfter, NextActive, Distance;
    ReachableInv(s, run, i);
    ReachableInv(s, run, j);
    DistanceStep(StateAt(s, run, i), run[i], d);
    if Serviced(s, run, d, i) {
      n := i;
    } else {
      n := j;
      LastDeviceKept(s, run, i + 1, j);
      SameRotationSameDistance(StateAt(s, run, i + 1), StateAt(s, run, j), d);
      DistanceStep(StateAt(s, run, j), run[j], d);
    }
    ServiceIsFresh(s, run, d, n);
  }

  lemma {:induction false} LastDeviceKept(s: Slicer, run: seq<Action>, from: nat, i: nat)
    requires Inv(s) && from <= i <= |run| && Timers(run, from, i) == 0
    ensures StateAt(s, run, i).lastDevice == StateAt(s, run, from).lastDevice
    decreases i
  {
    hide Step, Inv, Distance;
    if i > from {
      LastDeviceKept(s, run, from, i - 1);
      NonTimerKeepsLast(StateAt(s, run, i - 1), run[i - 1]);
    }
  }

  lemma {:induction false} NonTimerKeepsLast(s: Slicer, a: Action)
    requires !a.Timer?
    ensures Step(s, a).lastDevice == s.lastDevice
  {
    hide Neutralize;
    match a
    case Off(e, times) =>
      if 0 <= e < 3 {
        NeutralizeEffect(MarkOff(s, e), e, times, 6);
      }
    case On(e, times) =>
      if 0 <= e < 3 {
        NeutralizeEffect(MarkOn(s, e), e, times, 6);
      }
    case Write(_, _, _, _) =>
    case Callback(_) =>
  }
}
