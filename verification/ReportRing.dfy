// The outgoing report queue of a Bluepad32 device: the 32-slot ring of
// uni_circular_buffer.c and the send and drain functions of uni_hid_device.c.
module ReportRing {
  import opened Bits

  const BUFFER_SIZE := 32
  const DATA_SIZE := 128

  type uint16 = n: int | 0 <= n < 0x1_0000
  type int16 = n: int | -0x8000 <= n < 0x8000

  datatype Code = OK | BUFFER_FULL | BUFFER_EMPTY | BUFFER_TOO_BIG

  datatype Report = Report(cid: uint16, bytes: seq<byte>)

  // Channel ids are stored as int16_t and sent as uint16_t.
  function ToInt16(c: uint16): int16 {
    if c >= 0x8000 then c - 0x1_0000 else c
  }

  function ToUint16(c: int16): uint16 {
    if c < 0 then c + 0x1_0000 else c
  }

  lemma {:induction false} CidRoundTrip(c: uint16)
    ensures ToUint16(ToInt16(c)) == c
    ensures ToUint16(ToInt16(c)) <= 0 <==> c == 0
  {
  }

  // ---- The queue discipline -------------------------------------------------------------

  const CAPACITY := 31

  // Reports waiting, reports handed to L2CAP, reports given up.
  datatype Device = Device(queue: seq<Report>, sent: seq<Report>, lost: seq<Report>)

  predicate Sendable(r: Report) {
    r.cid != 0 && r.bytes != []
  }

  // uni_hid_device_send_report; ok is what l2cap_send answers.
  function Send(d: Device, r: Report, ok: bool): Device {
    if !Sendable(r) then d
    else if ok then d.(sent := d.sent + [r])
    else if |d.queue| >= CAPACITY || |r.bytes| >= DATA_SIZE then d.(lost := d.lost + [r])
    else d.(queue := d.queue + [r])
  }

  // uni_hid_device_send_queued_reports.
  function Drain(d: Device, ok: bool): Device {
    if d.queue == [] then d else Send(d.(queue := d.queue[1..]), d.queue[0], ok)
  }

  // What becomes of a report that is offered: one without a channel or without bytes is ignored; one
  // that L2CAP takes is sent; one it refuses waits, unless 31 wait already or it has 128 bytes or
  // more, and is then lost.
  lemma {:induction false} OfferIs(d: Device, r: Report, ok: bool)
    ensures r.cid == 0 || |r.bytes| == 0 ==> Send(d, r, ok) == d
    ensures r.cid > 0 && |r.bytes| > 0 && ok ==> Send(d, r, ok) == Device(d.queue, d.sent + [r], d.lost)
    ensures r.cid > 0 && |r.bytes| > 0 && !ok && |d.queue| < 31 && |r.bytes| < 128 ==>
              Send(d, r, ok) == Device(d.queue + [r], d.sent, d.lost)
    ensures r.cid > 0 && |r.bytes| > 0 && !ok && (|d.queue| >= 31 || |r.bytes| >= 128) ==>
              Send(d, r, ok) == Device(d.queue, d.sent, d.lost + [r])
  {
  }

  datatype Op = Offer(report: Report, ok: bool) | Retry(ok: bool)

  function Apply(d: Device, op: Op): Device {
    match op
    case Offer(r, ok) => Send(d, r, ok)
    case Retry(ok) => Drain(d, ok)
  }

  function After(d: Device, ops: seq<Op>): Device {
    if ops == [] then d else Apply(After(d, ops[..|ops| - 1]), ops[|ops| - 1])
  }

  // Everything queued could be sent and queued again.
  predicate Queueable(d: Device) {
    |d.queue| <= CAPACITY && forall i :: 0 <= i < |d.queue| ==> Sendable(d.queue[i]) && |d.queue[i].bytes| < DATA_SIZE
  }

  lemma {:induction false} ApplyKeepsQueueable(d: Device, op: Op)
    requires Queueable(d)
    ensures Queueable(Apply(d, op))
  {
  }

  // A drain never gives a report up: it is sent, or it goes to the back of the queue.
  lemma {:induction false} DrainNeverLoses(d: Device, ok: bool)
    requires Queueable(d) && d.queue != []
    ensures Drain(d, ok) == if ok then d.(queue := d.queue[1..], sent := d.sent + [d.queue[0]])
                            else d.(queue := d.queue[1..] + [d.queue[0]])
  {
    assert Sendable(d.queue[0]);
  }

  function Offered(ops: seq<Op>): multiset<Report> {
    if ops == [] then multiset{}
    else Offered(ops[..|ops| - 1]) + Gained(ops[|ops| - 1])
  }

  function Held(d: Device): multiset<Report> {
    multiset(d.queue) + multiset(d.sent) + multiset(d.lost)
  }

  function Gained(op: Op): multiset<Report> {
    if op.Offer? && Sendable(op.report) then multiset{op.report} else multiset{}
  }

  lemma {:induction false} StepConserves(d: Device, op: Op)
    requires Queueable(d)
    ensures Held(Apply(d, op)) == Held(d) + Gained(op)
  {
    hide Held;
    match op
    case Offer(r, ok) =>
      OneMoreHeld(d, r);
    case Retry(ok) =>
      if d.queue != [] {
        DrainNeverLoses(d, ok);
        HeadMoves(d);
      }
  }

  lemma {:induction false} OneMoreHeld(d: Device, r: Report)
    ensures Held(d.(sent := d.sent + [r])) == Held(d) + multiset{r}
    ensures Held(d.(lost := d.lost + [r])) == Held(d) + multiset{r}
    ensures Held(d.(queue := d.queue + [r])) == Held(d) + multiset{r}
  {
  }

  lemma {:induction false} HeadMoves(d: Device)
    requires d.queue != []
    ensures Held(d.(queue := d.queue[1..], sent := d.sent + [d.queue[0]])) == Held(d)
    ensures Held(d.(queue := d.queue[1..] + [d.queue[0]])) == Held(d)
  {
    assert d.queue == [d.queue[0]] + d.queue[1..];
  }

  // Every report offered is queued, sent or lost: exactly one of them, exactly once.
  lemma {:induction false} ReportsAreConserved(d: Device, ops: seq<Op>)
    requires Queueable(d)
    ensures Queueable(After(d, ops))
    ensures Held(After(d, ops)) == Held(d) + Offered(ops)
  {
    hide Held, Apply, Queueable;
    if ops != [] {
      var prev := After(d, ops[..|ops| - 1]);
      ReportsAreConserved(d, ops[..|ops| - 1]);
      ApplyKeepsQueueable(prev, ops[|ops| - 1]);
      StepConserves(prev, ops[|ops| - 1]);
    }
  }

  // Reports are given up only when offered, when the send fails and either the queue
  // holds 31 or the report has 128 bytes or more.
  lemma {:induction false} LossIsExactly(d: Device, op: Op)
    requires Queueable(d)
    ensures Apply(d, op).lost != d.lost <==>
            op.Offer? && Sendable(op.report) && !op.ok && (|d.queue| == CAPACITY || |op.report.bytes| >= DATA_SIZE)
  {
    if op.Retry? && d.queue != [] {
      DrainNeverLoses(d, op.ok);
    }
    assert op.Offer? ==> d.lost + [op.report] != d.lost;
  }

  // ---- Order ----------------------------------------------------------------------------

  // The reports in the order they go out if every later send succeeds.
  function Line(d: Device): seq<Report> {
    d.sent + d.queue
  }

  predicate AllAre(s: seq<Report>, r: Report) {
    forall i :: 0 <= i < |s| ==> s[i] == r
  }

  // An operation that lets no report overtake another: an offer is not sent past a waiting
  // report, and a failed drain has no younger report to move the oldest one behind.
  predicate InTurn(d: Device, op: Op) {
    match op
    case Offer(r, ok) => Sendable(r) && ok ==> AllAre(d.queue, r)
    case Retry(ok) => !ok && d.queue != [] ==> AllAre(d.queue, d.queue[0])
  }

  // What an operation adds to the line.
  function Joined(d: Device, op: Op): seq<Report> {
    if op.Offer? && Sendable(op.report) && (op.ok || (|d.queue| < CAPACITY && |op.report.bytes| < DATA_SIZE))
    then [op.report] else []
  }

  lemma {:induction false} ShiftIsConstant(s: seq<Report>, r: Report, i: nat)
    requires i < |s| && [r] + s[..|s| - 1] == s
    ensures s[i] == r
  {
    assert ([r] + s[..|s| - 1])[i] == if i == 0 then r else s[i - 1];
    if i > 0 {
      ShiftIsConstant(s, r, i - 1);
    }
  }

  lemma {:induction false} RotationIsConstant(s: seq<Report>, i: nat)
    requires i < |s| && s[1..] + [s[0]] == s
    ensures s[i] == s[0]
  {
    if i > 0 {
      assert s[i - 1] == (s[1..] + [s[0]])[i - 1] == s[i];
      RotationIsConstant(s, i - 1);
    }
  }

  // A direct send with reports waiting.
  lemma {:induction false} SendAhead(d: Device, r: Report)
    ensures Line(d) <= Line(d.(sent := d.sent + [r])) <==> AllAre(d.queue, r)
    ensures AllAre(d.queue, r) ==> Line(d.(sent := d.sent + [r])) == Line(d) + [r]
  {
    var n := |d.queue|;
    var line := d.sent + [r] + d.queue;
    if AllAre(d.queue, r) {
      forall i | 0 <= i < |line|
        ensures line[i] == (Line(d) + [r])[i]
      {
      }
    } else if Line(d) <= line {
      assert line[|d.sent|..][..n] == Line(d)[|d.sent|..];
      assert line[|d.sent|..] == [r] + d.queue;
      assert ([r] + d.queue)[..n] == [r] + d.queue[..n - 1];
      forall i | 0 <= i < n
        ensures d.queue[i] == r
      {
        ShiftIsConstant(d.queue, r, i);
      }
    }
  }

  // A drain whose send fails.
  lemma {:induction false} Requeue(d: Device)
    requires d.queue != []
    ensures Line(d) <= Line(d.(queue := d.queue[1..] + [d.queue[0]])) <==> AllAre(d.queue, d.queue[0])
    ensures AllAre(d.queue, d.queue[0]) ==> d.queue[1..] + [d.queue[0]] == d.queue
  {
    var turned := d.queue[1..] + [d.queue[0]];
    if Line(d) <= d.sent + turned {
      assert (d.sent + turned)[|d.sent|..] == turned && Line(d)[|d.sent|..] == d.queue;
      forall i | 0 <= i < |d.queue|
        ensures d.queue[i] == d.queue[0]
      {
        RotationIsConstant(d.queue, i);
      }
    }
  }

  // The line only ever grows at its end exactly when the operation is in turn; it then grows
  // by what joined.
  lemma {:induction false} OrderIsKeptExactly(d: Device, op: Op)
    requires Queueable(d)
    ensures Line(d) <= Line(Apply(d, op)) <==> InTurn(d, op)
    ensures InTurn(d, op) ==> Line(Apply(d, op)) == Line(d) + Joined(d, op)
  {
    match op
    case Offer(r, ok) =>
      SendAhead(d, r);
      assert d.sent + (d.queue + [r]) == Line(d) + [r];
    case Retry(ok) =>
      if d.queue != [] {
        DrainNeverLoses(d, ok);
        Requeue(d);
        assert d.sent + [d.queue[0]] + d.queue[1..] == Line(d);
      }
  }

  // For reports that all differ: in turn means the queue is empty or the report is not sent,
  // or a drain succeeds or has at most one report waiting.
  lemma {:induction false} InTurnWhenDistinct(d: Device, op: Op)
    requires forall i, j :: 0 <= i < j < |d.queue| ==> d.queue[i] != d.queue[j]
    requires op.Offer? ==> op.report !in d.queue
    ensures InTurn(d, op) <==> if op.Offer? then !op.ok || d.queue == [] || !Sendable(op.report)
                               else op.ok || |d.queue| <= 1
  {
    if op.Offer? && d.queue != [] {
      assert d.queue[0] in d.queue;
    }
    assert |d.queue| > 1 ==> d.queue[1] != d.queue[0];
  }

  predicate AllInTurn(d: Device, ops: seq<Op>) {
    ops == [] || (AllInTurn(d, ops[..|ops| - 1]) && InTurn(After(d, ops[..|ops| - 1]), ops[|ops| - 1]))
  }

  // The reports that joined the line over a run, in order.
  function JoinedAll(d: Device, ops: seq<Op>): seq<Report> {
    if ops == [] then []
    else JoinedAll(d, ops[..|ops| - 1]) + Joined(After(d, ops[..|ops| - 1]), ops[|ops| - 1])
  }

  // Over a run of operations in turn, reports leave in the order they were accepted.
  lemma {:induction false} DeliveredInOrder(d: Device, ops: seq<Op>)
    requires Queueable(d) && AllInTurn(d, ops)
    ensures Line(After(d, ops)) == Line(d) + JoinedAll(d, ops)
  {
    hide Apply, InTurn, Joined, Queueable, Line;
    if ops != [] {
      var init := ops[..|ops| - 1];
      DeliveredInOrder(d, init);
      ReportsAreConserved(d, init);
      OrderIsKeptExactly(After(d, init), ops[|ops| - 1]);
    }
  }

  // The two ways to lose the order: a direct send past a waiting report, and a drain whose
  // send fails with two waiting.
  lemma {:induction false} OrderCanBeLost(a: Report, b: Report)
    requires Sendable(a) && Sendable(b) && a != b && |a.bytes| < DATA_SIZE && |b.bytes| < DATA_SIZE
    ensures var d := Device([], [], []);
            After(d, [Offer(a, false), Offer(b, true)]) == Device([a], [b], [])
            && After(d, [Offer(a, false), Offer(b, false), Retry(false)]) == Device([b, a], [], [])
  {
    var d := Device([], [], []);
    var one := [Offer(a, false)];
    var direct, two := one + [Offer(b, true)], one + [Offer(b, false)];
    var three := two + [Retry(false)];
    assert one[..0] == [] && direct[..1] == one && two[..1] == one && three[..2] == two;
    assert After(d, one) == Device([a], [], []);
    assert After(d, two) == Device([a, b], [], []);
    assert After(d, three) == Drain(After(d, two), false);
    assert three == [Offer(a, false), Offer(b, false), Retry(false)];
    assert [a, b][1..] + [a] == [b, a];
  }

  // With sends that succeed, n drains send the n oldest reports.
  lemma {:induction false} DrainsInOrder(d: Device, n: nat)
    requires Queueable(d) && n <= |d.queue|
    ensures After(d, seq(n, _ => Retry(true))) == d.(queue := d.queue[n..], sent := d.sent + d.queue[..n])
  {
    if n > 0 {
      var ops := seq(n, _ => Retry(true));
      assert ops[..n - 1] == seq(n - 1, _ => Retry(true));
      DrainsInOrder(d, n - 1);
      var prev := d.(queue := d.queue[n - 1..], sent := d.sent + d.queue[..n - 1]);
      DrainNeverLoses(prev, true);
      assert d.queue[n - 1..][1..] == d.queue[n..];
      assert d.queue[..n] == d.queue[..n - 1] + [d.queue[n - 1]];
    }
  }

  // ---- The ring --------------------------------------------------------------------------

  type Cargo = s: seq<byte> | |s| == 128 witness seq(128, _ => 0)

  const NO_CARGO: Cargo := seq(128, _ => 0)

  datatype Record = Record(cid: int16, data: Cargo, dataLen: int)

  class CircularBuffer {
    const buffer: array<Record>
    var headIdx: int
    var tailIdx: int

    // Slot of the i-th waiting report.
    function Index(i: nat): int
      reads this
    {
      if headIdx + i < BUFFER_SIZE then headIdx + i else headIdx + i - BUFFER_SIZE
    }

    function Count(): int
      reads this
    {
      if tailIdx >= headIdx then tailIdx - headIdx else tailIdx - headIdx + BUFFER_SIZE
    }

    ghost predicate Valid()
      reads this, buffer
    {
      buffer.Length == BUFFER_SIZE && 0 <= headIdx < BUFFER_SIZE && 0 <= tailIdx < BUFFER_SIZE
      && forall i :: 0 <= i < Count() ==> 0 <= buffer[Index(i)].dataLen < DATA_SIZE
    }

    ghost function Contents(): (s: seq<Report>)
      requires Valid()
      reads this, buffer
      ensures |s| == Count() <= CAPACITY
    {
      seq(Count(), i requires 0 <= i < Count() reads this, buffer requires Valid() =>
        Report(ToUint16(buffer[Index(i)].cid), buffer[Index(i)].data[..buffer[Index(i)].dataLen]))
    }

    constructor ()
      ensures Valid() && Contents() == [] && fresh(buffer)
    {
      buffer := new Record[BUFFER_SIZE](_ => Record(0, NO_CARGO, 0));
      headIdx, tailIdx := 0, 0;
    }

    predicate IsEmpty()
      requires Valid()
      reads this, buffer
      ensures IsEmpty() <==> Contents() == []
    {
      headIdx == tailIdx
    }

    predicate IsFull()
      requires Valid()
      reads this, buffer
      ensures IsFull() <==> |Contents()| == CAPACITY
    {
      tailIdx + 1 == headIdx || (headIdx == 0 && tailIdx == BUFFER_SIZE - 1)
    }

    method Reset()
      requires Valid()
      modifies this
      ensures Valid() && Contents() == []
    {
      headIdx, tailIdx := 0, 0;
    }

    // Only the slot at the tail is written, and only on success.
    method Put(cid: uint16, data: seq<byte>) returns (code: Code)
      requires Valid()
      modifies this`tailIdx, buffer
      ensures Valid()
      ensures code == if |old(Contents())| == CAPACITY then BUFFER_FULL
                      else if |data| >= DATA_SIZE then BUFFER_TOO_BIG else OK
      ensures Contents() == if code == OK then old(Contents()) + [Report(cid, data)] else old(Contents())
      ensures forall i :: 0 <= i < BUFFER_SIZE && i != old(tailIdx) ==> buffer[i] == old(buffer[i])
    {
      if IsFull() {
        return BUFFER_FULL;
      }
      if |data| >= DATA_SIZE {
        return BUFFER_TOO_BIG;
      }
      CidRoundTrip(cid);
      ghost var was := Contents();
      var rest := buffer[tailIdx].data[|data|..];
      assert (data + rest)[..|data|] == data;
      buffer[tailIdx] := Record(ToInt16(cid), data + rest, |data|);
      tailIdx := tailIdx + 1;
      if tailIdx == BUFFER_SIZE {
        tailIdx := 0;
      }
      assert Count() == |was| + 1;
      assert Index(|was|) == old(tailIdx) && buffer[old(tailIdx)].dataLen == |data|;
      assert forall i {:trigger Index(i)} :: 0 <= i < |was| ==> Index(i) == old(Index(i));
      assert forall i :: 0 <= i < |was| ==> Index(i) != old(tailIdx);
      forall i | 0 <= i < Count()
        ensures 0 <= buffer[Index(i)].dataLen < DATA_SIZE
      {
        if i < |was| {
          assert buffer[Index(i)] == old(buffer[Index(i)]);
        } else {
          assert i == |was|;
        }
      }
      assert forall i :: 0 <= i < |was| ==> Contents()[i] == was[i];
      return OK;
    }

    // The oldest report is left in its slot, whose index stands for the address returned.
    method Get() returns (code: Code, slot: int)
      requires Valid()
      modifies this`headIdx
      ensures Valid()
      ensures code == if old(Contents()) == [] then BUFFER_EMPTY else OK
      ensures code != OK ==> Contents() == old(Contents())
      ensures code == OK ==> slot == old(headIdx) && Contents() == old(Contents())[1..]
                             && 0 < buffer[slot].dataLen + 1 <= DATA_SIZE
                             && old(Contents())[0]
                                == Report(ToUint16(buffer[slot].cid), buffer[slot].data[..buffer[slot].dataLen])
    {
      slot := headIdx;
      if IsEmpty() {
        return BUFFER_EMPTY, slot;
      }
      ghost var was := Contents();
      assert Index(0) == headIdx;
      headIdx := headIdx + 1;
      if headIdx == BUFFER_SIZE {
        headIdx := 0;
      }
      assert forall i :: 0 <= i < Count() ==> Index(i) == old(Index(i + 1));
      forall i | 0 <= i < Count()
        ensures 0 <= buffer[Index(i)].dataLen < DATA_SIZE
      {
        assert 0 <= i + 1 < old(Count());
      }
      assert forall i :: 0 <= i < Count() ==> Contents()[i] == was[i + 1];
      return OK, slot;
    }
  }

  // ---- Sending ------------------------------------------------------------------------------

  class HidDevice {
    const outgoing: CircularBuffer
    ghost var sent: seq<Report>
    ghost var lost: seq<Report>

    ghost predicate Valid()
      reads this, outgoing, outgoing.buffer
    {
      outgoing.Valid()
    }

    ghost function View(): Device
      requires Valid()
      reads this, outgoing, outgoing.buffer
    {
      Device(outgoing.Contents(), sent, lost)
    }

    constructor ()
      ensures Valid() && View() == Device([], [], [])
    {
      outgoing := new CircularBuffer();
      sent, lost := [], [];
    }

    // uni_hid_device_send_report.
    method SendReport(cid: uint16, report: seq<byte>, l2capOk: bool)
      requires Valid()
      modifies this, outgoing`tailIdx, outgoing.buffer
      ensures Valid()
      ensures View() == Send(old(View()), Report(cid, report), l2capOk)
      ensures forall i :: 0 <= i < BUFFER_SIZE && i != old(outgoing.tailIdx) ==>
                            outgoing.buffer[i] == old(outgoing.buffer[i])
    {
      if cid <= 0 {
        return;
      }
      if |report| <= 0 {
        return;
      }
      if !l2capOk {
        var code := outgoing.Put(cid, report);
        if code != OK {
          lost := lost + [Report(cid, report)];
        }
      } else {
        sent := sent + [Report(cid, report)];
      }
    }

    // uni_hid_device_send_queued_reports. A report that fails again is copied to the tail
    // slot, which is never the slot it is being read from.
    method SendQueuedReports(l2capOk: bool)
      requires Valid()
      modifies this, outgoing, outgoing.buffer
      ensures Valid()
      ensures View() == Drain(old(View()), l2capOk)
      ensures old(outgoing.Contents()) != [] ==>
                old(outgoing.headIdx) != old(outgoing.tailIdx)
                && outgoing.buffer[old(outgoing.headIdx)] == old(outgoing.buffer[outgoing.headIdx])
    {
      if outgoing.IsEmpty() {
        return;
      }
      var code, slot := outgoing.Get();
      if code != OK {
        return;
      }
      var record := outgoing.buffer[slot];
      SendReport(ToUint16(record.cid), record.data[..record.dataLen], l2capOk);
    }
  }
}
