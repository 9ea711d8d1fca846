/** The per-peer record of the TCP generation (backend/TCP/src/Client.cpp):
    sequence bookkeeping, a FIFO retransmission queue of SegmentInfo records
    with an incrementally maintained 16-bit byte total, the out-of-order
    buffer, the RTT tracker slot and the retransmission-timeout estimator. */
module TcpClient {
  import opened Bytes
  import opened Wrappers
  import opened States
  import opened Segments
  import opened Reassembly
  import opened SegmentInfos
  import opened PeerFile

  /** RTT samples below 1 ms are replaced by 1000 ms and samples above
      5000 ms are capped at 5000 ms. */
  const RTT_TOO_SMALL_DEFAULT: real := 1000.0
  const RTT_CEILING: real := 5000.0
  /** The timeout interval is only doubled while it is below this. */
  const DOUBLING_LIMIT: real := 5000.0

  datatype TransmissionInfo = TransmissionInfo(
    estimatedRTT: real,
    deviationRTT: real,
    timeoutInterval: real,
    numberOfTimeouts: nat)

  /** The smoothing weights ALPHA and BETA of the estimator. */
  datatype RttWeights = RttWeights(alpha: real, beta: real)

  datatype Client = Client(
    port: uint16,
    ip: uint32,
    expectedSeq: uint32,
    expectedAck: uint32,
    lastAck: uint32,
    state: State,
    messageBuffer: Buffer,
    messagesSent: seq<SegmentInfo>,
    totalSize: uint16,
    lastByteSent: nat,
    windowSize: uint16,
    isFinSent: bool,
    filename: string,
    tracker: Option<SegmentInfo>,
    transmission: TransmissionInfo,
    /** Payloads delivered in order: the `receivedData` queue, which also
        receives every byte written to the peer's file. */
    received: seq<seq<byte>>)

  /** The constructor: empty queue and buffer, no tracker, nothing sent. */
  function NewClient(port: uint16, ip: uint32, expectedSeq: uint32, expectedAck: uint32, lastAck: uint32,
                     state: State, filePath: string, initial: TransmissionInfo): (c: Client)
    ensures c.port == port && c.ip == ip && c.state == state
    ensures c.expectedSeq == expectedSeq && c.expectedAck == expectedAck && c.lastAck == lastAck
    ensures c.filename == FileNameFor(ip, port, filePath)
    ensures c.messagesSent == [] && c.messageBuffer == map[] && c.tracker.None?
    ensures c.totalSize == 0 && c.lastByteSent == 0 && !c.isFinSent && c.received == []
    ensures SizeConsistent(c)
  {
    Client(port, ip, expectedSeq, expectedAck, lastAck, state, map[], [], 0, 0, 0, false,
           FileNameFor(ip, port, filePath), None, initial, [])
  }

  /** `Segment::HEADER_SIZE + static_cast<uint16_t>(dataSize)` stored into a
      `uint16_t`. */
  function SegSize(i: SegmentInfo): (r: uint16)
    ensures i.dataSize < 0x1_0000 - HEADER_SIZE ==> r == HEADER_SIZE + i.dataSize
  {
    (HEADER_SIZE + i.dataSize % 0x1_0000) % 0x1_0000
  }

  /** Sum of the wire sizes of the queued records. */
  function QueueSize(q: seq<SegmentInfo>): nat {
    if |q| == 0 then 0 else SegSize(q[0]) + QueueSize(q[1..])
  }

  lemma {:induction false} QueueSizeAppend(q: seq<SegmentInfo>, i: SegmentInfo)
    ensures QueueSize(q + [i]) == QueueSize(q) + SegSize(i)
    decreases |q|
  {
    if |q| > 0 {
      assert (q + [i])[1..] == q[1..] + [i];
      QueueSizeAppend(q[1..], i);
    }
  }

  /** The queue invariant: the running total is the queue's byte size modulo
      2^16. */
  predicate SizeConsistent(c: Client) {
    c.totalSize == QueueSize(c.messagesSent) % 0x1_0000
  }

  /** `pushMessage`: append at the back and add the record's size. */
  function PushMessage(c: Client, i: SegmentInfo): (r: Client)
    ensures r.messagesSent == c.messagesSent + [i]
    ensures r == c.(messagesSent := r.messagesSent, totalSize := r.totalSize)
    ensures SizeConsistent(c) ==> SizeConsistent(r)
  {
    QueueSizeAppend(c.messagesSent, i);
    ModAddCongruent(c.totalSize, QueueSize(c.messagesSent), SegSize(i));
    c.(messagesSent := c.messagesSent + [i], totalSize := Add16(c.totalSize, SegSize(i)))
  }

  datatype Taken = Taken(ok: bool, client: Client, item: Option<SegmentInfo>)

  /** `popMessage`: false and no change on an empty queue; otherwise remove
      the front, subtract its size and return it. */
  function PopMessage(c: Client): (r: Taken)
    ensures r.ok <==> |c.messagesSent| > 0
    ensures !r.ok ==> r.client == c && r.item.None?
    ensures r.ok ==> r.item == Some(c.messagesSent[0]) && r.client.messagesSent == c.messagesSent[1..]
    ensures r.client == c.(messagesSent := r.client.messagesSent, totalSize := r.client.totalSize)
    ensures SizeConsistent(c) ==> SizeConsistent(r.client)
  {
    if |c.messagesSent| == 0 then Taken(false, c, None)
    else
      var front := c.messagesSent[0];
      assert SizeConsistent(c) ==> c.totalSize == (SegSize(front) + QueueSize(c.messagesSent[1..])) % 0x1_0000;
      ModSubCongruent(c.totalSize, QueueSize(c.messagesSent[1..]), SegSize(front));
      Taken(true, c.(messagesSent := c.messagesSent[1..], totalSize := (c.totalSize - SegSize(front)) % 0x1_0000), Some(front))
  }

  /** The queue is first-in first-out. */
  lemma {:induction false} PushThenPopEmpty(c: Client, i: SegmentInfo)
    requires c.messagesSent == []
    ensures PopMessage(PushMessage(c, i)).item == Some(i)
    ensures PopMessage(PushMessage(c, i)).client.messagesSent == []
  {
  }

  datatype Checked = Checked(removed: bool, client: Client)

  /** `checkFront` (strict): removes the front iff it exists and its sequence
      number is below `ack`. */
  function CheckFront(c: Client, ack: uint32): (r: Checked)
    ensures r.removed <==> |c.messagesSent| > 0 && c.messagesSent[0].seqNum < ack
    ensures r.removed ==> r.client == PopMessage(c).client
    ensures !r.removed ==> r.client == c
  {
    if |c.messagesSent| > 0 && c.messagesSent[0].seqNum < ack then Checked(true, PopMessage(c).client)
    else Checked(false, c)
  }

  /** Length of the longest prefix of `q` acknowledged by `ack`. */
  function AckedPrefix(q: seq<SegmentInfo>, ack: uint32): (n: nat)
    ensures n <= |q|
    ensures forall k :: 0 <= k < n ==> q[k].seqNum < ack
    ensures n < |q| ==> q[n].seqNum >= ack
  {
    if |q| > 0 && q[0].seqNum < ack then 1 + AckedPrefix(q[1..], ack) else 0
  }

  /** `while (checkFront(ack));`: drop the maximal acknowledged prefix, keep
      the rest in order and keep the size total consistent. */
  function PruneAcked(c: Client, ack: uint32): (r: Client)
    ensures r.messagesSent == c.messagesSent[AckedPrefix(c.messagesSent, ack)..]
    ensures r == c.(messagesSent := r.messagesSent, totalSize := r.totalSize)
    ensures SizeConsistent(c) ==> SizeConsistent(r)
    decreases |c.messagesSent|
  {
    var step := CheckFront(c, ack);
    if step.removed then
      assert c.messagesSent[AckedPrefix(c.messagesSent, ack)..] ==
             c.messagesSent[1..][AckedPrefix(c.messagesSent[1..], ack)..];
      PruneAcked(step.client, ack)
    else c
  }

  datatype Copied = Copied(client: Client, item: Option<SegmentInfo>)

  /** `copyFront`: returns the front without removing it, but still adds the
      front's size to the total. */
  function CopyFront(c: Client): (r: Copied)
    ensures |c.messagesSent| == 0 ==> r == Copied(c, None)
    ensures |c.messagesSent| > 0 ==> r.item == Some(c.messagesSent[0])
    ensures r.client.messagesSent == c.messagesSent
    ensures r.client == c.(totalSize := r.client.totalSize)
  {
    if |c.messagesSent| == 0 then Copied(c, None)
    else
      var front := c.messagesSent[0];
      Copied(c.(totalSize := Add16(c.totalSize, SegSize(front))), Some(front))
  }

  /** On a consistent non-empty queue, copyFront keeps the total consistent
      only if the front's 16-bit size is zero, so any ordinary record (at most
      MAX_DATA_SIZE bytes) breaks the invariant. */
  lemma {:induction false} CopyFrontBreaksSize(c: Client)
    requires SizeConsistent(c) && |c.messagesSent| > 0
    ensures SizeConsistent(CopyFront(c).client) <==> SegSize(c.messagesSent[0]) == 0
    ensures c.messagesSent[0].dataSize <= 1000 ==> !SizeConsistent(CopyFront(c).client)
  {
    var s := SegSize(c.messagesSent[0]);
    var t := c.totalSize;
    var u: int := (t as int + s as int) % 0x1_0000;
    assert CopyFront(c).client.totalSize == u;
    if s != 0 {
      assert u == t as int + s as int || u == t as int + s as int - 0x1_0000;
    }
  }

  /** `getMessageTimeSent`: the zero time on an empty queue. */
  function GetMessageTimeSent(c: Client): (t: nat)
    ensures |c.messagesSent| == 0 ==> t == ZERO_TIME
    ensures |c.messagesSent| > 0 ==> t == c.messagesSent[0].timeSent
  {
    if |c.messagesSent| == 0 then ZERO_TIME else c.messagesSent[0].timeSent
  }

  /** `getFrontSeqNum`: 0 on an empty queue. */
  function GetFrontSeqNum(c: Client): (s: uint32)
    ensures |c.messagesSent| == 0 ==> s == 0
    ensures |c.messagesSent| > 0 ==> s == c.messagesSent[0].seqNum
  {
    if |c.messagesSent| == 0 then 0 else c.messagesSent[0].seqNum
  }

  /** Exponential smoothing `(1 - a) * previous + a * sample`; for a weight
      in [0, 1] the result lies between the two inputs. */
  function Smooth(a: real, previous: real, sample: real): (r: real)
    ensures 0.0 <= a <= 1.0 && previous <= sample ==> previous <= r <= sample
    ensures 0.0 <= a <= 1.0 && sample <= previous ==> sample <= r <= previous
  {
    var m := (1.0 - a) * previous + a * sample;
    ConvexBounds(a, previous, sample, m);
    m
  }

  lemma {:induction false} MulNonneg(k: real, x: real)
    requires k >= 0.0 && x >= 0.0
    ensures k * x >= 0.0
  {
  }

  lemma {:induction false} ConvexBounds(a: real, x: real, y: real, m: real)
    requires m == (1.0 - a) * x + a * y
    ensures 0.0 <= a <= 1.0 && x <= y ==> x <= m <= y
    ensures 0.0 <= a <= 1.0 && y <= x ==> y <= m <= x
  {
    if 0.0 <= a <= 1.0 {
      assert m - x == a * (y - x);
      assert y - m == (1.0 - a) * (y - x);
      assert x - m == a * (x - y);
      assert m - y == (1.0 - a) * (x - y);
      if x <= y {
        MulNonneg(a, y - x);
        MulNonneg(1.0 - a, y - x);
      } else {
        MulNonneg(a, x - y);
        MulNonneg(1.0 - a, x - y);
      }
    }
  }

  /** `updateTransmissionInfo`: the first sample seeds the estimate and the
      deviation; later samples are smoothed with ALPHA and BETA, the deviation
      being taken against the already updated estimate. */
  function UpdateTransmissionInfo(t: TransmissionInfo, sample: real, w: RttWeights): (r: TransmissionInfo)
    ensures t.estimatedRTT == 0.0 ==> r.estimatedRTT == sample && r.deviationRTT == sample / 2.0
    ensures t.estimatedRTT == 0.0 ==> r.timeoutInterval == 3.0 * sample
    ensures t.estimatedRTT != 0.0 ==> r.estimatedRTT == Smooth(w.alpha, t.estimatedRTT, sample)
    ensures t.estimatedRTT != 0.0 ==>
      r.deviationRTT == Smooth(w.beta, t.deviationRTT, Abs(r.estimatedRTT - sample))
    ensures r.timeoutInterval == r.estimatedRTT + 4.0 * r.deviationRTT
    ensures r.numberOfTimeouts == t.numberOfTimeouts
  {
    var est := if t.estimatedRTT == 0.0 then sample else Smooth(w.alpha, t.estimatedRTT, sample);
    var dev := if t.estimatedRTT == 0.0 then sample / 2.0 else Smooth(w.beta, t.deviationRTT, Abs(est - sample));
    t.(estimatedRTT := est, deviationRTT := dev, timeoutInterval := est + 4.0 * dev)
  }

  function Abs(x: real): (r: real)
    ensures r >= 0.0 && (r == x || r == -x)
  {
    if x < 0.0 then -x else x
  }

  predicate ValidWeights(w: RttWeights) {
    0.0 <= w.alpha <= 1.0 && 0.0 <= w.beta <= 1.0
  }

  /** The estimator state reachable from clamped samples: no estimate yet, or
      an estimate within the clamp range, a non-negative deviation and the
      timeout derived from both. */
  predicate EstimatorBounded(t: TransmissionInfo) {
    t.estimatedRTT == 0.0
    || (1.0 <= t.estimatedRTT <= RTT_CEILING && t.deviationRTT >= 0.0
        && t.timeoutInterval == t.estimatedRTT + 4.0 * t.deviationRTT)
  }

  /** Smoothing a clamped sample keeps the estimate inside the clamp range
      and the timeout at least 1 ms. */
  lemma {:induction false} UpdateKeepsBounds(t: TransmissionInfo, sample: real, w: RttWeights)
    requires ValidWeights(w) && EstimatorBounded(t)
    requires 1.0 <= sample <= RTT_CEILING
    ensures EstimatorBounded(UpdateTransmissionInfo(t, sample, w))
    ensures UpdateTransmissionInfo(t, sample, w).timeoutInterval >= 1.0
  {
  }

  /** `doubleTimeoutInterval`: double the interval only while it is below
      5000 ms; always count the timeout. */
  function DoubleTimeoutInterval(t: TransmissionInfo): (r: TransmissionInfo)
    ensures t.timeoutInterval < DOUBLING_LIMIT ==> r.timeoutInterval == 2.0 * t.timeoutInterval
    ensures t.timeoutInterval >= DOUBLING_LIMIT ==> r.timeoutInterval == t.timeoutInterval
    ensures r.numberOfTimeouts == t.numberOfTimeouts + 1
    ensures r.estimatedRTT == t.estimatedRTT && r.deviationRTT == t.deviationRTT
  {
    var interval := if t.timeoutInterval < DOUBLING_LIMIT then t.timeoutInterval * 2.0 else t.timeoutInterval;
    t.(timeoutInterval := interval, numberOfTimeouts := t.numberOfTimeouts + 1)
  }

  function DoubleTimes(t: TransmissionInfo, n: nat): TransmissionInfo {
    if n == 0 then t else DoubleTimeoutInterval(DoubleTimes(t, n - 1))
  }

  /** Any number of consecutive timeouts starting below 5000 ms leaves the
      interval below 10000 ms, never smaller than it was, and counts each
      timeout once. */
  lemma {:induction false} RepeatedDoublingBounded(t: TransmissionInfo, n: nat)
    requires 0.0 <= t.timeoutInterval < DOUBLING_LIMIT
    ensures DoubleTimes(t, n).timeoutInterval < 2.0 * DOUBLING_LIMIT
    ensures DoubleTimes(t, n).timeoutInterval >= t.timeoutInterval
    ensures DoubleTimes(t, n).numberOfTimeouts == t.numberOfTimeouts + n
  {
    if n > 0 {
      RepeatedDoublingBounded(t, n - 1);
    }
  }

  /** The sample a tracker yields at time `now`, clamped as the source does. */
  function ClampedSample(now: nat, timeSent: nat): (r: real)
    ensures 1.0 <= r <= RTT_CEILING
    ensures 1 <= now - timeSent <= 5000 ==> r == (now - timeSent) as real
    ensures now - timeSent < 1 ==> r == RTT_TOO_SMALL_DEFAULT
    ensures now - timeSent > 5000 ==> r == RTT_CEILING
  {
    var raw := (now - timeSent) as real;
    if raw < 1.0 then RTT_TOO_SMALL_DEFAULT else if raw > RTT_CEILING then RTT_CEILING else raw
  }

  /** `checkTrackerSegment`: only a present, tracking tracker whose sequence
      number is below `ack` yields a sample; then the estimator runs and the
      tracker slot is cleared. Otherwise nothing changes. */
  function CheckTrackerSegment(c: Client, ack: uint32, now: nat, w: RttWeights): (r: Client)
    ensures var acts := c.tracker.Some? && c.tracker.value.seqNum < ack && c.tracker.value.tracking;
      && (!acts ==> r == c)
      && (acts ==> r == c.(tracker := None,
                            transmission := UpdateTransmissionInfo(c.transmission,
                                              ClampedSample(now, c.tracker.value.timeSent), w)))
  {
    match c.tracker
    case Some(tr) =>
      if tr.seqNum < ack && tr.tracking then
        c.(transmission := UpdateTransmissionInfo(c.transmission, ClampedSample(now, tr.timeSent), w),
           tracker := None)
      else c
    case None => c
  }

  /** RTT sampling preserves the estimator bound. */
  lemma {:induction false} CheckTrackerKeepsBounds(c: Client, ack: uint32, now: nat, w: RttWeights)
    requires ValidWeights(w) && EstimatorBounded(c.transmission)
    ensures EstimatorBounded(CheckTrackerSegment(c, ack, now, w).transmission)
  {
    if c.tracker.Some? {
      UpdateKeepsBounds(c.transmission, ClampedSample(now, c.tracker.value.timeSent), w);
    }
  }

  /** The send-completion callback of a shared record: every copy of it in
      the queue and in the tracker slot takes the send time. */
  function StampClient(c: Client, id: nat, now: nat): (r: Client)
    ensures |r.messagesSent| == |c.messagesSent|
    ensures forall k :: 0 <= k < |c.messagesSent| ==> r.messagesSent[k] == Stamp(c.messagesSent[k], id, now)
    ensures r.tracker == StampSlot(c.tracker, id, now)
    ensures r == c.(messagesSent := r.messagesSent, tracker := r.tracker)
  {
    c.(messagesSent := StampQueue(c.messagesSent, id, now), tracker := StampSlot(c.tracker, id, now))
  }

  /** Stamping changes no sizes, so it keeps the total consistent. */
  lemma {:induction false} StampKeepsQueueSize(q: seq<SegmentInfo>, id: nat, now: nat)
    ensures QueueSize(StampQueue(q, id, now)) == QueueSize(q)
    decreases |q|
  {
    if |q| > 0 {
      assert StampQueue(q, id, now)[1..] == StampQueue(q[1..], id, now);
      StampKeepsQueueSize(q[1..], id, now);
    }
  }
}
