/** The record the transport keeps for every segment it may retransmit
    (backend/TCP/src/SegmentInfo.cpp). The source shares one record between
    the retransmission queue, the RTT tracker slot and the send-completion
    callback through a `shared_ptr`; here every copy carries the same `id`,
    and the callback names that `id`. */
module SegmentInfos {
  import opened Bytes
  import opened Wrappers

  /** The zero `time_point`: "never sent". */
  const ZERO_TIME: nat := 0

  datatype SegmentInfo = SegmentInfo(
    id: nat,
    seqNum: uint32,
    flag: byte,
    start: uint32,
    dataSize: uint32,
    tracking: bool,
    /** Milliseconds on the steady clock; ZERO_TIME until the send callback runs. */
    timeSent: nat)

  /** The constructor: fields stored as given, send time still zero. */
  function NewSegmentInfo(id: nat, seqNum: uint32, flag: byte, start: uint32, dataSize: uint32, tracking: bool): (r: SegmentInfo)
    ensures r.id == id && r.seqNum == seqNum && r.flag == flag && r.start == start
    ensures r.dataSize == dataSize && r.tracking == tracking
    ensures r.timeSent == ZERO_TIME
  {
    SegmentInfo(id, seqNum, flag, start, dataSize, tracking, ZERO_TIME)
  }

  /** `setTimeSent()` on one copy: only copies of the shared record `id` take
      the new time, and nothing but the time changes. */
  function Stamp(i: SegmentInfo, id: nat, now: nat): (r: SegmentInfo)
    ensures r.id == i.id && r.seqNum == i.seqNum && r.flag == i.flag && r.start == i.start
    ensures r.dataSize == i.dataSize && r.tracking == i.tracking
    ensures r.timeSent == (if i.id == id then now else i.timeSent)
  {
    if i.id == id then i.(timeSent := now) else i
  }

  /** The callback returned by `LastTimeMessageSent`, run over a queue of
      copies: the same shared record is stamped wherever it appears. */
  function StampQueue(q: seq<SegmentInfo>, id: nat, now: nat): (r: seq<SegmentInfo>)
    ensures |r| == |q|
    ensures forall k :: 0 <= k < |q| ==> r[k] == Stamp(q[k], id, now)
  {
    if |q| == 0 then [] else [Stamp(q[0], id, now)] + StampQueue(q[1..], id, now)
  }

  function StampSlot(o: Option<SegmentInfo>, id: nat, now: nat): (r: Option<SegmentInfo>)
    ensures r.Some? <==> o.Some?
    ensures o.Some? ==> r.value == Stamp(o.value, id, now)
  {
    match o
    case None => None
    case Some(i) => Some(Stamp(i, id, now))
  }

  /** Stamping leaves queues of other records untouched. */
  lemma {:induction false} StampOtherId(q: seq<SegmentInfo>, id: nat, now: nat)
    requires forall k :: 0 <= k < |q| ==> q[k].id != id
    ensures StampQueue(q, id, now) == q
  {
  }
}
