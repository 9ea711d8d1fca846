/** The connection engine of the TCP generation (backend/TCP/src/Connection.cpp
    with the constants of backend/TCP/include/Connection.hpp). Only SYN,
    SYN|ACK, FIN, FIN|ACK and data-carrying ACK segments get a retransmission
    record; sequence numbers grow by the payload length alone; payloads are
    slices of one shared send buffer, cut per client. The sender queue is the
    `outbox`: each entry carries the segment, the slice of the send buffer it
    will carry, and the record whose send time its completion callback
    stamps. */
module TcpConnection {
  import opened Bytes
  import opened Wrappers
  import opened States
  import opened Flags
  import opened Segments
  import opened Reassembly
  import opened SegmentInfos
  import opened TcpClient

  const MAX_DATA_SIZE: nat := 1000
  /** Seconds; declared by this generation but not consulted by its logic. */
  const MAX_SEGMENT_LIFE: nat := 20
  const DEFAULT_WINDOW: uint16 := 1000
  const DEFAULT_SEQUENCE: uint32 := 1000
  const DEFAULT_ACK: uint32 := 0
  /** A client is dropped by the resend check once it has timed out more
      often than this. */
  const MAX_TIMEOUTS: nat := 10

  /** The fixed parameters of a connection. */
  datatype Config = Config(
    sourcePort: uint16,
    destinationPort: uint16,
    destinationIP: uint32,
    windowSize: uint16,
    urgentPointer: uint16,
    defaultSeq: uint32,
    defaultAck: uint32,
    /** The estimator state every new client starts with. */
    initial: TransmissionInfo,
    /** ALPHA and BETA of the RTT estimator. */
    weights: RttWeights)

  /** One entry of the sender queue: the segment, the slice [start, end) of
      the send buffer it carries, and the shared record the completion
      callback stamps, if any. */
  datatype Outgoing = Outgoing(seg: Segment, start: nat, end: nat, stamps: Option<nat>)

  datatype Conn = Conn(
    cfg: Config,
    clients: map<uint16, Client>,
    sendBuffer: seq<byte>,
    timeToClose: bool,
    outbox: seq<Outgoing>,
    /** Segments pushed back onto the receive queue. */
    requeued: seq<Segment>,
    /** The handle the next retransmission record gets. */
    nextId: nat)

  /** Every segment a client holds out of order came from that client: the
      buffer a segment joins is always the one of its source port. */
  predicate Owned(cl: Client) {
    forall k :: k in cl.messageBuffer ==> cl.messageBuffer[k].srcPort == cl.port
  }

  /** What the source maintains by construction: every client sits under its
      own port and holds only its own segments, and no client has cut past
      the end of the send buffer. */
  predicate WellFormed(c: Conn) {
    forall p :: p in c.clients ==>
      c.clients[p].port == p && c.clients[p].lastByteSent <= |c.sendBuffer| && Owned(c.clients[p])
  }

  function UpdateClient(c: Conn, port: uint16, cl: Client): (r: Conn)
    ensures r.clients == c.clients[port := cl]
    ensures r == c.(clients := r.clients)
  {
    c.(clients := c.clients[port := cl])
  }

  lemma {:induction false} UpdateKeepsWellFormed(c: Conn, port: uint16, cl: Client)
    requires WellFormed(c) && cl.port == port && cl.lastByteSent <= |c.sendBuffer| && Owned(cl)
    ensures WellFormed(UpdateClient(c, port, cl))
  {
  }

  /** The segments that get a retransmission record: SYN, SYN|ACK, FIN,
      FIN|ACK, and an ACK whose slice ends past byte 0. */
  predicate Tracked(flag: byte, end: nat) {
    || flag == Flag.SYN.Value() || flag == CreateFlag(Flag.SYN, Flag.ACK)
    || flag == Flag.FIN.Value() || flag == CreateFlag(Flag.FIN, Flag.ACK)
    || (flag == Flag.ACK.Value() && end > 0)
  }

  /** The tracked flag bytes are 2, 18, 1 and 17, and 16 with a payload; a
      bare ACK is never tracked. */
  lemma {:induction false} TrackedValues(flag: byte, end: nat)
    ensures Tracked(flag, end) <==> flag == 2 || flag == 18 || flag == 1 || flag == 17 || (flag == 16 && end > 0)
  {
    CreateFlagValues();
  }

  /** The record built for a tracked segment: `first` makes it the RTT
      tracker. Start and length are stored in 32 bits. */
  function RecordFor(id: nat, seqNum: uint32, flag: byte, start: nat, end: nat, first: bool): (r: SegmentInfo)
    ensures r.id == id && r.seqNum == seqNum && r.flag == flag && r.tracking == first
    ensures r.timeSent == ZERO_TIME
    ensures start < TWO_TO_THE_32 && start <= end < start + TWO_TO_THE_32 ==> r.start == start && r.dataSize == end - start
  {
    NewSegmentInfo(id, seqNum, flag, start % TWO_TO_THE_32, (end - start) % TWO_TO_THE_32, first)
  }

  /** The destination client after `createMessage`: it takes the given
      state and expected ack; a tracked segment's record becomes the tracker
      when there is none and joins the queue unless the queue's front already
      has its sequence number. */
  function Created(cl: Client, id: nat, seqNum: uint32, flag: byte, start: nat, end: nat,
                   state: State, ackNum: uint32): (r: Client)
    ensures r.state == state && r.expectedAck == ackNum
    ensures !Tracked(flag, end) ==> r == cl.(state := state, expectedAck := ackNum)
    ensures Tracked(flag, end) ==>
      var info := RecordFor(id, seqNum, flag, start, end, cl.tracker.None?);
      && r.tracker == (if cl.tracker.None? then Some(info) else cl.tracker)
      && r.messagesSent == (if GetFrontSeqNum(cl) != seqNum then cl.messagesSent + [info] else cl.messagesSent)
    ensures r == cl.(state := state, expectedAck := ackNum, tracker := r.tracker,
                     messagesSent := r.messagesSent, totalSize := r.totalSize)
    ensures SizeConsistent(cl) ==> SizeConsistent(r)
  {
    if !Tracked(flag, end) then cl.(state := state, expectedAck := ackNum)
    else
      var info := RecordFor(id, seqNum, flag, start, end, cl.tracker.None?);
      var cl1 := if cl.tracker.None? then cl.(tracker := Some(info)) else cl;
      var cl2 := if GetFrontSeqNum(cl) != seqNum then PushMessage(cl1, info) else cl1;
      cl2.(state := state, expectedAck := ackNum)
  }

  /** The sender-queue entry `createMessage` produces. */
  function OutgoingFor(c: Conn, dstPort: uint16, seqNum: uint32, ackNum: uint32, flag: byte, window: uint16,
                       dstIP: uint32, start: nat, end: nat): (o: Outgoing)
    ensures o.seg.srcPort == c.cfg.sourcePort && o.seg.dstPort == dstPort
    ensures o.seg.seqNum == seqNum && o.seg.ackNum == ackNum && o.seg.flags == flag && o.seg.window == window
    ensures o.seg.destinationIP == dstIP && o.seg.data == [] && o.start == start && o.end == end
    ensures o.stamps.Some? <==> Tracked(flag, end)
  {
    var seg := NewSegment(c.cfg.sourcePort, dstPort, seqNum, ackNum, flag, window, c.cfg.urgentPointer, dstIP, []);
    Outgoing(seg, start, end, if Tracked(flag, end) then Some(c.nextId) else None)
  }

  /** `createMessage`: for a known destination, one entry joins the sender
      queue and the client is updated as `Created` says; for an unknown port,
      nothing. */
  function CreateMessage(c: Conn, dstPort: uint16, seqNum: uint32, ackNum: uint32, flag: byte, window: uint16,
                         dstIP: uint32, state: State, start: nat, end: nat): (r: Conn)
    ensures dstPort !in c.clients ==> r == c
    ensures dstPort in c.clients ==>
      && r.outbox == c.outbox + [OutgoingFor(c, dstPort, seqNum, ackNum, flag, window, dstIP, start, end)]
      && r.clients == c.clients[dstPort := Created(c.clients[dstPort], c.nextId, seqNum, flag, start, end, state, ackNum)]
      && r.nextId == c.nextId + 1
    ensures r == c.(clients := r.clients, outbox := r.outbox, nextId := r.nextId)
    ensures WellFormed(c) ==> WellFormed(r)
  {
    if dstPort !in c.clients then c
    else
      var cl := Created(c.clients[dstPort], c.nextId, seqNum, flag, start, end, state, ackNum);
      UpdateClient(c, dstPort, cl).(outbox := c.outbox + [OutgoingFor(c, dstPort, seqNum, ackNum, flag, window, dstIP, start, end)],
                                    nextId := c.nextId + 1)
  }

  /** For a known destination, createMessage sends exactly one segment, sets
      the state and expected ack, queues at most one record (exactly when the
      segment is tracked and the queue front has another sequence number,
      keeping what was queued before), and installs a tracker exactly when the
      segment is tracked and none was set. */
  lemma {:induction false} CreateQueuesAtMostOne(c: Conn, dstPort: uint16, seqNum: uint32, ackNum: uint32, flag: byte, window: uint16,
                              dstIP: uint32, state: State, start: nat, end: nat)
    requires dstPort in c.clients
    ensures var cl := c.clients[dstPort];
      var r := CreateMessage(c, dstPort, seqNum, ackNum, flag, window, dstIP, state, start, end);
      var n := r.clients[dstPort];
      && |r.outbox| == |c.outbox| + 1
      && n.state == state && n.expectedAck == ackNum
      && cl.messagesSent <= n.messagesSent
      && |n.messagesSent| == |cl.messagesSent| + (if Tracked(flag, end) && GetFrontSeqNum(cl) != seqNum then 1 else 0)
      && (n.tracker != cl.tracker <==> Tracked(flag, end) && cl.tracker.None?)
      && n.expectedSeq == cl.expectedSeq && n.lastByteSent == cl.lastByteSent && n.isFinSent == cl.isFinSent
  {
  }

  // ---------------------------------------------------------------------
  // The send loop
  // ---------------------------------------------------------------------

  function Min(a: nat, b: nat): (r: nat)
    ensures r <= a && r <= b && (r == a || r == b)
  {
    if a <= b then a else b
  }

  /** One slice of the send buffer, [start, end). */
  datatype Cut = Cut(start: nat, end: nat)

  /** Where a round that starts at `from` stops: MAX_DATA_SIZE bytes on, or
      the window minus a header on, or the end of the buffer, whichever
      comes first. */
  function NextEnd(from: nat, size: nat, available: nat): nat
    requires available > HEADER_SIZE
  {
    Min(from + Min(MAX_DATA_SIZE, available - HEADER_SIZE), size)
  }

  /** The slices the loop cuts from byte `from` of a `size`-byte buffer with
      `available` bytes of window: while more than a header's worth of window
      is left and data remains, cut a slice and charge the window its payload
      plus a header. */
  function Cuts(from: nat, size: nat, available: nat): (r: seq<Cut>)
    ensures |r| == 0 <==> available <= HEADER_SIZE || size <= from
    decreases available
  {
    if available > HEADER_SIZE && from < size then
      var end := NextEnd(from, size, available);
      [Cut(from, end)] + Cuts(end, size, available - (end - from + HEADER_SIZE))
    else []
  }

  /** One round of cutting: a non-empty slice of at most MAX_DATA_SIZE bytes
      that fits in the window with its header; the rest is cut from its end
      with what is left of the window. */
  lemma {:induction false} CutsUnfold(from: nat, size: nat, available: nat)
    requires available > HEADER_SIZE && from < size
    ensures var e := NextEnd(from, size, available);
      && from < e <= size && e - from <= MAX_DATA_SIZE && e - from + HEADER_SIZE <= available
      && Cuts(from, size, available) == [Cut(from, e)] + Cuts(e, size, available - (e - from + HEADER_SIZE))
  {
  }

  /** The first slice and the rest, as the lemmas below take them apart. */
  lemma {:induction false} CutsTail(from: nat, size: nat, available: nat)
    requires available > HEADER_SIZE && from < size
    ensures var e := NextEnd(from, size, available);
      var cuts := Cuts(from, size, available);
      var rest := Cuts(e, size, available - (e - from + HEADER_SIZE));
      && from < e <= size && e - from <= MAX_DATA_SIZE && e - from + HEADER_SIZE <= available
      && |cuts| > 0 && cuts[0] == Cut(from, e) && cuts[1..] == rest && CutEnd(from, cuts) == CutEnd(e, rest)
  {
    CutsUnfold(from, size, available);
  }

  /** Every slice is non-empty, at most MAX_DATA_SIZE bytes and inside
      [from, size); the first starts at `from` and each starts where the
      previous one ended. */
  lemma {:induction false} CutsBounded(from: nat, size: nat, available: nat)
    ensures var cuts := Cuts(from, size, available);
      && (|cuts| > 0 ==> cuts[0].start == from)
      && (forall k :: 0 <= k < |cuts| ==> from <= cuts[k].start < cuts[k].end <= size)
      && (forall k :: 0 <= k < |cuts| ==> cuts[k].end - cuts[k].start <= MAX_DATA_SIZE)
      && (forall k :: 0 <= k < |cuts| - 1 ==> cuts[k].end == cuts[k + 1].start)
    decreases available
  {
    if available > HEADER_SIZE && from < size {
      var e := NextEnd(from, size, available);
      var a := available - (e - from + HEADER_SIZE);
      CutsUnfold(from, size, available);
      CutsBounded(e, size, a);
      var cuts := Cuts(from, size, available);
      var rest := Cuts(e, size, a);
      assert forall k :: 1 <= k < |cuts| ==> cuts[k] == rest[k - 1];
    }
  }

  /** Where the cutting stopped: the end of the last slice, or `from`. */
  function CutEnd(from: nat, cuts: seq<Cut>): nat {
    if |cuts| == 0 then from else cuts[|cuts| - 1].end
  }

  /** Window bytes the slices use: each payload plus a header. */
  function WireSize(cuts: seq<Cut>): int
    decreases |cuts|
  {
    if |cuts| == 0 then 0 else (cuts[0].end - cuts[0].start + HEADER_SIZE) + WireSize(cuts[1..])
  }

  /** `buffer[a..b]`, or nothing when the bounds are out of range. */
  function Slice(buffer: seq<byte>, a: nat, b: nat): (r: seq<byte>)
    ensures a <= b <= |buffer| ==> r == buffer[a..b]
  {
    if a <= b <= |buffer| then buffer[a..b] else []
  }

  /** The payloads the slices carry, in order. */
  function Payloads(buffer: seq<byte>, cuts: seq<Cut>): seq<byte>
    decreases |cuts|
  {
    if |cuts| == 0 then [] else Slice(buffer, cuts[0].start, cuts[0].end) + Payloads(buffer, cuts[1..])
  }

  /** The slices tile the buffer from `from`, without gap or overlap, up to
      where they stop, which is never past its end. */
  lemma {:induction false} CutsCover(buffer: seq<byte>, from: nat, available: nat)
    requires from <= |buffer|
    ensures var cuts := Cuts(from, |buffer|, available);
      && from <= CutEnd(from, cuts) <= |buffer|
      && Payloads(buffer, cuts) == buffer[from..CutEnd(from, cuts)]
    decreases available
  {
    if available > HEADER_SIZE && from < |buffer| {
      var e := NextEnd(from, |buffer|, available);
      var a := available - (e - from + HEADER_SIZE);
      CutsUnfold(from, |buffer|, available);
      CutsCover(buffer, e, a);
      var cuts := Cuts(from, |buffer|, available);
      var rest := Cuts(e, |buffer|, a);
      assert cuts[1..] == rest;
      assert CutEnd(from, cuts) == CutEnd(e, rest);
      assert buffer[from..CutEnd(e, rest)] == buffer[from..e] + buffer[e..CutEnd(e, rest)];
    }
  }

  /** The slices, headers included, fit in the window, and the loop stops
      only when the data is used up or at most a header's worth of window is
      left. */
  lemma {:induction false} CutsFit(from: nat, size: nat, available: nat)
    requires from <= size
    ensures var cuts := Cuts(from, size, available);
      && WireSize(cuts) <= available
      && (CutEnd(from, cuts) == size || available - WireSize(cuts) <= HEADER_SIZE)
    decreases available
  {
    if available > HEADER_SIZE && from < size {
      var e := NextEnd(from, size, available);
      var a := available - (e - from + HEADER_SIZE);
      CutsUnfold(from, size, available);
      CutsFit(e, size, a);
      var cuts := Cuts(from, size, available);
      var rest := Cuts(e, size, a);
      assert cuts[1..] == rest;
      assert CutEnd(from, cuts) == CutEnd(e, rest);
    }
  }

  /** The sequence number after the slices: each adds its length, in 32 bits. */
  function SeqAfter(s: uint32, cuts: seq<Cut>): uint32
    decreases |cuts|
  {
    if |cuts| == 0 then s else SeqAfter(Add32(s, cuts[0].end - cuts[0].start), cuts[1..])
  }

  /** The slices advance the sequence number by the bytes cut. */
  lemma {:induction false} SeqAfterCut(s: uint32, from: nat, size: nat, available: nat)
    ensures var cuts := Cuts(from, size, available);
      from <= CutEnd(from, cuts) && SeqAfter(s, cuts) == Add32(s, CutEnd(from, cuts) - from)
    decreases available
  {
    if available > HEADER_SIZE && from < size {
      var e := NextEnd(from, size, available);
      var a := available - (e - from + HEADER_SIZE);
      CutsUnfold(from, size, available);
      SeqAfterCut(Add32(s, e - from), e, size, a);
      var cuts := Cuts(from, size, available);
      var rest := Cuts(e, size, a);
      assert cuts[1..] == rest;
      assert CutEnd(from, cuts) == CutEnd(e, rest);
      ModAddMod32(s + (e - from), CutEnd(e, rest) - e);
    }
  }

  /** The sender-queue entry for one slice: an ACK with the given numbers
      that stamps record `id`. */
  function ChunkOut(cfg: Config, port: uint16, s: uint32, ack: uint32, ip: uint32, cut: Cut, id: nat): (o: Outgoing)
    ensures o.seg.srcPort == cfg.sourcePort && o.seg.dstPort == port && o.seg.seqNum == s && o.seg.ackNum == ack
    ensures o.seg.flags == Flag.ACK.Value() && o.seg.window == cfg.windowSize && o.seg.data == []
    ensures o.start == cut.start && o.end == cut.end && o.stamps == Some(id)
  {
    Outgoing(NewSegment(cfg.sourcePort, port, s, ack, Flag.ACK.Value(), cfg.windowSize, cfg.urgentPointer, ip, []),
             cut.start, cut.end, Some(id))
  }

  /** The entries the slices become, numbered on from `s` by the bytes cut,
      stamping consecutive records from `id`. */
  function ChunkOuts(cfg: Config, port: uint16, s: uint32, ack: uint32, ip: uint32, cuts: seq<Cut>, id: nat): (r: seq<Outgoing>)
    ensures |r| == |cuts|
    decreases |cuts|
  {
    if |cuts| == 0 then []
    else [ChunkOut(cfg, port, s, ack, ip, cuts[0], id)]
         + ChunkOuts(cfg, port, Add32(s, cuts[0].end - cuts[0].start), ack, ip, cuts[1..], id + 1)
  }

  /** Entry k is the ACK for slice k, numbered with the bytes cut before it,
      stamping a record of its own. */
  lemma {:induction false} ChunkOutsAt(cfg: Config, port: uint16, s: uint32, ack: uint32, ip: uint32, from: nat,
                                       size: nat, available: nat, id: nat, k: nat)
    requires k < |Cuts(from, size, available)|
    ensures var cuts := Cuts(from, size, available);
      && from <= cuts[k].start
      && ChunkOuts(cfg, port, s, ack, ip, cuts, id)[k]
         == ChunkOut(cfg, port, Add32(s, cuts[k].start - from), ack, ip, cuts[k], id + k)
    decreases k
  {
    var e := NextEnd(from, size, available);
    var a := available - (e - from + HEADER_SIZE);
    CutsUnfold(from, size, available);
    var cuts := Cuts(from, size, available);
    var rest := Cuts(e, size, a);
    assert cuts[1..] == rest;
    if k > 0 {
      assert cuts[k] == rest[k - 1];
      ChunkOutsAt(cfg, port, Add32(s, e - from), ack, ip, e, size, a, id + 1, k - 1);
      ModAddMod32(s + (e - from), cuts[k].start - e);
    }
  }

  /** The fields the send loop leaves alone: all but the cut point, the
      sequence number and the retransmission bookkeeping. */
  predicate CutFrame(n: Client, cl: Client) {
    n == cl.(lastByteSent := n.lastByteSent, expectedSeq := n.expectedSeq, tracker := n.tracker,
             messagesSent := n.messagesSent, totalSize := n.totalSize)
  }

  /** One round of the loop on the client: `createMessage` for an ACK at the
      client's numbers carrying the slice, then the cut point moves to the
      slice's end and the sequence number on by its length. */
  function ChunkClient(cl: Client, cut: Cut, id: nat): (r: Client)
    ensures r.lastByteSent == cut.end && r.expectedSeq == Add32(cl.expectedSeq, cut.end - cut.start)
    ensures CutFrame(r, cl)
  {
    Created(cl, id, cl.expectedSeq, Flag.ACK.Value(), cut.start, cut.end, cl.state, cl.expectedAck)
      .(lastByteSent := cut.end, expectedSeq := Add32(cl.expectedSeq, cut.end - cut.start))
  }

  /** The rounds of the loop on the client, one per slice, with records
      numbered from `id`. */
  function LoopClient(cl: Client, cuts: seq<Cut>, id: nat): Client
    decreases |cuts|
  {
    if |cuts| == 0 then cl else LoopClient(ChunkClient(cl, cuts[0], id), cuts[1..], id + 1)
  }

  /** After the rounds the client stands at the end of the last slice. */
  lemma {:induction false} LoopClientEnd(cl: Client, cuts: seq<Cut>, id: nat)
    ensures LoopClient(cl, cuts, id).lastByteSent == CutEnd(cl.lastByteSent, cuts)
    decreases |cuts|
  {
    if |cuts| > 0 {
      LoopClientEnd(ChunkClient(cl, cuts[0], id), cuts[1..], id + 1);
    }
  }

  /** The rounds advance the sequence number by each slice's length. */
  lemma {:induction false} LoopClientSeq(cl: Client, cuts: seq<Cut>, id: nat)
    ensures LoopClient(cl, cuts, id).expectedSeq == SeqAfter(cl.expectedSeq, cuts)
    decreases |cuts|
  {
    if |cuts| > 0 {
      LoopClientSeq(ChunkClient(cl, cuts[0], id), cuts[1..], id + 1);
    }
  }

  /** The rounds change nothing of the client but the cut point, the
      sequence number and the retransmission bookkeeping. */
  lemma {:induction false} LoopClientFrame(cl: Client, cuts: seq<Cut>, id: nat)
    ensures CutFrame(LoopClient(cl, cuts, id), cl)
    decreases |cuts|
  {
    if |cuts| > 0 {
      var cl1 := ChunkClient(cl, cuts[0], id);
      LoopClientFrame(cl1, cuts[1..], id + 1);
      assert CutFrame(LoopClient(cl1, cuts[1..], id + 1), cl1) && CutFrame(cl1, cl);
    }
  }

  /** The `while` loop of `sendMessages`. Each round reads the numbers the
      previous round left, so the rounds amount to sending the entries
      `ChunkOuts` lists for the slices `Cuts` describes and applying the
      rounds to the client in the same order. */
  function SendLoop(c: Conn, port: uint16, available: nat): (r: Conn)
    requires WellFormed(c) && port in c.clients
    ensures WellFormed(r) && r.clients.Keys == c.clients.Keys
    ensures r == c.(clients := r.clients, outbox := r.outbox, nextId := r.nextId)
    ensures forall q :: q in c.clients && q != port ==> r.clients[q] == c.clients[q]
    ensures var cl := c.clients[port]; var cuts := Cuts(cl.lastByteSent, |c.sendBuffer|, available);
      && r.outbox == c.outbox + ChunkOuts(c.cfg, port, cl.expectedSeq, cl.expectedAck, cl.ip, cuts, c.nextId)
      && r.nextId == c.nextId + |cuts|
      && r.clients[port].lastByteSent == CutEnd(cl.lastByteSent, cuts)
      && r.clients[port].expectedSeq == SeqAfter(cl.expectedSeq, cuts)
      && CutFrame(r.clients[port], cl)
  {
    var cl := c.clients[port];
    var cuts := Cuts(cl.lastByteSent, |c.sendBuffer|, available);
    LoopClientEnd(cl, cuts, c.nextId);
    LoopClientSeq(cl, cuts, c.nextId);
    LoopClientFrame(cl, cuts, c.nextId);
    CutsCover(c.sendBuffer, cl.lastByteSent, available);
    var n := LoopClient(cl, cuts, c.nextId);
    UpdateKeepsWellFormed(c, port, n);
    UpdateClient(c, port, n).(outbox := c.outbox + ChunkOuts(c.cfg, port, cl.expectedSeq, cl.expectedAck, cl.ip, cuts, c.nextId),
                             nextId := c.nextId + |cuts|)
  }

  /** The window left for new segments: none once the bytes in flight reach
      the peer's window. */
  function Available(cl: Client): (r: nat)
    ensures cl.totalSize < cl.windowSize ==> r == cl.windowSize - cl.totalSize
    ensures cl.totalSize >= cl.windowSize ==> r == 0
  {
    if cl.totalSize >= cl.windowSize then 0 else cl.windowSize - cl.totalSize
  }

  /** The entry of a bare ACK: the client's current numbers, no slice, no
      record. */
  function BareAckOut(cfg: Config, port: uint16, cl: Client): (o: Outgoing)
    ensures o.seg.dstPort == port && o.seg.seqNum == cl.expectedSeq && o.seg.ackNum == cl.expectedAck
    ensures o.seg.flags == Flag.ACK.Value() && o.seg.data == [] && o.start == 0 && o.end == 0 && o.stamps.None?
  {
    Outgoing(NewSegment(cfg.sourcePort, port, cl.expectedSeq, cl.expectedAck, Flag.ACK.Value(), cfg.windowSize,
                        cfg.urgentPointer, cl.ip, []), 0, 0, None)
  }

  /** A bare ACK: one entry sent, the client untouched. */
  function BareAck(c: Conn, port: uint16): (r: Conn)
    requires WellFormed(c) && port in c.clients
    ensures WellFormed(r) && r.clients.Keys == c.clients.Keys
    ensures r == c.(clients := r.clients, outbox := r.outbox, nextId := r.nextId)
    ensures r.outbox == c.outbox + [BareAckOut(c.cfg, port, c.clients[port])]
    ensures r.clients == c.clients
  {
    var cl := c.clients[port];
    TrackedValues(Flag.ACK.Value(), 0);
    CreateMessage(c, port, cl.expectedSeq, cl.expectedAck, Flag.ACK.Value(), c.cfg.windowSize, cl.ip, cl.state, 0, 0)
  }

  /** `sendMessages`: when everything is cut or the window is full, only a
      bare ACK, and only if data was just written; otherwise the loop, and a
      bare ACK if it cut nothing and data was just written. */
  function SendMessages(c: Conn, port: uint16, dataWritten: nat): (r: Conn)
    requires WellFormed(c)
    ensures WellFormed(r) && r.clients.Keys == c.clients.Keys
    ensures r == c.(clients := r.clients, outbox := r.outbox, nextId := r.nextId)
    ensures c.outbox <= r.outbox
    ensures forall q :: q in c.clients && q != port ==> r.clients[q] == c.clients[q]
    ensures port in c.clients ==> CutFrame(r.clients[port], c.clients[port])
  {
    if port !in c.clients then c
    else
      var cl := c.clients[port];
      if cl.lastByteSent == |c.sendBuffer| || cl.totalSize >= cl.windowSize then
        if dataWritten > 0 then BareAck(c, port) else c
      else SendOpen(c, port, dataWritten)
  }

  /** `sendMessages` with data left and the window open: the loop, then a
      bare ACK if it cut nothing and data was just written. */
  function SendOpen(c: Conn, port: uint16, dataWritten: nat): (r: Conn)
    requires WellFormed(c) && port in c.clients
    requires c.clients[port].totalSize < c.clients[port].windowSize
    ensures WellFormed(r) && r.clients.Keys == c.clients.Keys
    ensures r == c.(clients := r.clients, outbox := r.outbox, nextId := r.nextId)
    ensures c.outbox <= r.outbox
    ensures forall q :: q in c.clients && q != port ==> r.clients[q] == c.clients[q]
    ensures CutFrame(r.clients[port], c.clients[port])
  {
    var cl := c.clients[port];
    var r := SendLoop(c, port, Available(cl));
    var sentData := |Cuts(cl.lastByteSent, |c.sendBuffer|, Available(cl))| > 0;
    if !sentData && dataWritten > 0 then BareAck(r, port) else r
  }

  /** A loop that cuts nothing changes nothing. */
  lemma {:induction false} SendLoopEmpty(c: Conn, port: uint16, available: nat)
    requires WellFormed(c) && port in c.clients
    requires |Cuts(c.clients[port].lastByteSent, |c.sendBuffer|, available)| == 0
    ensures SendLoop(c, port, available) == c
  {
    var cl := c.clients[port];
    assert LoopClient(cl, [], c.nextId) == cl;
    assert c.outbox + [] == c.outbox;
    assert c.clients[port := cl] == c.clients;
  }

  /** A slice can be cut only when bytes remain and the window is open. */
  lemma {:induction false} WindowOpen(c: Conn, cl: Client)
    requires |Cuts(cl.lastByteSent, |c.sendBuffer|, Available(cl))| > 0
    ensures cl.lastByteSent != |c.sendBuffer| && cl.totalSize < cl.windowSize
    ensures Available(cl) == cl.windowSize - cl.totalSize
  {
  }

  /** When a slice can be cut, sendMessages is the loop alone. */
  lemma {:induction false} SendMessagesLoops(c: Conn, port: uint16, dataWritten: nat)
    requires WellFormed(c) && port in c.clients
    requires var cl := c.clients[port]; |Cuts(cl.lastByteSent, |c.sendBuffer|, Available(cl))| > 0
    ensures SendMessages(c, port, dataWritten) == SendLoop(c, port, Available(c.clients[port]))
  {
    var cl := c.clients[port];
    WindowOpen(c, cl);
    SendMessagesOpen(c, port, dataWritten);
    SendOpenLoops(c, port, dataWritten);
  }

  lemma {:induction false} SendMessagesOpen(c: Conn, port: uint16, dataWritten: nat)
    requires WellFormed(c) && port in c.clients
    requires c.clients[port].lastByteSent != |c.sendBuffer| && c.clients[port].totalSize < c.clients[port].windowSize
    ensures SendMessages(c, port, dataWritten) == SendOpen(c, port, dataWritten)
  {
  }

  lemma {:induction false} SendOpenLoops(c: Conn, port: uint16, dataWritten: nat)
    requires WellFormed(c) && port in c.clients
    requires var cl := c.clients[port]; cl.totalSize < cl.windowSize
    requires var cl := c.clients[port]; |Cuts(cl.lastByteSent, |c.sendBuffer|, Available(cl))| > 0
    ensures SendOpen(c, port, dataWritten) == SendLoop(c, port, Available(c.clients[port]))
  {
  }

  /** When the free window allows a slice, sendMessages sends the slices. */
  lemma {:induction false} SendMessagesChunks(c: Conn, port: uint16, dataWritten: nat)
    requires WellFormed(c) && port in c.clients
    requires var cl := c.clients[port]; |Cuts(cl.lastByteSent, |c.sendBuffer|, Available(cl))| > 0
    ensures var cl := c.clients[port];
      SendMessages(c, port, dataWritten).outbox
        == c.outbox + ChunkOuts(c.cfg, port, cl.expectedSeq, cl.expectedAck, cl.ip,
                                Cuts(cl.lastByteSent, |c.sendBuffer|, Available(cl)), c.nextId)
  {
    SendMessagesLoops(c, port, dataWritten);
  }

  /** When no slice can be cut, sendMessages changes nothing but the bare ACK
      it sends if data was just written. */
  lemma {:induction false} SendMessagesNoChunks(c: Conn, port: uint16, dataWritten: nat)
    requires WellFormed(c) && port in c.clients
    requires var cl := c.clients[port]; |Cuts(cl.lastByteSent, |c.sendBuffer|, Available(cl))| == 0
    ensures SendMessages(c, port, dataWritten) == if dataWritten > 0 then BareAck(c, port) else c
  {
    var cl := c.clients[port];
    if !(cl.lastByteSent == |c.sendBuffer| || cl.totalSize >= cl.windowSize) {
      SendLoopEmpty(c, port, Available(cl));
      assert SendLoop(c, port, cl.windowSize - cl.totalSize) == c;
    }
  }

  /** What sendMessages sends: the ACKs for the slices the free window
      allows; a single bare ACK exactly when no slice was cut and data was
      just written; nothing at all otherwise. */
  lemma {:induction false} SendMessagesSends(c: Conn, port: uint16, dataWritten: nat)
    requires WellFormed(c) && port in c.clients
    ensures var cl := c.clients[port];
      var cuts := Cuts(cl.lastByteSent, |c.sendBuffer|, Available(cl));
      var r := SendMessages(c, port, dataWritten);
      && (|cuts| > 0 ==> r.outbox == c.outbox + ChunkOuts(c.cfg, port, cl.expectedSeq, cl.expectedAck, cl.ip, cuts, c.nextId))
      && (|cuts| == 0 && dataWritten > 0 ==> r.outbox == c.outbox + [BareAckOut(c.cfg, port, cl)])
      && (|cuts| == 0 && dataWritten == 0 ==> r == c)
  {
    var cl := c.clients[port];
    if |Cuts(cl.lastByteSent, |c.sendBuffer|, Available(cl))| > 0 {
      SendMessagesChunks(c, port, dataWritten);
    } else {
      SendMessagesNoChunks(c, port, dataWritten);
    }
  }

  /** After sendMessages the client stands at the end of the last slice cut,
      with its sequence number advanced by the bytes cut. */
  lemma {:induction false} SendMessagesAdvances(c: Conn, port: uint16, dataWritten: nat)
    requires WellFormed(c) && port in c.clients
    ensures var cl := c.clients[port];
      var cuts := Cuts(cl.lastByteSent, |c.sendBuffer|, Available(cl));
      var r := SendMessages(c, port, dataWritten);
      && r.clients[port].lastByteSent == CutEnd(cl.lastByteSent, cuts)
      && r.clients[port].expectedSeq == Add32(cl.expectedSeq, CutEnd(cl.lastByteSent, cuts) - cl.lastByteSent)
  {
    var cl := c.clients[port];
    SeqAfterCut(cl.expectedSeq, cl.lastByteSent, |c.sendBuffer|, Available(cl));
    if |Cuts(cl.lastByteSent, |c.sendBuffer|, Available(cl))| > 0 {
      SendMessagesLoops(c, port, dataWritten);
    } else {
      SendMessagesNoChunks(c, port, dataWritten);
    }
  }

  // ---------------------------------------------------------------------
  // messageHandler
  // ---------------------------------------------------------------------

  lemma {:induction false} PrefixTrans<T>(a: seq<T>, b: seq<T>, c: seq<T>)
    requires a <= b && b <= c
    ensures a <= c
  {
    assert b[..|a|] == a;
    assert c[..|b|][..|a|] == a;
  }

  /** Whether messageHandler's FIN is due: none sent yet, all data cut, and
      a close pending. */
  predicate FinDue(c: Conn, cl: Client) {
    !cl.isFinSent && cl.lastByteSent == |c.sendBuffer| && (c.timeToClose || cl.state == CLOSING)
  }

  /** The fields sending a FIN leaves alone: all but the FIN mark, the
      state, the sequence number and the retransmission bookkeeping. */
  predicate FinFrame(n: Client, cl: Client) {
    n == cl.(isFinSent := n.isFinSent, state := n.state, expectedSeq := n.expectedSeq, tracker := n.tracker,
             messagesSent := n.messagesSent, totalSize := n.totalSize)
  }

  /** Sending our FIN: a FIN at the client's numbers moves it to `next`;
      then the FIN is marked sent and the sequence number moves past it. */
  function SendFin(c: Conn, port: uint16, next: State): (r: Conn)
    requires WellFormed(c) && port in c.clients
    ensures WellFormed(r) && r.clients.Keys == c.clients.Keys
    ensures r == c.(clients := r.clients, outbox := r.outbox, nextId := r.nextId)
    ensures forall q :: q in c.clients && q != port ==> r.clients[q] == c.clients[q]
    ensures var cl := c.clients[port]; var n := r.clients[port];
      && r.outbox == c.outbox + [OutgoingFor(c, port, cl.expectedSeq, cl.expectedAck, Flag.FIN.Value(),
                                             c.cfg.windowSize, cl.ip, 0, 0)]
      && n.isFinSent && n.state == next && n.expectedSeq == Add32(cl.expectedSeq, 1) && FinFrame(n, cl)
  {
    var cl := c.clients[port];
    var c1 := CreateMessage(c, port, cl.expectedSeq, cl.expectedAck, Flag.FIN.Value(), c.cfg.windowSize, cl.ip,
                            next, 0, 0);
    UpdateClient(c1, port, c1.clients[port].(isFinSent := true, expectedSeq := Add32(cl.expectedSeq, 1)))
  }

  /** The tail of `messageHandler`: once the FIN is due, send it, mark it sent
      and move the sequence number past it. */
  function FinIfDone(c: Conn, port: uint16): (r: Conn)
    requires WellFormed(c) && port in c.clients
    ensures WellFormed(r) && r.clients.Keys == c.clients.Keys
    ensures r == c.(clients := r.clients, outbox := r.outbox, nextId := r.nextId)
    ensures |r.outbox| >= |c.outbox|
    ensures forall q :: q in c.clients && q != port ==> r.clients[q] == c.clients[q]
    ensures var cl := c.clients[port]; var n := r.clients[port];
      && (!FinDue(c, cl) ==> r == c)
      && (FinDue(c, cl) ==>
            && r.outbox == c.outbox + [OutgoingFor(c, port, cl.expectedSeq, cl.expectedAck, Flag.FIN.Value(),
                                                   c.cfg.windowSize, cl.ip, 0, 0)]
            && n.isFinSent && n.state == FinState(cl.state) && n.expectedSeq == Add32(cl.expectedSeq, 1)
            && FinFrame(n, cl))
  {
    if FinDue(c, c.clients[port]) then SendFin(c, port, FinState(c.clients[port].state)) else c
  }

  /** At most one FIN per client: a second pass sends nothing. */
  lemma {:induction false} FinIfDoneOnce(c: Conn, port: uint16)
    requires WellFormed(c) && port in c.clients
    ensures FinIfDone(FinIfDone(c, port), port) == FinIfDone(c, port)
  {
  }

  /** The acknowledgement part of `messageHandler`: drop the acknowledged
      prefix of the queue and record the peer's ack and window. */
  function Acknowledge(cl: Client, seg: Segment): (r: Client)
    ensures r.messagesSent == cl.messagesSent[AckedPrefix(cl.messagesSent, seg.ackNum)..]
    ensures r.lastAck == seg.ackNum && r.windowSize == seg.window
    ensures r == cl.(messagesSent := r.messagesSent, totalSize := r.totalSize, lastAck := r.lastAck,
                     windowSize := r.windowSize)
    ensures SizeConsistent(cl) ==> SizeConsistent(r)
  {
    PruneAcked(cl, seg.ackNum).(lastAck := seg.ackNum, windowSize := seg.window)
  }

  /** `messageHandler`: acknowledge; a segment ahead of the expected ack is
      buffered; otherwise send what the window allows, push a FIN back onto
      the receive queue, and send our FIN once it is due. */
  function MessageHandler(c: Conn, seg: Segment, dataWritten: nat): (r: Conn)
    requires WellFormed(c)
    ensures seg.srcPort !in c.clients ==> r == c
    ensures r.clients.Keys == c.clients.Keys && r.sendBuffer == c.sendBuffer && r.cfg == c.cfg
    ensures r.timeToClose == c.timeToClose
    ensures forall q :: q in c.clients && q != seg.srcPort ==> r.clients[q] == c.clients[q]
    ensures seg.srcPort in c.clients ==>
      var cl := Acknowledge(c.clients[seg.srcPort], seg);
      && (seg.seqNum > cl.expectedAck ==>
            r == UpdateClient(c, seg.srcPort, cl.(messageBuffer := SetItem(cl.messageBuffer, seg.seqNum, seg))))
      && (seg.seqNum <= cl.expectedAck ==>
            r.requeued == c.requeued + (if seg.flags == Flag.FIN.Value() then [seg] else []))
  {
    var port := seg.srcPort;
    if port !in c.clients then c
    else
      var cl := Acknowledge(c.clients[port], seg);
      if seg.seqNum > cl.expectedAck then
        UpdateClient(c, port, cl.(messageBuffer := SetItem(cl.messageBuffer, seg.seqNum, seg)))
      else
        UpdateKeepsWellFormed(c, port, cl);
        var c1 := SendMessages(UpdateClient(c, port, cl), port, dataWritten);
        var c2 := if seg.flags == Flag.FIN.Value() then c1.(requeued := c1.requeued + [seg]) else c1;
        FinIfDone(c2, port)
  }

  /** messageHandler only appends to the sender queue. */
  lemma {:induction false} MessageHandlerAppends(c: Conn, seg: Segment, dataWritten: nat)
    requires WellFormed(c)
    ensures c.outbox <= MessageHandler(c, seg, dataWritten).outbox
  {
    var port := seg.srcPort;
    if port in c.clients {
      var cl := Acknowledge(c.clients[port], seg);
      if seg.seqNum <= cl.expectedAck {
        UpdateKeepsWellFormed(c, port, cl);
        var c1 := SendMessages(UpdateClient(c, port, cl), port, dataWritten);
        var c2 := if seg.flags == Flag.FIN.Value() then c1.(requeued := c1.requeued + [seg]) else c1;
        var r := FinIfDone(c2, port);
        assert r == MessageHandler(c, seg, dataWritten);
        PrefixTrans(c.outbox, c1.outbox, r.outbox);
      }
    }
  }

  lemma {:induction false} MessageHandlerKeepsWellFormed(c: Conn, seg: Segment, dataWritten: nat)
    requires WellFormed(c)
    ensures WellFormed(MessageHandler(c, seg, dataWritten))
  {
    var port := seg.srcPort;
    if port in c.clients {
      var cl := Acknowledge(c.clients[port], seg);
      UpdateKeepsWellFormed(c, port, cl);
      if seg.seqNum > cl.expectedAck {
        UpdateKeepsWellFormed(c, port, cl.(messageBuffer := SetItem(cl.messageBuffer, seg.seqNum, seg)));
      }
    }
  }

  /** An in-order segment is not buffered and adds nothing to what the
      client received; the peer's ack and window are recorded; the state
      changes only by the FIN messageHandler sends once it is due, and a FIN
      once marked sent stays marked. */
  lemma {:induction false} HandlerInOrder(c: Conn, seg: Segment, dataWritten: nat)
    requires WellFormed(c) && seg.srcPort in c.clients
    requires seg.seqNum <= c.clients[seg.srcPort].expectedAck
    ensures var cl := c.clients[seg.srcPort]; var n := MessageHandler(c, seg, dataWritten).clients[seg.srcPort];
      && n.received == cl.received && n.messageBuffer == cl.messageBuffer
      && n.lastAck == seg.ackNum && n.windowSize == seg.window && n.expectedAck == cl.expectedAck
      && (n.state == cl.state || (n.state == FinState(cl.state) && n.isFinSent && !cl.isFinSent))
      && (cl.isFinSent ==> n.isFinSent)
  {
    var port := seg.srcPort;
    var cl := Acknowledge(c.clients[port], seg);
    UpdateKeepsWellFormed(c, port, cl);
    var c0 := UpdateClient(c, port, cl);
    var c1 := SendMessages(c0, port, dataWritten);
    var c2 := if seg.flags == Flag.FIN.Value() then c1.(requeued := c1.requeued + [seg]) else c1;
    assert MessageHandler(c, seg, dataWritten) == FinIfDone(c2, port);
    assert CutFrame(c2.clients[port], cl);
  }

  /** Data just written is always answered: an in-order segment handled
      with a positive write length sends at least one segment, the slices
      the window allows or else a bare ACK. */
  lemma {:induction false} HandlerAnswersData(c: Conn, seg: Segment, dataWritten: nat)
    requires WellFormed(c) && seg.srcPort in c.clients && dataWritten > 0
    requires seg.seqNum <= c.clients[seg.srcPort].expectedAck
    ensures |MessageHandler(c, seg, dataWritten).outbox| > |c.outbox|
  {
    var port := seg.srcPort;
    var cl := Acknowledge(c.clients[port], seg);
    UpdateKeepsWellFormed(c, port, cl);
    var c0 := UpdateClient(c, port, cl);
    var c1 := SendMessages(c0, port, dataWritten);
    SendAnswersData(c0, port, dataWritten);
    var c2 := if seg.flags == Flag.FIN.Value() then c1.(requeued := c1.requeued + [seg]) else c1;
    assert MessageHandler(c, seg, dataWritten) == FinIfDone(c2, port);
  }

  /** sendMessages with a positive write length sends at least one segment. */
  lemma {:induction false} SendAnswersData(c: Conn, port: uint16, dataWritten: nat)
    requires WellFormed(c) && port in c.clients && dataWritten > 0
    ensures |SendMessages(c, port, dataWritten).outbox| > |c.outbox|
  {
    SendMessagesSends(c, port, dataWritten);
  }

  // ---------------------------------------------------------------------
  // resendMessages
  // ---------------------------------------------------------------------

  /** `resendMessages`: the front record is copied (which adds its size to
      the total again) and sent once more with its own sequence number, flag
      and slice, the client's expected ack and window, and state unchanged. */
  function ResendMessages(c: Conn, port: uint16): (r: Conn)
    requires WellFormed(c)
    ensures WellFormed(r) && r.clients.Keys == c.clients.Keys
    ensures r == c.(clients := r.clients, outbox := r.outbox, nextId := r.nextId)
    ensures forall q :: q in c.clients && q != port ==> r.clients[q] == c.clients[q]
    ensures port !in c.clients || c.clients[port].messagesSent == [] ==> r == c
  {
    if port !in c.clients || |c.clients[port].messagesSent| == 0 then c
    else
      var cl := c.clients[port];
      var cp := CopyFront(cl);
      var front := cp.item.value;
      UpdateKeepsWellFormed(c, port, cp.client);
      CreateMessage(UpdateClient(c, port, cp.client), port, front.seqNum, cl.expectedAck, front.flag, cl.windowSize,
                    cl.ip, cl.state, front.start, Add32(front.start, front.dataSize))
  }

  /** A resend repeats the front record on the wire, with the same sequence
      number, flag and slice, and leaves the queue and the state alone; only
      the byte total grows, by the front's size. */
  lemma {:induction false} ResendRepeatsFront(c: Conn, port: uint16)
    requires WellFormed(c) && port in c.clients && |c.clients[port].messagesSent| > 0
    ensures var cl := c.clients[port]; var front := cl.messagesSent[0];
      var r := ResendMessages(c, port); var n := r.clients[port];
      && |r.outbox| == |c.outbox| + 1
      && r.outbox[|c.outbox|].seg.seqNum == front.seqNum && r.outbox[|c.outbox|].seg.flags == front.flag
      && r.outbox[|c.outbox|].seg.ackNum == cl.expectedAck && r.outbox[|c.outbox|].seg.window == cl.windowSize
      && r.outbox[|c.outbox|].start == front.start
      && (r.outbox[|c.outbox|].end - front.start) % TWO_TO_THE_32 == front.dataSize
      && n.messagesSent == cl.messagesSent && n.state == cl.state
      && n.totalSize == Add16(cl.totalSize, SegSize(front))
      && n.expectedSeq == cl.expectedSeq && n.lastByteSent == cl.lastByteSent
      && n.transmission == cl.transmission
  {
    var cl := c.clients[port];
    var front := cl.messagesSent[0];
    var e := Add32(front.start, front.dataSize);
    Add32Sub(front.start, front.dataSize);
    var cp := CopyFront(cl);
    UpdateKeepsWellFormed(c, port, cp.client);
    var c0 := UpdateClient(c, port, cp.client);
    var r := CreateMessage(c0, port, front.seqNum, cl.expectedAck, front.flag, cl.windowSize, cl.ip, cl.state,
                           front.start, e);
    assert ResendMessages(c, port) == r;
    CreatedAtFront(cp.client, c.nextId, front.flag, front.start, e, cl.state, cl.expectedAck);
  }

  /** createMessage for the sequence number at the queue's front queues
      nothing and leaves the byte total alone. */
  lemma {:induction false} CreatedAtFront(cl: Client, id: nat, flag: byte, start: nat, end: nat, state: State, ackNum: uint32)
    requires |cl.messagesSent| > 0
    ensures var n := Created(cl, id, cl.messagesSent[0].seqNum, flag, start, end, state, ackNum);
      n.messagesSent == cl.messagesSent && n.totalSize == cl.totalSize
      && n.expectedSeq == cl.expectedSeq && n.lastByteSent == cl.lastByteSent
  {
  }
}
