/** The per-peer record of the older generation (backend/src/Client.cpp):
    the retransmission queue holds whole segments, the byte total and the
    last byte sent are 16-bit, the ack test on the queue front is
    non-strict, and one send timestamp is kept per client. */
module LegacyClient {
  import opened Bytes
  import opened Wrappers
  import opened States
  import opened Segments
  import opened Reassembly
  import opened PeerFile

  datatype Client = Client(
    port: uint16,
    ip: uint32,
    expectedSeq: uint32,
    expectedAck: uint32,
    lastAck: uint32,
    state: State,
    messageBuffer: Buffer,
    messagesSent: seq<Segment>,
    totalSize: uint16,
    lastByteSent: uint16,
    windowSize: uint16,
    /** Seconds; 0 until the first send completes. */
    lastTimeMessageSent: nat,
    isFinSent: bool,
    filename: string,
    /** Payloads delivered in order (the `receivedData` queue and the file). */
    received: seq<seq<byte>>)

  /** The constructor; every other field takes its in-class default of 0,
      false or empty. */
  function NewClient(port: uint16, ip: uint32, expectedSeq: uint32, expectedAck: uint32, lastAck: uint32,
                     state: State, filePath: string): (c: Client)
    ensures c.port == port && c.ip == ip && c.state == state
    ensures c.expectedSeq == expectedSeq && c.expectedAck == expectedAck && c.lastAck == lastAck
    ensures c.filename == FileNameFor(ip, port, filePath)
    ensures c.messagesSent == [] && c.messageBuffer == map[]
    ensures c.totalSize == 0 && c.lastByteSent == 0 && c.windowSize == 0 && c.lastTimeMessageSent == 0
    ensures !c.isFinSent && c.received == []
    ensures SizeConsistent(c)
  {
    Client(port, ip, expectedSeq, expectedAck, lastAck, state, map[], [], 0, 0, 0, 0, false,
           FileNameFor(ip, port, filePath), [])
  }

  /** `Segment::HEADER_SIZE + data.size()` stored into a `uint16_t`. */
  function SegSize(s: Segment): (r: uint16)
    ensures |s.data| < 0x1_0000 - HEADER_SIZE ==> r == HEADER_SIZE + |s.data|
  {
    (HEADER_SIZE + |s.data|) % 0x1_0000
  }

  function QueueSize(q: seq<Segment>): nat {
    if |q| == 0 then 0 else SegSize(q[0]) + QueueSize(q[1..])
  }

  lemma {:induction false} QueueSizeAppend(q: seq<Segment>, s: Segment)
    ensures QueueSize(q + [s]) == QueueSize(q) + SegSize(s)
    decreases |q|
  {
    if |q| > 0 {
      assert (q + [s])[1..] == q[1..] + [s];
      QueueSizeAppend(q[1..], s);
    }
  }

  /** The queue invariant: the 16-bit total is the queue's byte size modulo
      2^16. */
  predicate SizeConsistent(c: Client) {
    c.totalSize == QueueSize(c.messagesSent) % 0x1_0000
  }

  /** `pushMessage`: append at the back and add the segment's size. */
  function PushMessage(c: Client, s: Segment): (r: Client)
    ensures r.messagesSent == c.messagesSent + [s]
    ensures r == c.(messagesSent := r.messagesSent, totalSize := r.totalSize)
    ensures SizeConsistent(c) ==> SizeConsistent(r)
  {
    QueueSizeAppend(c.messagesSent, s);
    ModAddCongruent(c.totalSize, QueueSize(c.messagesSent), SegSize(s));
    c.(messagesSent := c.messagesSent + [s], totalSize := Add16(c.totalSize, SegSize(s)))
  }

  datatype Taken = Taken(ok: bool, client: Client, item: Option<Segment>)

  /** `popMessage`: false and no change on an empty queue; otherwise remove
      the front, subtract its size and hand it out. */
  function PopMessage(c: Client): (r: Taken)
    ensures r.ok <==> |c.messagesSent| > 0
    ensures !r.ok ==> r.client == c && r.item.None?
    ensures r.ok ==> r.item == Some(c.messagesSent[0]) && r.client.messagesSent == c.messagesSent[1..]
    ensures r.client == c.(messagesSent := r.client.messagesSent, totalSize := r.client.totalSize)
    ensures SizeConsistent(c) ==> SizeConsistent(r.client)
  {
    if |c.messagesSent| == 0 then Taken(false, c, None)
    else
      var front := c.messagesSent[0];
      assert SizeConsistent(c) ==> c.totalSize == (SegSize(front) + QueueSize(c.messagesSent[1..])) % 0x1_0000;
      ModSubCongruent(c.totalSize, QueueSize(c.messagesSent[1..]), SegSize(front));
      Taken(true, c.(messagesSent := c.messagesSent[1..], totalSize := (c.totalSize - SegSize(front)) % 0x1_0000), Some(front))
  }

  datatype Checked = Checked(removed: bool, client: Client)

  /** `checkFront` (non-strict): removes the front iff it exists and its
      sequence number is at most `ack`. */
  function CheckFront(c: Client, ack: uint32): (r: Checked)
    ensures r.removed <==> |c.messagesSent| > 0 && c.messagesSent[0].seqNum <= ack
    ensures r.removed ==> r.client == PopMessage(c).client
    ensures !r.removed ==> r.client == c
  {
    if |c.messagesSent| > 0 && c.messagesSent[0].seqNum <= ack then Checked(true, PopMessage(c).client)
    else Checked(false, c)
  }

  /** Length of the longest prefix of `q` whose sequence numbers are at most
      `ack`. */
  function AckedPrefix(q: seq<Segment>, ack: uint32): (n: nat)
    ensures n <= |q|
    ensures forall k :: 0 <= k < n ==> q[k].seqNum <= ack
    ensures n < |q| ==> q[n].seqNum > ack
  {
    if |q| > 0 && q[0].seqNum <= ack then 1 + AckedPrefix(q[1..], ack) else 0
  }

  /** `while (checkFront(ack));`: drop the maximal acknowledged prefix. */
  function PruneAcked(c: Client, ack: uint32): (r: Client)
    ensures r.messagesSent == c.messagesSent[AckedPrefix(c.messagesSent, ack)..]
    ensures r == c.(messagesSent := r.messagesSent, totalSize := r.totalSize)
    ensures SizeConsistent(c) ==> SizeConsistent(r)
    decreases |c.messagesSent|
  {
    var step := CheckFront(c, ack);
    if step.removed then
      assert c.messagesSent[AckedPrefix(c.messagesSent, ack)..] ==
             c.messagesSent[1..][AckedPrefix(c.messagesSent[1..], ack)..];
      PruneAcked(step.client, ack)
    else c
  }

  /** Draining the queue with `popMessage` hands out every queued segment in
      order and leaves an empty queue with a zero total. */
  function DrainAll(c: Client): (r: (Client, seq<Segment>))
    ensures r.1 == c.messagesSent
    ensures r.0 == c.(messagesSent := [], totalSize := r.0.totalSize)
    ensures SizeConsistent(c) ==> r.0.totalSize == 0
    decreases |c.messagesSent|
  {
    var p := PopMessage(c);
    if !p.ok then (c, [])
    else
      var rest := DrainAll(p.client);
      (rest.0, [p.item.value] + rest.1)
  }

  /** The send-completion callback: the client's single timestamp is set to
      `now`; no segment carries a send time. */
  function SetLastTimeMessageSent(c: Client, now: nat): (r: Client)
    ensures r.lastTimeMessageSent == now
    ensures r.messagesSent == c.messagesSent
    ensures r == c.(lastTimeMessageSent := now)
  {
    c.(lastTimeMessageSent := now)
  }
}
