/** The connection engine of the older generation (backend/src/Connection.cpp
    with the constants of backend/include/Connection.hpp). Every segment,
    bare acknowledgements included, is queued for retransmission and
    consumes |data| + 1 sequence numbers; acknowledgement checks are strict
    against the last acknowledgement seen. The sender queue is the `outbox`;
    each entry's destination port names the client whose send-time callback
    it carries. */
module LegacyConnection {
  import opened Bytes
  import opened Wrappers
  import opened States
  import opened Flags
  import opened Segments
  import opened Reassembly
  import opened LegacyClient

  const MAX_DATA_SIZE: nat := 1000
  /** Seconds. */
  const MAX_SEGMENT_LIFE: nat := 5
  const DEFAULT_WINDOW: uint16 := 100
  const DEFAULT_SEQUENCE: uint32 := 1000
  const DEFAULT_ACK: uint32 := 0

  datatype Conn = Conn(
    sourcePort: uint16,
    destinationPort: uint16,
    destinationIP: uint32,
    windowSize: uint16,
    urgentPointer: uint16,
    defaultSeq: uint32,
    defaultAck: uint32,
    clients: map<uint16, Client>,
    dataToSend: seq<byte>,
    timeToClose: bool,
    outbox: seq<Segment>)

  /** What the source maintains by construction: every client sits under its
      own port, and no client has sent past the end of the data. */
  predicate WellFormed(c: Conn) {
    forall p :: p in c.clients ==> c.clients[p].port == p && c.clients[p].lastByteSent <= |c.dataToSend|
  }

  /** The sequence number after a segment carrying `n` bytes: one extra
      number per segment, wrapping at 2^32. */
  function NextSeq(s: uint32, n: nat): (r: uint32)
    ensures s as int + n + 1 < TWO_TO_THE_32 ==> r == s as int + n + 1
  {
    (s + n + 1) % TWO_TO_THE_32
  }

  function UpdateClient(c: Conn, port: uint16, cl: Client): (r: Conn)
    ensures r.clients == c.clients[port := cl]
    ensures r == c.(clients := r.clients)
  {
    c.(clients := c.clients[port := cl])
  }

  /** What `createMessage` does to the destination client once the segment
      is built: queue it, take the new state, move the next sequence number
      |data| + 1 past the segment's and expect the segment's ack. */
  function Sent(cl: Client, seg: Segment, state: State): (r: Client)
    ensures r.messagesSent == cl.messagesSent + [seg]
    ensures r.state == state && r.expectedSeq == NextSeq(seg.seqNum, |seg.data|) && r.expectedAck == seg.ackNum
    ensures r == cl.(messagesSent := r.messagesSent, totalSize := r.totalSize, state := state,
                     expectedSeq := r.expectedSeq, expectedAck := r.expectedAck)
    ensures SizeConsistent(cl) ==> SizeConsistent(r)
  {
    PushMessage(cl, seg).(state := state, expectedSeq := NextSeq(seg.seqNum, |seg.data|), expectedAck := seg.ackNum)
  }

  /** `createMessage`: for a known destination, queue one segment built from
      the connection's source port, window and urgent pointer, hand it to the
      sender, and update the client as `Sent` says; for an unknown port,
      nothing. */
  function CreateMessage(c: Conn, dstPort: uint16, seqNum: uint32, ackNum: uint32, flag: byte,
                         dstIP: uint32, data: seq<byte>, state: State): (r: Conn)
    ensures dstPort !in c.clients ==> r == c
    ensures dstPort in c.clients ==>
      var seg := NewSegment(c.sourcePort, dstPort, seqNum, ackNum, flag, c.windowSize, c.urgentPointer, dstIP, data);
      && r.outbox == c.outbox + [seg]
      && r.clients == c.clients[dstPort := Sent(c.clients[dstPort], seg, state)]
    ensures r == c.(clients := r.clients, outbox := r.outbox)
    ensures WellFormed(c) ==> WellFormed(r)
  {
    if dstPort !in c.clients then c
    else
      var seg := NewSegment(c.sourcePort, dstPort, seqNum, ackNum, flag, c.windowSize, c.urgentPointer, dstIP, data);
      UpdateClient(c, dstPort, Sent(c.clients[dstPort], seg, state)).(outbox := c.outbox + [seg])
  }

  /** A retransmitted segment carries the new acknowledgement number when one
      is given. */
  function Rewrite(s: Segment, newAck: uint32): (r: Segment)
    ensures newAck != 0 ==> r == s.(ackNum := newAck)
    ensures newAck == 0 ==> r == s
  {
    if newAck != 0 && s.ackNum != newAck then s.(ackNum := newAck) else s
  }

  function RewriteAll(q: seq<Segment>, newAck: uint32): (r: seq<Segment>)
    ensures |r| == |q|
    ensures forall k :: 0 <= k < |q| ==> r[k] == Rewrite(q[k], newAck)
  {
    if |q| == 0 then [] else [Rewrite(q[0], newAck)] + RewriteAll(q[1..], newAck)
  }

  /** Popping a size and pushing it back restores a 16-bit total. */
  lemma {:induction false} SubAddCancel16(t: uint16, s: uint16)
    ensures Add16((t - s) % 0x1_0000, s) == t
  {
    var d := (t - s) % 0x1_0000;
    assert d == t - s || d == t - s + 0x1_0000;
  }

  /** One round of the resend loop: pop the front, rewrite its ack and push
      it back; the queue rotates by one and the byte total is unchanged. */
  function ResendRound(cl: Client, newAck: uint32): (r: (Client, Segment))
    requires |cl.messagesSent| > 0
    ensures r.1 == Rewrite(cl.messagesSent[0], newAck)
    ensures r.0 == cl.(messagesSent := cl.messagesSent[1..] + [r.1])
  {
    var p := PopMessage(cl);
    var s := Rewrite(p.item.value, newAck);
    SubAddCancel16(cl.totalSize, SegSize(p.item.value));
    (PushMessage(p.client, s), s)
  }

  /** `k` rounds of the resend loop on the queue alone: the queue after
      the rounds and the segments sent, in order. */
  function Rotate(q: seq<Segment>, k: nat, newAck: uint32): (r: (seq<Segment>, seq<Segment>))
    requires k <= |q|
    ensures |r.0| == |q| && |r.1| == k
    decreases k
  {
    if k == 0 then (q, [])
    else
      var s := Rewrite(q[0], newAck);
      var rest := Rotate(q[1..] + [s], k - 1, newAck);
      (rest.0, [s] + rest.1)
  }

  /** After `k` rounds the first `k` segments have come out rewritten in
      their original order and moved to the back. */
  lemma {:induction false} RotateMovesPrefix(q: seq<Segment>, k: nat, newAck: uint32)
    requires k <= |q|
    ensures Rotate(q, k, newAck).1 == RewriteAll(q[..k], newAck)
    ensures Rotate(q, k, newAck).0 == q[k..] + Rotate(q, k, newAck).1
    decreases k
  {
    if k > 0 {
      var s := Rewrite(q[0], newAck);
      var q' := q[1..] + [s];
      RotateMovesPrefix(q', k - 1, newAck);
      RotatedSlices(q, s, k);
      RewriteAllFront(q, k, newAck);
    }
  }

  lemma {:induction false} RotatedSlices(q: seq<Segment>, s: Segment, k: nat)
    requires 0 < k <= |q|
    ensures (q[1..] + [s])[..k - 1] == q[1..k]
    ensures (q[1..] + [s])[k - 1..] == q[k..] + [s]
  {
  }

  lemma {:induction false} RewriteAllFront(q: seq<Segment>, k: nat, newAck: uint32)
    requires 0 < k <= |q|
    ensures RewriteAll(q[..k], newAck) == [Rewrite(q[0], newAck)] + RewriteAll(q[1..k], newAck)
  {
    assert q[..k][1..] == q[1..k];
  }

  /** `k` rounds of the resend loop on the client, each a `ResendRound`:
      only the queue moves, as `Rotate` says. */
  function ResendRounds(cl: Client, k: nat, newAck: uint32): (r: (Client, seq<Segment>))
    requires k <= |cl.messagesSent|
    ensures r.1 == Rotate(cl.messagesSent, k, newAck).1
    ensures r.0 == cl.(messagesSent := Rotate(cl.messagesSent, k, newAck).0)
    decreases k
  {
    if k == 0 then (cl, [])
    else
      var one := ResendRound(cl, newAck);
      var rest := ResendRounds(one.0, k - 1, newAck);
      (rest.0, [one.1] + rest.1)
  }

  /** The resend loop of `resendMessages` on one client with a non-empty
      queue: every outstanding segment comes out once, rewritten, in its
      original order, and the queue ends up holding exactly those segments,
      with the same byte total. */
  function ResendAll(cl: Client, newAck: uint32): (r: (Client, seq<Segment>))
    requires |cl.messagesSent| > 0
    ensures r.1 == RewriteAll(cl.messagesSent, newAck)
    ensures r.0 == cl.(messagesSent := r.1)
  {
    var n := |cl.messagesSent|;
    var rounds := ResendRounds(cl, n, newAck);
    RotateMovesPrefix(cl.messagesSent, n, newAck);
    RotateAll(cl.messagesSent, newAck);
    rounds
  }

  lemma {:induction false} RotateAll(q: seq<Segment>, newAck: uint32)
    ensures q[..|q|] == q && q[|q|..] == []
  {
  }

  /** `resendMessages`: every outstanding segment is sent again in its
      original order, with the new acknowledgement number when it is non-zero;
      the queue holds the same segments in the same order with the same byte
      total; then a non-zero `newAck` becomes the next sequence number. */
  function ResendMessages(c: Conn, port: uint16, newAck: uint32): (r: Conn)
    ensures port !in c.clients || |c.clients[port].messagesSent| == 0 ==> r == c
    ensures port in c.clients && |c.clients[port].messagesSent| > 0 ==>
      var cl := c.clients[port];
      var again := RewriteAll(cl.messagesSent, newAck);
      && r.outbox == c.outbox + again
      && r.clients == c.clients[port := cl.(messagesSent := again,
                                             expectedSeq := if newAck != 0 then newAck else cl.expectedSeq)]
    ensures r == c.(clients := r.clients, outbox := r.outbox)
  {
    if port !in c.clients || |c.clients[port].messagesSent| == 0 then c
    else
      var cl := c.clients[port];
      var out := ResendAll(cl, newAck);
      var cl' := if newAck != 0 then out.0.(expectedSeq := newAck) else out.0;
      UpdateClient(c, port, cl').(outbox := c.outbox + out.1)
  }

  /** Resending keeps the connection well formed. */
  lemma {:induction false} ResendKeepsWellFormed(c: Conn, port: uint16, newAck: uint32)
    requires WellFormed(c)
    ensures WellFormed(ResendMessages(c, port, newAck))
  {
  }

  /** `window - totalSizeOfMessagesSent` in `uint16_t`. */
  function Available(cl: Client): (r: uint16)
    ensures cl.totalSize <= cl.windowSize ==> r == cl.windowSize - cl.totalSize
  {
    (cl.windowSize - cl.totalSize) % 0x1_0000
  }

  /** The loop bound `round(available / MAX_DATA_SIZE) + 1`, fixed before the
      loop starts (integer division, so the rounding does nothing). */
  function Iterations(cl: Client): (r: nat)
    ensures 1 <= r <= 66
  {
    Available(cl) / MAX_DATA_SIZE + 1
  }

  /** One past the last byte of the next chunk. */
  function ChunkEnd(start: nat, size: nat): (r: nat)
    requires start <= size
    ensures start <= r <= size && r - start <= MAX_DATA_SIZE
    ensures r == size || r - start == MAX_DATA_SIZE
  {
    if start + MAX_DATA_SIZE > size then size else start + MAX_DATA_SIZE
  }

  /** The payloads of a run of segments, concatenated. */
  function Payloads(ss: seq<Segment>): seq<byte> {
    if |ss| == 0 then [] else ss[0].data + Payloads(ss[1..])
  }

  lemma {:induction false} PayloadsAppend(a: seq<Segment>, s: Segment)
    ensures Payloads(a + [s]) == Payloads(a) + s.data
    decreases |a|
  {
    if |a| > 0 {
      assert (a + [s])[1..] == a[1..] + [s];
      PayloadsAppend(a[1..], s);
    }
  }

  /** Where the chunk loop of `sendMessages` stands: the client's next
      sequence number and its 16-bit last byte sent. */
  datatype Cursor = Cursor(seqNum: uint32, lastByte: uint16)

  /** The segment one round of the chunk loop creates for a client at `port`
      and `ip` that expects `ack`: an ACK carrying the next chunk of at most
      MAX_DATA_SIZE bytes, with the connection's source port, window and
      urgent pointer. */
  function Chunk(src: uint16, window: uint16, urgent: uint16, data: seq<byte>, port: uint16, ip: uint32, ack: uint32,
                 cur: Cursor): (r: Segment)
    requires cur.lastByte < |data|
    ensures r.data == data[cur.lastByte..ChunkEnd(cur.lastByte, |data|)]
    ensures r.srcPort == src && r.dstPort == port && r.destinationIP == ip
    ensures r.seqNum == cur.seqNum && r.ackNum == ack && r.flags == Flag.ACK.Value()
  {
    NewSegment(src, port, cur.seqNum, ack, Flag.ACK.Value(), window, urgent, ip,
               data[cur.lastByte..ChunkEnd(cur.lastByte, |data|)])
  }

  /** Where the cursor stands after the round that created `seg`: the
      sequence number moves |data| + 1 past the segment's, and the chunk's
      end is stored in 16 bits. */
  function Advance(cur: Cursor, seg: Segment, end: nat): (r: Cursor)
    ensures r.seqNum == NextSeq(seg.seqNum, |seg.data|)
    ensures end < 0x1_0000 ==> r.lastByte == end
  {
    Cursor(NextSeq(seg.seqNum, |seg.data|), end % 0x1_0000)
  }

  /** The chunk loop of `sendMessages`: at most `n` rounds, stopping early
      once the last byte sent reaches the end of the data; the cursor after
      the loop and the segments created, in order. */
  function ChunkLoop(src: uint16, window: uint16, urgent: uint16, data: seq<byte>, port: uint16, ip: uint32, ack: uint32,
                     cur: Cursor, n: nat): (r: (Cursor, seq<Segment>))
    requires cur.lastByte <= |data|
    ensures r.0.lastByte <= |data|
    decreases n
  {
    if n == 0 || cur.lastByte == |data| then (cur, [])
    else
      var seg := Chunk(src, window, urgent, data, port, ip, ack, cur);
      var rest := ChunkLoop(src, window, urgent, data, port, ip, ack,
                            Advance(cur, seg, ChunkEnd(cur.lastByte, |data|)), n - 1);
      (rest.0, [seg] + rest.1)
  }

  /** The queue effect of a run of `createMessage` calls: each segment pushed
      in order. */
  function PushAll(cl: Client, ss: seq<Segment>): (r: Client)
    ensures r.messagesSent == cl.messagesSent + ss
    ensures r == cl.(messagesSent := r.messagesSent, totalSize := r.totalSize)
    ensures SizeConsistent(cl) ==> SizeConsistent(r)
    decreases |ss|
  {
    if |ss| == 0 then cl
    else
      var r := PushAll(PushMessage(cl, ss[0]), ss[1..]);
      assert cl.messagesSent + [ss[0]] + ss[1..] == cl.messagesSent + ss;
      r
  }

  /** `sendMessages`: for a known client, run the chunk loop for the number
      of rounds the window allowed when the call began, and hand every
      segment to the sender; each `createMessage` of the loop queues its
      segment, keeps the state and the expected ack and moves the next
      sequence number, and each round stores the chunk's end. Unknown ports
      are left alone. */
  function SendMessages(c: Conn, port: uint16): (r: Conn)
    requires WellFormed(c)
    ensures WellFormed(r) && r.clients.Keys == c.clients.Keys && r.dataToSend == c.dataToSend
    ensures port !in c.clients ==> r == c
    ensures port in c.clients ==>
      var cl := c.clients[port];
      var out := ChunkLoop(c.sourcePort, c.windowSize, c.urgentPointer, c.dataToSend, port, cl.ip, cl.expectedAck,
                           Cursor(cl.expectedSeq, cl.lastByteSent), Iterations(cl));
      && r.outbox == c.outbox + out.1
      && r.clients == c.clients[port := PushAll(cl, out.1).(expectedSeq := out.0.seqNum, lastByteSent := out.0.lastByte)]
    ensures r == c.(clients := r.clients, outbox := r.outbox)
  {
    if port !in c.clients then c
    else
      var cl := c.clients[port];
      var out := ChunkLoop(c.sourcePort, c.windowSize, c.urgentPointer, c.dataToSend, port, cl.ip, cl.expectedAck,
                           Cursor(cl.expectedSeq, cl.lastByteSent), Iterations(cl));
      UpdateClient(c, port, PushAll(cl, out.1).(expectedSeq := out.0.seqNum, lastByteSent := out.0.lastByte))
        .(outbox := c.outbox + out.1)
  }

  /** The chunk loop runs at most `n` rounds, fewer only when the data is
      used up, and every segment it creates is an ACK from the connection to
      the client carrying between 1 and MAX_DATA_SIZE bytes. */
  lemma {:induction false} ChunkLoopShape(src: uint16, window: uint16, urgent: uint16, data: seq<byte>, port: uint16,
                                          ip: uint32, ack: uint32, cur: Cursor, n: nat)
    requires cur.lastByte <= |data|
    ensures var r := ChunkLoop(src, window, urgent, data, port, ip, ack, cur, n);
      && |r.1| <= n
      && (r.0.lastByte == |data| || |r.1| == n)
      && forall i :: 0 <= i < |r.1| ==>
           1 <= |r.1[i].data| <= MAX_DATA_SIZE && r.1[i].srcPort == src && r.1[i].dstPort == port
           && r.1[i].destinationIP == ip && r.1[i].flags == Flag.ACK.Value() && r.1[i].ackNum == ack
    decreases n
  {
    if n > 0 && cur.lastByte != |data| {
      var seg := Chunk(src, window, urgent, data, port, ip, ack, cur);
      ChunkLoopShape(src, window, urgent, data, port, ip, ack, Advance(cur, seg, ChunkEnd(cur.lastByte, |data|)), n - 1);
    }
  }

  /** On data shorter than 2^16 bytes the chunks are contiguous: together
      they are exactly the data between the old and the new last byte sent. */
  lemma {:induction false} ChunkLoopContiguous(src: uint16, window: uint16, urgent: uint16, data: seq<byte>, port: uint16,
                                               ip: uint32, ack: uint32, cur: Cursor, n: nat)
    requires cur.lastByte <= |data| < 0x1_0000
    ensures var r := ChunkLoop(src, window, urgent, data, port, ip, ack, cur, n);
      && cur.lastByte <= r.0.lastByte
      && Payloads(r.1) == data[cur.lastByte..r.0.lastByte]
    decreases n
  {
    var b0 := cur.lastByte;
    if n > 0 && b0 != |data| {
      var end := ChunkEnd(b0, |data|);
      var seg := Chunk(src, window, urgent, data, port, ip, ack, cur);
      var next := Advance(cur, seg, end);
      ChunkLoopContiguous(src, window, urgent, data, port, ip, ack, next, n - 1);
      var rest := ChunkLoop(src, window, urgent, data, port, ip, ack, next, n - 1);
      var b1 := rest.0.lastByte;
      assert ([seg] + rest.1)[1..] == rest.1;
      assert data[b0..b1] == data[b0..end] + data[end..b1];
    } else {
      assert data[b0..b0] == [];
    }
  }

  /** On data shorter than 2^16 bytes the next sequence number moves by the
      bytes cut plus one per segment. */
  lemma {:induction false} ChunkLoopSequence(src: uint16, window: uint16, urgent: uint16, data: seq<byte>, port: uint16,
                                             ip: uint32, ack: uint32, cur: Cursor, n: nat)
    requires cur.lastByte <= |data| < 0x1_0000
    ensures var r := ChunkLoop(src, window, urgent, data, port, ip, ack, cur, n);
      && cur.lastByte <= r.0.lastByte
      && r.0.seqNum == (cur.seqNum + (r.0.lastByte - cur.lastByte) + |r.1|) % TWO_TO_THE_32
    decreases n
  {
    var b0 := cur.lastByte;
    if n > 0 && b0 != |data| {
      var end := ChunkEnd(b0, |data|);
      var seg := Chunk(src, window, urgent, data, port, ip, ack, cur);
      var next := Advance(cur, seg, end);
      ChunkLoopSequence(src, window, urgent, data, port, ip, ack, next, n - 1);
      var rest := ChunkLoop(src, window, urgent, data, port, ip, ack, next, n - 1);
      ModAddMod32(cur.seqNum + (end - b0) + 1, (rest.0.lastByte - end) + |rest.1|);
    }
  }

  /** With 2^16 or more bytes of data the 16-bit last byte sent wraps: a
      chunk ending at byte 66000 is recorded as ending at byte 464, so the
      next chunk starts over at byte 464. */
  lemma {:induction false} LastByteSentWraps(src: uint16, window: uint16, urgent: uint16, data: seq<byte>, port: uint16, ip: uint32,
                          ack: uint32, cur: Cursor)
    requires |data| == 66000 && cur.lastByte == 65000
    ensures ChunkLoop(src, window, urgent, data, port, ip, ack, cur, 1).0.lastByte == 464
    ensures ChunkLoop(src, window, urgent, data, port, ip, ack, cur, 2).1[1].data == data[464..1464]
  {
  }

  /** The first half of `messageHandler` on the sender's record: drop the
      acknowledged prefix of the queue, record the ack and the window. */
  function Acknowledge(cl: Client, seg: Segment): (r: Client)
    ensures r.lastAck == seg.ackNum && r.windowSize == seg.window
    ensures r.messagesSent == cl.messagesSent[AckedPrefix(cl.messagesSent, seg.ackNum)..]
    ensures r == cl.(messagesSent := r.messagesSent, totalSize := r.totalSize, lastAck := r.lastAck,
                     windowSize := r.windowSize)
    ensures SizeConsistent(cl) ==> SizeConsistent(r)
  {
    PruneAcked(cl, seg.ackNum).(lastAck := seg.ackNum, windowSize := seg.window)
  }

  /** The closing step of `messageHandler`: when the client has all data out,
      has not sent a FIN and the connection is closing (or the peer is in
      CLOSING), create one FIN and remember it. */
  function FinIfDone(c: Conn, port: uint16): (r: Conn)
    requires WellFormed(c) && port in c.clients
    ensures WellFormed(r) && r.clients.Keys == c.clients.Keys && r.dataToSend == c.dataToSend
    ensures var cl := c.clients[port];
      if !cl.isFinSent && cl.lastByteSent == |c.dataToSend| && (c.timeToClose || cl.state == CLOSING) then
        && r.outbox == c.outbox + [NewSegment(c.sourcePort, port, cl.expectedSeq, cl.expectedAck, Flag.FIN.Value(),
                                              c.windowSize, c.urgentPointer, cl.ip, [])]
        && r.clients[port] == Sent(cl, r.outbox[|c.outbox|], FinState(cl.state)).(isFinSent := true)
      else r == c
    ensures forall p :: p in c.clients && p != port ==> r.clients[p] == c.clients[p]
  {
    var cl := c.clients[port];
    if !cl.isFinSent && cl.lastByteSent == |c.dataToSend| && (c.timeToClose || cl.state == CLOSING) then
      var c2 := CreateMessage(c, cl.port, cl.expectedSeq, cl.expectedAck, Flag.FIN.Value(), cl.ip, [], FinState(cl.state));
      UpdateClient(c2, port, c2.clients[port].(isFinSent := true))
    else c
  }

  /** `messageHandler`: for a known sender, acknowledge; a segment ahead of
      the expected ack is then buffered; otherwise send what the window
      allows and possibly the FIN. */
  function MessageHandler(c: Conn, seg: Segment): (r: Conn)
    requires WellFormed(c)
    ensures seg.srcPort !in c.clients ==> r == c
    ensures seg.srcPort in c.clients ==>
      var cl := Acknowledge(c.clients[seg.srcPort], seg);
      if seg.seqNum > cl.expectedAck then
        r == UpdateClient(c, seg.srcPort, cl.(messageBuffer := SetItem(cl.messageBuffer, seg.seqNum, seg)))
      else
        WellFormed(UpdateClient(c, seg.srcPort, cl))
        && r == FinIfDone(SendMessages(UpdateClient(c, seg.srcPort, cl), seg.srcPort), seg.srcPort)
  {
    if seg.srcPort !in c.clients then c
    else
      var port := seg.srcPort;
      var cl := Acknowledge(c.clients[port], seg);
      if seg.seqNum > cl.expectedAck then
        UpdateClient(c, port, cl.(messageBuffer := SetItem(cl.messageBuffer, seg.seqNum, seg)))
      else
        AcknowledgeKeepsWellFormed(c, port, seg);
        FinIfDone(SendMessages(UpdateClient(c, port, cl), port), port)
  }

  lemma {:induction false} AcknowledgeKeepsWellFormed(c: Conn, port: uint16, seg: Segment)
    requires WellFormed(c) && port in c.clients
    ensures WellFormed(UpdateClient(c, port, Acknowledge(c.clients[port], seg)))
  {
  }

  /** Handling a message keeps the connection well formed, its clients and
      its data. */
  lemma {:induction false} MessageHandlerKeepsWellFormed(c: Conn, seg: Segment)
    requires WellFormed(c)
    ensures var r := MessageHandler(c, seg);
      WellFormed(r) && r.clients.Keys == c.clients.Keys && r.dataToSend == c.dataToSend
  {
  }
}
