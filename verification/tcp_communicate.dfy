/** The event loop of the TCP generation (`connect`, `addClient`,
    `communicate`, `messageResendCheck` and `disconnect` in
    backend/TCP/src/Connection.cpp): one received segment, one block of
    input, or one idle pass at a time. Clocks are parameters in
    milliseconds on the steady clock. */
module TcpCommunicate {
  import opened Bytes
  import opened Wrappers
  import opened States
  import opened Flags
  import opened Segments
  import opened Reassembly
  import opened SegmentInfos
  import opened TcpClient
  import opened TcpConnection

  // ---------------------------------------------------------------------
  // Setting up
  // ---------------------------------------------------------------------

  /** Whether two connections agree on the configuration, the data to send
      and the close request. */
  predicate SameSetup(r: Conn, c: Conn) {
    r.cfg == c.cfg && r.sendBuffer == c.sendBuffer && r.timeToClose == c.timeToClose
  }

  /** A connection as constructed: no clients, nothing to send, nothing
      queued. */
  function NewConn(cfg: Config): (c: Conn)
    ensures c.cfg == cfg && c.clients == map[] && c.sendBuffer == [] && !c.timeToClose
    ensures c.outbox == [] && c.requeued == [] && c.nextId == 0
    ensures WellFormed(c)
  {
    Conn(cfg, map[], [], false, [], [], 0)
  }

  /** The client the source constructs for a peer: sequence number 0, no
      ack seen, the default file name and the configured estimator. */
  function Fresh(c: Conn, port: uint16, ip: uint32, expectedAck: uint32, state: State): (cl: Client)
    ensures cl.port == port && cl.ip == ip && cl.state == state && cl.expectedAck == expectedAck
    ensures cl.expectedSeq == 0 && cl.lastAck == 0 && cl.lastByteSent == 0 && cl.messagesSent == []
    ensures cl.tracker.None? && !cl.isFinSent && cl.received == [] && cl.transmission == c.cfg.initial
    ensures cl.messageBuffer == map[]
  {
    NewClient(port, ip, 0, expectedAck, 0, state, "", c.cfg.initial)
  }

  /** `try_emplace`: a new port gets the client, a known one keeps its own. */
  function Emplace(c: Conn, port: uint16, cl: Client): (r: Conn)
    requires WellFormed(c) && cl.port == port && cl.lastByteSent == 0 && cl.messageBuffer == map[]
    ensures WellFormed(r) && r.clients.Keys == c.clients.Keys + {port}
    ensures port in c.clients ==> r == c
    ensures port !in c.clients ==> r == UpdateClient(c, port, cl)
  {
    if port in c.clients then c
    else
      UpdateKeepsWellFormed(c, port, cl);
      UpdateClient(c, port, cl)
  }

  /** The opening of a handshake: a segment with the default sequence number
      and the given ack and flag moves the client to SYN_SENT, and its next
      sequence number is the one after the default. */
  function Greet(c: Conn, port: uint16, ack: uint32, flag: byte, ip: uint32): (r: Conn)
    requires WellFormed(c) && port in c.clients
    ensures WellFormed(r) && r.clients.Keys == c.clients.Keys
    ensures r.sendBuffer == c.sendBuffer && r.cfg == c.cfg && r.timeToClose == c.timeToClose
    ensures r.requeued == c.requeued
    ensures forall q :: q in c.clients && q != port ==> r.clients[q] == c.clients[q]
    ensures r.outbox == c.outbox + [OutgoingFor(c, port, c.cfg.defaultSeq, ack, flag, c.cfg.windowSize, ip, 0, 0)]
    ensures var n := r.clients[port];
      n.state == SYN_SENT && n.expectedSeq == Add32(c.cfg.defaultSeq, 1) && n.expectedAck == ack
  {
    var c1 := CreateMessage(c, port, c.cfg.defaultSeq, ack, flag, c.cfg.windowSize, ip, SYN_SENT, 0, 0);
    var n := c1.clients[port].(expectedSeq := Add32(c.cfg.defaultSeq, 1));
    UpdateKeepsWellFormed(c1, port, n);
    UpdateClient(c1, port, n)
  }

  /** The outcome of starting up: `clients.at(destination_port)` throws when
      clients were handed in but the target is not among them. */
  datatype Opened = Started(conn: Conn) | TargetMissing

  /** `connect`, then the start of `communicate`: with a target port and
      address, a client in NONE is added for it; then, if there are any
      clients at all, the target gets a SYN with the default numbers, sent
      to the configured address, and moves to SYN_SENT. */
  function Open(c: Conn, hasTargetAddress: bool): (r: Opened)
    requires WellFormed(c)
    ensures r.Started? ==> WellFormed(r.conn)
    ensures r.TargetMissing? <==>
      c.clients != map[] && c.cfg.destinationPort !in c.clients
      && !(c.cfg.destinationPort != 0 && hasTargetAddress)
    ensures c.cfg.destinationPort != 0 && hasTargetAddress ==>
      var d := c.cfg.destinationPort;
      && r.Started? && d in r.conn.clients
      && r.conn.clients[d].state == SYN_SENT
      && r.conn.clients[d].expectedSeq == Add32(c.cfg.defaultSeq, 1)
      && r.conn.outbox == c.outbox + [OutgoingFor(c, d, c.cfg.defaultSeq, c.cfg.defaultAck, Flag.SYN.Value(),
                                                  c.cfg.windowSize, c.cfg.destinationIP, 0, 0)]
    ensures (c.cfg.destinationPort == 0 || !hasTargetAddress) && c.clients == map[] ==> r == Started(c)
  {
    var d := c.cfg.destinationPort;
    var c1 := if d != 0 && hasTargetAddress then Emplace(c, d, Fresh(c, d, c.cfg.destinationIP, 0, NONE)) else c;
    if c1.clients == map[] then Started(c1)
    else if d !in c1.clients then TargetMissing
    else Started(Greet(c1, d, c.cfg.defaultAck, Flag.SYN.Value(), c.cfg.destinationIP))
  }

  /** `addClient`: the peer is added in NONE unless known, and gets a SYN
      with the default numbers moving it to SYN_SENT. The SYN is addressed
      to the configured destination address, not to `ip`. */
  function AddClient(c: Conn, port: uint16, ip: uint32): (r: Conn)
    requires WellFormed(c)
    ensures WellFormed(r) && r.clients.Keys == c.clients.Keys + {port}
    ensures port !in c.clients ==> r.clients[port].ip == ip
    ensures r.clients[port].state == SYN_SENT && r.clients[port].expectedSeq == Add32(c.cfg.defaultSeq, 1)
    ensures |r.outbox| == |c.outbox| + 1
    ensures var o := r.outbox[|c.outbox|];
      o.seg.dstPort == port && o.seg.destinationIP == c.cfg.destinationIP && o.seg.flags == Flag.SYN.Value()
      && o.seg.seqNum == c.cfg.defaultSeq && o.seg.ackNum == c.cfg.defaultAck
  {
    var c1 := Emplace(c, port, Fresh(c, port, ip, 0, NONE));
    Greet(c1, port, c.cfg.defaultAck, Flag.SYN.Value(), c.cfg.destinationIP)
  }

  // ---------------------------------------------------------------------
  // Received segments
  // ---------------------------------------------------------------------

  /** `checkTrackerSegment` on the sender of a segment, with the clock. */
  function Sample(c: Conn, port: uint16, ack: uint32, now: nat): (r: Conn)
    requires WellFormed(c) && port in c.clients
    ensures WellFormed(r) && r == UpdateClient(c, port, CheckTrackerSegment(c.clients[port], ack, now, c.cfg.weights))
    ensures var n := r.clients[port]; var cl := c.clients[port];
      n == cl.(tracker := n.tracker, transmission := n.transmission)
    ensures SameSetup(r, c)
  {
    var cl := CheckTrackerSegment(c.clients[port], ack, now, c.cfg.weights);
    UpdateKeepsWellFormed(c, port, cl);
    UpdateClient(c, port, cl)
  }

  /** The ack test of the in-order FIN and ACK branches and of an
      out-of-order FIN: from the last ack seen up to the next sequence
      number, both ends included. */
  predicate AckWithin(cl: Client, ack: uint32) {
    cl.lastAck <= ack <= cl.expectedSeq
  }

  /** The stricter test of out-of-order FIN|ACK and ACK segments: newer than
      the last ack seen. */
  predicate AckNewer(cl: Client, ack: uint32) {
    cl.lastAck < ack <= cl.expectedSeq
  }

  /** A segment buffered under its sequence number, with its window taken. */
  function Buffered(c: Conn, seg: Segment): (r: Conn)
    requires WellFormed(c) && seg.srcPort in c.clients
    ensures WellFormed(r) && r.outbox == c.outbox && r.clients.Keys == c.clients.Keys
    ensures var n := r.clients[seg.srcPort];
      n.messageBuffer == SetItem(c.clients[seg.srcPort].messageBuffer, seg.seqNum, seg)
      && n.windowSize == seg.window
    ensures SameSetup(r, c)
  {
    var cl := c.clients[seg.srcPort];
    var n := cl.(windowSize := seg.window, messageBuffer := SetItem(cl.messageBuffer, seg.seqNum, seg));
    UpdateKeepsWellFormed(c, seg.srcPort, n);
    UpdateClient(c, seg.srcPort, n)
  }

  /** SYN: the sender is added in SYN_RECEIVED expecting the number after the
      SYN (a known one keeps its record), then a SYN|ACK with the default
      sequence number, sent to the segment's address, moves it to SYN_SENT. */
  function OnSyn(c: Conn, seg: Segment): (r: Conn)
    requires WellFormed(c)
    ensures WellFormed(r) && r.clients.Keys == c.clients.Keys + {seg.srcPort}
    ensures SameSetup(r, c)
  {
    var c1 := Emplace(c, seg.srcPort, Fresh(c, seg.srcPort, seg.destinationIP, Add32(seg.seqNum, 1), SYN_RECEIVED));
    Greet(c1, seg.srcPort, Add32(seg.seqNum, 1), CreateFlag(SYN, ACK), seg.destinationIP)
  }

  /** A SYN is answered by one SYN|ACK acknowledging it, and leaves its
      sender in SYN_SENT expecting the number after the SYN, with its next
      sequence number one past the default. */
  lemma {:induction false} OnSynAnswers(c: Conn, seg: Segment)
    requires WellFormed(c)
    ensures var r := OnSyn(c, seg); var n := r.clients[seg.srcPort];
      && r.outbox == c.outbox + [OutgoingFor(c, seg.srcPort, c.cfg.defaultSeq, Add32(seg.seqNum, 1),
                                             CreateFlag(SYN, ACK), c.cfg.windowSize, seg.destinationIP, 0, 0)]
      && n.state == SYN_SENT && n.expectedAck == Add32(seg.seqNum, 1)
      && n.expectedSeq == Add32(c.cfg.defaultSeq, 1)
  {
    var c1 := Emplace(c, seg.srcPort, Fresh(c, seg.srcPort, seg.destinationIP, Add32(seg.seqNum, 1), SYN_RECEIVED));
    assert OutgoingFor(c1, seg.srcPort, c.cfg.defaultSeq, Add32(seg.seqNum, 1), CreateFlag(SYN, ACK), c.cfg.windowSize,
                       seg.destinationIP, 0, 0)
        == OutgoingFor(c, seg.srcPort, c.cfg.defaultSeq, Add32(seg.seqNum, 1), CreateFlag(SYN, ACK), c.cfg.windowSize,
                       seg.destinationIP, 0, 0);
  }

  /** SYN|ACK: only from a known sender whose ack is exactly its next
      sequence number. Then the RTT sample is taken, a bare ACK moves the
      sender to ESTABLISHED, the acknowledged records are dropped and the
      ack and window recorded. */
  function OnSynAck(c: Conn, seg: Segment, now: nat): (r: Conn)
    requires WellFormed(c)
    ensures WellFormed(r) && r.clients.Keys == c.clients.Keys
    ensures seg.srcPort !in c.clients || seg.ackNum != c.clients[seg.srcPort].expectedSeq ==> r == c
    ensures SameSetup(r, c)
  {
    var port := seg.srcPort;
    if port !in c.clients || seg.ackNum != c.clients[port].expectedSeq then c
    else
      var c0 := Sample(c, port, seg.ackNum, now);
      var cl := c0.clients[port];
      var c1 := CreateMessage(c0, port, cl.expectedSeq, Add32(seg.seqNum, 1), Flag.ACK.Value(), c.cfg.windowSize,
                              cl.ip, ESTABLISHED, 0, 0);
      var n := Acknowledge(c1.clients[port], seg);
      UpdateKeepsWellFormed(c1, port, n);
      UpdateClient(c1, port, n)
  }

  /** An accepted SYN|ACK sends exactly one bare ACK acknowledging it and
      leaves its sender ESTABLISHED, expecting the number after the SYN|ACK,
      with the peer's ack and window recorded. */
  lemma {:induction false} SynAckEstablishes(c: Conn, seg: Segment, now: nat)
    requires WellFormed(c) && seg.srcPort in c.clients && seg.ackNum == c.clients[seg.srcPort].expectedSeq
    ensures var cl := c.clients[seg.srcPort]; var r := OnSynAck(c, seg, now); var n := r.clients[seg.srcPort];
      && |r.outbox| == |c.outbox| + 1
      && r.outbox[|c.outbox|].seg.flags == Flag.ACK.Value() && r.outbox[|c.outbox|].stamps.None?
      && r.outbox[|c.outbox|].seg.seqNum == cl.expectedSeq && r.outbox[|c.outbox|].seg.ackNum == Add32(seg.seqNum, 1)
      && n.state == ESTABLISHED && n.expectedAck == Add32(seg.seqNum, 1) && n.expectedSeq == cl.expectedSeq
      && n.lastAck == seg.ackNum && n.windowSize == seg.window
  {
    TrackedValues(Flag.ACK.Value(), 0);
  }

  /** The answer to an in-order FIN the state accepts: a FIN|ACK
      acknowledging it moves the sender to the state `FinReceivedState`
      names; then the peer's window and ack are recorded, the expected ack
      moves past the FIN and the sequence number past the FIN|ACK. */
  function FinAcked(c: Conn, seg: Segment): (r: Conn)
    requires WellFormed(c) && seg.srcPort in c.clients
    ensures WellFormed(r) && r.clients.Keys == c.clients.Keys
    ensures r.sendBuffer == c.sendBuffer && r.cfg == c.cfg && r.timeToClose == c.timeToClose
    ensures r.requeued == c.requeued
    ensures forall q :: q in c.clients && q != seg.srcPort ==> r.clients[q] == c.clients[q]
    ensures var cl := c.clients[seg.srcPort]; var n := r.clients[seg.srcPort];
      && r.outbox == c.outbox + [OutgoingFor(c, seg.srcPort, cl.expectedSeq, Add32(seg.seqNum, 1), CreateFlag(FIN, ACK),
                                             c.cfg.windowSize, cl.ip, 0, 0)]
      && n.state == FinReceivedState(cl.state) && n.isFinSent == cl.isFinSent
      && n.expectedAck == Add32(seg.seqNum, 1) && n.expectedSeq == Add32(cl.expectedSeq, 1)
      && n.lastAck == seg.ackNum && n.windowSize == seg.window
    ensures SameSetup(r, c)
  {
    var port := seg.srcPort;
    var cl := c.clients[port];
    var c1 := CreateMessage(c, port, cl.expectedSeq, Add32(seg.seqNum, 1), CreateFlag(FIN, ACK), c.cfg.windowSize,
                            cl.ip, FinReceivedState(cl.state), 0, 0);
    var n := c1.clients[port].(windowSize := seg.window, lastAck := seg.ackNum, expectedAck := Add32(seg.seqNum, 1),
                               expectedSeq := Add32(cl.expectedSeq, 1));
    UpdateKeepsWellFormed(c1, port, n);
    UpdateClient(c1, port, n)
  }

  /** The in-order FIN the state accepts is acknowledged; a FIN that closes
      an ESTABLISHED peer then goes through messageHandler. */
  function FinAnswer(c: Conn, seg: Segment): (r: Conn)
    requires WellFormed(c) && seg.srcPort in c.clients
    ensures WellFormed(r) && r.clients.Keys == c.clients.Keys
    ensures SameSetup(r, c)
  {
    var c1 := FinAcked(c, seg);
    if c1.clients[seg.srcPort].state == CLOSING then
      MessageHandlerKeepsWellFormed(c1, seg, 0);
      MessageHandler(c1, seg, 0)
    else c1
  }

  /** FIN: the RTT sample first. A FIN ahead of the expected ack goes
      through messageHandler when its ack is in range and is buffered
      otherwise; an in-order FIN with its ack in range is answered when the
      state accepts one; anything else only leaves the sample. */
  function OnFin(c: Conn, seg: Segment, now: nat): (r: Conn)
    requires WellFormed(c)
    ensures WellFormed(r) && r.clients.Keys == c.clients.Keys
    ensures seg.srcPort !in c.clients ==> r == c
    ensures SameSetup(r, c)
  {
    var port := seg.srcPort;
    if port !in c.clients then c
    else
      var c0 := Sample(c, port, seg.ackNum, now);
      var cl := c0.clients[port];
      if seg.seqNum > cl.expectedAck then
        if AckWithin(cl, seg.ackNum) then
          MessageHandlerKeepsWellFormed(c0, seg, 0);
          MessageHandler(c0, seg, 0)
        else Buffered(c0, seg)
      else if AckWithin(cl, seg.ackNum) && seg.seqNum == cl.expectedAck && FinReceivedState(cl.state) != NONE then
        FinAnswer(c0, seg)
      else c0
  }

  /** A FIN ahead of the expected ack is always held in the buffer under
      its sequence number, and nothing is sent for it. */
  lemma {:induction false} FinAheadBuffered(c: Conn, seg: Segment, now: nat)
    requires WellFormed(c) && seg.srcPort in c.clients && seg.seqNum > c.clients[seg.srcPort].expectedAck
    ensures var r := OnFin(c, seg, now); var cl := c.clients[seg.srcPort];
      && r.outbox == c.outbox
      && r.clients[seg.srcPort].messageBuffer == SetItem(cl.messageBuffer, seg.seqNum, seg)
      && r.clients[seg.srcPort].expectedAck == cl.expectedAck
  {
  }

  /** A FIN that is behind the expected ack, or in order but with its ack
      out of range, or in order in a state that takes no FIN, leaves only
      the RTT sample behind. */
  lemma {:induction false} FinStaleOnlySamples(c: Conn, seg: Segment, now: nat)
    requires WellFormed(c) && seg.srcPort in c.clients
    requires var cl := c.clients[seg.srcPort];
      || seg.seqNum < cl.expectedAck
      || (seg.seqNum == cl.expectedAck && (!AckWithin(cl, seg.ackNum) || FinReceivedState(cl.state) == NONE))
    ensures OnFin(c, seg, now) == Sample(c, seg.srcPort, seg.ackNum, now)
  {
  }

  /** In FIN_WAIT_2 an in-order FIN with its ack in range is answered by
      exactly one FIN|ACK acknowledging it and moves the peer to TIME_WAIT,
      expecting the number after the FIN, with its own sequence number one
      past the FIN|ACK. */
  lemma {:induction false} FinInFinWait2(c: Conn, seg: Segment, now: nat)
    requires WellFormed(c) && seg.srcPort in c.clients
    requires var cl := c.clients[seg.srcPort];
      cl.state == FIN_WAIT_2 && seg.seqNum == cl.expectedAck && AckWithin(cl, seg.ackNum)
    ensures var cl := c.clients[seg.srcPort]; var r := OnFin(c, seg, now); var n := r.clients[seg.srcPort];
      && |r.outbox| == |c.outbox| + 1
      && r.outbox[|c.outbox|].seg.flags == CreateFlag(FIN, ACK)
      && r.outbox[|c.outbox|].seg.seqNum == cl.expectedSeq && r.outbox[|c.outbox|].seg.ackNum == Add32(seg.seqNum, 1)
      && n.state == TIME_WAIT && n.expectedAck == Add32(seg.seqNum, 1) && n.expectedSeq == Add32(cl.expectedSeq, 1)
      && n.lastAck == seg.ackNum && n.windowSize == seg.window
  {
  }

  /** In ESTABLISHED an in-order FIN with its ack in range is answered by a
      FIN|ACK acknowledging it and the peer moves to CLOSING; messageHandler
      then pushes the FIN back onto the receive queue when its flag byte is
      exactly FIN, and sends our own FIN (moving on to LAST_ACK) when all
      data is cut. A FIN numbered 2^32 - 1 is excluded: the expected ack
      wraps to 0 and messageHandler buffers the FIN instead. */
  lemma {:induction false} FinInEstablished(c: Conn, seg: Segment, now: nat)
    requires WellFormed(c) && seg.srcPort in c.clients && seg.seqNum < 0xFFFF_FFFF
    requires var cl := c.clients[seg.srcPort];
      cl.state == ESTABLISHED && seg.seqNum == cl.expectedAck && AckWithin(cl, seg.ackNum)
    ensures var cl := c.clients[seg.srcPort]; var r := OnFin(c, seg, now); var n := r.clients[seg.srcPort];
      && |r.outbox| > |c.outbox|
      && r.outbox[|c.outbox|].seg.flags == CreateFlag(FIN, ACK)
      && r.outbox[|c.outbox|].seg.seqNum == cl.expectedSeq && r.outbox[|c.outbox|].seg.ackNum == seg.seqNum + 1
      && n.expectedAck == seg.seqNum + 1 && n.lastAck == seg.ackNum
      && (n.state == CLOSING || (n.state == LAST_ACK && n.isFinSent))
      && r.requeued == c.requeued + (if seg.flags == Flag.FIN.Value() then [seg] else [])
  {
    var c0 := Sample(c, seg.srcPort, seg.ackNum, now);
    assert OnFin(c, seg, now) == FinAnswer(c0, seg);
    FinAnswerClosing(c0, seg);
  }

  /** The answer to a FIN that closes an ESTABLISHED peer, as
      `FinInEstablished` states it after the RTT sample. */
  lemma {:induction false} FinAnswerClosing(c: Conn, seg: Segment)
    requires WellFormed(c) && seg.srcPort in c.clients && seg.seqNum < 0xFFFF_FFFF
    requires c.clients[seg.srcPort].state == ESTABLISHED
    ensures var cl := c.clients[seg.srcPort]; var r := FinAnswer(c, seg); var n := r.clients[seg.srcPort];
      && |r.outbox| > |c.outbox|
      && r.outbox[|c.outbox|].seg.flags == CreateFlag(FIN, ACK)
      && r.outbox[|c.outbox|].seg.seqNum == cl.expectedSeq && r.outbox[|c.outbox|].seg.ackNum == seg.seqNum + 1
      && n.expectedAck == seg.seqNum + 1 && n.lastAck == seg.ackNum
      && (n.state == CLOSING || (n.state == LAST_ACK && n.isFinSent))
      && r.requeued == c.requeued + (if seg.flags == Flag.FIN.Value() then [seg] else [])
  {
    var port := seg.srcPort;
    Add32NoWrap(seg.seqNum, 1);
    var c1 := FinAcked(c, seg);
    var cl1 := c1.clients[port];
    assert cl1.state == CLOSING && cl1.expectedAck == seg.seqNum + 1;
    MessageHandlerAppends(c1, seg, 0);
    HandlerInOrder(c1, seg, 0);
    var r := MessageHandler(c1, seg, 0);
    assert FinAnswer(c, seg) == r;
    assert r.outbox[|c.outbox|] == c1.outbox[|c.outbox|];
  }

  /** The in-order FIN|ACK: the acknowledged records are dropped, the
      sequence number becomes the peer's ack, the expected ack moves past
      the FIN|ACK, the peer's ack and window are recorded, and the state
      moves as `FinAckState` says (to NONE from any state that was not
      waiting for one). Nothing is sent. */
  function FinAckAccepted(cl: Client, seg: Segment): (r: Client)
    ensures r.state == FinAckState(cl.state) && r.expectedSeq == seg.ackNum
    ensures r.expectedAck == Add32(seg.seqNum, 1)
    ensures r == Acknowledge(cl, seg).(state := r.state, expectedSeq := r.expectedSeq, expectedAck := r.expectedAck)
  {
    Acknowledge(cl, seg).(expectedSeq := seg.ackNum, expectedAck := Add32(seg.seqNum, 1), state := FinAckState(cl.state))
  }

  /** FIN|ACK: the RTT sample first. One ahead of the expected ack goes
      through messageHandler only when its ack is newer than the last one
      seen, and is dropped otherwise; one that is exactly in order on both
      numbers is accepted; anything else only leaves the sample. */
  function OnFinAck(c: Conn, seg: Segment, now: nat): (r: Conn)
    requires WellFormed(c)
    ensures WellFormed(r) && r.clients.Keys == c.clients.Keys
    ensures seg.srcPort !in c.clients ==> r == c
    ensures SameSetup(r, c)
  {
    var port := seg.srcPort;
    if port !in c.clients then c
    else
      var c0 := Sample(c, port, seg.ackNum, now);
      var cl := c0.clients[port];
      if seg.seqNum > cl.expectedAck then
        if AckNewer(cl, seg.ackNum) then
          MessageHandlerKeepsWellFormed(c0, seg, 0);
          MessageHandler(c0, seg, 0)
        else c0
      else if seg.ackNum == cl.expectedSeq && seg.seqNum == cl.expectedAck then
        var n := FinAckAccepted(cl, seg);
        UpdateKeepsWellFormed(c0, port, n);
        UpdateClient(c0, port, n)
      else c0
  }

  /** An in-order FIN|ACK completes our FIN: FIN_WAIT_1 becomes FIN_WAIT_2
      and LAST_ACK becomes CLOSED, the records it acknowledges leave the
      queue, and nothing is sent. */
  lemma {:induction false} FinAckTransition(c: Conn, seg: Segment, now: nat)
    requires WellFormed(c) && seg.srcPort in c.clients
    requires var cl := c.clients[seg.srcPort]; seg.ackNum == cl.expectedSeq && seg.seqNum == cl.expectedAck
    ensures var cl := c.clients[seg.srcPort]; var r := OnFinAck(c, seg, now); var n := r.clients[seg.srcPort];
      && r.outbox == c.outbox
      && (cl.state == FIN_WAIT_1 ==> n.state == FIN_WAIT_2)
      && (cl.state == LAST_ACK ==> n.state == CLOSED)
      && n.messagesSent == cl.messagesSent[AckedPrefix(cl.messagesSent, seg.ackNum)..]
      && n.expectedAck == Add32(seg.seqNum, 1) && n.expectedSeq == seg.ackNum && n.lastAck == seg.ackNum
  {
  }

  /** A FIN|ACK that is neither ahead of the expected ack nor in order on
      both numbers, or ahead but with an ack that is not newer, leaves only
      the RTT sample behind: unlike a FIN or an ACK it is never buffered. */
  lemma {:induction false} FinAckMismatchOnlySamples(c: Conn, seg: Segment, now: nat)
    requires WellFormed(c) && seg.srcPort in c.clients
    requires var cl := c.clients[seg.srcPort];
      || (seg.seqNum <= cl.expectedAck && !(seg.ackNum == cl.expectedSeq && seg.seqNum == cl.expectedAck))
      || (seg.seqNum > cl.expectedAck && !AckNewer(cl, seg.ackNum))
    ensures OnFinAck(c, seg, now) == Sample(c, seg.srcPort, seg.ackNum, now)
  {
  }

  /** What draining the out-of-order buffer leaves: the buffer, the next
      expected number, the payloads written in order, the last segment
      popped (if any) and the length of the last write. */
  datatype Drained = Drained(buffer: Buffer, next: uint32, written: seq<seq<byte>>, last: Option<Segment>,
                             lastWrite: nat)

  /** The segments the drain writes: flag byte exactly ACK, with data. */
  predicate DataAck(s: Segment) {
    s.flags == Flag.ACK.Value() && |s.data| > 0
  }

  /** The payload lengths summed. */
  function TotalLength(ws: seq<seq<byte>>): nat
    decreases |ws|
  {
    if |ws| == 0 then 0 else |ws[0]| + TotalLength(ws[1..])
  }

  /** The `popItemMessageBuffer` loop of the in-order ACK branch: while a
      segment is held at the next number it is popped; a data ACK is written
      and the number moves on by its length (in 32 bits); anything else ends
      the loop, popped. When nothing is held at the first number the loop
      does not run, which is what the `checkItemMessageBuffer` guard in
      front of it amounts to. */
  function Drain(b: Buffer, next: uint32, last: Option<Segment>, lastWrite: nat): (r: Drained)
    ensures r.next !in r.buffer
    ensures forall k :: k in r.buffer ==> k in b && r.buffer[k] == b[k]
    ensures r.last != last ==> r.last.Some? && r.last.value in b.Values
    ensures forall i :: 0 <= i < |r.written| ==> |r.written[i]| > 0
    ensures lastWrite > 0 ==> r.lastWrite > 0
    decreases |b|
  {
    var p := PopItem(b, next);
    if !p.found then Drained(b, next, [], last, lastWrite)
    else
      var s := p.item.value;
      if DataAck(s) then
        var d := Drain(p.buffer, Add32(next, |s.data|), Some(s), |s.data|);
        d.(written := [s.data] + d.written)
      else Drained(p.buffer, next, [], Some(s), lastWrite)
  }

  /** The drain moves the expected number on by exactly the bytes it
      writes, in 32 bits. */
  lemma {:induction false} DrainAdvances(b: Buffer, next: uint32, last: Option<Segment>, lastWrite: nat)
    ensures var r := Drain(b, next, last, lastWrite); r.next == Add32(next, TotalLength(r.written))
    decreases |b|
  {
    var p := PopItem(b, next);
    if !p.found {
      Add32NoWrap(next, 0);
    } else if DataAck(p.item.value) {
      var s := p.item.value;
      var d := Drain(p.buffer, Add32(next, |s.data|), Some(s), |s.data|);
      DrainAdvances(p.buffer, Add32(next, |s.data|), Some(s), |s.data|);
      var w := [s.data] + d.written;
      assert Drain(b, next, last, lastWrite) == d.(written := w);
      assert w[1..] == d.written;
      assert TotalLength(w) == |s.data| + TotalLength(d.written);
      Add32Assoc(next, |s.data|, TotalLength(d.written));
    } else {
      Add32NoWrap(next, 0);
    }
  }

  /** The key after a payload of length n and then t more bytes is the key
      after all of them. */
  lemma {:induction false} ChainKey(next: uint32, n: nat, t: nat, total: nat)
    requires total == n + t
    ensures Add32(Add32(next, n), t) == Add32(next, total)
  {
    Add32Assoc(next, n, t);
  }

  /** A drain that writes anything first writes the data ACK held at the
      expected number, then drains the rest of the buffer after it. */
  lemma {:induction false} DrainFirst(b: Buffer, next: uint32, last: Option<Segment>, lastWrite: nat)
    requires |Drain(b, next, last, lastWrite).written| > 0
    ensures next in b && DataAck(b[next])
    ensures var s := b[next];
      Drain(b, next, last, lastWrite).written
        == [s.data] + Drain(PopItem(b, next).buffer, Add32(next, |s.data|), Some(s), |s.data|).written
  {
  }

  /** Payload i the drain writes is the data of the data ACK held where
      the payloads before it end. */
  lemma {:induction false} DrainReadsChain(b: Buffer, next: uint32, last: Option<Segment>, lastWrite: nat, i: nat)
    requires i < |Drain(b, next, last, lastWrite).written|
    ensures var r := Drain(b, next, last, lastWrite); var k := Add32(next, TotalLength(r.written[..i]));
      k in b && DataAck(b[k]) && b[k].data == r.written[i]
    decreases |b|
  {
    DrainFirst(b, next, last, lastWrite);
    var s := b[next];
    var rest := PopItem(b, next).buffer;
    var d := Drain(rest, Add32(next, |s.data|), Some(s), |s.data|);
    var w := [s.data] + d.written;
    if i == 0 {
      assert w[..0] == [];
      Add32NoWrap(next, 0);
    } else {
      DrainReadsChain(rest, Add32(next, |s.data|), Some(s), |s.data|, i - 1);
      var t := TotalLength(d.written[..i - 1]);
      TotalLengthCons(s.data, d.written, i);
      ChainKey(next, |s.data|, t, TotalLength(w[..i]));
      assert w[i] == d.written[i - 1];
    }
  }

  /** The bytes of the first i payloads of `[x] + ws`. */
  lemma {:induction false} TotalLengthCons(x: seq<byte>, ws: seq<seq<byte>>, i: nat)
    requires 0 < i <= |ws| + 1
    ensures TotalLength(([x] + ws)[..i]) == |x| + TotalLength(ws[..i - 1])
  {
    assert ([x] + ws)[..i][1..] == ws[..i - 1];
  }

  /** The drain after an in-order payload: it starts where the payload
      ends, with the payload as the last write. */
  function DrainAfter(cl: Client, seg: Segment): (d: Drained)
    ensures d.next == Add32(seg.seqNum, |seg.data| + TotalLength(d.written))
    ensures d.next !in d.buffer
  {
    var d := Drain(cl.messageBuffer, Add32(seg.seqNum, |seg.data|), None, |seg.data|);
    DrainAdvances(cl.messageBuffer, Add32(seg.seqNum, |seg.data|), None, |seg.data|);
    Add32Assoc(seg.seqNum, |seg.data|, TotalLength(d.written));
    d
  }

  /** The segment messageHandler gets after a payload: the last one the
      drain popped, or the payload's own, numbered where the drain stopped. */
  function Handed(seg: Segment, d: Drained): (s: Segment)
    ensures s.seqNum == d.next
  {
    (if d.last.Some? then d.last.value else seg).(seqNum := d.next)
  }

  /** An in-order ACK with its ack in range: a payload is recorded, followed
      by the data ACKs the drain writes, and the expected ack moves past
      them all; SYN_SENT becomes ESTABLISHED; then messageHandler runs on
      the segment `Handed` names, with the length of the last write. */
  function Deliver(c: Conn, seg: Segment): (r: Conn)
    requires WellFormed(c) && seg.srcPort in c.clients
    ensures WellFormed(r) && r.clients.Keys == c.clients.Keys
    ensures SameSetup(r, c)
  {
    var port := seg.srcPort;
    var cl := c.clients[port];
    var state := if cl.state == SYN_SENT then ESTABLISHED else cl.state;
    if |seg.data| == 0 then
      UpdateKeepsWellFormed(c, port, cl.(state := state));
      var c1 := UpdateClient(c, port, cl.(state := state));
      MessageHandlerKeepsWellFormed(c1, seg, 0);
      MessageHandler(c1, seg, 0)
    else
      var d := DrainAfter(cl, seg);
      var n := cl.(received := cl.received + [seg.data] + d.written, messageBuffer := d.buffer,
                   expectedAck := d.next, state := state);
      UpdateKeepsWellFormed(c, port, n);
      var c1 := UpdateClient(c, port, n);
      MessageHandlerKeepsWellFormed(c1, Handed(seg, d), d.lastWrite);
      MessageHandler(c1, Handed(seg, d), d.lastWrite)
  }

  /** ACK: the RTT sample first. One ahead of the expected ack goes through
      messageHandler when its ack is newer than the last one seen and is
      buffered otherwise; one in order with its ack in range is delivered;
      anything else only leaves the sample. */
  function OnAck(c: Conn, seg: Segment, now: nat): (r: Conn)
    requires WellFormed(c)
    ensures WellFormed(r) && r.clients.Keys == c.clients.Keys
    ensures seg.srcPort !in c.clients ==> r == c
    ensures SameSetup(r, c)
  {
    var port := seg.srcPort;
    if port !in c.clients then c
    else
      var c0 := Sample(c, port, seg.ackNum, now);
      var cl := c0.clients[port];
      if seg.seqNum > cl.expectedAck then
        if AckNewer(cl, seg.ackNum) then
          MessageHandlerKeepsWellFormed(c0, seg, 0);
          MessageHandler(c0, seg, 0)
        else Buffered(c0, seg)
      else if AckWithin(cl, seg.ackNum) && seg.seqNum == cl.expectedAck then Deliver(c0, seg)
      else c0
  }

  /** An ACK ahead of the expected ack is always held in the buffer under
      its sequence number, and nothing is sent for it. */
  lemma {:induction false} AckAheadBuffered(c: Conn, seg: Segment, now: nat)
    requires WellFormed(c) && seg.srcPort in c.clients && seg.seqNum > c.clients[seg.srcPort].expectedAck
    ensures var r := OnAck(c, seg, now); var cl := c.clients[seg.srcPort];
      && r.outbox == c.outbox
      && r.clients[seg.srcPort].messageBuffer == SetItem(cl.messageBuffer, seg.seqNum, seg)
      && r.clients[seg.srcPort].expectedAck == cl.expectedAck
  {
  }

  /** An ACK behind the expected ack, or in order with its ack out of range,
      leaves only the RTT sample behind. */
  lemma {:induction false} StaleAckOnlySamples(c: Conn, seg: Segment, now: nat)
    requires WellFormed(c) && seg.srcPort in c.clients
    requires var cl := c.clients[seg.srcPort];
      seg.seqNum < cl.expectedAck || (seg.seqNum == cl.expectedAck && !AckWithin(cl, seg.ackNum))
    ensures OnAck(c, seg, now) == Sample(c, seg.srcPort, seg.ackNum, now)
  {
  }

  /** A payload delivered in order is recorded with the data ACKs the
      drain writes after it, the expected ack moves past them all, the
      buffer keeps what the drain left (nothing at the new expected number),
      and at least one segment answers it. */
  lemma {:induction false} DeliverData(c: Conn, seg: Segment)
    requires WellFormed(c) && seg.srcPort in c.clients && |seg.data| > 0
    ensures var cl := c.clients[seg.srcPort]; var d := DrainAfter(cl, seg);
      var r := Deliver(c, seg); var n := r.clients[seg.srcPort];
      && n.received == cl.received + [seg.data] + d.written
      && n.expectedAck == d.next && n.messageBuffer == d.buffer
      && |r.outbox| > |c.outbox|
  {
    var port := seg.srcPort;
    var cl := c.clients[port];
    var d := DrainAfter(cl, seg);
    var state := if cl.state == SYN_SENT then ESTABLISHED else cl.state;
    var n := cl.(received := cl.received + [seg.data] + d.written, messageBuffer := d.buffer,
                 expectedAck := d.next, state := state);
    UpdateKeepsWellFormed(c, port, n);
    var c1 := UpdateClient(c, port, n);
    var h := Handed(seg, d);
    if d.last.Some? {
      assert d.last.value in cl.messageBuffer.Values;
    }
    assert h.srcPort == port;
    assert Deliver(c, seg) == MessageHandler(c1, h, d.lastWrite);
    HandlerInOrder(c1, h, d.lastWrite);
    HandlerAnswersData(c1, h, d.lastWrite);
  }

  /** An in-order ACK with its ack in range and a payload: the payload and
      the buffered data ACKs that continue it are recorded in order, the
      expected ack moves to where the drain stopped, which `DrainAfter`
      places past all of them (in 32 bits), and at least one segment
      answers it. */
  lemma {:induction false} AckDelivers(c: Conn, seg: Segment, now: nat)
    requires WellFormed(c) && seg.srcPort in c.clients && |seg.data| > 0
    requires var cl := c.clients[seg.srcPort]; seg.seqNum == cl.expectedAck && AckWithin(cl, seg.ackNum)
    ensures var cl := c.clients[seg.srcPort]; var d := DrainAfter(cl, seg);
      var r := OnAck(c, seg, now); var n := r.clients[seg.srcPort];
      && n.received == cl.received + [seg.data] + d.written
      && n.expectedAck == d.next && n.messageBuffer == d.buffer
      && |r.outbox| > |c.outbox|
  {
    var c0 := Sample(c, seg.srcPort, seg.ackNum, now);
    var d := DrainAfter(c.clients[seg.srcPort], seg);
    assert OnAck(c, seg, now) == Deliver(c0, seg);
    assert DrainAfter(c0.clients[seg.srcPort], seg) == d;
    DeliverData(c0, seg);
  }

  // ---------------------------------------------------------------------
  // Dispatch
  // ---------------------------------------------------------------------

  /** The branch a decoded flag byte selects; PSH|ACK, RST, DATA and
      anything invalid are dropped. */
  function Dispatch(c: Conn, seg: Segment, t: FlagType, now: nat): (r: Conn)
    requires WellFormed(c)
  {
    match t
    case SYN_ONLY => OnSyn(c, seg)
    case SYN_ACK => OnSynAck(c, seg, now)
    case FIN_ONLY => OnFin(c, seg, now)
    case FIN_ACK => OnFinAck(c, seg, now)
    case ACK_ONLY => OnAck(c, seg, now)
    case _ => c
  }

  /** Every branch keeps the connection well formed and its setup; only a
      SYN can add a client, and only the one it came from; the dropped kinds
      change nothing. */
  lemma {:induction false} DispatchKeepsWellFormed(c: Conn, seg: Segment, t: FlagType, now: nat)
    requires WellFormed(c)
    ensures var r := Dispatch(c, seg, t, now);
      && WellFormed(r) && SameSetup(r, c)
      && r.clients.Keys == (if t == SYN_ONLY then c.clients.Keys + {seg.srcPort} else c.clients.Keys)
    ensures t in {PSH_ACK, RST_ONLY, DATA, INVALID} ==> Dispatch(c, seg, t, now) == c
  {
  }

  /** A received segment: one addressed to another port is dropped with a
      warning; otherwise it goes to the branch its flag byte decodes to. */
  function Receive(c: Conn, seg: Segment, now: nat): (r: Conn)
    requires WellFormed(c)
    ensures WellFormed(r) && SameSetup(r, c)
    ensures seg.dstPort != c.cfg.sourcePort ==> r == c
    ensures r.clients.Keys == c.clients.Keys
      || (seg.dstPort == c.cfg.sourcePort && DecodeFlags(seg.flags) == SYN_ONLY
          && r.clients.Keys == c.clients.Keys + {seg.srcPort})
  {
    if seg.dstPort != c.cfg.sourcePort then c
    else
      DispatchKeepsWellFormed(c, seg, DecodeFlags(seg.flags), now);
      Dispatch(c, seg, DecodeFlags(seg.flags), now)
  }

  // ---------------------------------------------------------------------
  // Input
  // ---------------------------------------------------------------------

  /** What `sendMessages` leaves a client with: it stands at the end of the
      slices its free window allows over `buffer`, its sequence number
      advanced by the bytes cut, and only the cut point, the sequence number
      and the retransmission bookkeeping changed. */
  predicate Offered(n: Client, cl: Client, buffer: seq<byte>) {
    var cuts := Cuts(cl.lastByteSent, |buffer|, Available(cl));
    && n.lastByteSent == CutEnd(cl.lastByteSent, cuts)
    && n.expectedSeq == Add32(cl.expectedSeq, CutEnd(cl.lastByteSent, cuts) - cl.lastByteSent)
    && CutFrame(n, cl)
  }

  /** One port of the input pass: a client in ESTABLISHED or CLOSING gets
      `sendMessages` with no data written; nothing else changes. */
  function SendStep(c: Conn, port: uint16): (r: Conn)
    requires WellFormed(c)
    ensures WellFormed(r) && r.clients.Keys == c.clients.Keys
    ensures r == c.(clients := r.clients, outbox := r.outbox, nextId := r.nextId)
    ensures c.outbox <= r.outbox
    ensures forall q :: q in c.clients && (q != port || !Sending(c.clients[q].state)) ==> r.clients[q] == c.clients[q]
    ensures port in c.clients && Sending(c.clients[port].state) ==>
      Offered(r.clients[port], c.clients[port], c.sendBuffer)
  {
    if port in c.clients && Sending(c.clients[port].state) then
      SendMessagesAdvances(c, port, 0);
      SendMessages(c, port, 0)
    else c
  }

  /** The input pass from port `p` upwards, in ascending port order. */
  function SendFrom(c: Conn, p: nat): (r: Conn)
    requires WellFormed(c) && p <= 0x1_0000
    ensures WellFormed(r) && r.clients.Keys == c.clients.Keys
    ensures r == c.(clients := r.clients, outbox := r.outbox, nextId := r.nextId)
    ensures c.outbox <= r.outbox
    ensures forall q :: q in c.clients && (q < p || !Sending(c.clients[q].state)) ==> r.clients[q] == c.clients[q]
    ensures forall q :: q in c.clients && p <= q && Sending(c.clients[q].state) ==>
      Offered(r.clients[q], c.clients[q], c.sendBuffer)
    decreases 0x1_0000 - p
  {
    if p == 0x1_0000 then c
    else
      var step := SendStep(c, p as uint16);
      var r := SendFrom(step, p + 1);
      PrefixTrans(c.outbox, step.outbox, r.outbox);
      r
  }

  /** A block of input: its bytes join the send buffer and every client in
      ESTABLISHED or CLOSING is offered as much of the unsent data as its
      free window allows; no other client changes. */
  function Input(c: Conn, text: seq<byte>): (r: Conn)
    requires WellFormed(c)
    ensures WellFormed(r) && r.clients.Keys == c.clients.Keys
    ensures r.sendBuffer == c.sendBuffer + text && r.cfg == c.cfg && r.timeToClose == c.timeToClose
    ensures r.requeued == c.requeued && c.outbox <= r.outbox
    ensures forall q :: q in c.clients && !Sending(c.clients[q].state) ==> r.clients[q] == c.clients[q]
    ensures forall q :: q in c.clients && Sending(c.clients[q].state) ==>
      Offered(r.clients[q], c.clients[q], c.sendBuffer + text)
  {
    SendFrom(c.(sendBuffer := c.sendBuffer + text), 0)
  }

  // ---------------------------------------------------------------------
  // The close pass
  // ---------------------------------------------------------------------

  /** The timeout test of the close pass and the resend check: a record is
      queued, its send has completed, and more than `factor` timeout
      intervals have passed since. */
  predicate Overdue(cl: Client, now: nat, factor: real) {
    |cl.messagesSent| > 0 && GetMessageTimeSent(cl) != ZERO_TIME
    && ((now - GetMessageTimeSent(cl)) as real) > factor * cl.transmission.timeoutInterval
  }

  /** What the close pass does with one client. */
  datatype CloseAction = Stay | Finish | Drop

  /** A FIN once all data is cut and none has been sent; removal once CLOSED,
      or once TIME_WAIT has seen its queue front wait more than twice the
      timeout interval. */
  function CloseChoice(cl: Client, bufferLength: nat, now: nat): (r: CloseAction)
    ensures r == Finish <==> !cl.isFinSent && cl.lastByteSent == bufferLength
    ensures r == Drop <==>
      cl.isFinSent && (cl.state == CLOSED || (cl.state == TIME_WAIT && Overdue(cl, now, 2.0)))
  {
    if !cl.isFinSent then (if cl.lastByteSent == bufferLength then Finish else Stay)
    else if cl.state == TIME_WAIT then (if Overdue(cl, now, 2.0) then Drop else Stay)
    else if cl.state == CLOSED then Drop
    else Stay
  }

  /** A client as the close pass leaves it: after a FIN it is marked, its
      state is the one the close pass picks and its sequence number moves
      past the FIN; otherwise it is as it was. */
  predicate ClosedAs(n: Client, cl: Client, a: CloseAction) {
    if a == Finish then
      n.isFinSent && n.state == CloseFinState(cl.state) && n.expectedSeq == Add32(cl.expectedSeq, 1)
      && FinFrame(n, cl)
    else n == cl
  }

  /** The FIN the close pass sends to the client under `port`. */
  function CloseFin(c: Conn, port: uint16, cl: Client): (o: Outgoing)
    ensures o.seg.flags == Flag.FIN.Value() && o.seg.dstPort == port && o.seg.data == []
    ensures o.seg.seqNum == cl.expectedSeq && o.seg.ackNum == cl.expectedAck
  {
    OutgoingFor(c, port, cl.expectedSeq, cl.expectedAck, Flag.FIN.Value(), c.cfg.windowSize, cl.ip, 0, 0)
  }

  /** One port of the close pass. */
  function CloseStep(c: Conn, now: nat, port: uint16, remove: set<uint16>): (r: (Conn, set<uint16>))
    requires WellFormed(c)
    ensures WellFormed(r.0) && r.0.clients.Keys == c.clients.Keys
    ensures r.0 == c.(clients := r.0.clients, outbox := r.0.outbox, nextId := r.0.nextId)
    ensures forall q :: q in c.clients && q != port ==> r.0.clients[q] == c.clients[q]
    ensures port in c.clients ==>
      var a := CloseChoice(c.clients[port], |c.sendBuffer|, now);
      && ClosedAs(r.0.clients[port], c.clients[port], a)
      && r.0.outbox == c.outbox + (if a == Finish then [CloseFin(c, port, c.clients[port])] else [])
    ensures port !in c.clients ==> r.0 == c
    ensures r.1 == if port in c.clients && CloseChoice(c.clients[port], |c.sendBuffer|, now) == Drop
                   then remove + {port} else remove
  {
    if port !in c.clients then (c, remove)
    else
      var cl := c.clients[port];
      match CloseChoice(cl, |c.sendBuffer|, now)
      case Finish => (SendFin(c, port, CloseFinState(cl.state)), remove)
      case Drop => (c, remove + {port})
      case Stay => (c, remove)
  }

  /** The close pass from port `p` upwards, in ascending port order,
      collecting the ports to remove. */
  function CloseFrom(c: Conn, now: nat, p: nat, remove: set<uint16>): (r: (Conn, set<uint16>))
    requires WellFormed(c) && p <= 0x1_0000
    ensures WellFormed(r.0) && r.0.clients.Keys == c.clients.Keys
    ensures r.0 == c.(clients := r.0.clients, outbox := r.0.outbox, nextId := r.0.nextId)
    ensures c.outbox <= r.0.outbox
    ensures forall q :: q in c.clients && q < p ==> r.0.clients[q] == c.clients[q]
    ensures forall q :: q in c.clients && p <= q ==>
      ClosedAs(r.0.clients[q], c.clients[q], CloseChoice(c.clients[q], |c.sendBuffer|, now))
    ensures forall q: uint16 :: q in r.1 <==>
      q in remove || (q in c.clients && p <= q && CloseChoice(c.clients[q], |c.sendBuffer|, now) == Drop)
    decreases 0x1_0000 - p
  {
    if p == 0x1_0000 then (c, remove)
    else
      var step := CloseStep(c, now, p as uint16, remove);
      var r := CloseFrom(step.0, now, p + 1, step.1);
      PrefixTrans(c.outbox, step.0.outbox, r.0.outbox);
      r
  }

  /** The `timeToClose` pass: every client is dealt with as `CloseChoice`
      says, in ascending port order, and the ports marked for removal are
      erased afterwards. */
  function ClosePass(c: Conn, now: nat): (r: Conn)
    requires WellFormed(c)
    ensures WellFormed(r) && c.outbox <= r.outbox
    ensures r == c.(clients := r.clients, outbox := r.outbox, nextId := r.nextId)
    ensures forall q :: q in c.clients ==>
      (q in r.clients <==> CloseChoice(c.clients[q], |c.sendBuffer|, now) != Drop)
    ensures forall q :: q in r.clients ==>
      q in c.clients && ClosedAs(r.clients[q], c.clients[q], CloseChoice(c.clients[q], |c.sendBuffer|, now))
  {
    var pass := CloseFrom(c, now, 0, {});
    pass.0.(clients := pass.0.clients - pass.1)
  }

  /** A client that had cut all the data leaves the close pass either
      removed or with its FIN sent: one that had not sent it yet stays, with
      the FIN sent now and the state the close pass picks. */
  lemma {:induction false} ClosePassFinishes(c: Conn, now: nat, q: uint16)
    requires WellFormed(c) && q in c.clients && c.clients[q].lastByteSent == |c.sendBuffer|
    ensures var r := ClosePass(c, now); var cl := c.clients[q];
      && (q in r.clients ==> r.clients[q].isFinSent)
      && (!cl.isFinSent ==> q in r.clients && r.clients[q].state == CloseFinState(cl.state))
  {
    var cl := c.clients[q];
    var a := CloseChoice(cl, |c.sendBuffer|, now);
    var r := ClosePass(c, now);
    if q in r.clients {
      assert ClosedAs(r.clients[q], cl, a);
    }
  }

  /** A client in TIME_WAIT whose queue front has waited at most twice the
      timeout interval survives the close pass unchanged; a CLOSED client
      that has sent its FIN does not survive it. */
  lemma {:induction false} TimeWaitLingers(c: Conn, now: nat, q: uint16)
    requires WellFormed(c) && q in c.clients
    ensures var cl := c.clients[q];
      cl.isFinSent && cl.state == TIME_WAIT && !Overdue(cl, now, 2.0) ==>
        q in ClosePass(c, now).clients && ClosePass(c, now).clients[q] == cl
    ensures var cl := c.clients[q];
      cl.isFinSent && cl.state == CLOSED ==> q !in ClosePass(c, now).clients
  {
  }

  // ---------------------------------------------------------------------
  // messageResendCheck
  // ---------------------------------------------------------------------

  /** What the resend check does with one client. */
  datatype ResendAction = Quiet | Retransmit | Expire

  /** A CLOSED client expires; any other whose queue front has waited more
      than one timeout interval gets a retransmission. */
  function ResendChoice(cl: Client, now: nat): (r: ResendAction)
    ensures r == Expire <==> cl.state == CLOSED
    ensures r == Retransmit <==> cl.state != CLOSED && Overdue(cl, now, 1.0)
  {
    if cl.state == CLOSED then Expire
    else if Overdue(cl, now, 1.0) then Retransmit
    else Quiet
  }

  /** Whether the resend check removes the client: it is CLOSED, or this
      retransmission takes its count of timeouts past MAX_TIMEOUTS. */
  predicate GivesUp(cl: Client, now: nat) {
    var a := ResendChoice(cl, now);
    a == Expire || (a == Retransmit && cl.transmission.numberOfTimeouts + 1 > MAX_TIMEOUTS)
  }

  /** A client as the resend check leaves it: after a retransmission its
      queue, state, sequence number and cut point are as they were, the
      front's size is counted once more, and the timeout interval is doubled
      (below the limit) with the timeout counted; otherwise it is as it
      was. */
  predicate ResentAs(n: Client, cl: Client, a: ResendAction) {
    if a == Retransmit then
      && |cl.messagesSent| > 0
      && n.messagesSent == cl.messagesSent && n.state == cl.state
      && n.totalSize == Add16(cl.totalSize, SegSize(cl.messagesSent[0]))
      && n.expectedSeq == cl.expectedSeq && n.lastByteSent == cl.lastByteSent
      && n.transmission == DoubleTimeoutInterval(cl.transmission)
    else n == cl
  }

  /** One port of the resend check. */
  function ResendStep(c: Conn, now: nat, port: uint16, remove: set<uint16>): (r: (Conn, set<uint16>))
    requires WellFormed(c)
    ensures WellFormed(r.0) && r.0.clients.Keys == c.clients.Keys
    ensures r.0 == c.(clients := r.0.clients, outbox := r.0.outbox, nextId := r.0.nextId)
    ensures c.outbox <= r.0.outbox
    ensures forall q :: q in c.clients && q != port ==> r.0.clients[q] == c.clients[q]
    ensures port in c.clients ==>
      var cl := c.clients[port]; var a := ResendChoice(cl, now);
      && ResentAs(r.0.clients[port], cl, a)
      && (a != Retransmit ==> r.0.outbox == c.outbox)
      && (a == Retransmit ==>
            && |r.0.outbox| == |c.outbox| + 1
            && r.0.outbox[|c.outbox|].seg.seqNum == cl.messagesSent[0].seqNum
            && r.0.outbox[|c.outbox|].seg.flags == cl.messagesSent[0].flag)
    ensures port !in c.clients ==> r.0 == c
    ensures r.1 == if port in c.clients && GivesUp(c.clients[port], now) then remove + {port} else remove
  {
    if port !in c.clients then (c, remove)
    else
      var cl := c.clients[port];
      match ResendChoice(cl, now)
      case Retransmit =>
        ResendRepeatsFront(c, port);
        var c1 := ResendMessages(c, port);
        var n := c1.clients[port].(transmission := DoubleTimeoutInterval(c1.clients[port].transmission));
        UpdateKeepsWellFormed(c1, port, n);
        var r := UpdateClient(c1, port, n);
        (r, if n.transmission.numberOfTimeouts > MAX_TIMEOUTS then remove + {port} else remove)
      case Expire => (c, remove + {port})
      case Quiet => (c, remove)
  }

  /** The resend check from port `p` upwards, in ascending port order,
      collecting the ports to remove. */
  function ResendFrom(c: Conn, now: nat, p: nat, remove: set<uint16>): (r: (Conn, set<uint16>))
    requires WellFormed(c) && p <= 0x1_0000
    ensures WellFormed(r.0) && r.0.clients.Keys == c.clients.Keys
    ensures r.0 == c.(clients := r.0.clients, outbox := r.0.outbox, nextId := r.0.nextId)
    ensures c.outbox <= r.0.outbox
    ensures forall q :: q in c.clients && q < p ==> r.0.clients[q] == c.clients[q]
    ensures forall q :: q in c.clients && p <= q ==>
      ResentAs(r.0.clients[q], c.clients[q], ResendChoice(c.clients[q], now))
    ensures forall q: uint16 :: q in r.1 <==> q in remove || (q in c.clients && p <= q && GivesUp(c.clients[q], now))
    decreases 0x1_0000 - p
  {
    if p == 0x1_0000 then (c, remove)
    else
      var step := ResendStep(c, now, p as uint16, remove);
      var r := ResendFrom(step.0, now, p + 1, step.1);
      PrefixTrans(c.outbox, step.0.outbox, r.0.outbox);
      r
  }

  /** `messageResendCheck`: every client is dealt with as `ResendChoice`
      says, in ascending port order, and the ports it gives up on are erased
      afterwards. */
  function ResendCheck(c: Conn, now: nat): (r: Conn)
    requires WellFormed(c)
    ensures WellFormed(r) && c.outbox <= r.outbox
    ensures r == c.(clients := r.clients, outbox := r.outbox, nextId := r.nextId)
    ensures forall q :: q in c.clients ==> (q in r.clients <==> !GivesUp(c.clients[q], now))
    ensures forall q :: q in r.clients ==>
      q in c.clients && ResentAs(r.clients[q], c.clients[q], ResendChoice(c.clients[q], now))
  {
    var pass := ResendFrom(c, now, 0, {});
    pass.0.(clients := pass.0.clients - pass.1)
  }

  /** A client that is not CLOSED and whose queue front has not waited more
      than one timeout interval (or whose send has not completed) is neither
      resent to nor removed. */
  lemma {:induction false} ResendQuietWhileTimely(c: Conn, now: nat, q: uint16)
    requires WellFormed(c) && q in c.clients
    requires c.clients[q].state != CLOSED && !Overdue(c.clients[q], now, 1.0)
    ensures q in ResendCheck(c, now).clients && ResendCheck(c, now).clients[q] == c.clients[q]
  {
  }

  /** A client that has already timed out MAX_TIMEOUTS times is removed on
      its next timeout; below that, a timeout keeps it and counts one more. */
  lemma {:induction false} ResendGivesUp(c: Conn, now: nat, q: uint16)
    requires WellFormed(c) && q in c.clients
    requires c.clients[q].state != CLOSED && Overdue(c.clients[q], now, 1.0)
    ensures var t := c.clients[q].transmission.numberOfTimeouts; var r := ResendCheck(c, now);
      && (t >= MAX_TIMEOUTS ==> q !in r.clients)
      && (t < MAX_TIMEOUTS ==> q in r.clients && r.clients[q].transmission.numberOfTimeouts == t + 1)
  {
    var cl := c.clients[q];
    assert ResendChoice(cl, now) == Retransmit;
    var r := ResendCheck(c, now);
    if q in r.clients {
      assert ResentAs(r.clients[q], cl, Retransmit);
    }
  }

  // ---------------------------------------------------------------------
  // The loop
  // ---------------------------------------------------------------------

  /** The send-completion callback of a segment with a shared record: every
      copy of the record held by the client takes the send time. Nothing
      else changes, and a client no longer present is not touched. */
  function SendDone(c: Conn, port: uint16, id: nat, now: nat): (r: Conn)
    requires WellFormed(c)
    ensures WellFormed(r) && r.clients.Keys == c.clients.Keys
    ensures r == c.(clients := r.clients)
    ensures forall q :: q in c.clients && q != port ==> r.clients[q] == c.clients[q]
    ensures port in c.clients ==> r.clients[port] == StampClient(c.clients[port], id, now)
  {
    if port in c.clients then
      UpdateKeepsWellFormed(c, port, StampClient(c.clients[port], id, now));
      UpdateClient(c, port, StampClient(c.clients[port], id, now))
    else c
  }

  /** What the event loop sees next: a received segment, the next segment
      pushed back onto the receive queue, a block of input, an idle turn, a
      completed send, or `disconnect` raising the close request. */
  datatype Event =
    | Arrived(seg: Segment, now: nat)
    | Redeliver(now: nat)
    | Typed(text: seq<byte>)
    | Idle(now: nat)
    | Delivered(port: uint16, id: nat, at: nat)
    | Disconnect

  /** The loop ends at an idle turn once closing is requested and no client
      is left. */
  predicate Ends(c: Conn, e: Event) {
    e.Idle? && c.timeToClose && c.clients == map[]
  }

  /** One turn of `communicate` (received segments before input, input
      before the close pass, the close pass instead of the resend check),
      the completion callback, or `disconnect`. */
  function Step(c: Conn, e: Event): (r: Conn)
    requires WellFormed(c)
    ensures WellFormed(r) && r.cfg == c.cfg
    ensures c.sendBuffer <= r.sendBuffer
    ensures c.timeToClose ==> r.timeToClose
    ensures e.Disconnect? ==> r.timeToClose
    ensures Ends(c, e) ==> r == c
  {
    match e
    case Arrived(seg, now) => Receive(c, seg, now)
    case Redeliver(now) =>
      if |c.requeued| == 0 then c else Receive(c.(requeued := c.requeued[1..]), c.requeued[0], now)
    case Typed(text) => Input(c, text)
    case Idle(now) =>
      if c.timeToClose then (if c.clients == map[] then c else ClosePass(c, now))
      else if c.clients != map[] then ResendCheck(c, now)
      else c
    case Delivered(port, id, at) => SendDone(c, port, id, at)
    case Disconnect => c.(timeToClose := true)
  }

  /** `communicate` over a run of events: it stops at the first idle turn
      that finds closing requested and no client left. The configuration
      never changes, the send buffer only grows, and a close request is
      never withdrawn. */
  function Run(c: Conn, es: seq<Event>): (r: Conn)
    requires WellFormed(c)
    ensures WellFormed(r) && r.cfg == c.cfg
    ensures c.sendBuffer <= r.sendBuffer
    ensures c.timeToClose ==> r.timeToClose
    ensures Disconnect in es ==> r.timeToClose
    decreases |es|
  {
    if |es| == 0 || Ends(c, es[0]) then c
    else
      var c1 := Step(c, es[0]);
      var r := Run(c1, es[1..]);
      assert Disconnect in es ==> es[0] == Disconnect || Disconnect in es[1..];
      PrefixTrans(c.sendBuffer, c1.sendBuffer, r.sendBuffer);
      r
  }
}
