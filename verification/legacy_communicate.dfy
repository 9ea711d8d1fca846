/** The event loop of the older generation (`Connection::connect`,
    `communicate` and `messageResendCheck` in backend/src/Connection.cpp):
    one received segment, one line of input or one idle pass at a time.
    Clocks are parameters in seconds. */
module LegacyCommunicate {
  import opened Bytes
  import opened Wrappers
  import opened States
  import opened Flags
  import opened Segments
  import opened Reassembly
  import opened LegacyClient
  import opened LegacyConnection

  /** A connection as constructed: the default window, urgent pointer and
      initial numbers, no clients, no data. */
  function NewConn(sourcePort: uint16, destinationPort: uint16, destinationIP: uint32): (c: Conn)
    ensures c.clients == map[] && c.dataToSend == [] && c.outbox == [] && !c.timeToClose
    ensures c.windowSize == DEFAULT_WINDOW && c.urgentPointer == 0
    ensures c.defaultSeq == DEFAULT_SEQUENCE && c.defaultAck == DEFAULT_ACK
    ensures WellFormed(c)
  {
    Conn(sourcePort, destinationPort, destinationIP, DEFAULT_WINDOW, 0, DEFAULT_SEQUENCE, DEFAULT_ACK, map[], [],
         false, [])
  }

  /** Keeping a client under its own port with no more sent than the data
      keeps the connection well formed. */
  lemma {:induction false} UpdateKeepsWellFormed(c: Conn, port: uint16, cl: Client)
    requires WellFormed(c) && cl.port == port && cl.lastByteSent <= |c.dataToSend|
    ensures WellFormed(UpdateClient(c, port, cl))
  {
  }

  /** `connect`, then the start of `communicate`: with a target port, a
      client in NONE is added for it and a SYN with the default numbers is
      sent, moving it to SYN_SENT; without one, nothing. */
  function Open(c: Conn): (r: Conn)
    requires WellFormed(c)
    ensures WellFormed(r)
    ensures c.destinationPort == 0 && c.clients == map[] ==> r == c
    ensures c.destinationPort != 0 && c.destinationPort !in c.clients ==>
      && c.destinationPort in r.clients
      && r.clients[c.destinationPort].state == SYN_SENT
      && r.clients[c.destinationPort].expectedSeq == Add32(c.defaultSeq, 1)
      && r.outbox == c.outbox + [NewSegment(c.sourcePort, c.destinationPort, c.defaultSeq, c.defaultAck,
                                            Flag.SYN.Value(), c.windowSize, c.urgentPointer, c.destinationIP, [])]
  {
    var c1 := if c.destinationPort != 0 && c.destinationPort !in c.clients then
                UpdateClient(c, c.destinationPort, NewClient(c.destinationPort, c.destinationIP, 0, 0, 0, NONE, ""))
              else c;
    if c1.clients == map[] then c1
    else
      CreateMessage(c1, c.destinationPort, c.defaultSeq, c.defaultAck, Flag.SYN.Value(), c.destinationIP, [], SYN_SENT)
  }

  /** The acknowledgement test of the FIN and ACK branches: strictly newer
      than the last ack seen and no further than what was sent. */
  predicate AckInRange(cl: Client, ack: uint32) {
    cl.lastAck < ack <= cl.expectedSeq
  }

  /** A segment ahead of the expected ack (the first branch of FIN, FIN_ACK
      and ACK): with an acceptable ack it goes through `messageHandler`,
      which buffers it; otherwise only the window is taken and the segment
      is buffered. */
  function OutOfOrder(c: Conn, seg: Segment): (r: Conn)
    requires WellFormed(c) && seg.srcPort in c.clients
    ensures var cl := c.clients[seg.srcPort];
      !AckInRange(cl, seg.ackNum) ==>
        r == UpdateClient(c, seg.srcPort, cl.(windowSize := seg.window,
                                              messageBuffer := SetItem(cl.messageBuffer, seg.seqNum, seg)))
  {
    var cl := c.clients[seg.srcPort];
    if AckInRange(cl, seg.ackNum) then MessageHandler(c, seg)
    else UpdateClient(c, seg.srcPort, cl.(windowSize := seg.window,
                                          messageBuffer := SetItem(cl.messageBuffer, seg.seqNum, seg)))
  }

  /** Every out-of-order segment ends up in its sender's buffer under its
      sequence number, whichever way it goes. */
  lemma {:induction false} OutOfOrderBuffers(c: Conn, seg: Segment)
    requires WellFormed(c) && seg.srcPort in c.clients
    requires seg.seqNum > c.clients[seg.srcPort].expectedAck
    ensures var r := OutOfOrder(c, seg);
      seg.srcPort in r.clients && CheckItem(r.clients[seg.srcPort].messageBuffer, seg.seqNum)
      && r.clients[seg.srcPort].messageBuffer[seg.seqNum] == seg
      && r.outbox == c.outbox
  {
  }

  /** The same branch as written: `messageHandler` and
      `setItemMessageBuffer` both take the segment's `unique_ptr` by value,
      so `seg` is null when the debug line after them reads its sequence
      number. The second component is the pointer the loop still holds;
      reading through a null pointer is undefined behaviour, modelled as no
      resulting connection. */
  function OutOfOrderAsWritten(c: Conn, seg: Segment): (r: Option<Conn>)
    requires WellFormed(c) && seg.srcPort in c.clients
    ensures r.Some? ==> r.value == OutOfOrder(c, seg)
  {
    var cl := c.clients[seg.srcPort];
    var (c1, held) :=
      if AckInRange(cl, seg.ackNum) then (MessageHandler(c, seg), None)
      else (UpdateClient(c, seg.srcPort, cl.(windowSize := seg.window,
                                              messageBuffer := SetItem(cl.messageBuffer, seg.seqNum, seg))),
            None);
    match SeqNumThrough(held)
    case None => None
    case Some(_) => Some(c1)
  }

  /** Reading the sequence number through the held pointer: nothing when the
      segment has been moved out. */
  function SeqNumThrough(held: Option<Segment>): (r: Option<uint32>)
    ensures r.Some? <==> held.Some?
    ensures held.Some? ==> r.value == held.value.seqNum
  {
    match held
    case None => None
    case Some(s) => Some(s.seqNum)
  }

  /** As written, every FIN, FIN|ACK or ACK ahead of the expected ack from a
      known client ends in a null dereference, while the corrected branch
      (the TCP generation copies the number first) buffers the segment and
      keeps the connection well formed. */
  lemma {:induction false} OutOfOrderAsWrittenDereferencesNull(c: Conn, seg: Segment)
    requires WellFormed(c) && seg.srcPort in c.clients
    requires seg.seqNum > c.clients[seg.srcPort].expectedAck
    ensures OutOfOrderAsWritten(c, seg).None?
    ensures var r := OutOfOrder(c, seg);
      WellFormed(r) && seg.srcPort in r.clients && r.clients[seg.srcPort].messageBuffer[seg.seqNum] == seg
  {
    OutOfOrderBuffers(c, seg);
    OutOfOrderKeepsWellFormed(c, seg);
  }

  /** SYN: a new sender is added in SYN_RECEIVED expecting the next number
      after the SYN (a known one is kept as it is), and a SYN|ACK with the
      default sequence number is sent, moving it to SYN_SENT. */
  function OnSyn(c: Conn, seg: Segment): (r: Conn)
    requires WellFormed(c)
    ensures WellFormed(r)
  {
    var c1 := Admit(c, seg);
    CreateMessage(c1, seg.srcPort, c.defaultSeq, Add32(seg.seqNum, 1), CreateFlag(SYN, ACK), seg.destinationIP, [],
                  SYN_SENT)
  }

  /** `try_emplace` of the SYN's sender: a new client in SYN_RECEIVED
      expecting the number after the SYN; a known one stays as it is. */
  function Admit(c: Conn, seg: Segment): (r: Conn)
    requires WellFormed(c)
    ensures WellFormed(r) && r.clients.Keys == c.clients.Keys + {seg.srcPort}
    ensures seg.srcPort in c.clients ==> r == c
    ensures seg.srcPort !in c.clients ==>
      r == UpdateClient(c, seg.srcPort, NewClient(seg.srcPort, seg.destinationIP, 0, Add32(seg.seqNum, 1), 0,
                                                  SYN_RECEIVED, ""))
  {
    if seg.srcPort in c.clients then c
    else UpdateClient(c, seg.srcPort, NewClient(seg.srcPort, seg.destinationIP, 0, Add32(seg.seqNum, 1), 0,
                                                SYN_RECEIVED, ""))
  }

  /** After a SYN its sender is a client in SYN_SENT that expects the
      number after the SYN and whose next sequence number follows the
      default one. */
  lemma {:induction false} OnSynState(c: Conn, seg: Segment)
    requires WellFormed(c)
    ensures var r := OnSyn(c, seg);
      && seg.srcPort in r.clients
      && r.clients[seg.srcPort].state == SYN_SENT
      && r.clients[seg.srcPort].expectedSeq == Add32(c.defaultSeq, 1)
      && r.clients[seg.srcPort].expectedAck == Add32(seg.seqNum, 1)
  {
    var c1 := Admit(c, seg);
    var out := NewSegment(c.sourcePort, seg.srcPort, c.defaultSeq, Add32(seg.seqNum, 1), CreateFlag(SYN, ACK),
                          c.windowSize, c.urgentPointer, seg.destinationIP, []);
    var cl := Sent(c1.clients[seg.srcPort], out, SYN_SENT);
    assert OnSyn(c, seg).clients[seg.srcPort] == cl;
  }

  /** A SYN is answered by exactly one SYN|ACK carrying the default sequence
      number and acknowledging the SYN. */
  lemma {:induction false} OnSynSends(c: Conn, seg: Segment)
    requires WellFormed(c)
    ensures OnSyn(c, seg).outbox == c.outbox + [NewSegment(c.sourcePort, seg.srcPort, c.defaultSeq, Add32(seg.seqNum, 1),
                                                           CreateFlag(SYN, ACK), c.windowSize, c.urgentPointer,
                                                           seg.destinationIP, [])]
  {
    assert seg.srcPort in Admit(c, seg).clients;
  }

  /** A SYN adds at most its sender and leaves every other client alone. */
  lemma {:induction false} OnSynFrame(c: Conn, seg: Segment)
    requires WellFormed(c)
    ensures var r := OnSyn(c, seg);
      && r.clients.Keys == c.clients.Keys + {seg.srcPort}
      && forall p :: p in c.clients && p != seg.srcPort ==> r.clients[p] == c.clients[p]
  {
    assert seg.srcPort in Admit(c, seg).clients;
  }

  /** SYN|ACK: accepted only from a known sender whose ack is exactly the
      next sequence number; then an ACK moves it to ESTABLISHED and the
      segment goes through `messageHandler`. */
  function OnSynAck(c: Conn, seg: Segment): (r: Conn)
    requires WellFormed(c)
    ensures WellFormed(r)
    ensures seg.srcPort !in c.clients || seg.ackNum != c.clients[seg.srcPort].expectedSeq ==> r == c
    ensures seg.srcPort in c.clients && seg.ackNum == c.clients[seg.srcPort].expectedSeq ==>
      var cl := c.clients[seg.srcPort];
      var c1 := CreateMessage(c, seg.srcPort, cl.expectedSeq, Add32(seg.seqNum, 1), Flag.ACK.Value(), cl.ip, [],
                              ESTABLISHED);
      r == MessageHandler(c1, seg)
  {
    if seg.srcPort !in c.clients then c
    else
      var cl := c.clients[seg.srcPort];
      if seg.ackNum != cl.expectedSeq then c
      else
        var c1 := CreateMessage(c, cl.port, cl.expectedSeq, Add32(seg.seqNum, 1), Flag.ACK.Value(), cl.ip, [],
                                ESTABLISHED);
        MessageHandlerKeepsWellFormed(c1, seg);
        MessageHandler(c1, seg)
  }

  /** FIN: ahead of the expected ack it is out of order; in order with an
      acceptable ack, ESTABLISHED answers FIN|ACK and goes to CLOSING (then
      the segment goes through `messageHandler`), FIN_WAIT_2 answers FIN|ACK
      and goes to TIME_WAIT; anything else is ignored. */
  function OnFin(c: Conn, seg: Segment): (r: Conn)
    requires WellFormed(c)
    ensures WellFormed(r)
  {
    if seg.srcPort !in c.clients then c
    else
      var port := seg.srcPort;
      var cl := c.clients[port];
      if seg.seqNum > cl.expectedAck then
        OutOfOrderKeepsWellFormed(c, seg);
        OutOfOrder(c, seg)
      else if AckInRange(cl, seg.ackNum) && seg.seqNum == cl.expectedAck then
        var next := FinReceivedState(cl.state);
        if next == NONE then c
        else
          var c1 := CreateMessage(c, cl.port, cl.expectedSeq, Add32(cl.expectedAck, 1), CreateFlag(FIN, ACK), cl.ip,
                                  [], next);
          var c2 := UpdateClient(c1, port, c1.clients[port].(windowSize := seg.window));
          UpdateKeepsWellFormed(c1, port, c1.clients[port].(windowSize := seg.window));
          if next == CLOSING then
            MessageHandlerKeepsWellFormed(c2, seg);
            MessageHandler(c2, seg)
          else c2
      else c
  }

  /** An in-order FIN with an acceptable ack from a client in FIN_WAIT_2 is
      answered by one FIN|ACK acknowledging it, and the client moves to
      TIME_WAIT with the segment's window. */
  lemma {:induction false} FinInFinWait2(c: Conn, seg: Segment)
    requires WellFormed(c) && seg.srcPort in c.clients
    requires var cl := c.clients[seg.srcPort];
      cl.state == FIN_WAIT_2 && AckInRange(cl, seg.ackNum) && seg.seqNum == cl.expectedAck
    ensures var cl := c.clients[seg.srcPort];
      var r := OnFin(c, seg);
      && r.outbox == c.outbox + [NewSegment(c.sourcePort, seg.srcPort, cl.expectedSeq, Add32(cl.expectedAck, 1),
                                            CreateFlag(FIN, ACK), c.windowSize, c.urgentPointer, cl.ip, [])]
      && r.clients[seg.srcPort].state == TIME_WAIT
      && r.clients[seg.srcPort].expectedAck == Add32(cl.expectedAck, 1)
      && r.clients[seg.srcPort].windowSize == seg.window
  {
  }

  /** An in-order FIN with an acceptable ack from an ESTABLISHED client is
      answered first by a FIN|ACK acknowledging it; the client ends in
      CLOSING, or in LAST_ACK once its own FIN has gone out as well. */
  lemma {:induction false} FinInEstablished(c: Conn, seg: Segment)
    requires WellFormed(c) && seg.srcPort in c.clients
    requires var cl := c.clients[seg.srcPort];
      cl.state == ESTABLISHED && AckInRange(cl, seg.ackNum) && seg.seqNum == cl.expectedAck
    ensures var cl := c.clients[seg.srcPort];
      var r := OnFin(c, seg);
      && |r.outbox| > |c.outbox|
      && r.outbox[|c.outbox|] == NewSegment(c.sourcePort, seg.srcPort, cl.expectedSeq, Add32(cl.expectedAck, 1),
                                            CreateFlag(FIN, ACK), c.windowSize, c.urgentPointer, cl.ip, [])
      && seg.srcPort in r.clients
      && r.clients[seg.srcPort].state in {CLOSING, LAST_ACK}
  {
    var port := seg.srcPort;
    var cl := c.clients[port];
    var c1 := CreateMessage(c, cl.port, cl.expectedSeq, Add32(cl.expectedAck, 1), CreateFlag(FIN, ACK), cl.ip, [],
                            CLOSING);
    var c2 := UpdateClient(c1, port, c1.clients[port].(windowSize := seg.window));
    UpdateKeepsWellFormed(c1, port, c1.clients[port].(windowSize := seg.window));
    HandlerFromClosing(c2, seg);
  }

  /** `messageHandler` on a CLOSING sender only appends to the sender
      queue, and leaves the sender in CLOSING or, once its FIN is out, in
      LAST_ACK. */
  lemma {:induction false} HandlerFromClosing(c: Conn, seg: Segment)
    requires WellFormed(c) && seg.srcPort in c.clients && c.clients[seg.srcPort].state == CLOSING
    ensures var r := MessageHandler(c, seg);
      && c.outbox <= r.outbox
      && seg.srcPort in r.clients && r.clients[seg.srcPort].state in {CLOSING, LAST_ACK}
  {
    var port := seg.srcPort;
    var cl := Acknowledge(c.clients[port], seg);
    if seg.seqNum <= cl.expectedAck {
      var c1 := UpdateClient(c, port, cl);
      AcknowledgeKeepsWellFormed(c, port, seg);
      SendKeepsState(c1, port);
      FinIfDoneFromClosing(SendMessages(c1, port), port);
    }
  }

  /** `sendMessages` only appends to the sender queue and keeps the
      client's state. */
  lemma {:induction false} SendKeepsState(c: Conn, port: uint16)
    requires WellFormed(c) && port in c.clients
    ensures var r := SendMessages(c, port);
      c.outbox <= r.outbox && port in r.clients && r.clients[port].state == c.clients[port].state
  {
  }

  /** The closing step on a CLOSING client only appends to the sender queue
      and leaves it in CLOSING or LAST_ACK. */
  lemma {:induction false} FinIfDoneFromClosing(c: Conn, port: uint16)
    requires WellFormed(c) && port in c.clients && c.clients[port].state == CLOSING
    ensures var r := FinIfDone(c, port);
      c.outbox <= r.outbox && port in r.clients && r.clients[port].state in {CLOSING, LAST_ACK}
  {
  }

  /** A FIN that is neither ahead of the expected ack nor in order with an
      acceptable ack, or arrives in a state that takes no FIN, changes
      nothing. */
  lemma {:induction false} FinIgnored(c: Conn, seg: Segment)
    requires WellFormed(c) && seg.srcPort in c.clients
    requires var cl := c.clients[seg.srcPort];
      seg.seqNum <= cl.expectedAck
      && (!AckInRange(cl, seg.ackNum) || seg.seqNum != cl.expectedAck || FinReceivedState(cl.state) == NONE)
    ensures OnFin(c, seg) == c
  {
  }

  /** FIN|ACK: ahead of the expected ack it is out of order; exactly in
      order (ack is the next sequence number, seq the expected ack) it
      drops the acknowledged queue, moves both numbers one past the FIN
      exchange, records ack and window and takes `FinAckState`; anything
      else is ignored. */
  function OnFinAck(c: Conn, seg: Segment): (r: Conn)
    requires WellFormed(c)
    ensures WellFormed(r)
  {
    if seg.srcPort !in c.clients then c
    else
      var port := seg.srcPort;
      var cl := c.clients[port];
      if seg.seqNum > cl.expectedAck then
        OutOfOrderKeepsWellFormed(c, seg);
        OutOfOrder(c, seg)
      else if seg.ackNum == cl.expectedSeq && seg.seqNum == cl.expectedAck then
        var cl1 := PruneAcked(cl, seg.ackNum).(expectedSeq := Add32(seg.ackNum, 1), expectedAck := Add32(seg.seqNum, 1),
                                               lastAck := seg.ackNum, windowSize := seg.window,
                                               state := FinAckState(cl.state));
        UpdateKeepsWellFormed(c, port, cl1);
        UpdateClient(c, port, cl1)
      else c
  }

  lemma {:induction false} OutOfOrderKeepsWellFormed(c: Conn, seg: Segment)
    requires WellFormed(c) && seg.srcPort in c.clients
    ensures WellFormed(OutOfOrder(c, seg))
  {
    if AckInRange(c.clients[seg.srcPort], seg.ackNum) {
      MessageHandlerKeepsWellFormed(c, seg);
    }
  }

  /** An in-order FIN|ACK moves a FIN_WAIT_1 client to FIN_WAIT_2 and a
      LAST_ACK client to CLOSED (any other to NONE), drops the queue prefix
      it acknowledges, sets both numbers one past the FIN exchange and sends
      nothing. */
  lemma {:induction false} FinAckTransition(c: Conn, seg: Segment)
    requires WellFormed(c) && seg.srcPort in c.clients
    requires var cl := c.clients[seg.srcPort];
      seg.ackNum == cl.expectedSeq && seg.seqNum == cl.expectedAck
    ensures var cl := c.clients[seg.srcPort];
      var r := OnFinAck(c, seg);
      && r.outbox == c.outbox
      && r.clients[seg.srcPort].state == FinAckState(cl.state)
      && r.clients[seg.srcPort].expectedSeq == Add32(seg.ackNum, 1)
      && r.clients[seg.srcPort].expectedAck == Add32(seg.seqNum, 1)
      && r.clients[seg.srcPort].lastAck == seg.ackNum
      && r.clients[seg.srcPort].messagesSent == cl.messagesSent[AckedPrefix(cl.messagesSent, seg.ackNum)..]
  {
  }

  /** A FIN|ACK that is not ahead of the expected ack must match both
      numbers exactly; otherwise nothing changes. */
  lemma {:induction false} FinAckMismatchIgnored(c: Conn, seg: Segment)
    requires WellFormed(c) && seg.srcPort in c.clients
    requires var cl := c.clients[seg.srcPort];
      seg.seqNum <= cl.expectedAck && (seg.ackNum != cl.expectedSeq || seg.seqNum != cl.expectedAck)
    ensures OnFinAck(c, seg) == c
  {
  }

  datatype Drained = Drained(buffer: Buffer, next: uint32, written: seq<seq<byte>>)

  /** The drain loop of the ACK branch: while a buffered segment sits at the
      running sequence number, take it out, write its payload and move past
      it by |data| + 1, in 32 bits. */
  function Drain(b: Buffer, next: uint32): (r: Drained)
    ensures r.next !in r.buffer
    ensures forall k :: k in r.buffer ==> k in b && r.buffer[k] == b[k]
    ensures |r.written| + |r.buffer| == |b|
    ensures next !in b ==> r == Drained(b, next, [])
    ensures next in b ==> |r.written| > 0 && r.written[0] == b[next].data
    decreases |b|
  {
    var p := PopItem(b, next);
    if !p.found then Drained(b, next, [])
    else
      var s := p.item.value;
      var rest := Drain(p.buffer, NextSeq(next, |s.data|));
      Drained(rest.buffer, rest.next, [s.data] + rest.written)
  }

  /** ACK, in order with an acceptable ack: a payload is written, the
      buffered segments that continue it are drained and written, and the
      number after them becomes the expected ack (and the segment's
      sequence number for `messageHandler`); a bare ACK goes to
      `messageHandler` as it is. */
  function Deliver(c: Conn, seg: Segment): (r: Conn)
    requires WellFormed(c) && seg.srcPort in c.clients
    ensures WellFormed(r)
  {
    var port := seg.srcPort;
    var cl := c.clients[port];
    if |seg.data| == 0 then
      MessageHandlerKeepsWellFormed(c, seg);
      MessageHandler(c, seg)
    else
      var d := Drain(cl.messageBuffer, NextSeq(seg.seqNum, |seg.data|));
      var cl1 := cl.(received := cl.received + [seg.data] + d.written, messageBuffer := d.buffer, expectedAck := d.next);
      UpdateKeepsWellFormed(c, port, cl1);
      var c1 := UpdateClient(c, port, cl1);
      MessageHandlerKeepsWellFormed(c1, seg.(seqNum := d.next));
      MessageHandler(c1, seg.(seqNum := d.next))
  }

  /** ACK: ahead of the expected ack it is out of order; in order with an
      acceptable ack it is delivered; anything else is ignored. */
  function OnAck(c: Conn, seg: Segment): (r: Conn)
    requires WellFormed(c)
    ensures WellFormed(r)
  {
    if seg.srcPort !in c.clients then c
    else
      var cl := c.clients[seg.srcPort];
      if seg.seqNum > cl.expectedAck then
        OutOfOrderKeepsWellFormed(c, seg);
        OutOfOrder(c, seg)
      else if AckInRange(cl, seg.ackNum) && seg.seqNum == cl.expectedAck then Deliver(c, seg)
      else c
  }

  /** An in-order ACK with data hands its payload and the buffered
      continuation to the client in order, and the expected ack moves past
      all of them; no buffered segment at the new expected ack is left
      behind. */
  lemma {:induction false} AckDelivers(c: Conn, seg: Segment)
    requires WellFormed(c) && seg.srcPort in c.clients && |seg.data| > 0
    requires var cl := c.clients[seg.srcPort];
      AckInRange(cl, seg.ackNum) && seg.seqNum == cl.expectedAck
    ensures var cl := c.clients[seg.srcPort];
      var d := Drain(cl.messageBuffer, NextSeq(seg.seqNum, |seg.data|));
      var r := OnAck(c, seg);
      && seg.srcPort in r.clients
      && r.clients[seg.srcPort].received == cl.received + [seg.data] + d.written
      && r.clients[seg.srcPort].expectedAck == d.next
      && d.next !in d.buffer
  {
    var port := seg.srcPort;
    var cl := c.clients[port];
    var d := Drain(cl.messageBuffer, NextSeq(seg.seqNum, |seg.data|));
    var cl1 := cl.(received := cl.received + [seg.data] + d.written, messageBuffer := d.buffer, expectedAck := d.next);
    UpdateKeepsWellFormed(c, port, cl1);
    HandlerKeepsReceived(UpdateClient(c, port, cl1), seg.(seqNum := d.next));
  }

  /** `messageHandler` never changes what a client has received or the ack
      it expects. */
  lemma {:induction false} HandlerKeepsReceived(c: Conn, seg: Segment)
    requires WellFormed(c) && seg.srcPort in c.clients
    ensures var r := MessageHandler(c, seg);
      && seg.srcPort in r.clients
      && r.clients[seg.srcPort].received == c.clients[seg.srcPort].received
      && r.clients[seg.srcPort].expectedAck == c.clients[seg.srcPort].expectedAck
  {
    var port := seg.srcPort;
    var cl := Acknowledge(c.clients[port], seg);
    if seg.seqNum <= cl.expectedAck {
      var c1 := UpdateClient(c, port, cl);
      AcknowledgeKeepsWellFormed(c, port, seg);
      SendKeepsReceived(c1, port);
      FinIfDoneKeepsReceived(SendMessages(c1, port), port);
    }
  }

  lemma {:induction false} SendKeepsReceived(c: Conn, port: uint16)
    requires WellFormed(c) && port in c.clients
    ensures var r := SendMessages(c, port);
      && port in r.clients
      && r.clients[port].received == c.clients[port].received
      && r.clients[port].expectedAck == c.clients[port].expectedAck
  {
  }

  lemma {:induction false} FinIfDoneKeepsReceived(c: Conn, port: uint16)
    requires WellFormed(c) && port in c.clients
    ensures var r := FinIfDone(c, port);
      && port in r.clients
      && r.clients[port].received == c.clients[port].received
      && r.clients[port].expectedAck == c.clients[port].expectedAck
  {
  }

  /** The strict ack test: an in-order ACK whose ack is not newer than the
      last one seen, or beyond what was sent, changes nothing. */
  lemma {:induction false} StaleAckIgnored(c: Conn, seg: Segment)
    requires WellFormed(c) && seg.srcPort in c.clients
    requires var cl := c.clients[seg.srcPort];
      seg.seqNum <= cl.expectedAck && !AckInRange(cl, seg.ackNum)
    ensures OnAck(c, seg) == c && OnFin(c, seg) == c
  {
  }

  /** SYN, SYN|ACK, FIN, FIN|ACK and ACK each have their branch; PSH|ACK,
      RST, plain data and invalid flag bytes are dropped. */
  function Dispatch(c: Conn, seg: Segment, t: FlagType): (r: Conn)
    requires WellFormed(c)
  {
    match t
    case SYN_ONLY => OnSyn(c, seg)
    case SYN_ACK => OnSynAck(c, seg)
    case FIN_ONLY => OnFin(c, seg)
    case FIN_ACK => OnFinAck(c, seg)
    case ACK_ONLY => OnAck(c, seg)
    case _ => c
  }

  /** Every branch keeps the connection well formed; the dropped kinds
      change nothing. */
  lemma {:induction false} DispatchKeepsWellFormed(c: Conn, seg: Segment, t: FlagType)
    requires WellFormed(c)
    ensures WellFormed(Dispatch(c, seg, t))
    ensures t in {PSH_ACK, RST_ONLY, DATA, INVALID} ==> Dispatch(c, seg, t) == c
  {
    match t
    case SYN_ONLY => DispatchSyn(c, seg);
    case SYN_ACK => DispatchSynAck(c, seg);
    case FIN_ONLY => DispatchFin(c, seg);
    case FIN_ACK => DispatchFinAck(c, seg);
    case ACK_ONLY => DispatchAck(c, seg);
    case _ =>
  }

  lemma {:induction false} DispatchSyn(c: Conn, seg: Segment)
    requires WellFormed(c)
    ensures WellFormed(Dispatch(c, seg, SYN_ONLY))
  {
  }

  lemma {:induction false} DispatchSynAck(c: Conn, seg: Segment)
    requires WellFormed(c)
    ensures WellFormed(Dispatch(c, seg, SYN_ACK))
  {
  }

  lemma {:induction false} DispatchFin(c: Conn, seg: Segment)
    requires WellFormed(c)
    ensures WellFormed(Dispatch(c, seg, FIN_ONLY))
  {
  }

  lemma {:induction false} DispatchFinAck(c: Conn, seg: Segment)
    requires WellFormed(c)
    ensures WellFormed(Dispatch(c, seg, FIN_ACK))
  {
  }

  lemma {:induction false} DispatchAck(c: Conn, seg: Segment)
    requires WellFormed(c)
    ensures WellFormed(Dispatch(c, seg, ACK_ONLY))
  {
  }

  /** A received segment goes to the branch its flag byte decodes to. */
  function Receive(c: Conn, seg: Segment): (r: Conn)
    requires WellFormed(c)
    ensures WellFormed(r)
  {
    DispatchKeepsWellFormed(c, seg, DecodeFlags(seg.flags));
    Dispatch(c, seg, DecodeFlags(seg.flags))
  }

  /** One port of the input pass: a client in ESTABLISHED or CLOSING gets
      `sendMessages`; nothing else changes. */
  function SendStep(c: Conn, port: uint16): (r: Conn)
    requires WellFormed(c)
    ensures WellFormed(r) && r.clients.Keys == c.clients.Keys && r.dataToSend == c.dataToSend
    ensures c.outbox <= r.outbox
    ensures forall q :: q in c.clients && (q != port || !Sending(c.clients[q].state)) ==> r.clients[q] == c.clients[q]
    ensures forall q :: q in c.clients ==> r.clients[q].state == c.clients[q].state
  {
    if port in c.clients && Sending(c.clients[port].state) then
      SendKeepsState(c, port);
      SendMessages(c, port)
    else c
  }

  /** The input pass from port `p` upwards, in ascending port order. */
  function SendFrom(c: Conn, p: nat): (r: Conn)
    requires WellFormed(c) && p <= 0x1_0000
    ensures WellFormed(r) && r.clients.Keys == c.clients.Keys && r.dataToSend == c.dataToSend
    ensures c.outbox <= r.outbox
    ensures forall q :: q in c.clients && (q < p || !Sending(c.clients[q].state)) ==> r.clients[q] == c.clients[q]
    ensures forall q :: q in c.clients ==> r.clients[q].state == c.clients[q].state
    decreases 0x1_0000 - p
  {
    if p == 0x1_0000 then c else SendFrom(SendStep(c, p as uint16), p + 1)
  }

  /** A line of input: its bytes join the data to send and every client in
      ESTABLISHED or CLOSING is offered them. */
  function Input(c: Conn, text: seq<byte>): (r: Conn)
    requires WellFormed(c)
    ensures WellFormed(r) && r.clients.Keys == c.clients.Keys && r.dataToSend == c.dataToSend + text
    ensures c.outbox <= r.outbox
    ensures forall q :: q in c.clients && !Sending(c.clients[q].state) ==> r.clients[q] == c.clients[q]
  {
    SendFrom(c.(dataToSend := c.dataToSend + text), 0)
  }

  /** What the close pass does with one client. */
  datatype CloseAction = KeepOpen | SendFin | Remove

  /** What the close pass does with one client: a FIN once all data is
      out and none has been sent; removal once CLOSED, or once TIME_WAIT has
      lasted more than twice the segment lifetime since the last send. */
  function CloseChoice(cl: Client, dataLen: nat, now: nat): (r: CloseAction)
    ensures r == SendFin <==> !cl.isFinSent && cl.lastByteSent == dataLen
    ensures r == Remove <==>
      cl.isFinSent && (cl.state == CLOSED || (cl.state == TIME_WAIT && now - cl.lastTimeMessageSent > 2 * MAX_SEGMENT_LIFE))
  {
    if !cl.isFinSent then (if cl.lastByteSent == dataLen then SendFin else KeepOpen)
    else if cl.state == TIME_WAIT then (if now - cl.lastTimeMessageSent > 2 * MAX_SEGMENT_LIFE then Remove else KeepOpen)
    else if cl.state == CLOSED then Remove
    else KeepOpen
  }

  /** The FIN the close pass sends to client `cl` under `port`. */
  function CloseFin(c: Conn, port: uint16, cl: Client): (r: Segment)
    ensures r.flags == Flag.FIN.Value() && r.dstPort == port && r.data == []
    ensures r.seqNum == cl.expectedSeq && r.ackNum == cl.expectedAck
  {
    NewSegment(c.sourcePort, port, cl.expectedSeq, cl.expectedAck, Flag.FIN.Value(), c.windowSize, c.urgentPointer,
               cl.ip, [])
  }

  /** A client after the close pass has dealt with it (removal happens
      after the pass). */
  function AfterClose(c: Conn, port: uint16, cl: Client, now: nat): (r: Client)
    ensures CloseChoice(cl, |c.dataToSend|, now) != SendFin ==> r == cl
    ensures CloseChoice(cl, |c.dataToSend|, now) == SendFin ==>
      && r.isFinSent && r.state == CloseFinState(cl.state)
      && r.messagesSent == cl.messagesSent + [CloseFin(c, port, cl)]
  {
    if CloseChoice(cl, |c.dataToSend|, now) == SendFin then
      Sent(cl, CloseFin(c, port, cl), CloseFinState(cl.state)).(isFinSent := true)
    else cl
  }

  /** Whether two connections agree on everything a segment is built from. */
  predicate SameSender(a: Conn, b: Conn) {
    a.sourcePort == b.sourcePort && a.windowSize == b.windowSize && a.urgentPointer == b.urgentPointer
    && a.dataToSend == b.dataToSend
  }

  /** One port of the close pass. */
  function CloseStep(c: Conn, now: nat, port: uint16, remove: set<uint16>): (r: (Conn, set<uint16>))
    requires WellFormed(c)
    ensures WellFormed(r.0) && r.0.clients.Keys == c.clients.Keys && SameSender(r.0, c)
    ensures c.outbox <= r.0.outbox
    ensures forall q :: q in c.clients && q != port ==> r.0.clients[q] == c.clients[q]
    ensures port in c.clients ==> r.0.clients[port] == AfterClose(c, port, c.clients[port], now)
    ensures r.1 == if port in c.clients && CloseChoice(c.clients[port], |c.dataToSend|, now) == Remove
                   then remove + {port} else remove
  {
    if port !in c.clients then (c, remove)
    else
      var cl := c.clients[port];
      match CloseChoice(cl, |c.dataToSend|, now)
      case SendFin =>
        var c1 := CreateMessage(c, port, cl.expectedSeq, cl.expectedAck, Flag.FIN.Value(), cl.ip, [],
                                CloseFinState(cl.state));
        UpdateKeepsWellFormed(c1, port, c1.clients[port].(isFinSent := true));
        (UpdateClient(c1, port, c1.clients[port].(isFinSent := true)), remove)
      case Remove => (c, remove + {port})
      case KeepOpen => (c, remove)
  }

  /** The close pass from port `p` upwards, in ascending port order,
      collecting the ports to remove. */
  function CloseFrom(c: Conn, now: nat, p: nat, remove: set<uint16>): (r: (Conn, set<uint16>))
    requires WellFormed(c) && p <= 0x1_0000
    ensures WellFormed(r.0) && r.0.clients.Keys == c.clients.Keys && SameSender(r.0, c)
    ensures c.outbox <= r.0.outbox
    ensures forall q :: q in c.clients && q < p ==> r.0.clients[q] == c.clients[q]
    ensures forall q :: q in c.clients && p <= q ==> r.0.clients[q] == AfterClose(c, q, c.clients[q], now)
    ensures forall q: uint16 :: q in r.1 <==>
      q in remove || (q in c.clients && p <= q && CloseChoice(c.clients[q], |c.dataToSend|, now) == Remove)
    decreases 0x1_0000 - p
  {
    if p == 0x1_0000 then (c, remove)
    else
      var step := CloseStep(c, now, p as uint16, remove);
      CloseFrom(step.0, now, p + 1, step.1)
  }

  /** The `timeToClose` pass: every client is dealt with as `CloseChoice`
      says, in ascending port order, and the ports marked for removal are
      erased afterwards. */
  function ClosePass(c: Conn, now: nat): (r: Conn)
    requires WellFormed(c)
    ensures WellFormed(r) && c.outbox <= r.outbox && r.dataToSend == c.dataToSend
    ensures forall q :: q in c.clients ==>
      (q in r.clients <==> CloseChoice(c.clients[q], |c.dataToSend|, now) != Remove)
    ensures forall q :: q in r.clients ==> q in c.clients && r.clients[q] == AfterClose(c, q, c.clients[q], now)
  {
    var pass := CloseFrom(c, now, 0, {});
    pass.0.(clients := pass.0.clients - pass.1)
  }

  /** A client in TIME_WAIT whose last send is at most twice the segment
      lifetime ago survives the close pass unchanged; a CLOSED client that
      has sent its FIN does not survive it. */
  lemma {:induction false} TimeWaitLingers(c: Conn, now: nat, q: uint16)
    requires WellFormed(c) && q in c.clients
    ensures var cl := c.clients[q];
      cl.isFinSent && cl.state == TIME_WAIT && now - cl.lastTimeMessageSent <= 2 * MAX_SEGMENT_LIFE ==>
        q in ClosePass(c, now).clients && ClosePass(c, now).clients[q] == cl
    ensures var cl := c.clients[q];
      cl.isFinSent && cl.state == CLOSED ==> q !in ClosePass(c, now).clients
  {
  }

  /** What the resend check does with one client. */
  datatype ResendAction = Quiet | Retransmit | Expire

  /** A client whose last send is more than one segment lifetime ago (and
      that has sent at all) is removed when CLOSED, and otherwise has its
      queue resent with its expected ack when the queue is not empty. */
  function ResendChoice(cl: Client, now: nat): (r: ResendAction)
    ensures r != Quiet ==> cl.lastTimeMessageSent != 0 && now - cl.lastTimeMessageSent > MAX_SEGMENT_LIFE
    ensures r == Expire <==>
      cl.lastTimeMessageSent != 0 && now - cl.lastTimeMessageSent > MAX_SEGMENT_LIFE && cl.state == CLOSED
    ensures r == Retransmit <==>
      cl.lastTimeMessageSent != 0 && now - cl.lastTimeMessageSent > MAX_SEGMENT_LIFE && cl.state != CLOSED
      && |cl.messagesSent| > 0
  {
    if cl.lastTimeMessageSent == 0 || now - cl.lastTimeMessageSent <= MAX_SEGMENT_LIFE then Quiet
    else if cl.state == CLOSED then Expire
    else if |cl.messagesSent| > 0 then Retransmit
    else Quiet
  }

  /** A client after the resend check has dealt with it. */
  function AfterResend(cl: Client, now: nat): (r: Client)
    ensures ResendChoice(cl, now) != Retransmit ==> r == cl
    ensures ResendChoice(cl, now) == Retransmit ==>
      r == cl.(messagesSent := RewriteAll(cl.messagesSent, cl.expectedAck),
               expectedSeq := if cl.expectedAck != 0 then cl.expectedAck else cl.expectedSeq)
  {
    if ResendChoice(cl, now) == Retransmit then
      cl.(messagesSent := RewriteAll(cl.messagesSent, cl.expectedAck),
          expectedSeq := if cl.expectedAck != 0 then cl.expectedAck else cl.expectedSeq)
    else cl
  }

  /** One port of the resend check. */
  function ResendStep(c: Conn, now: nat, port: uint16, remove: set<uint16>): (r: (Conn, set<uint16>))
    requires WellFormed(c)
    ensures WellFormed(r.0) && r.0.clients.Keys == c.clients.Keys && r.0.dataToSend == c.dataToSend
    ensures c.outbox <= r.0.outbox
    ensures forall q :: q in c.clients && q != port ==> r.0.clients[q] == c.clients[q]
    ensures port in c.clients ==> r.0.clients[port] == AfterResend(c.clients[port], now)
    ensures r.1 == if port in c.clients && ResendChoice(c.clients[port], now) == Expire then remove + {port} else remove
  {
    if port !in c.clients then (c, remove)
    else
      var cl := c.clients[port];
      match ResendChoice(cl, now)
      case Retransmit =>
        ResendKeepsWellFormed(c, port, cl.expectedAck);
        (ResendMessages(c, port, cl.expectedAck), remove)
      case Expire => (c, remove + {port})
      case Quiet => (c, remove)
  }

  /** The resend check from port `p` upwards, in ascending port order,
      collecting the ports to remove. */
  function ResendFrom(c: Conn, now: nat, p: nat, remove: set<uint16>): (r: (Conn, set<uint16>))
    requires WellFormed(c) && p <= 0x1_0000
    ensures WellFormed(r.0) && r.0.clients.Keys == c.clients.Keys && r.0.dataToSend == c.dataToSend
    ensures c.outbox <= r.0.outbox
    ensures forall q :: q in c.clients && q < p ==> r.0.clients[q] == c.clients[q]
    ensures forall q :: q in c.clients && p <= q ==> r.0.clients[q] == AfterResend(c.clients[q], now)
    ensures forall q: uint16 :: q in r.1 <==>
      q in remove || (q in c.clients && p <= q && ResendChoice(c.clients[q], now) == Expire)
    decreases 0x1_0000 - p
  {
    if p == 0x1_0000 then (c, remove)
    else
      var step := ResendStep(c, now, p as uint16, remove);
      ResendFrom(step.0, now, p + 1, step.1)
  }

  /** `messageResendCheck`: every client is dealt with as `ResendChoice`
      says, in ascending port order, and expired ports are erased
      afterwards. */
  function ResendCheck(c: Conn, now: nat): (r: Conn)
    requires WellFormed(c)
    ensures WellFormed(r) && c.outbox <= r.outbox && r.dataToSend == c.dataToSend
    ensures forall q :: q in c.clients ==> (q in r.clients <==> ResendChoice(c.clients[q], now) != Expire)
    ensures forall q :: q in r.clients ==> q in c.clients && r.clients[q] == AfterResend(c.clients[q], now)
  {
    var pass := ResendFrom(c, now, 0, {});
    pass.0.(clients := pass.0.clients - pass.1)
  }

  /** Within one segment lifetime of its last send a client is neither
      resent to nor removed, and one that has never had a send completed is
      left alone whatever the clock says. */
  lemma {:induction false} ResendQuietWithinLifetime(c: Conn, now: nat, q: uint16)
    requires WellFormed(c) && q in c.clients
    requires c.clients[q].lastTimeMessageSent == 0 || now - c.clients[q].lastTimeMessageSent <= MAX_SEGMENT_LIFE
    ensures q in ResendCheck(c, now).clients && ResendCheck(c, now).clients[q] == c.clients[q]
  {
  }

  /** The send-completion callback a segment carries: its client's single
      timestamp becomes `now` (a client no longer present is not touched). */
  function SendDone(c: Conn, port: uint16, now: nat): (r: Conn)
    requires WellFormed(c)
    ensures WellFormed(r) && r.outbox == c.outbox && r.clients.Keys == c.clients.Keys
    ensures port in c.clients ==> r.clients[port] == SetLastTimeMessageSent(c.clients[port], now)
    ensures forall q :: q in c.clients && q != port ==> r.clients[q] == c.clients[q]
  {
    if port in c.clients then UpdateClient(c, port, SetLastTimeMessageSent(c.clients[port], now)) else c
  }

  /** What the event loop can see next: a received segment, a line of
      input, an idle turn at a given time, a completed send, or the
      application closing. */
  datatype Event = Arrived(seg: Segment) | Typed(text: seq<byte>) | Idle(now: nat)
                 | Delivered(port: uint16, at: nat) | Disconnect

  /** One turn of `communicate` (received segments come before input, input
      before the close pass, and the close pass replaces the resend check),
      or the completion callback, or `disconnect` raising `timeToClose`. */
  function Step(c: Conn, e: Event): (r: Conn)
    requires WellFormed(c)
    ensures WellFormed(r)
  {
    match e
    case Arrived(seg) => Receive(c, seg)
    case Typed(text) => Input(c, text)
    case Idle(now) =>
      if c.timeToClose then ClosePass(c, now)
      else if c.clients != map[] then ResendCheck(c, now)
      else c
    case Delivered(port, at) => SendDone(c, port, at)
    case Disconnect => c.(timeToClose := true)
  }

  /** A run of events from a well-formed connection. */
  function Run(c: Conn, es: seq<Event>): (r: Conn)
    requires WellFormed(c)
    ensures WellFormed(r)
    decreases |es|
  {
    if |es| == 0 then c else Run(Step(c, es[0]), es[1..])
  }
}
