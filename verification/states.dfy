/** Connection states shared by both transport generations
    (backend/include/Connection.hpp). The names follow section 3.2 of RFC 793;
    the transitions between them are the repository's own. */
module States {
  import opened Bytes
  import opened Wrappers

  datatype State = NONE | SYN_SENT | SYN_RECEIVED | ESTABLISHED | FIN_WAIT_1 | FIN_WAIT_2
                 | TIME_WAIT | CLOSING | CLOSED | LAST_ACK
  {
    /** The `uint8_t` code of the enumerator. */
    function Code(): (r: byte)
      ensures r <= 9
    {
      match this
      case NONE => 0
      case SYN_SENT => 1
      case SYN_RECEIVED => 2
      case ESTABLISHED => 3
      case FIN_WAIT_1 => 4
      case FIN_WAIT_2 => 5
      case TIME_WAIT => 6
      case CLOSING => 7
      case CLOSED => 8
      case LAST_ACK => 9
    }
  }

  /** The state with a given code, if any. */
  function FromCode(c: byte): (r: Option<State>)
    ensures r.Some? <==> c <= 9
    ensures r.Some? ==> r.value.Code() == c
  {
    if c == 0 then Some(NONE)
    else if c == 1 then Some(SYN_SENT)
    else if c == 2 then Some(SYN_RECEIVED)
    else if c == 3 then Some(ESTABLISHED)
    else if c == 4 then Some(FIN_WAIT_1)
    else if c == 5 then Some(FIN_WAIT_2)
    else if c == 6 then Some(TIME_WAIT)
    else if c == 7 then Some(CLOSING)
    else if c == 8 then Some(CLOSED)
    else if c == 9 then Some(LAST_ACK)
    else None
  }

  /** Codes and states are in one-to-one correspondence. */
  lemma {:induction false} CodeRoundTrip(s: State)
    ensures FromCode(s.Code()) == Some(s)
  {
  }

  function StateName(s: State): string {
    match s
    case NONE => "NONE"
    case SYN_SENT => "SYN_SENT"
    case SYN_RECEIVED => "SYN_RECEIVED"
    case ESTABLISHED => "ESTABLISHED"
    case FIN_WAIT_1 => "FIN_WAIT_1"
    case FIN_WAIT_2 => "FIN_WAIT_2"
    case TIME_WAIT => "TIME_WAIT"
    case CLOSING => "CLOSING"
    case CLOSED => "CLOSED"
    case LAST_ACK => "LAST_ACK"
  }

  /** The display name of a state code; "ERROR" for any byte that is not one. */
  function StateToStr(c: byte): (r: string)
    ensures r == "ERROR" <==> c > 9
  {
    match FromCode(c)
    case Some(s) => StateName(s)
    case None => "ERROR"
  }

  /** Different codes in 0..9 have different names. */
  lemma {:induction false} StateToStrInjective(a: byte, b: byte)
    requires a <= 9 && b <= 9 && a != b
    ensures StateToStr(a) != StateToStr(b)
  {
  }

  // The transitions both transport generations make on closing.

  /** The FIN a client sends from `messageHandler` once all data is out:
      CLOSING goes to LAST_ACK, any other state to FIN_WAIT_1. */
  function FinState(s: State): (r: State)
    ensures r == LAST_ACK <==> s == CLOSING
    ensures r == FIN_WAIT_1 <==> s != CLOSING
  {
    if s == CLOSING then LAST_ACK else FIN_WAIT_1
  }

  /** The FIN the close pass sends: ESTABLISHED and CLOSING go to
      FIN_WAIT_1, any other state to LAST_ACK. */
  function CloseFinState(s: State): (r: State)
    ensures r == FIN_WAIT_1 <==> s == ESTABLISHED || s == CLOSING
    ensures r == LAST_ACK <==> s != ESTABLISHED && s != CLOSING
  {
    if s == ESTABLISHED || s == CLOSING then FIN_WAIT_1 else LAST_ACK
  }

  /** The two FIN senders disagree on CLOSING: `messageHandler` moves it to
      LAST_ACK, the close pass to FIN_WAIT_1. Of the other states they agree
      only on ESTABLISHED, which both send to FIN_WAIT_1. */
  lemma {:induction false} FinSendersDisagreeOnClosing()
    ensures FinState(CLOSING) == LAST_ACK && CloseFinState(CLOSING) == FIN_WAIT_1
    ensures forall s: State :: s != CLOSING ==> (FinState(s) == CloseFinState(s) <==> s == ESTABLISHED)
  {
  }

  /** The state an in-order FIN moves a client to; NONE marks a FIN the
      state does not accept. */
  function FinReceivedState(s: State): (r: State)
    ensures r == CLOSING <==> s == ESTABLISHED
    ensures r == TIME_WAIT <==> s == FIN_WAIT_2
    ensures r == NONE <==> s != ESTABLISHED && s != FIN_WAIT_2
  {
    if s == ESTABLISHED then CLOSING else if s == FIN_WAIT_2 then TIME_WAIT else NONE
  }

  /** The state an in-order FIN|ACK moves a client to; NONE for any state
      that was not waiting for one. */
  function FinAckState(s: State): (r: State)
    ensures s == FIN_WAIT_1 <==> r == FIN_WAIT_2
    ensures s == LAST_ACK <==> r == CLOSED
    ensures s != FIN_WAIT_1 && s != LAST_ACK <==> r == NONE
  {
    if s == FIN_WAIT_1 then FIN_WAIT_2 else if s == LAST_ACK then CLOSED else NONE
  }

  /** The states that take new data on input. */
  predicate Sending(s: State) {
    s == ESTABLISHED || s == CLOSING
  }
}
