/** The out-of-order buffer both client generations keep: received segments
    keyed by sequence number (`messageBuffer` with checkItemMessageBuffer,
    popItemMessageBuffer and setItemMessageBuffer in backend/src/Client.cpp and
    backend/TCP/src/Client.cpp). */
module Reassembly {
  import opened Bytes
  import opened Wrappers
  import opened Segments

  type Buffer = map<uint32, Segment>

  /** `checkItemMessageBuffer`: whether a segment is held at `key`. */
  predicate CheckItem(b: Buffer, key: uint32) {
    key in b
  }

  datatype Popped = Popped(found: bool, buffer: Buffer, item: Option<Segment>)

  /** `popItemMessageBuffer`: removes and returns the entry at `key` iff one
      is present; otherwise nothing changes. */
  function PopItem(b: Buffer, key: uint32): (r: Popped)
    ensures r.found <==> CheckItem(b, key)
    ensures r.found ==> r.item == Some(b[key]) && key !in r.buffer
    ensures r.found ==> |r.buffer| == |b| - 1
    ensures forall k :: k in r.buffer <==> k in b && k != key
    ensures forall k :: k in r.buffer ==> r.buffer[k] == b[k]
    ensures !r.found ==> r.buffer == b && r.item.None?
  {
    if key in b then Popped(true, b - {key}, Some(b[key])) else Popped(false, b, None)
  }

  /** `setItemMessageBuffer`: stores `s` at `key`, overwriting any earlier
      entry there and leaving every other entry alone. */
  function SetItem(b: Buffer, key: uint32, s: Segment): (r: Buffer)
    ensures CheckItem(r, key) && r[key] == s
    ensures forall k :: k in r <==> k in b || k == key
    ensures forall k :: k in b && k != key ==> r[k] == b[k]
  {
    b[key := s]
  }

  /** A stored segment comes back out by popping its key, and the rest of the
      buffer is what it was without that key. */
  lemma {:induction false} PopAfterSet(b: Buffer, key: uint32, s: Segment)
    ensures PopItem(SetItem(b, key, s), key) == Popped(true, b - {key}, Some(s))
  {
    assert SetItem(b, key, s) - {key} == b - {key};
  }

  /** Setting a key twice keeps only the later segment. */
  lemma {:induction false} SetOverwrites(b: Buffer, key: uint32, s1: Segment, s2: Segment)
    ensures SetItem(SetItem(b, key, s1), key, s2) == SetItem(b, key, s2)
  {
  }
}
