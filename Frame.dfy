/** The fixed-size wire frame shared by the relay and its peers, and the
    classification of a received datagram by its byte count alone. */
module Frame {

  newtype byte = x: int | 0 <= x < 256

  /** Bounds of the three NUL-terminated fields of a frame. */
  const USERNAME_MAX: nat := 16
  const MSG_LEN_MAX: nat := 128

  /** sizeof(message): sender name (17) + recipient name (17) + body (129). */
  const FRAME: nat := 2 * (USERNAME_MAX + 1) + MSG_LEN_MAX + 1

  /** A full frame is a Payload to forward; anything else only says "I am alive". */
  datatype Kind = Payload | Heartbeat

  function Classify(recvLen: nat): (k: Kind)
    ensures k == Payload <==> recvLen == FRAME
    ensures k == Heartbeat <==> recvLen != FRAME
  {
    if recvLen == FRAME then Payload else Heartbeat
  }

  /** The bytes a datagram receive into a FRAME-byte buffer delivers: a longer
      datagram is cut to the buffer, a shorter one arrives whole. */
  function Received(wire: seq<byte>): (r: seq<byte>)
    ensures |r| <= FRAME
    ensures r <= wire
    ensures |wire| <= FRAME ==> r == wire
  {
    if |wire| <= FRAME then wire else wire[..FRAME]
  }

  /** Because of that cut, every datagram at least a frame long is taken for
      a Payload, and only those. */
  lemma OversizeIsPayload(wire: seq<byte>)
    ensures Classify(|Received(wire)|) == Payload <==> |wire| >= FRAME
  {
  }
}
