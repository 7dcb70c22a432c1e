/** The datagram framing of pkg/wstransport that the relays rely on. */
module Frames {
  import opened Common

  const MAGIC: Bytes := [0x00, 0x4E, 0x54, 0x57]
  const FRAME_RELAY_BIND: byte := 4
  /** Only the native relay's own socket reads this one, so it may share its number with a path probe. */
  const FRAME_NATIVE_ASSOCIATE: byte := 6
  const FRAME_PATH_PROBE: byte := 6
  const FRAME_PATH_ACK: byte := 7
  const PATH_PROBE_SIZE := 12
  const MAX_RELAY_DATAGRAM := 1500

  datatype Frame = Frame(typ: byte, payload: Bytes)

  function DecodeControlFrame(b: Bytes): Option<Frame> {
    if |b| >= 5 && b[..4] == MAGIC then Some(Frame(b[4], b[5..])) else None
  }

  predicate ValidRelayDatagram(b: Bytes) {
    0 < |b| <= MAX_RELAY_DATAGRAM
  }

  predicate ValidPathControl(f: Frame) {
    (f.typ == FRAME_PATH_PROBE || f.typ == FRAME_PATH_ACK) && |f.payload| == PATH_PROBE_SIZE
  }
}
