/** Packet layout and operation codes (Network/PacketDefs.h). */
module PacketDefs {

  type Byte = x: int | 0 <= x < 256
  type U16 = x: int | 0 <= x < 0x1_0000

  const HEADER_SIZE: nat := 4
  const MAX_PACKET_SIZE: nat := 4096

  const CS_LOGIN: U16 := 1001
  const SC_LOGIN_ACK: U16 := 1002
  const CS_EVENT_INFO_REQ: U16 := 2001
  const SC_EVENT_INFO_ACK: U16 := 2002
  const SC_ERROR: U16 := 9001

  // sizeof(CsLogin): one packed uint64_t.
  const CS_LOGIN_SIZE: nat := 8

  datatype Option<+T> = None | Some(value: T)

  /** One routed packet: the header's opcode and the bytes after the header. */
  datatype Packet = Packet(opcode: U16, payload: seq<Byte>)

  // The header fields are little-endian 16-bit integers.
  function U16At(s: seq<Byte>, i: nat): U16
    requires i + 2 <= |s|
  {
    (s[i] as int) + 256 * (s[i + 1] as int)
  }

  function U16Bytes(v: U16): seq<Byte> {
    [v % 256, v / 256]
  }

  function LittleEndian(s: seq<Byte>): nat {
    if s == [] then 0 else s[0] + 256 * LittleEndian(s[1..])
  }
}
