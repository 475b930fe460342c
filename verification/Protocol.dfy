/** The binary control protocol: bytes, the packed seven-byte header, messages. */
module Protocol {
  type Byte = x: int | 0 <= x < 256
  type UInt32 = x: int | 0 <= x < 0x1_0000_0000
  type Bytes = seq<Byte>

  datatype Option<+T> = None | Some(value: T)

  const PROTOCOL_VERSION: Byte := 1
  const HEADER_SIZE: nat := 7

  const GET_STATS: Byte := 1
  const GET_SESSIONS: Byte := 2
  const GET_CDR: Byte := 3
  const START_SESSION: Byte := 4
  const STOP_SESSION: Byte := 5
  const SHUTDOWN: Byte := 6

  const STATUS_OK: Byte := 1
  const STATUS_ERROR: Byte := 2
  const STATUS_INVALID_COMMAND: Byte := 3
  const STATUS_INVALID_PARAMS: Byte := 4

  datatype Header = Header(version: Byte, command: Byte, status: Byte, length: UInt32)
  datatype Message = Message(header: Header, data: Bytes)

  /** A message whose header tells the truth about its version and its payload. */
  predicate WellFormed(m: Message) {
    m.header.version == PROTOCOL_VERSION && m.header.length == |m.data|
  }
}
