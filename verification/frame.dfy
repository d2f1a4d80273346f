/** MBAP-framed messages (section 3.1.3 of the Modbus Messaging on TCP/IP
    Implementation Guide V1.0b) and the exception response of section 7 of
    the Modbus Application Protocol Specification V1.1b3.

    A request is the content of the 260-byte receive buffer. Its fields sit at
    fixed offsets: transaction id 0-1, protocol id 2-3, length 4-5, unit id 6,
    function code 7, and two big-endian payload words at 8-9 and 10-11. The
    firmware never compares these offsets with the received length, so every
    request here carries at least those 12 bytes. */
module Frame {
  import opened Bytes

  /** Bytes every request handler reads: MBAP header, function code, two words. */
  const RequestSize: nat := 12
  /** Offset of the first byte the length field counts (the unit id): the
      transaction id, protocol id and length field itself are not counted. */
  const LengthFieldEnd: nat := 6

  const IllegalFunction: uint8 := 1
  const IllegalDataAddress: uint8 := 2
  const IllegalDataValue: uint8 := 3

  function TransactionId(f: seq<uint8>): (id: uint16)
    requires |f| >= 2
  {
    Word(f[0], f[1])
  }

  function ProtocolId(f: seq<uint8>): (id: uint16)
    requires |f| >= 4
  {
    Word(f[2], f[3])
  }

  function LengthField(f: seq<uint8>): (length: uint16)
    requires |f| >= 6
  {
    Word(f[4], f[5])
  }

  function UnitId(f: seq<uint8>): (id: uint8)
    requires |f| >= 7
  {
    f[6]
  }

  function FunctionCode(f: seq<uint8>): (code: uint8)
    requires |f| >= 8
  {
    f[7]
  }

  /** First payload word: the start address (03, 04) or register address (06). */
  function StartAddress(req: seq<uint8>): (address: uint16)
    requires |req| >= RequestSize
  {
    Word(req[8], req[9])
  }

  /** Second payload word: the quantity (03, 04) or register value (06). */
  function Quantity(req: seq<uint8>): (quantity: uint16)
    requires |req| >= RequestSize
  {
    Word(req[10], req[11])
  }

  /** The length field counts exactly the bytes that follow it. */
  predicate LengthIsExact(f: seq<uint8>)
    requires |f| >= LengthFieldEnd
  {
    LengthField(f) as int == |f| - LengthFieldEnd
  }

  /** `f` answers `req` with the same transaction and unit. */
  predicate EchoesIds(f: seq<uint8>, req: seq<uint8>)
    requires |f| >= 7 && |req| >= 7
  {
    TransactionId(f) == TransactionId(req) && UnitId(f) == UnitId(req)
  }

  /** A section-7 exception response: nine bytes, protocol 0, exact length,
      the function code with its top bit set, then one exception code. */
  predicate IsException(f: seq<uint8>)
  {
    && |f| == 9
    && ProtocolId(f) == 0
    && LengthIsExact(f)
    && FunctionCode(f) >= 0x80
  }

  /** `modbusException(exceptionCode, functionCode)`: the ids come from the
      receive buffer, which is the request being answered. */
  function ExceptionFrame(req: seq<uint8>, functionCode: uint8, exceptionCode: uint8): (f: seq<uint8>)
    requires |req| >= 7
    ensures IsException(f)
    ensures EchoesIds(f, req)
    ensures FunctionCode(f) % 0x80 == functionCode % 0x80
    ensures f[8] == exceptionCode
  {
    [req[0], req[1], 0, 0, 0, 3, req[6], SetTopBit(functionCode), exceptionCode]
  }
}
