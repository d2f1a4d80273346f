# Modbus TCP server request engine

A Dafny model of the request engine in `modbus_tcp.c`, the Modbus TCP server
(slave) of an STM32 board with a W5500 Ethernet controller. The engine takes
one received frame and handles it:

- the MBAP header follows section 3.1.3 of the Modbus Messaging on TCP/IP
  Implementation Guide V1.0b;
- the function code at byte 7 picks the handler;
- Read Holding Registers (03) and Read Input Registers (04) check the range
  and answer with register data or an exception;
- Write Single Register (06) stores a value and echoes the request;
- Write Multiple Registers (16) does nothing;
- any other code is answered with an illegal-function exception (section 7 of
  the Modbus Application Protocol Specification V1.1b3).

The register database is two fixed arrays of 16-bit values: 6 holding
registers, booting as 140, 150, ..., 190, and 12 input registers, booting as
zero.

The model is functional. A request is a `seq<uint8>` holding at least the 12
bytes every handler reads. Each handler is a pure function from the database
and the request to an `Outcome`: the database after the request, and the frame
passed to `send`, if any.

Modules, leaves first:

- `Bytes` (`bytes.dfy`): `uint8` and `uint16`, big-endian split and join, and
  the C truncations (`Wrap16`, `Trunc8`, `| 0x80`).
- `Registers` (`registers.dfy`): the database, its boot contents, the
  single-register write, and the big-endian layout of register data.
- `Frame` (`frame.dfy`): header fields at their offsets, the exception codes,
  and `modbusException`.
- `Handlers` (`handlers.dfy`): the four handlers, and the range check the
  read handlers share.
- `Dispatch` (`dispatch.dfy`): `parse_modbus_request`, requests handled one
  after another, and the properties that span several calls.
- `Scenarios` (`scenarios.dfy`): concrete exchanges starting from the boot
  contents.

Behaviour the model reproduces as the code has it:

- **16-bit end address.** Both read handlers compute `start + quantity` in a
  `uint16_t`, so the sum wraps before it is compared with the bank size. With
  start 0xFFFF and quantity 2 the end address is 1: the request passes the
  guard and the handler reads past its array. The read handlers require
  `NoWrappedRead`. `NoWrappedReadExcludesOnlyOverruns` proves this excludes
  exactly such requests. `GuardsLetThrough` exhibits one.
- **Exception code of an over-long read.** The nested loops before the
  exception select illegal data value (3) whenever the start address lies
  inside the bank, and illegal data address (2) only when it does not. Start
  4 with quantity 10 therefore gets code 3. Section 6.3 of the Modbus
  Application Protocol Specification V1.1b3 answers a request whose
  starting address plus quantity leaves the bank with code 2; the model
  follows the code.
  `OverrunExceptionCode` models the loops and proves the rule.
- **Function 04 header.** The answer copies request bytes 0-5, the length
  field included. The length field is right only when the request's happens
  to equal `3 + 2 * quantity`; a standard request's is not
  (`InputReplyLength`, `InputReplyKeepsRequestLength`). Section 3.1.3 of the
  Messaging on TCP/IP Implementation Guide defines the length field as the
  count of the bytes that follow it; the model follows the code.
- **Write guard.** `register_address > 7 && register_address < 0` is never
  true, so function 06 always writes (`WriteGuardNeverRejects`). Section
  6.6 of the Modbus Application Protocol Specification V1.1b3 answers an
  address outside the bank with code 2; the code never sends one. `WriteSingleReg` keeps the dead branch and requires an
  address inside the bank.
- **Top bit of the exception function code.** `functionCode | 0x80` leaves a
  code of 0x80 or more unchanged. An unsupported code 99 (0x63) is answered
  with 0xE3; 0x99 is answered with 0x99 (`UnsupportedCodes`).

## Model

| member | source | states |
|---|---|---|
| `Bytes.HalvesOfWord` | modbus_tcp.c:221-222 | a 16-bit field read as `(hi << 8) \| lo` splits back into the same two bytes |
| `Bytes.WordOfHalves` | modbus_tcp.c:258-261 | a register sent as `val >> 8`, `val & 0xFF` is rebuilt exactly by a big-endian reader |
| `Bytes.Wrap16` | modbus_tcp.c:234 | storing a sum in a `uint16_t` keeps sums below 2^16 and subtracts 2^16 from larger ones |
| `Bytes.Trunc8` | modbus_tcp.c:229-232 | storing a count in a `uint8_t` keeps values below 256 and otherwise loses only multiples of 256 |
| `Bytes.SetTopBit` | modbus_tcp.c:121 | `functionCode \| 0x80` has the top bit set and the low seven bits of the function code |
| `Registers.Initial` | modbus_tcp.c:98-99 | the database boots with holding register i equal to 140 + 10i (6 of them) and 12 zero input registers |
| `Registers.SetHolding` | modbus_tcp.c:333 | a write sets one holding register to the value and leaves the other holding registers and the whole input bank unchanged |
| `Registers.Encode` | modbus_tcp.c:255-262 | register i of a response occupies bytes 2i and 2i+1, high byte first, in ascending address order |
| `Registers.DecodeEncode` | modbus_tcp.c:255-262 | the data bytes of a read response decode to exactly the registers read |
| `Frame.ExceptionFrame` | modbus_tcp.c:111-125 | an exception is 9 bytes: transaction id and unit id echoed, protocol id 0, length 3 counting exactly the bytes after it, function code with the top bit set, then the exception code |
| `Handlers.CarriedRegistersDecode` | modbus_tcp.c:255-262 | a client decoding the data bytes of a read response, two bytes per register, gets back exactly the registers the handler placed there |
| `Handlers.NoWrappedReadExcludesOnlyOverruns` | modbus_tcp.c:234-236 | the read precondition excludes exactly the requests whose wrapped end address passes the guard while the true end address is past the bank |
| `Handlers.OverrunExceptionCode` | modbus_tcp.c:238-252 | the nested loops pick illegal data value iff the start lies inside the bank and at least two registers are asked for; once the guard has fired this is "value iff the start lies inside the bank" |
| `Handlers.HoldingReply` | modbus_tcp.c:224-232 | the function-03 success frame is 9 + 2n bytes, echoes the transaction and unit id, has protocol id 0 and function 03, and while n fits its one-byte length and byte count are exact |
| `Handlers.HoldingReplyCarries` | modbus_tcp.c:224-264 | the function-03 success frame echoes the transaction and unit id, has protocol id 0 and a length field that counts exactly the bytes after it, and its data bytes hold the registers read |
| `Handlers.ReadHoldingRegs` | modbus_tcp.c:218-265 | a holding read inside the bank answers with ids echoed, protocol 0, exact length, function 03, byte count 2q and registers start..start+q; a read past the bank draws exception 3 if the start is inside the bank, else 2; the database is unchanged |
| `Handlers.InputReply` | modbus_tcp.c:294-299 | the function-04 success frame is 9 + 2n bytes whose transaction id, protocol id and length field are the request's own, with the request's unit id, function 04 and, while it fits, byte count 2n |
| `Handlers.InputReplyCarries` | modbus_tcp.c:294-313 | the function-04 success frame begins with the request's first six bytes and unit id, and its byte count and data bytes hold the registers read |
| `Handlers.ReadInputRegs` | modbus_tcp.c:266-314 | an input read inside the bank answers with request bytes 0-5 copied, unit id, function 04, byte count 2q and registers start..start+q; a read past the bank draws exception 3 or 2 by the same rule; the database is unchanged |
| `Handlers.WriteGuardNeverRejects` | modbus_tcp.c:326-331 | the address check of function 06 rejects no 16-bit address, so the exception branch never runs |
| `Handlers.WriteSingleReg` | modbus_tcp.c:316-342 | a write stores the value at the address, changes no other register of either bank, and answers with the first 12 request bytes |
| `Handlers.WriteMultipleRegs` | modbus_tcp.c:343-390 | function 16 changes nothing and sends nothing |
| `Dispatch.ParseModbusRequest` | modbus_tcp.c:187-216 | every answer echoes transaction and unit id; only function 06 changes the database and the input bank never changes; an answer with the top bit set is a well-formed exception with code 1-3; no answer iff function 16; any unsupported code draws illegal function; a 03 or 04 read inside its bank is answered with exactly that bank's registers start..start+q, and one past its bank with exception 3 if the start lies inside the bank, else 2; function 06 stores the value at its address, keeps every other holding register and echoes the 12 request bytes |
| `Dispatch.Replay` | modbus_tcp.c:187-216 | over any run of requests handled one after another the database keeps its shape, the input bank never changes, exactly one frame is sent per request other than function 16, and a run without function 06 changes nothing |
| `Dispatch.WriteThenReadHolding` | modbus_tcp.c:333-341 | a value acknowledged by function 06 is what a following one-register function-03 read of that address returns |
| `Dispatch.InputReplyLength` | modbus_tcp.c:294-299 | the length field of a function-04 answer is the request's own, and it counts the following bytes iff the request's equals 3 + 2q |
| `Dispatch.ReadOverrunRaises` | modbus_tcp.c:236-253 | a read whose true end address is past the bank always draws an exception with code 2 or 3, never data |
| `Scenarios.ReadTwoHolding` | modbus_tcp.c:224-264 | reading 2 holding registers from address 0 at boot answers `00 01 00 00 00 07 01 03 04 00 8C 00 96` |
| `Scenarios.WriteFiveHundred` | modbus_tcp.c:333-341 | writing 500 to holding register 2 is echoed and a following read of register 2 answers 500 |
| `Scenarios.UnsupportedCodes` | modbus_tcp.c:211-215 | code 0x63 is answered with function byte 0xE3 and exception 1; code 0x99 with 0x99 and exception 1 |
| `Scenarios.ReadPastHoldingEnd` | modbus_tcp.c:236-252 | start 4, quantity 10 draws exception 3; start 6, quantity 1 draws exception 2 |
| `Scenarios.InputReplyKeepsRequestLength` | modbus_tcp.c:295 | a standard two-register input read is answered with length field 6 although 7 bytes follow |
| `Scenarios.GuardsLetThrough` | modbus_tcp.c:234-236 | start 0xFFFF with quantity 2 passes the 16-bit guard yet overruns the bank, so it is not `Defined` |

## Left out

- `loop_modbus_slave` (socket open, listen, reconnect, status polling, `recv`, `HAL_Delay`): hardware and network I/O. `Dispatch.Replay` only composes successive `parse_modbus_request` calls.
- `send` and the `printf` logging: the frame passed to `send` is the `reply` of an `Outcome`; logging has no effect on the engine.
- The received length `len`: no handler reads it. A request is the content of the 260-byte receive buffer, so bytes past `len` are whatever an earlier frame left there. The model takes the first 12 bytes as given.
- The commented-out 50-register databases and exception-code defines, the commented-out body of `writemultipleRegs`, and the INA260 and `ps_set_volt` hooks: dead code or foreign calls. `ILLEGAL_FUNCTION`, `ILLEGAL_DATA_ADDRESS` and `ILLEGAL_DATA_VALUE` come from a header that is not part of this model; they are taken as 1, 2 and 3, the values of section 7 and of the commented-out defines. Device failure (4) is never sent.
- The global `response` buffer: the model builds each frame fresh. The bytes the firmware sends are fully rewritten before each `send`, so sharing the buffer is not visible.
- `modbusException` reads its ids from the global receive buffer, not from its argument. The model passes the request, which is that buffer in every call the firmware makes.
- `Handlers.ReadHoldingRegs`: requires `NoWrappedRead`. For the excluded requests the firmware reads past `Holding_Registers_Database`, which has no defined result.
- `Handlers.ReadInputRegs`: requires `NoWrappedRead` for the same reason, with `Input_Registers_Database`.
- `Handlers.WriteSingleReg`: requires an address below 6. The firmware writes addresses 6 and above past the end of `Holding_Registers_Database`, which has no defined result.
- `Dispatch.ParseModbusRequest`: requires `Defined`, which puts the three preconditions above on the request's function code.
- `Dispatch.Replay`: requires every request in the run to be `Defined`, for the same reason.
