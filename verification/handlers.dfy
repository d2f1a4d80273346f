/** The four request handlers of the firmware: Read Holding Registers (03),
    Read Input Registers (04), Write Single Register (06) and Write Multiple
    Registers (16), sections 6.3, 6.4, 6.6 and 6.12 of the Modbus Application
    Protocol Specification V1.1b3. Each takes the register database and the
    request, and gives back the database after the request together with the
    bytes it hands to `send`, if any. */
module Handlers {
  import opened Bytes
  import opened Registers
  import opened Frame

  datatype Option<T> = None | Some(value: T)

  /** The register database after one request and the frame sent in reply. */
  datatype Outcome = Outcome(store: Store, reply: Option<seq<uint8>>)

  /** Function codes as they appear in byte 7 of a request. */
  const ReadHoldingCode: uint8 := 3
  const ReadInputCode: uint8 := 4
  const WriteSingleCode: uint8 := 6
  const WriteMultipleCode: uint8 := 16

  // ---------------------------------------------------------------------------
  // Range checking shared by the two read handlers
  // ---------------------------------------------------------------------------

  /** The read handlers compute the end address in a `uint16_t`, so
      `start + quantity` wraps modulo 2^16 before it is compared with the bank
      size. This holds unless the wrapped sum slips under the bank size while
      the true sum is past it: for those requests the firmware takes the
      success branch and indexes past the end of its array. */
  predicate NoWrappedRead(req: seq<uint8>, cap: nat)
    requires |req| >= RequestSize
  {
    var start, quantity := StartAddress(req) as nat, Quantity(req) as nat;
    start + quantity < 0x1_0000 || Wrap16(start + quantity) as nat > cap
  }

  /** The requests `NoWrappedRead` excludes are exactly those that pass the
      firmware's 16-bit guard and still reach past the end of the bank. */
  lemma NoWrappedReadExcludesOnlyOverruns(req: seq<uint8>, cap: nat)
    requires |req| >= RequestSize && cap < 0x1_0000
    ensures var start, quantity := StartAddress(req) as nat, Quantity(req) as nat;
      !NoWrappedRead(req, cap) <==> Wrap16(start + quantity) as nat <= cap < start + quantity
  {
  }

  /** The exception code the read handlers send once the end address is past
      the bank: illegal data value when the start address lies inside the bank,
      illegal data address when it does not. */
  function OverrunCode(start: nat, cap: nat): (code: uint8)
  {
    if start < cap then IllegalDataValue else IllegalDataAddress
  }

  /** The nested loops the read handlers run before sending an exception: they
      look for a position `i` in `[start, cap)` and a count `j` in
      `[1, quantity]` with `i + j > cap`. Finding one selects illegal data
      value; otherwise illegal data address. When the guard has fired, that is
      `OverrunCode`. */
  method OverrunExceptionCode(start: uint16, quantity: uint16, cap: nat) returns (code: uint8)
    ensures code == (if start as nat < cap && quantity >= 2 then IllegalDataValue else IllegalDataAddress)
    ensures Wrap16(start as nat + quantity as nat) as nat > cap ==> code == OverrunCode(start as nat, cap)
  {
    var i: int := start as int;
    while i < cap
      invariant start as int <= i
      invariant i > start as int ==> i - 1 + quantity as int <= cap
    {
      var j: int := quantity as int;
      while j > 0
        invariant 0 <= j <= quantity as int
        invariant j < quantity as int ==> i + quantity as int <= cap
      {
        if i + j > cap {
          return IllegalDataValue;
        }
        j := j - 1;
      }
      i := i + 1;
    }
    return IllegalDataAddress;
  }

  /** `f` is a read response for function `fc` whose byte count and data carry
      exactly `regs`, high byte first, in ascending address order. */
  predicate CarriesRegisters(f: seq<uint8>, fc: uint8, regs: seq<uint16>)
  {
    && |f| == 9 + 2 * |regs|
    && FunctionCode(f) == fc
    && f[8] as nat == 2 * |regs|
    && forall i :: 0 <= i < |regs| ==> Word(f[9 + 2 * i], f[10 + 2 * i]) == regs[i]
  }

  /** A client reading the data bytes of such a response recovers `regs`. */
  lemma CarriedRegistersDecode(f: seq<uint8>, fc: uint8, regs: seq<uint16>)
    requires CarriesRegisters(f, fc, regs)
    ensures Decode(f[9..]) == regs
  {
    var data := Decode(f[9..]);
    forall i | 0 <= i < |regs|
      ensures data[i] == regs[i]
    {
      assert f[9..][2 * i] == f[9 + 2 * i];
    }
  }

  /** `f` is the exception `req` draws with the given code. */
  predicate RaisesFor(f: seq<uint8>, req: seq<uint8>, code: uint8)
    requires |req| >= RequestSize
  {
    IsException(f) && EchoesIds(f, req) && FunctionCode(f) == SetTopBit(FunctionCode(req)) && f[8] == code
  }

  // ---------------------------------------------------------------------------
  // Function 03: Read Holding Registers
  // ---------------------------------------------------------------------------

  /** The success frame of function 03: transaction id echoed, protocol id 0,
      length `3 + 2 * quantity` stored into one byte, unit id, function 03,
      byte count, then the registers. */
  function HoldingReply(req: seq<uint8>, regs: seq<uint16>): (f: seq<uint8>)
    requires |req| >= RequestSize
    ensures |f| == 9 + 2 * |regs|
    ensures EchoesIds(f, req) && ProtocolId(f) == 0 && FunctionCode(f) == ReadHoldingCode
    // the length and byte count are single bytes: exact while they fit
    ensures |regs| <= 126 ==> LengthIsExact(f) && f[8] as nat == 2 * |regs|
  {
    [req[0], req[1], 0, 0, 0, Trunc8(3 + 2 * |regs|), req[6], ReadHoldingCode, Trunc8(2 * |regs|)]
      + Encode(regs)
  }

  /** The function-03 success frame echoes the ids, counts its bytes exactly
      and carries `regs` (at most a bank's worth, so the byte counts fit). */
  lemma HoldingReplyCarries(req: seq<uint8>, regs: seq<uint16>)
    requires |req| >= RequestSize && |regs| <= HoldingCount
    ensures var f := HoldingReply(req, regs);
      && CarriesRegisters(f, ReadHoldingCode, regs)
      && EchoesIds(f, req) && ProtocolId(f) == 0 && LengthIsExact(f)
  {
    var f, data := HoldingReply(req, regs), Encode(regs);
    assert f[9..] == data;
    forall i | 0 <= i < |regs|
      ensures Word(f[9 + 2 * i], f[10 + 2 * i]) == regs[i]
    {
      assert f[9 + 2 * i] == data[2 * i] && f[10 + 2 * i] == data[2 * i + 1];
      WordOfHalves(regs[i]);
    }
  }

  function ReadHoldingRegs(s: Store, req: seq<uint8>): (out: Outcome)
    requires Valid(s) && |req| >= RequestSize && NoWrappedRead(req, HoldingCount)
    ensures out.store == s
    ensures out.reply.Some?
    ensures var f, start, quantity := out.reply.value, StartAddress(req) as nat, Quantity(req) as nat;
      if start + quantity <= HoldingCount then
        && CarriesRegisters(f, ReadHoldingCode, s.holding[start..start + quantity])
        && EchoesIds(f, req) && ProtocolId(f) == 0 && LengthIsExact(f)
      else
        RaisesFor(f, req, if start < HoldingCount then IllegalDataValue else IllegalDataAddress)
  {
    var start, quantity := StartAddress(req) as nat, Quantity(req) as nat;
    if Wrap16(start + quantity) as nat > HoldingCount then
      Outcome(s, Some(ExceptionFrame(req, FunctionCode(req), OverrunCode(start, HoldingCount))))
    else
      HoldingReplyCarries(req, s.holding[start..start + quantity]);
      Outcome(s, Some(HoldingReply(req, s.holding[start..start + quantity])))
  }

  // ---------------------------------------------------------------------------
  // Function 04: Read Input Registers
  // ---------------------------------------------------------------------------

  /** The success frame of function 04: the first six request bytes copied as
      they are (the length field included, not recomputed), unit id,
      function 04, byte count, then the registers. */
  function InputReply(req: seq<uint8>, regs: seq<uint16>): (f: seq<uint8>)
    requires |req| >= RequestSize
    ensures |f| == 9 + 2 * |regs|
    // transaction id, protocol id and length field are the request's own
    ensures TransactionId(f) == TransactionId(req) && ProtocolId(f) == ProtocolId(req)
    ensures LengthField(f) == LengthField(req)
    ensures UnitId(f) == UnitId(req) && FunctionCode(f) == ReadInputCode
    ensures |regs| <= 127 ==> f[8] as nat == 2 * |regs|
  {
    req[..6] + [req[6], ReadInputCode, Trunc8(2 * |regs|)] + Encode(regs)
  }

  /** The function-04 success frame starts with the request's first six bytes
      and its unit id, and carries `regs`. */
  lemma InputReplyCarries(req: seq<uint8>, regs: seq<uint16>)
    requires |req| >= RequestSize && |regs| <= InputCount
    ensures var f := InputReply(req, regs);
      && CarriesRegisters(f, ReadInputCode, regs)
      && f[..6] == req[..6] && UnitId(f) == UnitId(req)
  {
    var f, data := InputReply(req, regs), Encode(regs);
    assert f[9..] == data;
    forall i | 0 <= i < |regs|
      ensures Word(f[9 + 2 * i], f[10 + 2 * i]) == regs[i]
    {
      assert f[9 + 2 * i] == data[2 * i] && f[10 + 2 * i] == data[2 * i + 1];
      WordOfHalves(regs[i]);
    }
  }

  function ReadInputRegs(s: Store, req: seq<uint8>): (out: Outcome)
    requires Valid(s) && |req| >= RequestSize && NoWrappedRead(req, InputCount)
    ensures out.store == s
    ensures out.reply.Some?
    ensures var f, start, quantity := out.reply.value, StartAddress(req) as nat, Quantity(req) as nat;
      if start + quantity <= InputCount then
        && CarriesRegisters(f, ReadInputCode, s.input[start..start + quantity])
        && f[..6] == req[..6] && UnitId(f) == UnitId(req)
      else
        RaisesFor(f, req, if start < InputCount then IllegalDataValue else IllegalDataAddress)
  {
    var start, quantity := StartAddress(req) as nat, Quantity(req) as nat;
    if Wrap16(start + quantity) as nat > InputCount then
      Outcome(s, Some(ExceptionFrame(req, FunctionCode(req), OverrunCode(start, InputCount))))
    else
      InputReplyCarries(req, s.input[start..start + quantity]);
      Outcome(s, Some(InputReply(req, s.input[start..start + quantity])))
  }

  // ---------------------------------------------------------------------------
  // Function 06: Write Single Register
  // ---------------------------------------------------------------------------

  /** The firmware's address check, `register_address > 7 && register_address < 0`.
      No address satisfies it, so the write always happens; addresses 6 and
      above land past the end of the holding bank, which is why
      `WriteSingleReg` requires an address inside it. */
  predicate WriteGuardRejects(address: uint16)
  {
    address as int > 7 && address as int < 0
  }

  /** No address is rejected: the guard is unsatisfiable. */
  lemma WriteGuardNeverRejects()
    ensures forall address: uint16 :: !WriteGuardRejects(address)
  {
  }

  function WriteSingleReg(s: Store, req: seq<uint8>): (out: Outcome)
    requires Valid(s) && |req| >= RequestSize && StartAddress(req) as nat < HoldingCount
    ensures Valid(out.store)
    ensures out.store.holding[StartAddress(req)] == Quantity(req)
    ensures forall i :: 0 <= i < HoldingCount && i != StartAddress(req) as nat ==>
      out.store.holding[i] == s.holding[i]
    ensures out.store.input == s.input
    ensures out.reply == Some(req[..RequestSize])
  {
    var address, value := StartAddress(req), Quantity(req);
    // built ahead of the test because the branch that sends it is unreachable
    var rejection := ExceptionFrame(req, FunctionCode(req), IllegalDataAddress);
    if WriteGuardRejects(address) then
      Outcome(s, Some(rejection))
    else
      Outcome(SetHolding(s, address as nat, value), Some(req[..RequestSize]))
  }

  // ---------------------------------------------------------------------------
  // Function 16: Write Multiple Registers
  // ---------------------------------------------------------------------------

  /** The handler's body is commented out: nothing is written, nothing is sent. */
  function WriteMultipleRegs(s: Store, req: seq<uint8>): (out: Outcome)
    requires Valid(s) && |req| >= RequestSize
    ensures out.store == s
    ensures out.reply.None?
  {
    Outcome(s, None)
  }
}
