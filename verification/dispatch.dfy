/** `parse_modbus_request`: route a request on its function code (byte 7) to
    the matching handler, and answer any other code with an illegal-function
    exception. */
module Dispatch {
  import opened Bytes
  import opened Registers
  import opened Frame
  import opened Handlers

  /** The function codes with a handler. */
  predicate Supported(fc: uint8)
  {
    fc == ReadHoldingCode || fc == ReadInputCode || fc == WriteSingleCode || fc == WriteMultipleCode
  }

  /** The requests for which the firmware stays inside its arrays: reads whose
      16-bit end address does not wrap into the success branch, and single
      writes to an address inside the holding bank. */
  predicate Defined(req: seq<uint8>)
    requires |req| >= RequestSize
  {
    var fc := FunctionCode(req);
    if fc == ReadHoldingCode then NoWrappedRead(req, HoldingCount)
    else if fc == ReadInputCode then NoWrappedRead(req, InputCount)
    else if fc == WriteSingleCode then StartAddress(req) as nat < HoldingCount
    else true
  }

  function ParseModbusRequest(s: Store, req: seq<uint8>): (out: Outcome)
    requires Valid(s) && |req| >= RequestSize && Defined(req)
    ensures Valid(out.store)
    // the input bank is never written, and only function 06 writes at all
    ensures out.store.input == s.input
    ensures FunctionCode(req) != WriteSingleCode ==> out.store == s
    // at most one frame is sent; it answers the same transaction and unit
    ensures out.reply.Some? ==> |out.reply.value| >= 9 && EchoesIds(out.reply.value, req)
    // a frame with the top bit of its function code set is a well-formed exception
    ensures out.reply.Some? && FunctionCode(out.reply.value) >= 0x80 ==>
      IsException(out.reply.value) && 1 <= out.reply.value[8] <= 3
    ensures out.reply.None? <==> FunctionCode(req) == WriteMultipleCode
    ensures !Supported(FunctionCode(req)) ==>
      out.reply.Some? && RaisesFor(out.reply.value, req, IllegalFunction)
    // a read inside its bank is answered with that bank's registers
    ensures var start, quantity := StartAddress(req) as nat, Quantity(req) as nat;
      FunctionCode(req) == ReadHoldingCode && start + quantity <= HoldingCount ==>
        out.reply.Some? && CarriesRegisters(out.reply.value, ReadHoldingCode, s.holding[start..start + quantity])
    ensures var start, quantity := StartAddress(req) as nat, Quantity(req) as nat;
      FunctionCode(req) == ReadInputCode && start + quantity <= InputCount ==>
        out.reply.Some? && CarriesRegisters(out.reply.value, ReadInputCode, s.input[start..start + quantity])
    // a read past its bank draws the exception code the handlers' loops choose
    ensures var start, quantity := StartAddress(req) as nat, Quantity(req) as nat;
      FunctionCode(req) == ReadHoldingCode && start + quantity > HoldingCount ==>
        out.reply.Some? && RaisesFor(out.reply.value, req, OverrunCode(start, HoldingCount))
    ensures var start, quantity := StartAddress(req) as nat, Quantity(req) as nat;
      FunctionCode(req) == ReadInputCode && start + quantity > InputCount ==>
        out.reply.Some? && RaisesFor(out.reply.value, req, OverrunCode(start, InputCount))
    // function 06 stores the value at its address, keeps every other register and echoes the request
    ensures FunctionCode(req) == WriteSingleCode ==>
      && out.reply == Some(req[..RequestSize])
      && out.store.holding[StartAddress(req)] == Quantity(req)
      && forall i :: 0 <= i < HoldingCount && i != StartAddress(req) as nat ==> out.store.holding[i] == s.holding[i]
  {
    var fc := FunctionCode(req);
    if fc == ReadHoldingCode then ReadHoldingRegs(s, req)
    else if fc == WriteMultipleCode then WriteMultipleRegs(s, req)
    else if fc == ReadInputCode then ReadInputRegs(s, req)
    else if fc == WriteSingleCode then WriteSingleReg(s, req)
    else Outcome(s, Some(ExceptionFrame(req, fc, IllegalFunction)))
  }

  /** How many of `reqs` the firmware answers: all but those with function 16. */
  function AnsweredCount(reqs: seq<seq<uint8>>): (n: nat)
    requires forall k :: 0 <= k < |reqs| ==> |reqs[k]| >= RequestSize
    decreases |reqs|
  {
    if reqs == [] then 0
    else (if FunctionCode(reqs[0]) == WriteMultipleCode then 0 else 1) + AnsweredCount(reqs[1..])
  }

  /** Requests are handled one at a time, each on the database the previous one
      left behind. Gives the final database and the frames sent, in order. */
  function Replay(s: Store, reqs: seq<seq<uint8>>): (r: (Store, seq<seq<uint8>>))
    requires Valid(s)
    requires forall k :: 0 <= k < |reqs| ==> |reqs[k]| >= RequestSize && Defined(reqs[k])
    ensures Valid(r.0)
    ensures r.0.input == s.input
    ensures |r.1| == AnsweredCount(reqs) <= |reqs|
    ensures (forall k :: 0 <= k < |reqs| ==> FunctionCode(reqs[k]) != WriteSingleCode) ==> r.0 == s
    decreases |reqs|
  {
    if reqs == [] then (s, [])
    else
      var out := ParseModbusRequest(s, reqs[0]);
      var rest := Replay(out.store, reqs[1..]);
      match out.reply
      case Some(f) => (rest.0, [f] + rest.1)
      case None => rest
  }

  /** A write acknowledged by function 06 is what the next function-03 read of
      that address returns. */
  lemma WriteThenReadHolding(s: Store, write: seq<uint8>, read: seq<uint8>)
    requires Valid(s) && |write| >= RequestSize && |read| >= RequestSize
    requires FunctionCode(write) == WriteSingleCode && StartAddress(write) as nat < HoldingCount
    requires FunctionCode(read) == ReadHoldingCode
    requires StartAddress(read) == StartAddress(write) && Quantity(read) == 1
    ensures var written := ParseModbusRequest(s, write);
      && written.reply == Some(write[..RequestSize])
      && var answer := ParseModbusRequest(written.store, read);
      && answer.reply.Some?
      && |answer.reply.value| == 11
      && Word(answer.reply.value[9], answer.reply.value[10]) == Quantity(write)
  {
    var written := ParseModbusRequest(s, write);
    var a := StartAddress(write) as nat;
    assert written.store.holding[a..a + 1] == [Quantity(write)];
  }

  /** The length field of a function-04 answer is the request's own, copied
      unchanged; it counts the bytes that follow only when the request's length
      field happens to equal `3 + 2 * quantity`. */
  lemma InputReplyLength(s: Store, req: seq<uint8>)
    requires Valid(s) && |req| >= RequestSize && FunctionCode(req) == ReadInputCode
    requires StartAddress(req) as nat + Quantity(req) as nat <= InputCount
    ensures var f := ParseModbusRequest(s, req).reply.value;
      && LengthField(f) == LengthField(req)
      && (LengthIsExact(f) <==> LengthField(req) as nat == 3 + 2 * Quantity(req) as nat)
  {
    var f := ParseModbusRequest(s, req).reply.value;
    assert f[..6] == req[..6];
    assert f[4] == req[4] && f[5] == req[5];
  }

  /** A read whose true end address is past the bank never returns data: it
      draws an exception, whatever the 16-bit arithmetic. */
  lemma ReadOverrunRaises(s: Store, req: seq<uint8>)
    requires Valid(s) && |req| >= RequestSize && Defined(req)
    requires FunctionCode(req) == ReadHoldingCode || FunctionCode(req) == ReadInputCode
    requires StartAddress(req) as nat + Quantity(req) as nat
      > (if FunctionCode(req) == ReadHoldingCode then HoldingCount else InputCount)
    ensures var f := ParseModbusRequest(s, req).reply.value;
      IsException(f) && (f[8] == IllegalDataValue || f[8] == IllegalDataAddress)
  {
  }
}
