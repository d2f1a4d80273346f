/** Concrete exchanges with the server, starting from the database the
    firmware boots with. */
module Scenarios {
  import opened Bytes
  import opened Registers
  import opened Frame
  import opened Handlers
  import opened Dispatch

  /** A function-03 read inside the holding bank is answered by `HoldingReply`
      with the registers it names. */
  lemma HoldingReadAnswer(t: Store, req: seq<uint8>, regs: seq<uint16>)
    requires Valid(t) && |req| >= RequestSize && FunctionCode(req) == ReadHoldingCode
    requires StartAddress(req) as nat + Quantity(req) as nat <= HoldingCount
    requires regs == t.holding[StartAddress(req)..StartAddress(req) as nat + Quantity(req) as nat]
    ensures ParseModbusRequest(t, req) == Outcome(t, Some(HoldingReply(req, regs)))
  {
    var start, quantity := StartAddress(req) as nat, Quantity(req) as nat;
    assert Wrap16(start + quantity) as nat == start + quantity;
  }

  /** The function-03 answer carrying registers 140 and 150. */
  lemma ReplyFirstTwo(req: seq<uint8>)
    requires req == [0x00, 0x01, 0x00, 0x00, 0x00, 0x06, 0x01, 0x03, 0x00, 0x00, 0x00, 0x02]
    ensures HoldingReply(req, [140, 150]) == [0x00, 0x01, 0x00, 0x00, 0x00, 0x07, 0x01, 0x03, 0x04, 0x00, 0x8C, 0x00, 0x96]
  {
    assert Hi(140) == 0x00 && Lo(140) == 0x8C;
    assert Hi(150) == 0x00 && Lo(150) == 0x96;
    assert Encode([140, 150]) == [0x00, 0x8C, 0x00, 0x96];
  }

  /** A sequence whose first two elements are `a` and `b` starts with `[a, b]`.
      A proof step only, no behaviour of the server: established on its own,
      before the request is unfolded, it keeps `ReadFirstTwo` cheap to check. */
  lemma PrefixOfTwo(regs: seq<uint16>, a: uint16, b: uint16)
    requires |regs| >= 2 && regs[0] == a && regs[1] == b
    ensures regs[0..2] == [a, b]
  {
  }

  /** Reading two holding registers from address 0 of a bank that starts
      with 140 and 150 returns those two registers. */
  lemma ReadFirstTwo(t: Store, req: seq<uint8>)
    requires Valid(t) && t.holding[0] == 140 && t.holding[1] == 150
    requires |req| >= RequestSize && FunctionCode(req) == ReadHoldingCode
    requires StartAddress(req) == 0 && Quantity(req) == 2
    ensures ParseModbusRequest(t, req) == Outcome(t, Some(HoldingReply(req, [140, 150])))
  {
    PrefixOfTwo(t.holding, 140, 150);
    HoldingReadAnswer(t, req, [140, 150]);
  }

  /** At boot, reading two holding registers from address 0 returns 140 and 150. */
  lemma ReadTwoHolding()
    ensures var req: seq<uint8> := [0x00, 0x01, 0x00, 0x00, 0x00, 0x06, 0x01, 0x03, 0x00, 0x00, 0x00, 0x02];
      ParseModbusRequest(Initial(), req)
        == Outcome(Initial(), Some([0x00, 0x01, 0x00, 0x00, 0x00, 0x07, 0x01, 0x03, 0x04, 0x00, 0x8C, 0x00, 0x96]))
  {
    var req: seq<uint8> := [0x00, 0x01, 0x00, 0x00, 0x00, 0x06, 0x01, 0x03, 0x00, 0x00, 0x00, 0x02];
    assert StartAddress(req) == 0 && Quantity(req) == 2;
    ReadFirstTwo(Initial(), req);
    ReplyFirstTwo(req);
  }

  /** The function-03 answer carrying the single register 500. */
  lemma ReplyFiveHundred(read: seq<uint8>)
    requires read == [0x00, 0x03, 0x00, 0x00, 0x00, 0x06, 0x01, 0x03, 0x00, 0x02, 0x00, 0x01]
    ensures HoldingReply(read, [500]) == [0x00, 0x03, 0x00, 0x00, 0x00, 0x05, 0x01, 0x03, 0x02, 0x01, 0xF4]
  {
    assert Hi(500) == 0x01 && Lo(500) == 0xF4;
    assert Encode([500]) == [0x01, 0xF4];
  }

  /** Reading holding register 2 once it holds 500. */
  lemma ReadBackFiveHundred(t: Store)
    requires Valid(t) && t.holding[2] == 500
    ensures var read: seq<uint8> := [0x00, 0x03, 0x00, 0x00, 0x00, 0x06, 0x01, 0x03, 0x00, 0x02, 0x00, 0x01];
      ParseModbusRequest(t, read) == Outcome(t, Some([0x00, 0x03, 0x00, 0x00, 0x00, 0x05, 0x01, 0x03, 0x02, 0x01, 0xF4]))
  {
    var read: seq<uint8> := [0x00, 0x03, 0x00, 0x00, 0x00, 0x06, 0x01, 0x03, 0x00, 0x02, 0x00, 0x01];
    assert StartAddress(read) == 2 && Quantity(read) == 1;
    assert t.holding[2..3] == [500];
    HoldingReadAnswer(t, read, [500]);
    ReplyFiveHundred(read);
  }

  /** Writing 500 to holding register 2 is acknowledged by an echo of the
      request, and a following read of register 2 returns 500. */
  lemma WriteFiveHundred()
    ensures var write: seq<uint8> := [0x00, 0x02, 0x00, 0x00, 0x00, 0x06, 0x01, 0x06, 0x00, 0x02, 0x01, 0xF4];
      var read: seq<uint8> := [0x00, 0x03, 0x00, 0x00, 0x00, 0x06, 0x01, 0x03, 0x00, 0x02, 0x00, 0x01];
      var written := ParseModbusRequest(Initial(), write);
      && written.reply == Some(write)
      && written.store.holding == [140, 150, 500, 170, 180, 190]
      && ParseModbusRequest(written.store, read).reply
           == Some([0x00, 0x03, 0x00, 0x00, 0x00, 0x05, 0x01, 0x03, 0x02, 0x01, 0xF4])
  {
    var write: seq<uint8> := [0x00, 0x02, 0x00, 0x00, 0x00, 0x06, 0x01, 0x06, 0x00, 0x02, 0x01, 0xF4];
    var s := Initial();
    assert StartAddress(write) == 2 && Quantity(write) == 500;
    assert write[..RequestSize] == write;
    var t := SetHolding(s, 2, 500);
    assert t.holding == [140, 150, 500, 170, 180, 190];
    assert ParseModbusRequest(s, write) == Outcome(t, Some(write));
    ReadBackFiveHundred(t);
  }

  /** Function code 99 (0x63) is answered with 0xE3 and illegal function; a
      code that already has its top bit set, 0x99, comes back unchanged. */
  lemma UnsupportedCodes(t: Store)
    requires Valid(t)
    ensures var req: seq<uint8> := [0x00, 0x07, 0x00, 0x00, 0x00, 0x06, 0x11, 0x63, 0x00, 0x00, 0x00, 0x01];
      ParseModbusRequest(t, req).reply == Some([0x00, 0x07, 0x00, 0x00, 0x00, 0x03, 0x11, 0xE3, 0x01])
    ensures var req: seq<uint8> := [0x00, 0x07, 0x00, 0x00, 0x00, 0x06, 0x11, 0x99, 0x00, 0x00, 0x00, 0x01];
      ParseModbusRequest(t, req).reply == Some([0x00, 0x07, 0x00, 0x00, 0x00, 0x03, 0x11, 0x99, 0x01])
  {
  }

  /** Reading ten holding registers from address 4 is refused with illegal
      data value (3), because address 4 lies inside the six-register bank. */
  lemma ReadPastHoldingEnd(t: Store)
    requires Valid(t)
    ensures var req: seq<uint8> := [0x00, 0x04, 0x00, 0x00, 0x00, 0x06, 0x01, 0x03, 0x00, 0x04, 0x00, 0x0A];
      ParseModbusRequest(t, req).reply == Some([0x00, 0x04, 0x00, 0x00, 0x00, 0x03, 0x01, 0x83, 0x03])
    ensures var req: seq<uint8> := [0x00, 0x04, 0x00, 0x00, 0x00, 0x06, 0x01, 0x03, 0x00, 0x06, 0x00, 0x01];
      ParseModbusRequest(t, req).reply == Some([0x00, 0x04, 0x00, 0x00, 0x00, 0x03, 0x01, 0x83, 0x02])
  {
  }

  /** A standard function-04 request (length field 6) for two registers gets a
      reply whose length field still says 6 although 7 bytes follow it. */
  lemma InputReplyKeepsRequestLength(t: Store)
    requires Valid(t)
    ensures var req: seq<uint8> := [0x00, 0x05, 0x00, 0x00, 0x00, 0x06, 0x01, 0x04, 0x00, 0x00, 0x00, 0x02];
      var f := ParseModbusRequest(t, req).reply.value;
      |f| == 13 && LengthField(f) == 6 && !LengthIsExact(f)
  {
    var req: seq<uint8> := [0x00, 0x05, 0x00, 0x00, 0x00, 0x06, 0x01, 0x04, 0x00, 0x00, 0x00, 0x02];
    assert StartAddress(req) == 0 && Quantity(req) == 2 && LengthField(req) == 6;
    assert Wrap16(StartAddress(req) as nat + Quantity(req) as nat) == 2;
    InputReplyLength(t, req);
  }

  /** Start 0xFFFF with quantity 2 wraps to an end address of 1, passes the
      firmware's guard, and would read past the holding bank; writing to
      address 6 passes the write check and lands past it too. Neither request
      is `Defined`. */
  lemma GuardsLetThrough()
    ensures var req: seq<uint8> := [0x00, 0x06, 0x00, 0x00, 0x00, 0x06, 0x01, 0x03, 0xFF, 0xFF, 0x00, 0x02];
      && Wrap16(StartAddress(req) as nat + Quantity(req) as nat) as nat <= HoldingCount
      && StartAddress(req) as nat + Quantity(req) as nat > HoldingCount
      && !Defined(req)
    ensures var req: seq<uint8> := [0x00, 0x06, 0x00, 0x00, 0x00, 0x06, 0x01, 0x06, 0x00, 0x06, 0x00, 0x01];
      !WriteGuardRejects(StartAddress(req)) && StartAddress(req) as nat >= HoldingCount && !Defined(req)
  {
  }
}
