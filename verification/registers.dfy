/** The register database: the two global arrays `Holding_Registers_Database[6]`
    and `Input_Registers_Database[12]`, and the big-endian layout in which a run
    of registers travels in a read response. */
module Registers {
  import opened Bytes

  /** Capacity of the holding bank (read-write over the protocol). */
  const HoldingCount: nat := 6
  /** Capacity of the input bank (never written by a request). */
  const InputCount: nat := 12

  datatype Store = Store(holding: seq<uint16>, input: seq<uint16>)

  /** Both banks have the fixed sizes the firmware declares. */
  predicate Valid(s: Store)
  {
    |s.holding| == HoldingCount && |s.input| == InputCount
  }

  /** The contents at start-up: holding 140, 150, ..., 190; input all zero. */
  function Initial(): (s: Store)
    ensures Valid(s)
    ensures forall i :: 0 <= i < |s.holding| ==> s.holding[i] as int == 140 + 10 * i
    ensures forall i :: 0 <= i < |s.input| ==> s.input[i] == 0
  {
    Store([140, 150, 160, 170, 180, 190], [0, 0, 0, 0, 0, 0, 0, 0, 0, 0, 0, 0])
  }

  /** `Holding_Registers_Database[address] = value`. */
  function SetHolding(s: Store, address: nat, value: uint16): (t: Store)
    requires Valid(s) && address < HoldingCount
    ensures Valid(t)
    ensures t.holding[address] == value
    ensures forall i :: 0 <= i < HoldingCount && i != address ==> t.holding[i] == s.holding[i]
    ensures t.input == s.input
  {
    s.(holding := s.holding[address := value])
  }

  /** Registers laid out high byte first, in ascending order. */
  function Encode(regs: seq<uint16>): (bytes: seq<uint8>)
    ensures |bytes| == 2 * |regs|
    ensures forall i :: 0 <= i < |regs| ==> bytes[2 * i] == Hi(regs[i]) && bytes[2 * i + 1] == Lo(regs[i])
  {
    if regs == [] then []
    else [Hi(regs[0]), Lo(regs[0])] + Encode(regs[1..])
  }

  /** How a client reads registers back out of the data bytes of a response. */
  function Decode(bytes: seq<uint8>): (regs: seq<uint16>)
    requires |bytes| % 2 == 0
    ensures 2 * |regs| == |bytes|
    ensures forall i :: 0 <= i < |regs| ==> regs[i] == Word(bytes[2 * i], bytes[2 * i + 1])
  {
    if bytes == [] then []
    else [Word(bytes[0], bytes[1])] + Decode(bytes[2..])
  }

  /** The data bytes of a read response decode to exactly the registers read. */
  lemma {:induction false} DecodeEncode(regs: seq<uint16>)
    ensures Decode(Encode(regs)) == regs
  {
    if regs != [] {
      DecodeEncode(regs[1..]);
      WordOfHalves(regs[0]);
      assert Encode(regs)[2..] == Encode(regs[1..]);
    }
  }
}
