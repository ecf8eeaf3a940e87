/**
 * The decoder of src/8086/Program.cs. It extracts the direction value as
 * `(b0 >> 1) & 2`, which keeps bit 2 of the opcode byte; that bit is 0 in
 * every byte `100010dw`, so the RM register is always the destination.
 */
module Program8086 {
  import opened Wrappers
  import opened Encoding
  import opened Decoder

  /** The mask this program applies to `b0 >> 1`. */
  const DirectionMask: byte := 2

  /**
   * This program's decode loop over the 256-byte buffer and the count of
   * bytes read: the header, then one line per two-byte step, or the fault of
   * the first step whose opcode has no table entry.
   */
  method Disassemble(buffer: array<byte>, bufferSize: int) returns (r: Result<string, Fault>)
    requires buffer.Length == Capacity && 0 <= bufferSize <= Capacity
    ensures r.Ok? <==> AllMov(buffer[..], bufferSize)
    ensures r == Disassembly(DirectionMask, buffer[..], bufferSize)
  {
    r := Decoder.Disassemble(DirectionMask, buffer, bufferSize);
    DisassemblyOutcome(DirectionMask, buffer[..], bufferSize);
  }

  /** For every byte that passes the opcode lookup the direction value is 0. */
  lemma DirectionAlwaysZero(b0: byte)
    requires IsMovByte(b0)
    ensures Direction(DirectionMask, b0) == 0
  {}

  /** Every accepted pair decodes with the RM register as destination and the REG register as source. */
  lemma RmIsDestination(b0: byte, b1: byte)
    requires IsMovByte(b0)
    ensures DecodePair(DirectionMask, b0, b1) ==
      Some(Instruction("mov", RegisterName(Rm(b1), Width(b0)), RegisterName(Reg(b1), Width(b0))))
  {
    DirectionAlwaysZero(b0);
    DecodePairMov(DirectionMask, b0, b1);
  }

  /** Flipping the D bit of an accepted pair does not change its instruction. */
  lemma DirectionBitIgnored(b0: byte, b1: byte)
    requires IsMovByte(b0)
    ensures IsMovByte(b0 ^ 2)
    ensures DecodePair(DirectionMask, b0 ^ 2, b1) == DecodePair(DirectionMask, b0, b1)
  {
    assert Width(b0 ^ 2) == Width(b0);
    RmIsDestination(b0, b1);
    RmIsDestination(b0 ^ 2, b1);
  }

  /** 89 D8 and 8B D8 both decode as "mov ax, bx". */
  lemma DecodeExamples()
    ensures DecodePair(DirectionMask, 0x89, 0xD8) == Some(Instruction("mov", "ax", "bx"))
    ensures DecodePair(DirectionMask, 0x8B, 0xD8) == Some(Instruction("mov", "ax", "bx"))
  {
    assert Rm(0xD8) == 0 && Reg(0xD8) == 3 && Width(0x89) == 1 && Width(0x8B) == 1;
    assert RegisterName(0, 1) == "ax" && RegisterName(3, 1) == "bx";
    RmIsDestination(0x89, 0xD8);
    RmIsDestination(0x8B, 0xD8);
  }

  /**
   * 8B D8 encodes "mov bx, ax" (D = 1 makes REG the destination), but this
   * program decodes "mov ax, bx": its mask does not read the manual's D bit.
   */
  lemma DisagreesWithIntel()
    ensures RegisterMov(1, 1, 3, 3, 0).Valid() && Encode(RegisterMov(1, 1, 3, 3, 0)) == (0x8B, 0xD8)
    ensures IntelReading(RegisterMov(1, 1, 3, 3, 0)) == Instruction("mov", "bx", "ax")
    ensures !MatchesIntel(DirectionMask, RegisterMov(1, 1, 3, 3, 0))
  {
    assert RegisterName(0, 1) == "ax" && RegisterName(3, 1) == "bx";
    DecodeExamples();
    assert "ax"[0] != "bx"[0];
  }

  /** The whole program on the input 89 D8: the header, then one line. */
  lemma ProgramExample()
    ensures Disassembly(DirectionMask, Fill([0x89, 0xD8]), 2) == Ok(Header + "mov ax, bx\n")
  {
    var buf := Fill([0x89, 0xD8]);
    assert buf[0] == 0x89 && buf[1] == 0xD8 by {
      assert buf[..2] == [0x89, 0xD8];
    }
    DecodeExamples();
    assert Render(Instruction("mov", "ax", "bx")) == "mov ax, bx\n";
    FirstStep(DirectionMask, buf, 2);
  }
}
