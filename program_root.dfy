/**
 * The decoder of src/Program.cs. It extracts the direction value as
 * `(b0 >> 1) & 3`, which for the bytes `100010dw` is exactly the D bit, so
 * D = 0 prints the RM register as destination and D = 1 the REG register.
 */
module ProgramRoot {
  import opened Wrappers
  import opened Encoding
  import opened Decoder

  /** The mask this program applies to `b0 >> 1`. */
  const DirectionMask: byte := 3

  /**
   * This program's decode loop over the 256-byte buffer and the count of
   * bytes read: the header, then one line per two-byte step, or the fault of
   * the first step whose opcode has no table entry.
   */
  method Disassemble(buffer: array<byte>, bufferSize: int) returns (r: Result<string, Fault>)
    requires buffer.Length == Capacity && 0 <= bufferSize <= Capacity
    ensures r.Ok? <==> AllMov(buffer[..], bufferSize)
    ensures r == Disassembly(DirectionMask, buffer[..], bufferSize)
  {
    r := Decoder.Disassemble(DirectionMask, buffer, bufferSize);
    DisassemblyOutcome(DirectionMask, buffer[..], bufferSize);
  }

  /** For every byte that passes the opcode lookup the direction value is bit 1 of the byte. */
  lemma DirectionIsBitOne(b0: byte)
    requires IsMovByte(b0)
    ensures Direction(DirectionMask, b0) == FieldsOf(b0, 0).d
  {}

  /**
   * With D = 0 the RM register is the destination and the REG register the
   * source; setting D swaps the two and leaves both register names unchanged.
   */
  lemma DirectionSwapsOperands(b0: byte, b1: byte)
    requires IsMovByte(b0)
    ensures var regName := RegisterName(Reg(b1), Width(b0));
      var rmName := RegisterName(Rm(b1), Width(b0));
      DecodePair(DirectionMask, b0 & 0xFD, b1) == Some(Instruction("mov", rmName, regName)) &&
      DecodePair(DirectionMask, b0 | 2, b1) == Some(Instruction("mov", regName, rmName))
  {
    var lo, hi := b0 & 0xFD, b0 | 2;
    assert IsMovByte(lo) && IsMovByte(hi) && Width(lo) == Width(b0) && Width(hi) == Width(b0)
      && Direction(DirectionMask, lo) == 0 && Direction(DirectionMask, hi) == 1;
    DecodePairMov(DirectionMask, lo, b1);
    DecodePairMov(DirectionMask, hi, b1);
  }

  /** Every register-to-register MOV decodes as the manual reads it. */
  lemma DecodeMatchesIntel(ins: RegisterMov)
    requires ins.Valid() && ins.mod == 3
    ensures MatchesIntel(DirectionMask, ins)
  {
    DirectionMaskMatchesIntel(DirectionMask);
  }

  /** 89 D8 decodes as "mov ax, bx" and 8B D8 as "mov bx, ax". */
  lemma DecodeExamples()
    ensures DecodePair(DirectionMask, 0x89, 0xD8) == Some(Instruction("mov", "ax", "bx"))
    ensures DecodePair(DirectionMask, 0x8B, 0xD8) == Some(Instruction("mov", "bx", "ax"))
  {
    assert Rm(0xD8) == 0 && Reg(0xD8) == 3 && Width(0x89) == 1;
    assert (0x89 as byte) & 0xFD == 0x89 && (0x89 as byte) | 2 == 0x8B;
    assert RegisterName(0, 1) == "ax" && RegisterName(3, 1) == "bx";
    DirectionSwapsOperands(0x89, 0xD8);
  }

  /** Two pairs print two lines, in input order. */
  lemma ProgramExample()
    ensures Disassembly(DirectionMask, Fill([0x8B, 0xD8, 0x89, 0xD8]), 4) ==
      Ok(Header + "mov bx, ax\n" + "mov ax, bx\n")
  {
    var buf := Fill([0x8B, 0xD8, 0x89, 0xD8]);
    assert buf[0] == 0x8B && buf[1] == 0xD8 && buf[2] == 0x89 && buf[3] == 0xD8 by {
      assert buf[..4] == [0x8B, 0xD8, 0x89, 0xD8];
    }
    DecodeExamples();
    assert Render(Instruction("mov", "bx", "ax")) == "mov bx, ax\n";
    assert Render(Instruction("mov", "ax", "bx")) == "mov ax, bx\n";
    FirstStep(DirectionMask, buf, 2);
    DisassemblyStep(DirectionMask, buf, 1);
  }

  /**
   * An immediate-to-register MOV (B8 01 00, "mov ax, 1" in the manual) has
   * no entry in the opcode table: the run faults at offset 0 with key 0b101110.
   */
  lemma ImmediateFormFaults()
    ensures Disassembly(DirectionMask, Fill([0xB8, 0x01, 0x00]), 3) == Err(KeyNotFound(0, 0x2E))
  {
    var buf := Fill([0xB8, 0x01, 0x00]);
    assert buf[0] == 0xB8 by {
      assert buf[..3] == [0xB8, 0x01, 0x00];
    }
    assert OpCode(0xB8) == 0x2E;
    assert Disassembly(DirectionMask, buf, 0) == Ok(Header + Join([]));
    DisassemblyFault(DirectionMask, buf, 0, 3);
  }

  /** A one-byte input reads a zero second byte: 89 alone prints "mov ax, ax". */
  lemma OneByteExample()
    ensures Disassembly(DirectionMask, Fill([0x89]), 1) == Ok(Header + "mov ax, ax\n")
  {
    var buf := Fill([0x89]);
    assert buf[0] == 0x89 && buf[1] == 0 by {
      assert buf[..1] == [0x89];
    }
    assert Rm(0) == 0 && Reg(0) == 0 && Width(0x89) == 1;
    assert RegisterName(0, 1) == "ax";
    assert Render(Instruction("mov", "ax", "ax")) == "mov ax, ax\n";
    DirectionSwapsOperands(0x89, 0);
    FirstStep(DirectionMask, buf, 1);
  }
}
