/**
 * The decode loop shared by both programs. It turns a 256-byte input
 * buffer, of which the first `bufferSize` bytes were read, into the text
 * "bits 16", an empty line, and one "mov dest, src" line for each two-byte
 * step. The two programs differ only in the mask that extracts the
 * direction bit, so every member here takes that mask as a parameter.
 */
module Decoder {
  import opened Wrappers
  import opened Encoding

  /** Size of the zero-initialised input buffer. */
  const Capacity: int := 256

  /** The builder's initial text: the line "bits 16" and an empty line. */
  const Header: string := "bits 16\n\n"

  /** The opcode table has no entry for `key`, the opcode of the byte at `offset`. */
  datatype Fault = KeyNotFound(offset: nat, key: int)

  /** One decoded instruction: its mnemonic and its destination and source operands. */
  datatype Instruction = Instruction(mnemonic: string, dest: string, src: string)

  /**
   * The text the loop appends for an instruction, in the two pieces it
   * appends: the mnemonic and a space, then "dest, src" and a newline.
   */
  function Render(ins: Instruction): (text: string)
    ensures |text| == |ins.mnemonic| + |ins.dest| + |ins.src| + 4
    ensures text[|ins.mnemonic|] == ' ' && text[|text| - 1] == '\n'
  {
    (ins.mnemonic + " ") + (ins.dest + ", " + ins.src + "\n")
  }

  predicate IsMovByte(b0: byte) {
    OpCode(b0) == MovOpcode
  }

  /**
   * The instruction one step of the loop decodes from the pair (b0, b1), or
   * None where the opcode lookup throws. It names the REG and the RM
   * register at width W, in an order the direction value picks.
   */
  function DecodePair(mask: byte, b0: byte, b1: byte): (ins: Option<Instruction>)
    ensures ins.Some? <==> IsMovByte(b0)
  {
    var opCode := OpCode(b0);
    if opCode !in InstructionEncodings then None
    else
      var d := Direction(mask, b0);
      var w := Width(b0);
      var reg := Reg(b1);
      var rm := Rm(b1);
      var src := if d == 0 then RegisterName(reg, w) else RegisterName(rm, w);
      var dest := if d == 0 then RegisterName(rm, w) else RegisterName(reg, w);
      Some(Instruction(InstructionEncodings[opCode], dest, src))
  }

  /**
   * Proof step: `DecodePair` on a MOV byte with the opcode lookup resolved
   * to "mov", as used by the per-program lemmas.
   */
  lemma DecodePairMov(mask: byte, b0: byte, b1: byte)
    requires IsMovByte(b0)
    ensures var regName := RegisterName(Reg(b1), Width(b0));
      var rmName := RegisterName(Rm(b1), Width(b0));
      DecodePair(mask, b0, b1) ==
        Some(if Direction(mask, b0) == 0 then Instruction("mov", rmName, regName)
             else Instruction("mov", regName, rmName))
  {}

  /** Every even offset below `end` holds a byte whose opcode is MOV. */
  ghost predicate AllMov(buf: seq<byte>, end: int)
    requires end <= |buf|
  {
    forall off :: 0 <= off < end && off % 2 == 0 ==> IsMovByte(buf[off])
  }

  /**
   * The instructions of the first `n` two-byte steps, or the fault of the first
   * step whose opcode lookup throws.
   */
  function DecodeAll(mask: byte, buf: seq<byte>, n: nat): (r: Result<seq<Instruction>, Fault>)
    requires 2 * n <= |buf|
    ensures r.Ok? ==> |r.value| == n
  {
    if n == 0 then Ok([])
    else
      match DecodeAll(mask, buf, n - 1)
      case Err(f) => Err(f)
      case Ok(lines) =>
        var off := 2 * (n - 1);
        match DecodePair(mask, buf[off], buf[off + 1])
        case None => Err(KeyNotFound(off, OpCode(buf[off])))
        case Some(ins) => Ok(lines + [ins])
  }

  /** When the first `n` steps succeed, instruction j is the one of the pair at offsets 2j and 2j + 1. */
  lemma {:induction false} DecodeAllLines(mask: byte, buf: seq<byte>, n: nat)
    requires 2 * n <= |buf| && DecodeAll(mask, buf, n).Ok?
    ensures forall j :: 0 <= j < n ==>
      DecodePair(mask, buf[2 * j], buf[2 * j + 1]) == Some(DecodeAll(mask, buf, n).value[j])
  {
    if n > 0 {
      DecodeAllLines(mask, buf, n - 1);
    }
  }

  /** A step whose first byte is a MOV byte appends that pair's instruction. */
  lemma DecodeAllStep(mask: byte, buf: seq<byte>, n: nat)
    requires 2 * n + 2 <= |buf| && DecodeAll(mask, buf, n).Ok? && IsMovByte(buf[2 * n])
    ensures DecodeAll(mask, buf, n + 1) ==
      Ok(DecodeAll(mask, buf, n).value + [DecodePair(mask, buf[2 * n], buf[2 * n + 1]).value])
  {}

  /** The number of loop steps for `size` bytes: i = 0, 2, 4, ... while i < size. */
  function PairCount(size: nat): (n: nat)
    ensures 2 * n == size || 2 * n == size + 1
  {
    (size + 1) / 2
  }

  /** The rendered instructions, in order. */
  function Join(lines: seq<Instruction>): string {
    if lines == [] then "" else Join(lines[..|lines| - 1]) + Render(lines[|lines| - 1])
  }

  lemma JoinAppend(lines: seq<Instruction>, ins: Instruction)
    ensures Join(lines + [ins]) == Join(lines) + Render(ins)
  {}

  /** Proof step: string concatenation is associative (keeps the loop's proof small). */
  lemma AppendAssoc(a: string, b: string, c: string)
    ensures a + (b + c) == (a + b) + c
  {}

  /** The builder's final text, or the fault that ends the program before it prints. */
  function Disassembly(mask: byte, buf: seq<byte>, size: nat): (r: Result<string, Fault>)
    requires |buf| == Capacity && size <= Capacity
    ensures r.Ok? ==> |r.value| >= |Header| && r.value[..|Header|] == Header
  {
    match DecodeAll(mask, buf, PairCount(size))
    case Ok(lines) => Ok(Header + Join(lines))
    case Err(f) => Err(f)
  }

  /** The buffer after the read: the bytes read, then zeros up to the capacity. */
  function Fill(input: seq<byte>): (buf: seq<byte>)
    requires |input| <= Capacity
    ensures |buf| == Capacity && buf[..|input|] == input
    ensures forall k :: |input| <= k < Capacity ==> buf[k] == 0
  {
    input + seq(Capacity - |input|, _ => 0)
  }

  /** Once a step has faulted, every longer run reports that same fault. */
  lemma {:induction false} FaultPersists(mask: byte, buf: seq<byte>, k: nat, n: nat)
    requires k <= n && 2 * n <= |buf|
    requires DecodeAll(mask, buf, k).Err?
    ensures DecodeAll(mask, buf, n) == DecodeAll(mask, buf, k)
  {
    if k < n {
      FaultPersists(mask, buf, k, n - 1);
    }
  }

  /**
   * The first `n` steps succeed exactly when every one of their first bytes
   * is a MOV byte; otherwise the fault names the first offending step.
   */
  lemma {:induction false} DecodeAllOutcome(mask: byte, buf: seq<byte>, n: nat)
    requires 2 * n <= |buf|
    ensures DecodeAll(mask, buf, n).Ok? <==> AllMov(buf, 2 * n)
    ensures DecodeAll(mask, buf, n).Err? ==>
      var f := DecodeAll(mask, buf, n).error;
      f.offset < 2 * n && f.offset % 2 == 0 && !IsMovByte(buf[f.offset]) &&
      f.key == OpCode(buf[f.offset]) && AllMov(buf, f.offset)
  {
    if n > 0 {
      DecodeAllOutcome(mask, buf, n - 1);
      var off := 2 * (n - 1);
      if DecodeAll(mask, buf, n - 1).Ok? && IsMovByte(buf[off]) {
        assert AllMov(buf, 2 * n) by {
          forall o | 0 <= o < 2 * n && o % 2 == 0 ensures IsMovByte(buf[o]) {
            if o < off {
              assert AllMov(buf, off);
            }
          }
        }
      }
    }
  }

  /** The whole run succeeds exactly when every step reads a MOV byte first. */
  lemma DisassemblyOutcome(mask: byte, buf: seq<byte>, size: nat)
    requires |buf| == Capacity && size <= Capacity
    ensures Disassembly(mask, buf, size).Ok? <==> AllMov(buf, size)
    ensures Disassembly(mask, buf, size).Err? ==>
      var f := Disassembly(mask, buf, size).error;
      f.offset < size && f.offset % 2 == 0 && !IsMovByte(buf[f.offset]) &&
      f.key == OpCode(buf[f.offset]) && AllMov(buf, f.offset)
  {
    DecodeAllOutcome(mask, buf, PairCount(size));
    assert AllMov(buf, size) <==> AllMov(buf, 2 * PairCount(size));
  }

  /** A run of one step prints the header and the first pair's line. */
  lemma FirstStep(mask: byte, buf: seq<byte>, size: nat)
    requires |buf| == Capacity && 1 <= size <= 2 && IsMovByte(buf[0])
    ensures Disassembly(mask, buf, size) == Ok(Header + Render(DecodePair(mask, buf[0], buf[1]).value))
  {
    var ins := DecodePair(mask, buf[0], buf[1]).value;
    assert PairCount(size) == 1;
    assert DecodeAll(mask, buf, 1) == Ok([ins]) by {
      assert DecodeAll(mask, buf, 0) == Ok([]);
      assert [] + [ins] == [ins];
    }
    assert Join([ins]) == Render(ins) by {
      assert [ins][..0] == [];
    }
  }

  /** Each further step appends exactly the next pair's line after the earlier output. */
  lemma DisassemblyStep(mask: byte, buf: seq<byte>, n: nat)
    requires |buf| == Capacity && 2 * n + 2 <= Capacity
    requires Disassembly(mask, buf, 2 * n).Ok? && IsMovByte(buf[2 * n])
    ensures Disassembly(mask, buf, 2 * n + 2) ==
      Ok(Disassembly(mask, buf, 2 * n).value + Render(DecodePair(mask, buf[2 * n], buf[2 * n + 1]).value))
  {
    assert PairCount(2 * n) == n && PairCount(2 * n + 2) == n + 1;
    var lines := DecodeAll(mask, buf, n).value;
    var ins := DecodePair(mask, buf[2 * n], buf[2 * n + 1]).value;
    assert DecodeAll(mask, buf, n + 1) == Ok(lines + [ins]) by {
      DecodeAllStep(mask, buf, n);
    }
    assert Header + Join(lines + [ins]) == (Header + Join(lines)) + Render(ins) by {
      JoinAppend(lines, ins);
      AppendAssoc(Header, Join(lines), Render(ins));
    }
  }

  /** A step whose first byte is not a MOV byte ends the whole run with its fault. */
  lemma DisassemblyFault(mask: byte, buf: seq<byte>, n: nat, size: nat)
    requires |buf| == Capacity && 2 * n < size <= Capacity
    requires Disassembly(mask, buf, 2 * n).Ok? && !IsMovByte(buf[2 * n])
    ensures Disassembly(mask, buf, size) == Err(KeyNotFound(2 * n, OpCode(buf[2 * n])))
  {
    assert PairCount(2 * n) == n;
    assert DecodeAll(mask, buf, n + 1) == Err(KeyNotFound(2 * n, OpCode(buf[2 * n])));
    FaultPersists(mask, buf, n + 1, PairCount(size));
  }

  /** The line of a pair does not depend on the MOD bits of its second byte. */
  lemma ModIgnored(mask: byte, b0: byte, b1: byte, b1': byte)
    requires b1 & 0x3F == b1' & 0x3F
    ensures DecodePair(mask, b0, b1) == DecodePair(mask, b0, b1')
  {
    assert Reg(b1) == Reg(b1') && Rm(b1) == Rm(b1');
  }

  /** An odd-length read decodes as if the missing second byte were 0. */
  lemma OddLengthReadsZero(mask: byte, input: seq<byte>)
    requires |input| < Capacity && |input| % 2 == 1
    ensures Disassembly(mask, Fill(input), |input|) == Disassembly(mask, Fill(input + [0]), |input| + 1)
  {
    assert Fill(input) == Fill(input + [0]);
  }

  /**
   * The decode loop: the builder starts with the header and each step
   * appends the line for bytes i and i + 1, advancing i by 2; an opcode
   * without a table entry throws, and none of the builder's text is printed
   * (the final console write is never reached).
   */
  method Disassemble(mask: byte, buffer: array<byte>, bufferSize: int) returns (r: Result<string, Fault>)
    requires buffer.Length == Capacity && 0 <= bufferSize <= Capacity
    ensures r == Disassembly(mask, buffer[..], bufferSize)
  {
    var sb := Header;
    assert Disassembly(mask, buffer[..], 0) == Ok(Header + Join([]));
    assert Header + Join([]) == Header;
    ghost var steps: nat := 0;
    var i := 0;
    while i < bufferSize
      invariant i == 2 * steps && i <= bufferSize + 1 && i <= Capacity
      invariant Disassembly(mask, buffer[..], i) == Ok(sb)
    {
      var opCode := OpCode(buffer[i]);
      var d := Direction(mask, buffer[i]);
      var w := Width(buffer[i]);
      var mod := Mod(buffer[i + 1]);  // extracted, never used
      var reg := Reg(buffer[i + 1]);
      var rm := Rm(buffer[i + 1]);

      if opCode !in InstructionEncodings {
        DisassemblyFault(mask, buffer[..], steps, bufferSize);
        return Err(KeyNotFound(i, opCode));
      }
      ghost var before := sb;
      sb := sb + (InstructionEncodings[opCode] + " ");

      RegisterTableTotal(reg, w);
      RegisterTableTotal(rm, w);
      var src := if d == 0 then RegFieldEncodings[reg][w] else RegFieldEncodings[rm][w];
      var dest := if d == 0 then RegFieldEncodings[rm][w] else RegFieldEncodings[reg][w];
      sb := sb + (dest + ", " + src + "\n");

      ghost var ins := Instruction(InstructionEncodings[opCode], dest, src);
      assert sb == before + Render(ins) by {
        AppendAssoc(before, InstructionEncodings[opCode] + " ", dest + ", " + src + "\n");
      }
      assert Disassembly(mask, buffer[..], i + 2) == Ok(before + Render(ins)) by {
        assert DecodePair(mask, buffer[i], buffer[i + 1]) == Some(ins);
        DisassemblyStep(mask, buffer[..], steps);
      }
      steps := steps + 1;
      i := i + 2;
    }
    assert PairCount(i) == PairCount(bufferSize);
    r := Ok(sb);
  }

  /**
   * The whole program minus its console I/O: a zeroed buffer of the
   * capacity receives the bytes that were read, then the loop runs.
   */
  method Run(mask: byte, input: seq<byte>) returns (r: Result<string, Fault>)
    requires |input| <= Capacity
    ensures r == Disassembly(mask, Fill(input), |input|)
  {
    var buffer := new byte[Capacity](k => if 0 <= k < |input| then input[k] else 0);
    assert buffer[..] == Fill(input);
    r := Disassemble(mask, buffer, |input|);
  }

  /** The register-direct reading of an instruction: D = 1 makes REG the destination. */
  function IntelReading(ins: RegisterMov): Instruction
    requires ins.Valid()
  {
    var regName := RegisterName(ins.reg, ins.w);
    var rmName := RegisterName(ins.rm, ins.w);
    if ins.d == 1 then Instruction("mov", regName, rmName) else Instruction("mov", rmName, regName)
  }

  /** The decoder with this mask decodes the encoded instruction as the manual reads it. */
  predicate MatchesIntel(mask: byte, ins: RegisterMov)
    requires ins.Valid()
  {
    DecodePair(mask, Encode(ins).0, Encode(ins).1) == Some(IntelReading(ins))
  }

  /**
   * A direction mask decodes every register-to-register MOV as the manual
   * reads it exactly when it keeps bit 0 of `b0 >> 1` (the D bit) and drops
   * bits 2 and 6 of `b0 >> 1`, the fixed 1-bits 3 and 7 of `100010dw`.
   */
  lemma DirectionMaskMatchesIntel(mask: byte)
    ensures (forall ins: RegisterMov :: ins.Valid() && ins.mod == 3 ==> MatchesIntel(mask, ins)) <==> mask & 0x45 == 1
  {
    if mask & 0x45 == 1 {
      forall ins: RegisterMov | ins.Valid() && ins.mod == 3 ensures MatchesIntel(mask, ins) {
        FieldsRoundTrip(ins);
        var b0 := Encode(ins).0;
        DecodePairMov(mask, b0, Encode(ins).1);
        assert Direction(mask, b0) == 0 <==> ins.d == 0 by {
          if ins.d == 0 && ins.w == 0 {
            assert b0 == 0x88;
          } else if ins.d == 0 {
            assert b0 == 0x89;
          } else if ins.w == 0 {
            assert b0 == 0x8A;
          } else {
            assert b0 == 0x8B;
          }
        }
      }
    } else {
      var ins := if mask & 0x44 != 0 then RegisterMov(0, 1, 3, 3, 0) else RegisterMov(1, 1, 3, 3, 0);
      FieldsRoundTrip(ins);
      DecodePairMov(mask, Encode(ins).0, Encode(ins).1);
      assert RegisterName(3, 1) == "bx" && RegisterName(0, 1) == "ax";
      assert "bx" != "ax" by {
        assert "bx"[0] != "ax"[0];
      }
      assert !MatchesIntel(mask, ins);
    }
  }
}
