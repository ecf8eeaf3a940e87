# 8086 MOV decoder, modelled in Dafny

The repository holds two near-identical C# programs. Each reads up to 256 bytes of 8086 machine code into a zeroed buffer. It then walks the buffer two bytes at a time and disassembles every pair as a register-to-register `mov` in NASM syntax. Each pair is a first byte `100010dw` and a second byte `mod reg rm`.

Each step does four things:

- cuts the six-bit opcode, the direction value `d` and the width bit `w` out of the first byte;
- cuts `mod`, `reg` and `rm` out of the second byte;
- looks the opcode up in a one-entry mnemonic table, and `reg` and `rm` up in the eight-entry register table;
- appends `mov dest, src` to a string builder that starts with `bits 16` and an empty line.

An opcode missing from the table makes the dictionary lookup throw. None of the builder's text is then printed, because the final `Console.WriteLine` (src/8086/Program.cs:74, src/Program.cs:64) is never reached. The two programs differ in one place: the mask that extracts `d`.

- `src/8086/Program.cs` computes `(b0 >> 1) & 2`. That is bit 2 of the byte, which is 0 for every MOV byte, so the RM register is always printed as the destination.
- `src/Program.cs` computes `(b0 >> 1) & 3`. That is the D bit of the manual, so D = 1 swaps the two operands.

The project has five modules:

- `Wrappers` (`wrappers.dfy`) holds `Option` and `Result`.
- `Encoding` (`encoding.dfy`) holds the two tables and the field extractors on `bv8` bytes. It also has an independent reference encoder, `Encode`, that packs a `RegisterMov` (d, w, mod, reg, rm) into the two bytes. The field extractors are proved to invert this encoder (`FieldsRoundTrip`, `EncodeFieldsOf`). `DirectionMaskMatchesIntel` shows which direction masks decode the way the encoder reads: src/Program.cs's mask 3 does (`DecodeMatchesIntel`), and src/8086/Program.cs's mask 2 does not (`DisagreesWithIntel`).
- `Decoder` (`decoder.dfy`) is the decode step shared by both programs, parameterised by the direction mask:
  - `DecodePair` returns an `Instruction` (mnemonic, dest, src), or `None` where the lookup throws;
  - `Render` gives its text;
  - `Disassembly` is the specification of the whole loop;
  - the imperative `Disassemble` loop runs over the `array<byte>` buffer and extends a string `sb` that stands for the `StringBuilder`, and it is proved equal to `Disassembly`;
  - `Run` fills the zeroed buffer.
- `Program8086` (`program8086.dfy`) and `ProgramRoot` (`program_root.dfy`) fix each file's mask. They hold the properties specific to that file.

An odd byte count is modelled with the zero padding the code actually has: the buffer is a zeroed 256-byte array, so the missing second byte reads as 0 (`Fill`, `Run`, `OddLengthReadsZero`). The line terminator is "\n".

## Model

| member | source | states |
|---|---|---|
| Encoding.OpCode | src/8086/Program.cs:56 | the opcode key is the top six bits of the first byte, a value in 0..63 |
| Encoding.Direction | src/Program.cs:48 | the direction value `(b0 >> 1) & mask` lies in 0..mask |
| Encoding.Width | src/8086/Program.cs:58 | `w` is 0 or 1, so it always indexes a valid slot of a register entry |
| Encoding.Mod | src/8086/Program.cs:60 | `mod` lies in 0..3 |
| Encoding.Reg | src/8086/Program.cs:61 | `reg` lies in 0..7, a key of the register table |
| Encoding.Rm | src/8086/Program.cs:62 | `rm` lies in 0..7, a key of the register table |
| Encoding.MovBytes | src/8086/Program.cs:30-33 | the opcode key is 0b100010 exactly for the first bytes 0x88 to 0x8B |
| Encoding.RegisterTableTotal | src/8086/Program.cs:37-48 | every value 0..7 is a key of the register table, every entry has two slots, and every name has two characters |
| Encoding.RegisterName | src/Program.cs:28-38 | the lookup `regFieldEncodings[k][w]` is defined for every field value and width, and yields a two-letter name |
| Encoding.RegisterExamples | src/8086/Program.cs:40-47 | REG 000 at W = 1 is "ax" and REG 111 at W = 0 is "bh" |
| Encoding.RegisterHalves | src/8086/Program.cs:39-47 | for k < 4, W = 0 names the low byte `?l` and W = 1 the word `?x` of the a/c/d/b register; k + 4 at W = 0 names the high byte `?h` |
| Encoding.RegisterNamesDistinct | src/Program.cs:28-38 | the register table is injective: distinct (value, width) pairs give distinct names |
| Encoding.FieldsOf | src/Program.cs:47-53 | the fields of any byte pair, with D read as bit 1, satisfy the field ranges |
| Encoding.FieldsRoundTrip | src/Program.cs:47-53 | extracting the fields of an encoded register MOV gives back its d, w, mod, reg and rm, and its opcode key is 0b100010 |
| Encoding.EncodeFieldsOf | src/Program.cs:47-53 | every byte pair with the MOV opcode is the encoding of its own extracted fields, so field extraction loses nothing |
| Decoder.Render | src/Program.cs:56-61 | the text of an instruction is mnemonic, a space, dest, ", ", src and a newline: its length, the space after the mnemonic and the final newline |
| Decoder.DecodePair | src/8086/Program.cs:56-70 | a pair yields an instruction exactly when the first byte's opcode is in the opcode table, and no instruction otherwise |
| Decoder.DecodeAll | src/8086/Program.cs:54 | a run of n successful steps yields exactly n instructions |
| Decoder.DecodeAllLines | src/8086/Program.cs:54-71 | instruction j of a successful run is the decoding of the pair at offsets 2j and 2j + 1, in input order |
| Decoder.PairCount | src/8086/Program.cs:54 | the loop `i = 0; i < size; i += 2` runs ceil(size / 2) steps |
| Decoder.Disassembly | src/8086/Program.cs:50-52 | a successful run's text starts with the header "bits 16", newline, newline |
| Decoder.Fill | src/8086/Program.cs:9-10 | the buffer after the read is 256 bytes: the bytes read, then zeros |
| Decoder.FaultPersists | src/8086/Program.cs:64-65 | once a step has thrown, every longer run ends with that same fault |
| Decoder.DecodeAllOutcome | src/8086/Program.cs:64-65 | n steps succeed if and only if every even offset below 2n holds a MOV byte; otherwise the fault names the first offending even offset and its opcode key |
| Decoder.DisassemblyOutcome | src/Program.cs:45-56 | the whole run succeeds if and only if every step's first byte is a MOV byte; otherwise it fails at the first step whose opcode is not in the table, with that key |
| Decoder.FirstStep | src/Program.cs:43-61 | a run of one step prints the header followed by the first pair's line |
| Decoder.DisassemblyStep | src/Program.cs:45-61 | each further successful step appends exactly the next pair's line to the earlier text, with the cursor advancing by 2 |
| Decoder.DisassemblyFault | src/Program.cs:55-56 | a step whose opcode is not in the table ends the whole run with KeyNotFound at that offset, whatever follows |
| Decoder.ModIgnored | src/8086/Program.cs:60-68 | the decoded instruction does not depend on bits 6-7 of the second byte |
| Decoder.OddLengthReadsZero | src/8086/Program.cs:54-62 | an odd byte count decodes as if one more zero byte had been read |
| Decoder.Disassemble | src/8086/Program.cs:50-72 | the imperative loop over the buffer returns exactly `Disassembly`: the loop invariant is that the builder equals the header followed by the lines of every pair seen so far |
| Decoder.Run | src/Program.cs:9-10 | a zeroed 256-byte buffer filled with the input, then the loop, gives `Disassembly` of the zero-padded input |
| Decoder.DirectionMaskMatchesIntel | src/Program.cs:48 | a direction mask decodes every register-to-register MOV as the manual reads it if and only if `mask & 0x45 == 1` |
| Program8086.Disassemble | src/8086/Program.cs:50-72 | this program's loop succeeds if and only if every step reads a MOV byte, and returns `Disassembly` with mask 2 |
| Program8086.DirectionAlwaysZero | src/8086/Program.cs:57 | for every MOV byte, `(b0 >> 1) & 2` is 0 |
| Program8086.RmIsDestination | src/8086/Program.cs:67-68 | every accepted pair decodes with the RM register as destination and the REG register as source |
| Program8086.DirectionBitIgnored | src/8086/Program.cs:57 | flipping the D bit of an accepted first byte leaves its instruction unchanged |
| Program8086.DecodeExamples | src/8086/Program.cs:56-70 | both 89 D8 and 8B D8 decode as "mov ax, bx" |
| Program8086.DisagreesWithIntel | src/8086/Program.cs:57 | 8B D8, the encoding of "mov bx, ax", is not decoded as the manual reads it |
| Program8086.ProgramExample | src/8086/Program.cs:50-72 | the input 89 D8 gives the header followed by "mov ax, bx\n" |
| ProgramRoot.Disassemble | src/Program.cs:42-62 | this program's loop succeeds if and only if every step reads a MOV byte, and returns `Disassembly` with mask 3 |
| ProgramRoot.DirectionIsBitOne | src/Program.cs:48 | for every MOV byte, `(b0 >> 1) & 3` equals bit 1 of the byte, the D bit |
| ProgramRoot.DirectionSwapsOperands | src/Program.cs:58-59 | D = 0 gives dest = RM and src = REG; D = 1 swaps them, with the same names and mnemonic |
| ProgramRoot.DecodeMatchesIntel | src/Program.cs:47-59 | every register-to-register MOV decodes as the manual reads it |
| ProgramRoot.DecodeExamples | src/Program.cs:47-61 | 89 D8 decodes as "mov ax, bx" and 8B D8 as "mov bx, ax" |
| ProgramRoot.ProgramExample | src/Program.cs:42-62 | 8B D8 89 D8 gives the header, then "mov bx, ax\n", then "mov ax, bx\n", in input order |
| ProgramRoot.ImmediateFormFaults | src/Program.cs:55-56 | B8 01 00 (an immediate-to-register MOV) fails at offset 0 with key 0b101110 |
| ProgramRoot.OneByteExample | src/Program.cs:45-53 | the single byte 89 reads a zero second byte and prints "mov ax, ax" |

## Left out

- Console I/O is not modelled, and the bytes and their count are parameters instead. This covers:
  - the version banner "8086 v0.1" and its empty line, which are printed before decoding;
  - opening stdin and stdout;
  - the single `stdin.Read`, which may return fewer bytes than are available;
  - the final `Console.WriteLine`, which adds one more line terminator after the text.
- The `#if DEBUG` binary dumps are diagnostics only and are not modelled. The dump in src/8086/Program.cs:22 reads `buffer[i + i]`, which can index past the buffer.
- `AppendLine` uses the platform newline (Environment.NewLine). The model writes "\n" for it.
- The unused `modFieldEncodings` arrays and the commented-out streaming read loop are not modelled.
- `mod` is extracted and never used, in src/Program.cs:51 as `(b1 >> 6) & 7`. For a byte that equals `b1 >> 6`, so `Encoding.Mod` is one function for both files.
- Memory operands, displacements and the immediate-to-register form are not modelled, because the code does not implement them. An immediate form simply fails the opcode lookup (`ProgramRoot.ImmediateFormFaults`).
- Failures are modelled as the code produces them, not as explicit error values for unsupported or truncated input. A missing opcode key is reported as `KeyNotFound(offset, key)`, carrying the six-bit key, because the code throws from the dictionary lookup. An odd byte count is not a truncation error; its missing second byte reads as the buffer's 0.
- When the lookup throws, none of the builder's text is printed, because src/8086/Program.cs:74 and src/Program.cs:64 are never reached. The banner has already been printed by then, and the runtime reports the uncaught exception; both are console I/O and are not modelled. The model returns only the fault, not the partial text.

## Findings

| source | as written | input that shows it | evidently intended | confidence | as-written member | corrected member |
|---|---|---|---|---|---|---|
| src/8086/Program.cs:57 | `d = (b0 >> 1) & 2`, which reads bit 2 of the opcode byte, always 0 for a MOV byte | 8B D8 (MOV with D = 1, "mov bx, ax") is printed as "mov ax, bx" | `d = (b0 >> 1) & 1` or `& 3`, the D bit, as src/Program.cs:48 has it | high, not executed | Program8086.DisagreesWithIntel | ProgramRoot.DecodeMatchesIntel |
