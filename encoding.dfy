/**
 * The MOV register/memory-to/from-register encoding as the decoder sees it:
 * the two lookup tables, the bit fields cut out of the two instruction
 * bytes `100010dw` and `mod reg rm`, and an independent reference encoder
 * that builds the two bytes from the fields.
 */
module Encoding {

  type byte = bv8

  /** The only key of the opcode table: the top six bits `100010`. */
  const MovOpcode: int := 0x22  // 0b100010

  /** The opcode table: six-bit opcode key to mnemonic. */
  const InstructionEncodings: map<int, string> := map[0x22 := "mov"]

  /** The register table: REG/RM value to the pair (byte register, word register). */
  const RegFieldEncodings: map<int, seq<string>> := map[
    0 := ["al", "ax"],
    1 := ["cl", "cx"],
    2 := ["dl", "dx"],
    3 := ["bl", "bx"],
    4 := ["ah", "sp"],
    5 := ["ch", "bp"],
    6 := ["dh", "si"],
    7 := ["bh", "di"]
  ]

  /** The top six bits of the first byte. */
  function OpCode(b0: byte): (r: int)
    ensures 0 <= r < 64
  {
    (b0 >> 2) as int
  }

  /** The direction value `(b0 >> 1) & mask`; each source file uses its own mask. */
  function Direction(mask: byte, b0: byte): (r: int)
    ensures 0 <= r <= mask as int
  {
    ((b0 >> 1) & mask) as int
  }

  /** The width bit W: 0 selects byte registers, 1 word registers. */
  function Width(b0: byte): (r: int)
    ensures r == 0 || r == 1
  {
    (b0 & 1) as int
  }

  /** The MOD field, bits 6-7 of the second byte. */
  function Mod(b1: byte): (r: int)
    ensures 0 <= r <= 3
  {
    (b1 >> 6) as int
  }

  /** The REG field, bits 3-5 of the second byte. */
  function Reg(b1: byte): (r: int)
    ensures 0 <= r <= 7
  {
    ((b1 >> 3) & 7) as int
  }

  /** The RM field, bits 0-2 of the second byte. */
  function Rm(b1: byte): (r: int)
    ensures 0 <= r <= 7
  {
    (b1 & 7) as int
  }

  /** The opcode is MOV exactly for the bytes 0x88 to 0x8B. */
  lemma MovBytes(b0: byte)
    ensures OpCode(b0) == MovOpcode <==> 0x88 <= b0 <= 0x8B
  {}

  /** The register named by a REG or RM value at width `w`. */
  function RegisterName(k: int, w: int): (name: string)
    requires 0 <= k <= 7 && 0 <= w <= 1
    ensures |name| == 2
  {
    RegisterTableTotal(k, w);
    RegFieldEncodings[k][w]
  }

  /** Every REG/RM value is a key of the register table, and every entry has two slots. */
  lemma RegisterTableTotal(k: int, w: int)
    requires 0 <= k <= 7 && 0 <= w <= 1
    ensures k in RegFieldEncodings && |RegFieldEncodings[k]| == 2
    ensures |RegFieldEncodings[k][w]| == 2
  {}

  /**
   * The REG-field encoding of the 8086: for k < 4 the byte register is the
   * low half (`?l`) and the word register the whole (`?x`) of the same
   * accumulator-family register; k + 4 at byte width is its high half (`?h`).
   */
  lemma RegisterHalves(k: int)
    requires 0 <= k < 4
    ensures RegisterName(k, 0)[1] == 'l' && RegisterName(k, 1)[1] == 'x'
    ensures RegisterName(k + 4, 0)[1] == 'h'
    ensures RegisterName(k, 0)[0] == RegisterName(k, 1)[0] == RegisterName(k + 4, 0)[0]
    ensures RegisterName(k, 0)[0] == "acdb"[k]
  {}

  /** Two entries of the table: REG 000 at W = 1 is "ax", REG 111 at W = 0 is "bh". */
  lemma RegisterExamples()
    ensures RegisterName(0, 1) == "ax" && RegisterName(7, 0) == "bh"
  {}

  /** Distinct (value, width) pairs name distinct registers. */
  lemma RegisterNamesDistinct(k: int, w: int, k': int, w': int)
    requires 0 <= k <= 7 && 0 <= w <= 1 && 0 <= k' <= 7 && 0 <= w' <= 1
    requires RegisterName(k, w) == RegisterName(k', w')
    ensures k == k' && w == w'
  {}

  /** A register-to-register MOV by its fields, as the processor manual describes it. */
  datatype RegisterMov = RegisterMov(d: int, w: int, mod: int, reg: int, rm: int)
  {
    predicate Valid() {
      0 <= d <= 1 && 0 <= w <= 1 && 0 <= mod <= 3 && 0 <= reg <= 7 && 0 <= rm <= 7
    }
  }

  /** Reference encoder: `100010dw` then `mod reg rm`. */
  function Encode(ins: RegisterMov): (bytes: (byte, byte))
    requires ins.Valid()
  {
    (0x88 | ((ins.d as byte) << 1) | (ins.w as byte),
     ((ins.mod as byte) << 6) | ((ins.reg as byte) << 3) | (ins.rm as byte))
  }

  /** The fields of a MOV byte pair, reading D as bit 1 of the first byte. */
  function FieldsOf(b0: byte, b1: byte): (ins: RegisterMov)
    ensures ins.Valid()
  {
    RegisterMov(((b0 >> 1) & 1) as int, Width(b0), Mod(b1), Reg(b1), Rm(b1))
  }

  /** Extracting the fields of an encoded instruction gives back the instruction. */
  lemma FieldsRoundTrip(ins: RegisterMov)
    requires ins.Valid()
    ensures OpCode(Encode(ins).0) == MovOpcode
    ensures FieldsOf(Encode(ins).0, Encode(ins).1) == ins
  {}

  /** Every MOV byte pair is the encoding of its own fields. */
  lemma EncodeFieldsOf(b0: byte, b1: byte)
    requires OpCode(b0) == MovOpcode
    ensures Encode(FieldsOf(b0, b1)) == (b0, b1)
  {}
}
