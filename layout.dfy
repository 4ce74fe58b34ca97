/**
 * The fixed layout of the CHIP-8 machine: memory and register sizes, the
 * reserved addresses, the built-in hexadecimal font and the contents of the
 * two-level dispatch table.  Everything here is immutable data.
 */
module Layout {

  /** An unsigned 8-bit value (uint8_t). */
  type byte = x: int | 0 <= x < 0x100

  /** An unsigned 16-bit value (uint16_t). */
  type word = x: int | 0 <= x < 0x1_0000

  const MemorySize: nat := 4096
  const RegisterCount: nat := 16
  const StackLevels: nat := 16
  const KeyCount: nat := 16
  const VideoHeight: nat := 32
  const VideoWidth: nat := 64
  const PixelCount: nat := VideoWidth * VideoHeight
  const FontsetSize: nat := 80
  const FontsetStartAddress: nat := 0x50
  const StartAddress: nat := 0x200
  const FontSize: nat := 80

  /** Bytes per glyph: each hexadecimal digit is a 4x5 bitmap, one byte per row. */
  const GlyphHeight: nat := 5

  /** The sixteen glyphs 0..F, five rows each. */
  const FontData: seq<byte> :=
      [0xF0, 0x90, 0x90, 0x90, 0xF0]  // 0
    + [0x20, 0x60, 0x20, 0x20, 0x70]  // 1
    + [0xF0, 0x10, 0xF0, 0x80, 0xF0]  // 2
    + [0xF0, 0x10, 0xF0, 0x10, 0xF0]  // 3
    + [0x90, 0x90, 0xF0, 0x10, 0x10]  // 4
    + [0xF0, 0x80, 0xF0, 0x10, 0xF0]  // 5
    + [0xF0, 0x80, 0xF0, 0x90, 0xF0]  // 6
    + [0xF0, 0x10, 0x20, 0x40, 0x40]  // 7
    + [0xF0, 0x90, 0xF0, 0x90, 0xF0]  // 8
    + [0xF0, 0x90, 0xF0, 0x10, 0xF0]  // 9
    + [0xF0, 0x90, 0xF0, 0x90, 0x90]  // A
    + [0xE0, 0x90, 0xE0, 0x90, 0xE0]  // B
    + [0xF0, 0x80, 0x80, 0x80, 0xF0]  // C
    + [0xE0, 0x90, 0x90, 0x90, 0xE0]  // D
    + [0xF0, 0x80, 0xF0, 0x80, 0xF0]  // E
    + [0xF0, 0x80, 0xF0, 0x80, 0x80]  // F

  /** The five rows of the glyph for hexadecimal digit d. */
  function Glyph(d: nat): (g: seq<byte>)
    requires d < 16
    ensures |g| == GlyphHeight
    ensures forall r :: 0 <= r < GlyphHeight ==> g[r] == FontData[GlyphHeight * d + r]
  {
    FontData[GlyphHeight * d .. GlyphHeight * d + GlyphHeight]
  }

  /**
   * The font is 80 bytes, sixteen glyphs one after another, and the font
   * region sits below the program area.
   */
  lemma FontShape()
    ensures |FontData| == FontsetSize == 16 * GlyphHeight
    ensures FontData == Glyph(0) + Glyph(1) + Glyph(2) + Glyph(3) + Glyph(4) + Glyph(5) + Glyph(6) + Glyph(7)
                      + Glyph(8) + Glyph(9) + Glyph(10) + Glyph(11) + Glyph(12) + Glyph(13) + Glyph(14) + Glyph(15)
    ensures FontsetStartAddress == FontSize && FontsetStartAddress + FontsetSize <= StartAddress
  {
  }

  /** Every glyph is four pixels wide: each row byte leaves its low nibble clear. */
  lemma GlyphsFourWide()
    ensures forall k :: 0 <= k < FontsetSize ==> FontData[k] % 0x10 == 0
  {
    forall k | 0 <= k < FontsetSize
      ensures FontData[k] % 0x10 == 0
    {
      GlyphFourWide(k / GlyphHeight);
      assert FontData[k] == Glyph(k / GlyphHeight)[k % GlyphHeight];
    }
  }

  lemma GlyphFourWide(d: nat)
    requires d < 16
    ensures forall r :: 0 <= r < GlyphHeight ==> Glyph(d)[r] % 0x10 == 0
  {
  }

  /**
   * The 34 instructions of the standard CHIP-8 set, named by their mnemonics,
   * plus the no-op that fills every unassigned table slot.
   */
  datatype Handler =
    | Cls        // 00E0
    | Ret        // 00EE
    | Jp         // 1nnn
    | Call       // 2nnn
    | SeByte     // 3xkk
    | SneByte    // 4xkk
    | SeReg      // 5xy0
    | LdByte     // 6xkk
    | AddByte    // 7xkk
    | LdReg      // 8xy0
    | OrReg      // 8xy1
    | AndReg     // 8xy2
    | XorReg     // 8xy3
    | AddReg     // 8xy4
    | SubReg     // 8xy5
    | Shr        // 8xy6
    | Subn       // 8xy7
    | Shl        // 8xyE
    | SneReg     // 9xy0
    | LdI        // Annn
    | JpV0       // Bnnn
    | Rnd        // Cxkk
    | Drw        // Dxyn
    | Skp        // Ex9E
    | Sknp       // ExA1
    | LdVxDt     // Fx07
    | LdVxK      // Fx0A
    | LdDtVx     // Fx15
    | LdStVx     // Fx18
    | AddI       // Fx1E
    | LdF        // Fx29
    | LdB        // Fx33
    | StoreRegs  // Fx55
    | LoadRegs   // Fx65
    | Null       // unassigned slot

  /** An entry of the top-level table: a handler, or one of the four secondary tables. */
  datatype Entry = Run(h: Handler) | Table0 | Table8 | TableE | TableF

  const TableSize: nat := 0xF + 1
  const Table0Size: nat := 0xE + 1
  const Table8Size: nat := 0xE + 1
  const TableESize: nat := 0xE + 1
  const TableFSize: nat := 0x65 + 1

  /** The top-level table, indexed by the high nibble. */
  const MainTable: seq<Entry> := [
    Table0, Run(Jp), Run(Call), Run(SeByte), Run(SneByte), Run(SeReg), Run(LdByte), Run(AddByte),
    Table8, Run(SneReg), Run(LdI), Run(JpV0), Run(Rnd), Run(Drw), TableE, TableF
  ]

  /** Group 0, indexed by the low nibble. */
  const Group0Table: seq<Handler> := [
    Cls, Null, Null, Null, Null, Null, Null, Null, Null, Null, Null, Null, Null, Null, Ret
  ]

  /** Group 8, indexed by the low nibble. */
  const Group8Table: seq<Handler> := [
    LdReg, OrReg, AndReg, XorReg, AddReg, SubReg, Shr, Subn, Null, Null, Null, Null, Null, Null, Shl
  ]

  /** Group E, indexed by the low nibble. */
  const GroupETable: seq<Handler> := [
    Null, Sknp, Null, Null, Null, Null, Null, Null, Null, Null, Null, Null, Null, Null, Skp
  ]

  /** Group F, indexed by the low byte: nine assigned slots, the no-op everywhere else. */
  function SlotF(i: nat): (h: Handler)
    requires i < TableFSize
    ensures h != Null <==> i == 0x07 || i == 0x0A || i == 0x15 || i == 0x18 || i == 0x1E
                           || i == 0x29 || i == 0x33 || i == 0x55 || i == 0x65
  {
    match i
    case 0x07 => LdVxDt
    case 0x0A => LdVxK
    case 0x15 => LdDtVx
    case 0x18 => LdStVx
    case 0x1E => AddI
    case 0x29 => LdF
    case 0x33 => LdB
    case 0x55 => StoreRegs
    case 0x65 => LoadRegs
    case _ => Null
  }

  /**
   * Every table is exactly as large as the header declares it, the top level
   * defers to a secondary table for groups 0, 8, E and F only, and each
   * secondary table leaves its unassigned slots to the no-op.
   */
  lemma TableShape()
    ensures |MainTable| == TableSize && |Group0Table| == Table0Size
    ensures |Group8Table| == Table8Size && |GroupETable| == TableESize
    ensures forall g :: 0 <= g < TableSize ==> (!MainTable[g].Run? <==> g == 0x0 || g == 0x8 || g == 0xE || g == 0xF)
    ensures forall i :: 0 <= i < Table0Size ==> (Group0Table[i] != Null <==> i == 0x0 || i == 0xE)
    ensures forall i :: 0 <= i < Table8Size ==> (Group8Table[i] != Null <==> i <= 0x7 || i == 0xE)
    ensures forall i :: 0 <= i < TableESize ==> (GroupETable[i] != Null <==> i == 0x1 || i == 0xE)
  {
  }
}
