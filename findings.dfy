/**
 * The interpreter's behaviour where it departs from what its own comments
 * and the CHIP-8 reference describe.  Each function here models one piece of
 * the code as it stands; the lemma beside it names an input that shows the
 * departure.  The rest of the model uses the corrected definitions in
 * Semantics, whose properties are proved there and in Properties.
 */
module Findings {
  import opened Layout
  import opened Display
  import opened Semantics

  // ---------------------------------------------------------------------------
  // 2nnn: the stack pointer is never incremented

  /** 2nnn as it stands: the return address goes to stack[SP], PC is bumped and then overwritten, SP stays. */
  function CallAsWritten(m: Machine): (r: Machine)
    requires WellFormed(m) && m.SP < StackLevels
    ensures r == m.(stack := r.stack, PC := r.PC) && r.stack == m.stack[m.SP := m.PC]
    ensures r.SP == m.SP && r.stack[m.SP] == m.PC && r.PC == Nnn(m.opcode)
  {
    var bumped := m.(stack := m.stack[m.SP := m.PC], PC := ToWord(m.PC + 1));
    bumped.(PC := Nnn(m.opcode))
  }

  /**
   * With one return address already on the stack, a call as it stands
   * followed by a return goes back to that older address instead of the
   * caller; the corrected call returns to the caller (Properties.CallThenReturn).
   */
  lemma CallAsWrittenReturnsElsewhere(m: Machine)
    requires WellFormed(m) && m.SP == 1 && m.stack[0] != m.PC
    ensures var c := CallAsWritten(m);
            c.SP == m.SP && Op00EE(c) == Outcome(Ok, c.(SP := 0, PC := m.stack[0])) && m.stack[0] != m.PC
  {
  }

  // ---------------------------------------------------------------------------
  // 4xkk, 6xkk, 7xkk, Cxkk: logical instead of bitwise AND

  /** The immediate as these handlers compute it: the truth value of (opcode && 0xFF). */
  function ImmediateAsWritten(op: word): (b: byte)
    ensures b <= 1 && (b == 1 <==> op != 0)
  {
    if op != 0 then 1 else 0
  }

  /**
   * 4xkk, 6xkk, 7xkk and Cxkk all have a non-zero word, so their immediate is
   * always 1, and it agrees with the intended low byte only when that byte is
   * 1.  6005 loads 1, not 5.
   */
  lemma ImmediateAsWrittenIsOne(op: word)
    requires Group(op) != 0x0
    ensures ImmediateAsWritten(op) == 1
    ensures ImmediateAsWritten(op) == Kk(op) <==> Kk(op) == 1
    ensures ImmediateAsWritten(0x6005) == 1 && Kk(0x6005) == 5
  {
  }

  // ---------------------------------------------------------------------------
  // Annn, Bnnn: the address held in an 8-bit variable

  /** The address these handlers compute: nnn narrowed to uint8_t. */
  function AddressAsWritten(op: word): (a: byte)
    ensures a <= Nnn(op) && (Nnn(op) - a) % 0x100 == 0
  {
    Nnn(op) % 0x100
  }

  /** The narrowed address is right only below 0x100: A123 sets I to 0x23 instead of 0x123. */
  lemma AddressAsWrittenTruncates(op: word)
    ensures AddressAsWritten(op) == Nnn(op) <==> Nnn(op) < 0x100
    ensures AddressAsWritten(0xA123) == 0x23 && Nnn(0xA123) == 0x123
  {
  }

  // ---------------------------------------------------------------------------
  // constructor and reset: the font copied to the program base

  /** The memory a reset leaves as it stands: zeros, with the font at the program base. */
  function ResetMemoryAsWritten(): (mem: seq<byte>)
    ensures |mem| == MemorySize
  {
    Zeros(StartAddress) + FontData + Zeros(MemorySize - StartAddress - FontsetSize)
  }

  /**
   * Fx29 points at the font region (FONT_SIZE + 5 * digit), but as it stands
   * that region holds zeros, so the glyph for 0 is not there; and the first
   * byte of any program loaded overwrites the font's first byte.  The corrected
   * reset puts the font where Fx29 looks (Properties.ResetFontGlyph).
   */
  lemma FontAsWrittenMissesFx29(rom: seq<byte>)
    requires 0 < |rom| <= MaxRomSize && rom[0] != FontData[0]
    ensures ResetMemoryAsWritten()[FontSize .. FontSize + GlyphHeight] != Glyph(0)
    ensures ResetMemoryAsWritten()[StartAddress] == FontData[0]
    ensures var m := Initial().(memory := ResetMemoryAsWritten());
            LoadRom(m, rom).m.memory[StartAddress] != FontData[0]
  {
    var mem := ResetMemoryAsWritten();
    assert mem[FontSize] == 0;
    assert mem[FontSize .. FontSize + GlyphHeight][0] == 0;
    assert Glyph(0)[0] == FontData[0] == 0xF0;
    assert mem[StartAddress] == FontData[0];
  }

  // ---------------------------------------------------------------------------
  // Dxyn: only the origin of the sprite is wrapped

  /** The pixel index the draw loop computes: origin wrapped, row and column offsets not. */
  function PixelIndexAsWritten(xPos: nat, yPos: nat, row: nat, col: nat): (p: nat)
    ensures xPos + col < VideoWidth ==> p / VideoWidth == yPos + row && p % VideoWidth == xPos + col
  {
    (yPos + row) * VideoWidth + (xPos + col)
  }

  /**
   * A sprite at the bottom-right corner reaches index 2118, beyond the 2048
   * pixels; one at the right edge spills into the next row.  The corrected
   * PixelIndex wraps both coordinates and stays inside the display.
   */
  lemma PixelIndexAsWrittenOverruns()
    ensures PixelIndexAsWritten(63, 31, 1, 7) == 2118 && 2118 >= PixelCount
    ensures PixelIndexAsWritten(63, 0, 0, 1) == 64 && PixelIndex(63, 0, 0, 1) == 0
  {
  }

  // ---------------------------------------------------------------------------
  // 00EE: no underflow check

  /** The stack slot 00EE reads as it stands: SP decremented as a uint8_t. */
  function ReturnSlotAsWritten(sp: byte): (s: byte)
    ensures sp > 0 ==> s + 1 == sp
    ensures sp == 0 ==> s == 0xFF
  {
    (sp - 1) % 0x100
  }

  /** With an empty stack the return reads slot 255 of a 16-entry stack; the corrected 00EE faults. */
  lemma ReturnAsWrittenUnderflows(m: Machine)
    requires WellFormed(m) && m.SP == 0
    ensures ReturnSlotAsWritten(m.SP) == 255 && 255 >= StackLevels
    ensures Op00EE(m) == Outcome(StackUnderflow, m)
  {
  }

  // ---------------------------------------------------------------------------
  // Table0, Table8, TableE, TableF: no range check on the secondary index

  /** The slot the secondary dispatch indexes as it stands. */
  function SecondaryIndexAsWritten(op: word): (i: nat)
    ensures i < 0x100 && (Group(op) != 0xF ==> i < 0x10)
  {
    if Group(op) == 0xF then Kk(op) else N(op)
  }

  /**
   * 000F, 800F and E00F index slot 15 of 15-entry tables; F0FF indexes slot
   * 0xFF of a 0x66-entry table.  The corrected dispatch runs the no-op there.
   */
  lemma SecondaryIndexAsWrittenOverruns()
    ensures SecondaryIndexAsWritten(0x000F) == 15 && 15 >= Table0Size && Decode(0x000F) == Null
    ensures SecondaryIndexAsWritten(0x800F) == 15 && 15 >= Table8Size && Decode(0x800F) == Null
    ensures SecondaryIndexAsWritten(0xE00F) == 15 && 15 >= TableESize && Decode(0xE00F) == Null
    ensures SecondaryIndexAsWritten(0xF0FF) == 0xFF && 0xFF >= TableFSize && Decode(0xF0FF) == Null
  {
  }

  // ---------------------------------------------------------------------------
  // Ex9E, ExA1: the key index is the full register

  /** The keypad index these handlers use as they stand. */
  function KeyIndexAsWritten(v: byte): (k: nat)
    ensures k < 0x100 && (k < KeyCount ==> k == KeyIndex(v))
  {
    v
  }

  /** Vx = 16 indexes beyond the 16 keys; the corrected KeyIndex takes the low nibble, key 0. */
  lemma KeyIndexAsWrittenOverruns()
    ensures KeyIndexAsWritten(16) >= KeyCount && KeyIndex(16) == 0
  {
  }

  // ---------------------------------------------------------------------------
  // Cycle, Fx33, Fx55, Fx65, Dxyn, LoadROM: addresses past the end of memory

  /** The last address an access of count bytes starting at a touches. */
  function LastAddressAsWritten(a: nat, count: nat): (last: int)
    ensures count > 0 ==> (last < MemorySize <==> a + count <= MemorySize)
  {
    a + count - 1
  }

  /**
   * A fetch at PC = 4095 reads address 4096; Fx33 with I = 4094 writes 4096;
   * Fx55 with I = 4090 and x = 15 writes 4105; Dxy2 with I = 4095 reads 4096
   * for its second row; a 3585-byte program reaches 4096.  The corrected operations report these as faults and change nothing.
   */
  lemma AccessAsWrittenOverruns(m: Machine, rnd: byte)
    requires WellFormed(m)
    ensures LastAddressAsWritten(4095, 2) >= MemorySize && (m.PC == 4095 ==> Cycle(m, rnd) == Outcome(FetchOutOfRange, m))
    ensures LastAddressAsWritten(4094, 3) >= MemorySize && (m.I == 4094 ==> OpFx33(m) == Outcome(AddressOutOfRange, m))
    ensures LastAddressAsWritten(4090, 16) >= MemorySize
    ensures m.I == 4090 && X(m.opcode) == 15 ==> OpFx55(m) == Outcome(AddressOutOfRange, m) && OpFx65(m) == Outcome(AddressOutOfRange, m)
    ensures LastAddressAsWritten(4095, 2) >= MemorySize && (m.I == 4095 && N(m.opcode) == 2 ==> OpDxyn(m) == Outcome(AddressOutOfRange, m))
    ensures LastAddressAsWritten(StartAddress, MaxRomSize + 1) >= MemorySize
    ensures forall rom: seq<byte> :: |rom| == MaxRomSize + 1 ==> LoadRom(m, rom) == Outcome(RomTooLarge, m)
  {
  }
}
