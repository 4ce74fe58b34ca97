/**
 * The interpreter object: the state lives in arrays and fields that the
 * handlers update in place, and every method is proved to move the abstract
 * state exactly as the corresponding function of Semantics says.
 */
module Engine {
  import opened Layout
  import opened Display
  import opened Semantics

  class Chip8 {
    const memory: array<byte>
    const V: array<byte>
    const stack: array<word>
    const keypad: array<bool>
    const video: array<bool>
    var I: word
    var PC: word
    var SP: byte
    var opcode: word
    var delayTimer: byte
    var soundTimer: byte

    /** The dispatch tables: the top level and the four secondary tables. */
    const table: array<Entry>
    const table0: array<Handler>
    const table8: array<Handler>
    const tableE: array<Handler>
    const tableF: array<Handler>

    /** Fixed sizes, distinct buffers and a stack pointer within the stack. */
    ghost predicate Valid()
      reads this
    {
      && memory.Length == MemorySize
      && V.Length == RegisterCount
      && stack.Length == StackLevels
      && keypad.Length == KeyCount
      && video.Length == PixelCount
      && memory != V
      && keypad != video
      && SP <= StackLevels
      && TablesShaped()
    }

    /** The table sizes of the declarations, and four distinct secondary tables. */
    predicate TablesShaped()
    {
      && table.Length == TableSize
      && table0.Length == Table0Size
      && table8.Length == Table8Size
      && tableE.Length == TableESize
      && tableF.Length == TableFSize
      && table0 != table8 && table0 != tableE && table8 != tableE
    }

    /** Every table holds the contents the Layout module lists, at the declared sizes. */
    ghost predicate TablesReady()
      reads table, table0, table8, tableE, tableF
    {
      && TablesShaped()
      && table[..] == MainTable
      && table0[..] == Group0Table
      && table8[..] == Group8Table
      && tableE[..] == GroupETable
      && (forall i :: 0 <= i < TableFSize ==> tableF[i] == SlotF(i))
    }

    /** The machine state this object represents. */
    ghost function Abs(): Machine
      reads this, memory, V, stack, keypad, video
    {
      Machine(memory[..], V[..], stack[..], I, PC, SP, opcode, delayTimer, soundTimer, keypad[..], video[..])
    }

    /** A fresh interpreter: zeroed state, the font loaded, PC at the program base, tables filled. */
    constructor ()
      ensures Valid() && TablesReady() && Abs() == Initial()
      ensures fresh(memory) && fresh(V) && fresh(stack) && fresh(keypad) && fresh(video)
    {
      memory := new byte[MemorySize](_ => 0);
      V := new byte[RegisterCount](_ => 0);
      stack := new word[StackLevels](_ => 0);
      keypad := new bool[KeyCount](_ => false);
      video := new bool[PixelCount](_ => false);
      I, SP, opcode, delayTimer, soundTimer := 0, 0, 0, 0, 0;
      PC := StartAddress;
      table := new Entry[TableSize](_ => Run(Null));
      table0 := new Handler[Table0Size](_ => Null);
      table8 := new Handler[Table8Size](_ => Null);
      tableE := new Handler[TableESize](_ => Null);
      tableF := new Handler[TableFSize](_ => Null);
      new;
      assert memory[..] == Zeros(MemorySize) && V[..] == Zeros(RegisterCount) && stack[..] == seq(StackLevels, _ => 0);
      assert keypad[..] == seq(KeyCount, _ => false) && video[..] == seq(PixelCount, _ => false);
      LoadFont();
      SetupTable();
    }

    /** Copy the font, byte by byte, to the font region. */
    method LoadFont()
      requires Valid()
      modifies memory
      ensures Valid() && memory[..] == WithFont(old(memory[..]))
    {
      CopyFont(FontData);
      WithFontPointwise(old(memory[..]), memory[..]);
    }

    /** Copy font to the font region; every other byte stays. */
    method CopyFont(font: seq<byte>)
      requires memory.Length == MemorySize && |font| == FontsetSize
      modifies memory
      ensures forall j :: 0 <= j < FontsetSize ==> memory[FontsetStartAddress + j] == font[j]
      ensures forall a :: 0 <= a < MemorySize && !(FontsetStartAddress <= a < FontsetStartAddress + FontsetSize) ==> memory[a] == old(memory[a])
    {
      for i := 0 to FontsetSize
        invariant forall j :: 0 <= j < i ==> memory[FontsetStartAddress + j] == font[j]
        invariant forall a :: 0 <= a < MemorySize && !(FontsetStartAddress <= a < FontsetStartAddress + i) ==> memory[a] == old(memory[a])
      {
        memory[FontsetStartAddress + i] := font[i];
      }
    }

    /** Fill the dispatch tables. */
    method SetupTable()
      requires TablesShaped()
      modifies table, table0, table8, tableE, tableF
      ensures TablesReady()
    {
      FillTable();
      FillTable0();
      FillTable8();
      FillTableE();
      FillTableF();
    }

    method FillTable()
      requires TablesShaped()
      modifies table
      ensures table[..] == MainTable
    {
      table[0x0] := Table0;
      table[0x1] := Run(Jp);
      table[0x2] := Run(Call);
      table[0x3] := Run(SeByte);
      table[0x4] := Run(SneByte);
      table[0x5] := Run(SeReg);
      table[0x6] := Run(LdByte);
      table[0x7] := Run(AddByte);
      table[0x8] := Table8;
      table[0x9] := Run(SneReg);
      table[0xA] := Run(LdI);
      table[0xB] := Run(JpV0);
      table[0xC] := Run(Rnd);
      table[0xD] := Run(Drw);
      table[0xE] := TableE;
      table[0xF] := TableF;
    }

    method FillTable0()
      requires TablesShaped()
      modifies table0
      ensures table0[..] == Group0Table
    {
      for i := 0 to Table0Size
        invariant forall j :: 0 <= j < i ==> table0[j] == Null
      {
        table0[i] := Null;
      }
      table0[0x0] := Cls;
      table0[0xE] := Ret;
    }

    method FillTable8()
      requires TablesShaped()
      modifies table8
      ensures table8[..] == Group8Table
    {
      for i := 0 to Table8Size
        invariant forall j :: 0 <= j < i ==> table8[j] == Null
      {
        table8[i] := Null;
      }
      table8[0x0] := LdReg;
      table8[0x1] := OrReg;
      table8[0x2] := AndReg;
      table8[0x3] := XorReg;
      table8[0x4] := AddReg;
      table8[0x5] := SubReg;
      table8[0x6] := Shr;
      table8[0x7] := Subn;
      table8[0xE] := Shl;
    }

    method FillTableE()
      requires TablesShaped()
      modifies tableE
      ensures tableE[..] == GroupETable
    {
      for i := 0 to TableESize
        invariant forall j :: 0 <= j < i ==> tableE[j] == Null
      {
        tableE[i] := Null;
      }
      tableE[0x1] := Sknp;
      tableE[0xE] := Skp;
    }

    method FillTableF()
      requires TablesShaped()
      modifies tableF
      ensures forall i :: 0 <= i < TableFSize ==> tableF[i] == SlotF(i)
    {
      for i := 0 to TableFSize
        invariant forall j :: 0 <= j < i ==> tableF[j] == Null
      {
        tableF[i] := Null;
      }
      tableF[0x07] := LdVxDt;
      tableF[0x0A] := LdVxK;
      tableF[0x15] := LdDtVx;
      tableF[0x18] := LdStVx;
      tableF[0x1E] := AddI;
      tableF[0x29] := LdF;
      tableF[0x33] := LdB;
      tableF[0x55] := StoreRegs;
      tableF[0x65] := LoadRegs;
    }

    /** Clear memory, registers, stack, index and timers, reload the font and the tables. */
    method Reset()
      requires Valid()
      modifies this, memory, V, stack, table, table0, table8, tableE, tableF
      ensures Valid() && TablesReady() && Abs() == Semantics.Reset(old(Abs()))
    {
      ClearState();
      LoadFont();
      SetupTable();
    }

    /** The clearing part of a reset: every byte, register and stack entry zero, PC at the program base. */
    method ClearState()
      requires Valid()
      modifies this, memory, V, stack
      ensures Valid() && memory[..] == Zeros(MemorySize) && V[..] == Zeros(RegisterCount) && stack[..] == seq(StackLevels, _ => 0)
      ensures I == 0 && PC == StartAddress && SP == 0 && soundTimer == 0 && delayTimer == 0
      ensures opcode == old(opcode) && keypad[..] == old(keypad[..]) && video[..] == old(video[..])
    {
      forall a | 0 <= a < memory.Length {
        memory[a] := 0;
      }
      forall j | 0 <= j < V.Length {
        V[j] := 0;
      }
      forall j | 0 <= j < stack.Length {
        stack[j] := 0;
      }
      I, PC, SP, soundTimer, delayTimer := 0, StartAddress, 0, 0, 0;
      assert memory[..] == Zeros(MemorySize) && V[..] == Zeros(RegisterCount) && stack[..] == seq(StackLevels, _ => 0);
    }

    /** Copy a program image to the program base, refusing one that does not fit. */
    method LoadRom(rom: seq<byte>) returns (status: Status)
      requires Valid()
      modifies memory
      ensures Valid() && Outcome(status, Abs()) == Semantics.LoadRom(old(Abs()), rom)
    {
      if |rom| > MaxRomSize {
        return RomTooLarge;
      }
      for i := 0 to |rom|
        invariant forall a :: 0 <= a < MemorySize ==>
          memory[a] == if StartAddress <= a < StartAddress + i then rom[a - StartAddress] else old(memory[a])
      {
        memory[StartAddress + i] := rom[i];
      }
      assert memory[..] == old(memory[..])[..StartAddress] + rom + old(memory[..])[StartAddress + |rom|..];
      status := Ok;
    }

    /** Resolve an instruction word through the two table levels. */
    method Dispatch(op: word) returns (h: Handler)
      requires TablesReady()
      ensures h == Decode(op)
    {
      match table[Group(op)]
      case Run(f) => h := f;
      case Table0 => h := if N(op) < table0.Length then table0[N(op)] else Null;
      case Table8 => h := if N(op) < table8.Length then table8[N(op)] else Null;
      case TableE => h := if N(op) < tableE.Length then tableE[N(op)] else Null;
      case TableF => h := if Kk(op) < tableF.Length then tableF[Kk(op)] else Null;
    }

    /** One fetch-decode-execute cycle, then one tick of each timer. */
    method Cycle(rnd: byte) returns (status: Status)
      requires Valid() && TablesReady()
      modifies this, memory, V, stack, video
      ensures Valid() && TablesReady() && Outcome(status, Abs()) == Semantics.Cycle(old(Abs()), rnd)
    {
      if PC + 1 >= MemorySize {
        return FetchOutOfRange;
      }
      FetchWord();
      ghost var fetched := Abs();
      var h := Dispatch(opcode);
      status := Execute(h, rnd);
      assert Outcome(status, Abs()) == Semantics.Execute(fetched, Decode(fetched.opcode), rnd);
      if status != Ok {
        return;
      }
      TickTimers();
    }

    /** Read the big-endian word at PC into opcode and step PC past it. */
    method FetchWord()
      requires Valid() && PC + 1 < MemorySize
      modifies this
      ensures Valid() && Abs() == Fetched(old(Abs()))
    {
      opcode := memory[PC] as int * 0x100 + memory[PC + 1];
      PC := PC + 2;
    }

    /** Each timer that is set goes down by one. */
    method TickTimers()
      requires Valid()
      modifies this
      ensures Valid() && Abs() == old(Abs()).(delayTimer := Tick(old(delayTimer)), soundTimer := Tick(old(soundTimer)))
    {
      if delayTimer > 0 {
        delayTimer := delayTimer - 1;
      }
      if soundTimer > 0 {
        soundTimer := soundTimer - 1;
      }
    }

    /** Run the handler h. */
    method Execute(h: Handler, rnd: byte) returns (status: Status)
      requires Valid()
      modifies this, memory, V, stack, video
      ensures Valid() && Outcome(status, Abs()) == Semantics.Execute(old(Abs()), h, rnd)
    {
      status := Ok;
      match h
      case Cls => Op00E0();
      case Ret => status := Op00EE();
      case Jp => Op1nnn();
      case Call => status := Op2nnn();
      case SeByte => Op3xkk();
      case SneByte => Op4xkk();
      case SeReg => Op5xy0();
      case LdByte => Op6xkk();
      case AddByte => Op7xkk();
      case LdReg => Op8xy0();
      case OrReg => Op8xy1();
      case AndReg => Op8xy2();
      case XorReg => Op8xy3();
      case AddReg => Op8xy4();
      case SubReg => Op8xy5();
      case Shr => Op8xy6();
      case Subn => Op8xy7();
      case Shl => Op8xyE();
      case SneReg => Op9xy0();
      case LdI => OpAnnn();
      case JpV0 => OpBnnn();
      case Rnd => OpCxkk(rnd);
      case Drw => status := OpDxyn();
      case Skp => OpEx9E();
      case Sknp => OpExA1();
      case LdVxDt => OpFx07();
      case LdVxK => OpFx0A();
      case LdDtVx => OpFx15();
      case LdStVx => OpFx18();
      case AddI => OpFx1E();
      case LdF => OpFx29();
      case LdB => status := OpFx33();
      case StoreRegs => status := OpFx55();
      case LoadRegs => status := OpFx65();
      case Null => OpNull();
    }

    method Op00E0()
      requires Valid()
      modifies video
      ensures Valid() && Abs() == Semantics.Op00E0(old(Abs()))
    {
      forall p | 0 <= p < video.Length {
        video[p] := false;
      }
      assert video[..] == seq(PixelCount, _ => false);
    }

    method Op00EE() returns (status: Status)
      requires Valid()
      modifies this
      ensures Valid() && Outcome(status, Abs()) == Semantics.Op00EE(old(Abs()))
    {
      if SP == 0 {
        return StackUnderflow;
      }
      SP := SP - 1;
      PC := stack[SP];
      status := Ok;
    }

    method Op1nnn()
      requires Valid()
      modifies this
      ensures Valid() && Abs() == Semantics.Op1nnn(old(Abs()))
    {
      PC := Nnn(opcode);
    }

    method Op2nnn() returns (status: Status)
      requires Valid()
      modifies this, stack
      ensures Valid() && Outcome(status, Abs()) == Semantics.Op2nnn(old(Abs()))
    {
      if SP >= StackLevels {
        return StackOverflow;
      }
      stack[SP] := PC;
      SP := SP + 1;
      PC := Nnn(opcode);
      status := Ok;
    }

    method Op3xkk()
      requires Valid()
      modifies this
      ensures Valid() && Abs() == Semantics.Op3xkk(old(Abs()))
    {
      if V[X(opcode)] == Kk(opcode) {
        PC := SkipNext(PC);
      }
    }

    method Op4xkk()
      requires Valid()
      modifies this
      ensures Valid() && Abs() == Semantics.Op4xkk(old(Abs()))
    {
      if V[X(opcode)] != Kk(opcode) {
        PC := SkipNext(PC);
      }
    }

    method Op5xy0()
      requires Valid()
      modifies this
      ensures Valid() && Abs() == Semantics.Op5xy0(old(Abs()))
    {
      if V[X(opcode)] == V[Y(opcode)] {
        PC := SkipNext(PC);
      }
    }

    method Op6xkk()
      requires Valid()
      modifies V
      ensures Valid() && Abs() == Semantics.Op6xkk(old(Abs()))
    {
      V[X(opcode)] := Kk(opcode);
    }

    method Op7xkk()
      requires Valid()
      modifies V
      ensures Valid() && Abs() == Semantics.Op7xkk(old(Abs()))
    {
      var x := X(opcode);
      V[x] := (V[x] as int + Kk(opcode)) % 0x100;
    }

    method Op8xy0()
      requires Valid()
      modifies V
      ensures Valid() && Abs() == Semantics.Op8xy0(old(Abs()))
    {
      V[X(opcode)] := V[Y(opcode)];
    }

    method Op8xy1()
      requires Valid()
      modifies V
      ensures Valid() && Abs() == Semantics.Op8xy1(old(Abs()))
    {
      var x := X(opcode);
      V[x] := BitOr(V[x], V[Y(opcode)]);
    }

    method Op8xy2()
      requires Valid()
      modifies V
      ensures Valid() && Abs() == Semantics.Op8xy2(old(Abs()))
    {
      var x := X(opcode);
      V[x] := BitAnd(V[x], V[Y(opcode)]);
    }

    method Op8xy3()
      requires Valid()
      modifies V
      ensures Valid() && Abs() == Semantics.Op8xy3(old(Abs()))
    {
      var x := X(opcode);
      V[x] := BitXor(V[x], V[Y(opcode)]);
    }

    method Op8xy4()
      requires Valid()
      modifies V
      ensures Valid() && Abs() == Semantics.Op8xy4(old(Abs()))
    {
      var x, y := X(opcode), Y(opcode);
      var sum := V[x] as int + V[y];
      if sum > 0xFF {
        V[VF] := 1;
      } else {
        V[VF] := 0;
      }
      V[x] := sum % 0x100;
    }

    method Op8xy5()
      requires Valid()
      modifies V
      ensures Valid() && Abs() == Semantics.Op8xy5(old(Abs()))
    {
      var x, y := X(opcode), Y(opcode);
      var diff := ToWord(V[x] as int - V[y]);
      if V[x] > V[y] {
        V[VF] := 1;
      } else {
        V[VF] := 0;
      }
      V[x] := diff % 0x100;
    }

    method Op8xy6()
      requires Valid()
      modifies V
      ensures Valid() && Abs() == Semantics.Op8xy6(old(Abs()))
    {
      var x := X(opcode);
      V[VF] := V[x] % 2;
      V[x] := V[x] / 2;
    }

    method Op8xy7()
      requires Valid()
      modifies V
      ensures Valid() && Abs() == Semantics.Op8xy7(old(Abs()))
    {
      var x, y := X(opcode), Y(opcode);
      var diff := ToWord(V[y] as int - V[x]);
      if V[x] < V[y] {
        V[VF] := 1;
      } else {
        V[VF] := 0;
      }
      V[x] := diff % 0x100;
    }

    method Op8xyE()
      requires Valid()
      modifies V
      ensures Valid() && Abs() == Semantics.Op8xyE(old(Abs()))
    {
      var x := X(opcode);
      V[VF] := V[x] / 0x80;
      V[x] := V[x] as int * 2 % 0x100;
    }

    method Op9xy0()
      requires Valid()
      modifies this
      ensures Valid() && Abs() == Semantics.Op9xy0(old(Abs()))
    {
      if V[X(opcode)] != V[Y(opcode)] {
        PC := SkipNext(PC);
      }
    }

    method OpAnnn()
      requires Valid()
      modifies this
      ensures Valid() && Abs() == Semantics.OpAnnn(old(Abs()))
    {
      I := Nnn(opcode);
    }

    method OpBnnn()
      requires Valid()
      modifies this
      ensures Valid() && Abs() == Semantics.OpBnnn(old(Abs()))
    {
      PC := V[0] + Nnn(opcode);
    }

    method OpCxkk(rnd: byte)
      requires Valid()
      modifies V
      ensures Valid() && Abs() == Semantics.OpCxkk(old(Abs()), rnd)
    {
      V[X(opcode)] := BitAnd(rnd, Kk(opcode));
    }

    /**
     * Draw row by row and column by column.  After each cell the display is
     * the prefix DrawSteps of the cells visited so far and VF is the prefix
     * CollisionSteps.
     */
    method OpDxyn() returns (status: Status)
      requires Valid()
      modifies V, video
      ensures Valid() && Outcome(status, Abs()) == Semantics.OpDxyn(old(Abs()))
    {
      var n := N(opcode);
      if n > 0 && I + n > MemorySize {
        return AddressOutOfRange;
      }
      var xPos := V[X(opcode)] % VideoWidth;
      var yPos := V[Y(opcode)] % VideoHeight;
      V[VF] := 0;
      ghost var sprite := SpriteAt(memory[..], I, n);
      ghost var video0 := video[..];
      for row := 0 to n
        invariant video[..] == DrawSteps(video0, sprite, xPos, yPos, SpriteWidth * row)
        invariant V[..] == old(V[..])[VF := if CollisionSteps(video0, sprite, xPos, yPos, SpriteWidth * row) then 1 else 0]
      {
        DrawRow(memory[I + row], xPos, yPos, row, video0, sprite, old(V[..]));
      }
      status := Ok;
    }

    /** The work Dxyn does for one row of the sprite: its eight cells from left to right. */
    method DrawRow(spriteByte: byte, xPos: nat, yPos: nat, row: nat,
                   ghost video0: seq<bool>, ghost sprite: seq<byte>, ghost regs: seq<byte>)
      requires Valid() && |video0| == PixelCount && |regs| == RegisterCount
      requires row < |sprite| && sprite[row] == spriteByte
      requires video[..] == DrawSteps(video0, sprite, xPos, yPos, SpriteWidth * row)
      requires V[..] == regs[VF := if CollisionSteps(video0, sprite, xPos, yPos, SpriteWidth * row) then 1 else 0]
      modifies V, video
      ensures video[..] == DrawSteps(video0, sprite, xPos, yPos, SpriteWidth * (row + 1))
      ensures V[..] == regs[VF := if CollisionSteps(video0, sprite, xPos, yPos, SpriteWidth * (row + 1)) then 1 else 0]
    {
      for col := 0 to SpriteWidth
        invariant video[..] == DrawSteps(video0, sprite, xPos, yPos, SpriteWidth * row + col)
        invariant V[..] == regs[VF := if CollisionSteps(video0, sprite, xPos, yPos, SpriteWidth * row + col) then 1 else 0]
      {
        DrawPixel(spriteByte, xPos, yPos, row, col, video0, sprite, regs);
      }
    }

    /**
     * The work Dxyn does for one cell of the sprite: if the cell's bit is lit,
     * note a collision when the pixel is already on, then toggle the pixel.
     */
    method DrawPixel(spriteByte: byte, xPos: nat, yPos: nat, row: nat, col: nat,
                     ghost video0: seq<bool>, ghost sprite: seq<byte>, ghost regs: seq<byte>)
      requires Valid() && |video0| == PixelCount && |regs| == RegisterCount
      requires row < |sprite| && col < SpriteWidth && sprite[row] == spriteByte
      requires video[..] == DrawSteps(video0, sprite, xPos, yPos, SpriteWidth * row + col)
      requires V[..] == regs[VF := if CollisionSteps(video0, sprite, xPos, yPos, SpriteWidth * row + col) then 1 else 0]
      modifies V, video
      ensures video[..] == DrawSteps(video0, sprite, xPos, yPos, SpriteWidth * row + col + 1)
      ensures V[..] == regs[VF := if CollisionSteps(video0, sprite, xPos, yPos, SpriteWidth * row + col + 1) then 1 else 0]
    {
      DrawCell(video0, sprite, xPos, yPos, row, col);
      if SpriteBit(spriteByte, col) {
        var p := PixelIndex(xPos, yPos, row, col);
        if video[p] {
          V[VF] := 1;
        }
        video[p] := !video[p];
      }
    }

    method OpEx9E()
      requires Valid()
      modifies this
      ensures Valid() && Abs() == Semantics.OpEx9E(old(Abs()))
    {
      var key := KeyIndex(V[X(opcode)]);
      if keypad[key] {
        PC := SkipNext(PC);
      }
    }

    method OpExA1()
      requires Valid()
      modifies this
      ensures Valid() && Abs() == Semantics.OpExA1(old(Abs()))
    {
      var key := KeyIndex(V[X(opcode)]);
      if !keypad[key] {
        PC := SkipNext(PC);
      }
    }

    method OpFx07()
      requires Valid()
      modifies V
      ensures Valid() && Abs() == Semantics.OpFx07(old(Abs()))
    {
      V[X(opcode)] := delayTimer;
    }

    /** Scan the keys in ascending order; KeyCount when none is pressed. */
    method ScanKeys() returns (key: nat)
      requires Valid()
      ensures key == FirstPressed(keypad[..], 0)
    {
      key := 0;
      while key < KeyCount && !keypad[key]
        invariant key <= KeyCount
        invariant FirstPressed(keypad[..], key) == FirstPressed(keypad[..], 0)
      {
        key := key + 1;
      }
    }

    method OpFx0A()
      requires Valid()
      modifies this, V
      ensures Valid() && Abs() == Semantics.OpFx0A(old(Abs()))
    {
      var key := ScanKeys();
      if key < KeyCount {
        V[X(opcode)] := key;
      } else {
        PC := ToWord(PC - 2);
      }
    }

    method OpFx15()
      requires Valid()
      modifies this
      ensures Valid() && Abs() == Semantics.OpFx15(old(Abs()))
    {
      delayTimer := V[X(opcode)];
    }

    method OpFx18()
      requires Valid()
      modifies this
      ensures Valid() && Abs() == Semantics.OpFx18(old(Abs()))
    {
      soundTimer := V[X(opcode)];
    }

    method OpFx1E()
      requires Valid()
      modifies this
      ensures Valid() && Abs() == Semantics.OpFx1E(old(Abs()))
    {
      I := ToWord(I + V[X(opcode)]);
    }

    method OpFx29()
      requires Valid()
      modifies this
      ensures Valid() && Abs() == Semantics.OpFx29(old(Abs()))
    {
      var digit := V[X(opcode)];
      I := FontSize + GlyphHeight * digit;
    }

    method OpFx33() returns (status: Status)
      requires Valid()
      modifies memory
      ensures Valid() && Outcome(status, Abs()) == Semantics.OpFx33(old(Abs()))
    {
      if I + 2 >= MemorySize {
        return AddressOutOfRange;
      }
      var value := V[X(opcode)];
      memory[I + 2] := value % 10;
      value := value / 10;
      memory[I + 1] := value % 10;
      value := value / 10;
      memory[I] := value % 10;
      status := Ok;
    }

    method OpFx55() returns (status: Status)
      requires Valid()
      modifies memory
      ensures Valid() && Outcome(status, Abs()) == Semantics.OpFx55(old(Abs()))
    {
      var x := X(opcode);
      if I + x >= MemorySize {
        return AddressOutOfRange;
      }
      for i := 0 to x + 1
        invariant forall a :: 0 <= a < MemorySize ==>
          memory[a] == if I <= a < I + i then V[a - I] else old(memory[a])
      {
        memory[I + i] := V[i];
      }
      assert memory[..] == old(memory[..])[..I] + V[..x + 1] + old(memory[..])[I + x + 1..];
      status := Ok;
    }

    method OpFx65() returns (status: Status)
      requires Valid()
      modifies V
      ensures Valid() && Outcome(status, Abs()) == Semantics.OpFx65(old(Abs()))
    {
      var x := X(opcode);
      if I + x >= MemorySize {
        return AddressOutOfRange;
      }
      for i := 0 to x + 1
        invariant forall j :: 0 <= j < RegisterCount ==>
          V[j] == if j < i then memory[I + j] else old(V[j])
      {
        V[i] := memory[I + i];
      }
      assert V[..] == memory[I .. I + x + 1] + old(V[..])[x + 1..];
      status := Ok;
    }

    method OpNull()
      requires Valid()
      ensures Abs() == Semantics.OpNull(Abs())
    {
    }
  }
}
