/**
 * The meaning of every CHIP-8 operation as a pure transformer of the machine
 * state.  Each handler reads its operands from the instruction word held in
 * the state (as the interpreter's handlers read the opcode field), and the
 * operations that can fail return an Outcome whose status names the fault;
 * a faulting handler leaves the machine unchanged.
 */
module Semantics {
  import opened Layout
  import opened Display

  /** The whole interpreter state. */
  datatype Machine = Machine(
    memory: seq<byte>,
    V: seq<byte>,
    stack: seq<word>,
    I: word,
    PC: word,
    SP: byte,
    opcode: word,
    delayTimer: byte,
    soundTimer: byte,
    keypad: seq<bool>,
    video: seq<bool>)

  /** The fixed sizes of the state, and the stack pointer within the stack. */
  predicate WellFormed(m: Machine)
  {
    && |m.memory| == MemorySize
    && |m.V| == RegisterCount
    && |m.stack| == StackLevels
    && m.SP <= StackLevels
    && |m.keypad| == KeyCount
    && |m.video| == PixelCount
  }

  /** Ok, or the condition that stopped the emulated program. */
  datatype Status = Ok | StackOverflow | StackUnderflow | AddressOutOfRange | FetchOutOfRange | RomTooLarge

  /** The status of an operation and the machine it leaves behind. */
  datatype Outcome = Outcome(status: Status, m: Machine)

  /** The flag register. */
  const VF: nat := 0xF

  // ---------------------------------------------------------------------------
  // Instruction fields

  /** Bits 15..12: the top-level table index. */
  function Group(op: word): (g: nat)
    ensures g < TableSize
  {
    op / 0x1000
  }

  /** Bits 11..8: the x register. */
  function X(op: word): (x: nat)
    ensures x < RegisterCount
  {
    op / 0x100 % 0x10
  }

  /** Bits 7..4: the y register. */
  function Y(op: word): (y: nat)
    ensures y < RegisterCount
  {
    op / 0x10 % 0x10
  }

  /** Bits 3..0. */
  function N(op: word): (n: nat)
    ensures n < 0x10
  {
    op % 0x10
  }

  /** Bits 7..0: the immediate byte. */
  function Kk(op: word): (kk: byte)
    ensures kk == Y(op) * 0x10 + N(op)
  {
    op % 0x100
  }

  /** Bits 11..0: the address. */
  function Nnn(op: word): (a: nat)
    ensures a < 0x1000
  {
    op % 0x1000
  }

  /** The fields put back together give the instruction word again. */
  lemma OperandFields(op: word)
    ensures op == Group(op) * 0x1000 + X(op) * 0x100 + Y(op) * 0x10 + N(op)
    ensures Kk(op) == Y(op) * 0x10 + N(op)
    ensures Nnn(op) == X(op) * 0x100 + Kk(op)
  {
    assert op / 0x100 / 0x10 == op / 0x1000;
    assert op / 0x10 / 0x10 == op / 0x100;
    assert op / 0x100 == Group(op) * 0x10 + X(op);
    assert op / 0x10 == op / 0x100 * 0x10 + Y(op);
    assert op == op / 0x10 * 0x10 + N(op);
  }

  // ---------------------------------------------------------------------------
  // Fixed-width arithmetic of the host language

  /** Conversion of an integer to uint16_t. */
  function ToWord(n: int): word
  {
    n % 0x1_0000
  }

  /** The three bitwise operations of the instruction set. */
  datatype Logic = Or | And | Xor

  /** One bit of a bitwise operation, p and q being bits. */
  function BitOf(f: Logic, p: nat, q: nat): (r: nat)
    ensures r <= 1
  {
    match f
    case Or => if p == 1 || q == 1 then 1 else 0
    case And => if p == 1 && q == 1 then 1 else 0
    case Xor => if p != q then 1 else 0
  }

  function Pow2(w: nat): (r: nat)
    ensures r >= 1
  {
    if w == 0 then 1 else 2 * Pow2(w - 1)
  }

  /**
   * The low w bits of a bitwise operation, one bit at a time from the least
   * significant end; AND never sets a bit that is clear in either operand.
   */
  function Bits(f: Logic, a: nat, b: nat, w: nat): (r: nat)
    ensures r < Pow2(w)
    ensures f == And ==> r <= a && r <= b
  {
    if w == 0 then 0
    else 2 * Bits(f, a / 2, b / 2, w - 1) + BitOf(f, a % 2, b % 2)
  }

  function BitOr(a: byte, b: byte): byte
  {
    assert Pow2(8) == 0x100;
    Bits(Or, a, b, 8)
  }

  /** Bitwise AND: no bit is set that is clear in a or b. */
  function BitAnd(a: byte, b: byte): (r: byte)
    ensures r <= a && r <= b
  {
    assert Pow2(8) == 0x100;
    Bits(And, a, b, 8)
  }

  function BitXor(a: byte, b: byte): byte
  {
    assert Pow2(8) == 0x100;
    Bits(Xor, a, b, 8)
  }

  /** One tick of a countdown timer: down by one, never below zero. */
  function Tick(t: byte): (r: byte)
    ensures t > 0 ==> r + 1 == t
    ensures r == t <==> t == 0
  {
    if t > 0 then t - 1 else 0
  }

  // ---------------------------------------------------------------------------
  // Construction, reset and program loading

  /** n zero bytes. */
  function Zeros(n: nat): (s: seq<byte>)
    ensures |s| == n && forall k :: 0 <= k < n ==> s[k] == 0
  {
    seq(n, _ => 0)
  }

  /** The memory with the font copied to the font region and nothing else changed. */
  function WithFont(mem: seq<byte>): (r: seq<byte>)
    requires |mem| == MemorySize
    ensures |r| == MemorySize
    ensures r[FontsetStartAddress .. FontsetStartAddress + FontsetSize] == FontData
    ensures forall a :: 0 <= a < MemorySize && !(FontsetStartAddress <= a < FontsetStartAddress + FontsetSize) ==> r[a] == mem[a]
  {
    mem[..FontsetStartAddress] + FontData + mem[FontsetStartAddress + FontsetSize..]
  }

  /** A memory that holds the font in the font region and mem elsewhere is WithFont(mem). */
  lemma WithFontPointwise(mem: seq<byte>, r: seq<byte>)
    requires |mem| == MemorySize && |r| == MemorySize
    requires forall j :: 0 <= j < FontsetSize ==> r[FontsetStartAddress + j] == FontData[j]
    requires forall a :: 0 <= a < MemorySize && !(FontsetStartAddress <= a < FontsetStartAddress + FontsetSize) ==> r[a] == mem[a]
    ensures r == WithFont(mem)
  {
    var lo, hi := FontsetStartAddress, FontsetStartAddress + FontsetSize;
    assert r[..lo] == mem[..lo];
    assert r[lo..hi] == FontData by {
      forall j | 0 <= j < FontsetSize ensures r[lo..hi][j] == FontData[j] {
        assert r[lo..hi][j] == r[lo + j];
      }
    }
    assert r[hi..] == mem[hi..];
    assert r == r[..lo] + r[lo..hi] + r[hi..];
  }

  /**
   * Reset: memory cleared and the font reloaded, registers, stack, index and
   * timers zero, PC at the program base.  The display, the keypad and the last
   * instruction word are left as they were.
   */
  function Reset(m: Machine): (r: Machine)
    requires WellFormed(m)
    ensures WellFormed(r)
    ensures r.memory[FontsetStartAddress .. FontsetStartAddress + FontsetSize] == FontData
    ensures forall a :: 0 <= a < MemorySize && !(FontsetStartAddress <= a < FontsetStartAddress + FontsetSize) ==> r.memory[a] == 0
    ensures forall j :: 0 <= j < RegisterCount ==> r.V[j] == 0
    ensures forall j :: 0 <= j < StackLevels ==> r.stack[j] == 0
    ensures r.I == 0 && r.PC == StartAddress && r.SP == 0 && r.delayTimer == 0 && r.soundTimer == 0
    ensures r.video == m.video && r.keypad == m.keypad && r.opcode == m.opcode
  {
    m.(memory := WithFont(Zeros(MemorySize)), V := Zeros(RegisterCount), stack := seq(StackLevels, _ => 0),
       I := 0, PC := StartAddress, SP := 0, soundTimer := 0, delayTimer := 0)
  }

  /** The state of a freshly constructed interpreter: a reset of the all-zero machine. */
  function Initial(): (r: Machine)
    ensures WellFormed(r)
    ensures r.PC == StartAddress && r.SP == 0
    ensures forall p :: 0 <= p < PixelCount ==> !r.video[p]
    ensures forall k :: 0 <= k < KeyCount ==> !r.keypad[k]
  {
    Reset(Machine(Zeros(MemorySize), Zeros(RegisterCount), seq(StackLevels, _ => 0), 0, 0, 0, 0, 0, 0,
                  seq(KeyCount, _ => false), seq(PixelCount, _ => false)))
  }

  /** The largest program image that fits between the program base and the end of memory. */
  const MaxRomSize: nat := MemorySize - StartAddress

  /** Copy a program image to the program base; an image that does not fit is refused. */
  function LoadRom(m: Machine, rom: seq<byte>): (r: Outcome)
    requires WellFormed(m)
    ensures WellFormed(r.m)
    ensures r.status == (if |rom| <= MaxRomSize then Ok else RomTooLarge)
    ensures r.status == Ok ==> r.m == m.(memory := r.m.memory)
    ensures r.status == Ok ==> r.m.memory[StartAddress .. StartAddress + |rom|] == rom
    ensures r.status == Ok ==> forall a :: 0 <= a < MemorySize && !(StartAddress <= a < StartAddress + |rom|) ==> r.m.memory[a] == m.memory[a]
    ensures r.status != Ok ==> r.m == m
  {
    if |rom| > MaxRomSize then Outcome(RomTooLarge, m)
    else Outcome(Ok, m.(memory := m.memory[..StartAddress] + rom + m.memory[StartAddress + |rom|..]))
  }

  // ---------------------------------------------------------------------------
  // Fetch, decode, cycle

  /** The big-endian instruction word at addresses pc and pc + 1. */
  function Fetch(mem: seq<byte>, pc: nat): (w: word)
    requires pc + 1 < |mem|
    ensures w / 0x100 == mem[pc] && w % 0x100 == mem[pc + 1]
  {
    mem[pc] as int * 0x100 + mem[pc + 1]
  }

  /**
   * The two-level dispatch: the high nibble selects a top-level entry; groups
   * 0, 8 and E are refined by the low nibble and group F by the low byte.
   * An index beyond a secondary table selects the no-op.
   */
  function Decode(op: word): (h: Handler)
    ensures h == Null ==> Group(op) == 0x0 || Group(op) == 0x8 || Group(op) == 0xE || Group(op) == 0xF
  {
    match MainTable[Group(op)]
    case Run(h) => h
    case Table0 => if N(op) < Table0Size then Group0Table[N(op)] else Null
    case Table8 => if N(op) < Table8Size then Group8Table[N(op)] else Null
    case TableE => if N(op) < TableESize then GroupETable[N(op)] else Null
    case TableF => if Kk(op) < TableFSize then SlotF(Kk(op)) else Null
  }

  /** Run one handler; rnd is the random byte the Cxkk instruction consumes. */
  function Execute(m: Machine, h: Handler, rnd: byte): (r: Outcome)
    requires WellFormed(m)
    ensures WellFormed(r.m)
    ensures r.status in {Ok, StackOverflow, StackUnderflow, AddressOutOfRange}
    ensures r.status != Ok ==> r.m == m
  {
    match h
    case Cls => Outcome(Ok, Op00E0(m))
    case Ret => Op00EE(m)
    case Jp => Outcome(Ok, Op1nnn(m))
    case Call => Op2nnn(m)
    case SeByte => Outcome(Ok, Op3xkk(m))
    case SneByte => Outcome(Ok, Op4xkk(m))
    case SeReg => Outcome(Ok, Op5xy0(m))
    case LdByte => Outcome(Ok, Op6xkk(m))
    case AddByte => Outcome(Ok, Op7xkk(m))
    case LdReg => Outcome(Ok, Op8xy0(m))
    case OrReg => Outcome(Ok, Op8xy1(m))
    case AndReg => Outcome(Ok, Op8xy2(m))
    case XorReg => Outcome(Ok, Op8xy3(m))
    case AddReg => Outcome(Ok, Op8xy4(m))
    case SubReg => Outcome(Ok, Op8xy5(m))
    case Shr => Outcome(Ok, Op8xy6(m))
    case Subn => Outcome(Ok, Op8xy7(m))
    case Shl => Outcome(Ok, Op8xyE(m))
    case SneReg => Outcome(Ok, Op9xy0(m))
    case LdI => Outcome(Ok, OpAnnn(m))
    case JpV0 => Outcome(Ok, OpBnnn(m))
    case Rnd => Outcome(Ok, OpCxkk(m, rnd))
    case Drw => OpDxyn(m)
    case Skp => Outcome(Ok, OpEx9E(m))
    case Sknp => Outcome(Ok, OpExA1(m))
    case LdVxDt => Outcome(Ok, OpFx07(m))
    case LdVxK => Outcome(Ok, OpFx0A(m))
    case LdDtVx => Outcome(Ok, OpFx15(m))
    case LdStVx => Outcome(Ok, OpFx18(m))
    case AddI => Outcome(Ok, OpFx1E(m))
    case LdF => Outcome(Ok, OpFx29(m))
    case LdB => OpFx33(m)
    case StoreRegs => OpFx55(m)
    case LoadRegs => OpFx65(m)
    case Null => Outcome(Ok, OpNull(m))
  }

  /** The machine after the fetch: instruction word recorded and PC past it. */
  function Fetched(m: Machine): (r: Machine)
    requires WellFormed(m) && m.PC + 1 < MemorySize
    ensures WellFormed(r) && r == m.(opcode := r.opcode, PC := r.PC)
    ensures r.opcode == Fetch(m.memory, m.PC) && r.PC == m.PC + 2
  {
    m.(opcode := Fetch(m.memory, m.PC), PC := m.PC + 2)
  }

  /**
   * One cycle: fetch the word at PC (refused when PC + 1 is beyond memory),
   * advance PC by 2, run the decoded handler, then tick both timers.  When the
   * handler faults, the cycle stops there and the timers are not ticked.
   */
  function Cycle(m: Machine, rnd: byte): (r: Outcome)
    requires WellFormed(m)
    ensures WellFormed(r.m)
    ensures r.status != FetchOutOfRange <==> m.PC + 1 < MemorySize
    ensures r.status == FetchOutOfRange ==> r.m == m
    ensures r.status != Ok && r.status != FetchOutOfRange ==> r.m == Fetched(m)
  {
    if m.PC + 1 >= MemorySize then Outcome(FetchOutOfRange, m)
    else
      var f := Fetched(m);
      var e := Execute(f, Decode(f.opcode), rnd);
      if e.status != Ok then e
      else Outcome(Ok, e.m.(delayTimer := Tick(e.m.delayTimer), soundTimer := Tick(e.m.soundTimer)))
  }

  // ---------------------------------------------------------------------------
  // The handlers

  /** 00E0 CLS: every pixel off, nothing else changes. */
  function Op00E0(m: Machine): (r: Machine)
    requires WellFormed(m)
    ensures WellFormed(r) && r == m.(video := r.video)
    ensures forall p :: 0 <= p < PixelCount ==> !r.video[p]
  {
    m.(video := seq(PixelCount, _ => false))
  }

  /**
   * 00EE RET: pop the return address.  With an empty stack it faults and
   * changes nothing.
   */
  function Op00EE(m: Machine): (r: Outcome)
    requires WellFormed(m)
    ensures WellFormed(r.m)
    ensures r.status == (if m.SP == 0 then StackUnderflow else Ok)
    ensures r.status == Ok ==> r.m == m.(SP := m.SP - 1, PC := m.stack[m.SP - 1])
    ensures r.status != Ok ==> r.m == m
  {
    if m.SP == 0 then Outcome(StackUnderflow, m)
    else
      var sp := m.SP - 1;
      Outcome(Ok, m.(SP := sp, PC := m.stack[sp]))
  }

  /** 1nnn JP addr. */
  function Op1nnn(m: Machine): (r: Machine)
    requires WellFormed(m)
    ensures WellFormed(r) && r == m.(PC := Nnn(m.opcode))
  {
    m.(PC := Nnn(m.opcode))
  }

  /**
   * 2nnn CALL addr: push PC, then jump.  With all sixteen levels in use it
   * faults and changes nothing.
   */
  function Op2nnn(m: Machine): (r: Outcome)
    requires WellFormed(m)
    ensures WellFormed(r.m)
    ensures r.status == (if m.SP == StackLevels then StackOverflow else Ok)
    ensures r.status == Ok ==> r.m == m.(stack := m.stack[m.SP := m.PC], SP := m.SP + 1, PC := Nnn(m.opcode))
    ensures r.status != Ok ==> r.m == m
  {
    if m.SP >= StackLevels then Outcome(StackOverflow, m)
    else Outcome(Ok, m.(stack := m.stack[m.SP := m.PC], SP := m.SP + 1, PC := Nnn(m.opcode)))
  }

  /** PC advanced past the next instruction, modulo 2^16. */
  function SkipNext(pc: word): (r: word)
    ensures r != pc
    ensures pc + 2 < 0x1_0000 ==> r == pc + 2
  {
    ToWord(pc + 2)
  }

  /** 3xkk SE Vx, byte. */
  function Op3xkk(m: Machine): (r: Machine)
    requires WellFormed(m)
    ensures WellFormed(r) && r == m.(PC := r.PC)
    ensures r.PC == if m.V[X(m.opcode)] == Kk(m.opcode) then SkipNext(m.PC) else m.PC
  {
    if m.V[X(m.opcode)] == Kk(m.opcode) then m.(PC := SkipNext(m.PC)) else m
  }

  /** 4xkk SNE Vx, byte. */
  function Op4xkk(m: Machine): (r: Machine)
    requires WellFormed(m)
    ensures WellFormed(r) && r == m.(PC := r.PC)
    ensures r.PC == if m.V[X(m.opcode)] != Kk(m.opcode) then SkipNext(m.PC) else m.PC
  {
    if m.V[X(m.opcode)] != Kk(m.opcode) then m.(PC := SkipNext(m.PC)) else m
  }

  /** 5xy0 SE Vx, Vy (the low nibble is not examined). */
  function Op5xy0(m: Machine): (r: Machine)
    requires WellFormed(m)
    ensures WellFormed(r) && r == m.(PC := r.PC)
    ensures r.PC == if m.V[X(m.opcode)] == m.V[Y(m.opcode)] then SkipNext(m.PC) else m.PC
  {
    if m.V[X(m.opcode)] == m.V[Y(m.opcode)] then m.(PC := SkipNext(m.PC)) else m
  }

  /** 6xkk LD Vx, byte. */
  function Op6xkk(m: Machine): (r: Machine)
    requires WellFormed(m)
    ensures WellFormed(r) && r == m.(V := m.V[X(m.opcode) := Kk(m.opcode)])
  {
    m.(V := m.V[X(m.opcode) := Kk(m.opcode)])
  }

  /** 7xkk ADD Vx, byte: 8-bit wrap-around, VF untouched. */
  function Op7xkk(m: Machine): (r: Machine)
    requires WellFormed(m)
    ensures WellFormed(r) && r == m.(V := r.V)
    ensures r.V[X(m.opcode)] == (m.V[X(m.opcode)] + Kk(m.opcode)) % 0x100
    ensures forall j :: 0 <= j < RegisterCount && j != X(m.opcode) ==> r.V[j] == m.V[j]
  {
    var x := X(m.opcode);
    m.(V := m.V[x := (m.V[x] + Kk(m.opcode)) % 0x100])
  }

  /** 8xy0 LD Vx, Vy. */
  function Op8xy0(m: Machine): (r: Machine)
    requires WellFormed(m)
    ensures WellFormed(r) && r == m.(V := m.V[X(m.opcode) := m.V[Y(m.opcode)]])
  {
    m.(V := m.V[X(m.opcode) := m.V[Y(m.opcode)]])
  }

  /** 8xy1 OR Vx, Vy. */
  function Op8xy1(m: Machine): (r: Machine)
    requires WellFormed(m)
    ensures WellFormed(r) && r == m.(V := m.V[X(m.opcode) := BitOr(m.V[X(m.opcode)], m.V[Y(m.opcode)])])
  {
    var x := X(m.opcode);
    m.(V := m.V[x := BitOr(m.V[x], m.V[Y(m.opcode)])])
  }

  /** 8xy2 AND Vx, Vy. */
  function Op8xy2(m: Machine): (r: Machine)
    requires WellFormed(m)
    ensures WellFormed(r) && r == m.(V := m.V[X(m.opcode) := BitAnd(m.V[X(m.opcode)], m.V[Y(m.opcode)])])
  {
    var x := X(m.opcode);
    m.(V := m.V[x := BitAnd(m.V[x], m.V[Y(m.opcode)])])
  }

  /** 8xy3 XOR Vx, Vy. */
  function Op8xy3(m: Machine): (r: Machine)
    requires WellFormed(m)
    ensures WellFormed(r) && r == m.(V := m.V[X(m.opcode) := BitXor(m.V[X(m.opcode)], m.V[Y(m.opcode)])])
  {
    var x := X(m.opcode);
    m.(V := m.V[x := BitXor(m.V[x], m.V[Y(m.opcode)])])
  }

  /**
   * 8xy4 ADD Vx, Vy: the 9-bit sum split into carry (VF) and low byte (Vx).
   * VF is written first, so for x = F the low byte wins.
   */
  function Op8xy4(m: Machine): (r: Machine)
    requires WellFormed(m)
    ensures WellFormed(r) && r == m.(V := r.V)
    ensures var x, y := X(m.opcode), Y(m.opcode);
            && r.V[x] == (m.V[x] as int + m.V[y]) % 0x100
            && (x != VF ==> r.V[VF] as int * 0x100 + r.V[x] == m.V[x] as int + m.V[y])
            && (x != VF ==> (r.V[VF] == 1 <==> m.V[x] as int + m.V[y] > 0xFF))
            && forall j :: 0 <= j < RegisterCount && j != x && j != VF ==> r.V[j] == m.V[j]
  {
    var x, y := X(m.opcode), Y(m.opcode);
    var sum := m.V[x] as int + m.V[y];
    var flagged := m.V[VF := if sum > 0xFF then 1 else 0];
    m.(V := flagged[x := sum % 0x100])
  }

  /**
   * 8xy5 SUB Vx, Vy: Vx = Vx - Vy modulo 256; VF = 1 exactly when Vx > Vy
   * before the instruction (no borrow).
   */
  function Op8xy5(m: Machine): (r: Machine)
    requires WellFormed(m)
    ensures WellFormed(r) && r == m.(V := r.V)
    ensures var x, y := X(m.opcode), Y(m.opcode);
            && (r.V[x] as int + m.V[y]) % 0x100 == m.V[x]
            && r.V[x] == (m.V[x] as int - m.V[y]) % 0x100
            && (x != VF ==> r.V[VF] <= 1 && (r.V[VF] == 1 <==> m.V[x] > m.V[y]))
            && forall j :: 0 <= j < RegisterCount && j != x && j != VF ==> r.V[j] == m.V[j]
  {
    var x, y := X(m.opcode), Y(m.opcode);
    var diff := ToWord(m.V[x] as int - m.V[y]);
    var flagged := m.V[VF := if m.V[x] > m.V[y] then 1 else 0];
    m.(V := flagged[x := diff % 0x100])
  }

  /**
   * 8xy6 SHR Vx: VF = the bit shifted out; Vx = Vx / 2.  The shift reads Vx
   * after VF has been written, so for x = F the result is 0.
   */
  function Op8xy6(m: Machine): (r: Machine)
    requires WellFormed(m)
    ensures WellFormed(r) && r == m.(V := r.V)
    ensures var x := X(m.opcode);
            && (x != VF ==> r.V[VF] <= 1 && r.V[x] as int * 2 + r.V[VF] == m.V[x])
            && (x == VF ==> r.V[VF] == 0)
            && forall j :: 0 <= j < RegisterCount && j != x && j != VF ==> r.V[j] == m.V[j]
  {
    var x := X(m.opcode);
    var flagged := m.V[VF := m.V[x] % 2];
    m.(V := flagged[x := flagged[x] / 2])
  }

  /**
   * 8xy7 SUBN Vx, Vy: Vx = Vy - Vx modulo 256; VF = 1 exactly when Vy > Vx
   * before the instruction.
   */
  function Op8xy7(m: Machine): (r: Machine)
    requires WellFormed(m)
    ensures WellFormed(r) && r == m.(V := r.V)
    ensures var x, y := X(m.opcode), Y(m.opcode);
            && (r.V[x] as int + m.V[x]) % 0x100 == m.V[y]
            && r.V[x] == (m.V[y] as int - m.V[x]) % 0x100
            && (x != VF ==> r.V[VF] <= 1 && (r.V[VF] == 1 <==> m.V[y] > m.V[x]))
            && forall j :: 0 <= j < RegisterCount && j != x && j != VF ==> r.V[j] == m.V[j]
  {
    var x, y := X(m.opcode), Y(m.opcode);
    var diff := ToWord(m.V[y] as int - m.V[x]);
    var flagged := m.V[VF := if m.V[x] < m.V[y] then 1 else 0];
    m.(V := flagged[x := diff % 0x100])
  }

  /**
   * 8xyE SHL Vx: VF = the bit shifted out (bit 7); Vx = 2 * Vx modulo 256.
   * The shift reads Vx after VF has been written.
   */
  function Op8xyE(m: Machine): (r: Machine)
    requires WellFormed(m)
    ensures WellFormed(r) && r == m.(V := r.V)
    ensures var x := X(m.opcode);
            && (x != VF ==> r.V[VF] <= 1 && r.V[VF] as int * 0x100 + r.V[x] == m.V[x] as int * 2)
            && (x == VF ==> r.V[VF] == m.V[x] / 0x80 * 2)
            && forall j :: 0 <= j < RegisterCount && j != x && j != VF ==> r.V[j] == m.V[j]
  {
    var x := X(m.opcode);
    var flagged := m.V[VF := m.V[x] / 0x80];
    m.(V := flagged[x := flagged[x] as int * 2 % 0x100])
  }

  /** 9xy0 SNE Vx, Vy (the low nibble is not examined). */
  function Op9xy0(m: Machine): (r: Machine)
    requires WellFormed(m)
    ensures WellFormed(r) && r == m.(PC := r.PC)
    ensures r.PC == if m.V[X(m.opcode)] != m.V[Y(m.opcode)] then SkipNext(m.PC) else m.PC
  {
    if m.V[X(m.opcode)] != m.V[Y(m.opcode)] then m.(PC := SkipNext(m.PC)) else m
  }

  /** Annn LD I, addr: all twelve address bits. */
  function OpAnnn(m: Machine): (r: Machine)
    requires WellFormed(m)
    ensures WellFormed(r) && r == m.(I := Nnn(m.opcode))
  {
    m.(I := Nnn(m.opcode))
  }

  /** Bnnn JP V0, addr. */
  function OpBnnn(m: Machine): (r: Machine)
    requires WellFormed(m)
    ensures WellFormed(r) && r == m.(PC := m.V[0] + Nnn(m.opcode))
  {
    m.(PC := m.V[0] + Nnn(m.opcode))
  }

  /** Cxkk RND Vx, byte: Vx = rnd AND kk, so Vx never exceeds kk. */
  function OpCxkk(m: Machine, rnd: byte): (r: Machine)
    requires WellFormed(m)
    ensures WellFormed(r) && r == m.(V := m.V[X(m.opcode) := BitAnd(rnd, Kk(m.opcode))])
    ensures r.V[X(m.opcode)] <= Kk(m.opcode)
  {
    m.(V := m.V[X(m.opcode) := BitAnd(rnd, Kk(m.opcode))])
  }

  /** The n sprite rows at address i (none when n is 0). */
  function SpriteAt(mem: seq<byte>, i: nat, n: nat): (s: seq<byte>)
    requires n == 0 || i + n <= |mem|
    ensures |s| == n && forall r :: 0 <= r < n ==> s[r] == mem[i + r]
  {
    if n == 0 then [] else mem[i .. i + n]
  }

  /** Whether Dxyn would read beyond memory. */
  predicate SpriteOutOfRange(m: Machine)
  {
    N(m.opcode) > 0 && m.I + N(m.opcode) > MemorySize
  }

  /**
   * Dxyn DRW Vx, Vy, n: XOR the n-row sprite at I onto the display at
   * (Vx mod 64, Vy mod 32), VF = collision.  A sprite whose rows would be read
   * beyond memory faults and changes nothing.
   */
  function OpDxyn(m: Machine): (r: Outcome)
    requires WellFormed(m)
    ensures WellFormed(r.m)
    ensures r.status == (if SpriteOutOfRange(m) then AddressOutOfRange else Ok)
    ensures r.status != Ok ==> r.m == m
    ensures r.status == Ok ==> r.m == m.(video := r.m.video, V := m.V[VF := r.m.V[VF]]) && r.m.V[VF] <= 1
  {
    if SpriteOutOfRange(m) then Outcome(AddressOutOfRange, m)
    else
      var n := N(m.opcode);
      var sprite := SpriteAt(m.memory, m.I, n);
      var xPos, yPos := m.V[X(m.opcode)] % VideoWidth, m.V[Y(m.opcode)] % VideoHeight;
      var collided := CollisionSteps(m.video, sprite, xPos, yPos, SpriteWidth * n);
      Outcome(Ok, m.(video := DrawSteps(m.video, sprite, xPos, yPos, SpriteWidth * n),
                     V := m.V[VF := if collided then 1 else 0]))
  }

  /** The key a register names: its low nibble. */
  function KeyIndex(v: byte): (k: nat)
    ensures k < KeyCount
  {
    v % KeyCount
  }

  /** Ex9E SKP Vx. */
  function OpEx9E(m: Machine): (r: Machine)
    requires WellFormed(m)
    ensures WellFormed(r) && r == m.(PC := r.PC)
    ensures r.PC == if m.keypad[KeyIndex(m.V[X(m.opcode)])] then SkipNext(m.PC) else m.PC
  {
    if m.keypad[KeyIndex(m.V[X(m.opcode)])] then m.(PC := SkipNext(m.PC)) else m
  }

  /** ExA1 SKNP Vx. */
  function OpExA1(m: Machine): (r: Machine)
    requires WellFormed(m)
    ensures WellFormed(r) && r == m.(PC := r.PC)
    ensures r.PC == if !m.keypad[KeyIndex(m.V[X(m.opcode)])] then SkipNext(m.PC) else m.PC
  {
    if !m.keypad[KeyIndex(m.V[X(m.opcode)])] then m.(PC := SkipNext(m.PC)) else m
  }

  /** Fx07 LD Vx, DT. */
  function OpFx07(m: Machine): (r: Machine)
    requires WellFormed(m)
    ensures WellFormed(r) && r == m.(V := m.V[X(m.opcode) := m.delayTimer])
  {
    m.(V := m.V[X(m.opcode) := m.delayTimer])
  }

  /**
   * The lowest pressed key at index from or above, or KeyCount when none is
   * pressed.
   */
  function FirstPressed(keypad: seq<bool>, from: nat): (k: nat)
    requires from <= |keypad|
    ensures from <= k <= |keypad|
    ensures k < |keypad| ==> keypad[k]
    ensures forall j :: from <= j < k ==> !keypad[j]
    decreases |keypad| - from
  {
    if from == |keypad| then from
    else if keypad[from] then from
    else FirstPressed(keypad, from + 1)
  }

  /**
   * Fx0A LD Vx, K: Vx = the lowest pressed key; with no key pressed PC is
   * rewound by 2 so that the same instruction is fetched again.
   */
  function OpFx0A(m: Machine): (r: Machine)
    requires WellFormed(m)
    ensures WellFormed(r)
    ensures var k := FirstPressed(m.keypad, 0);
            if k < KeyCount then r == m.(V := m.V[X(m.opcode) := k])
            else r == m.(PC := ToWord(m.PC - 2))
  {
    var k := FirstPressed(m.keypad, 0);
    if k < KeyCount then m.(V := m.V[X(m.opcode) := k]) else m.(PC := ToWord(m.PC - 2))
  }

  /** Fx15 LD DT, Vx. */
  function OpFx15(m: Machine): (r: Machine)
    requires WellFormed(m)
    ensures WellFormed(r) && r == m.(delayTimer := m.V[X(m.opcode)])
  {
    m.(delayTimer := m.V[X(m.opcode)])
  }

  /** Fx18 LD ST, Vx. */
  function OpFx18(m: Machine): (r: Machine)
    requires WellFormed(m)
    ensures WellFormed(r) && r == m.(soundTimer := m.V[X(m.opcode)])
  {
    m.(soundTimer := m.V[X(m.opcode)])
  }

  /** Fx1E ADD I, Vx: 16-bit wrap-around, VF untouched. */
  function OpFx1E(m: Machine): (r: Machine)
    requires WellFormed(m)
    ensures WellFormed(r) && r == m.(I := r.I)
    ensures r.I == (m.I + m.V[X(m.opcode)]) % 0x1_0000
  {
    m.(I := ToWord(m.I + m.V[X(m.opcode)]))
  }

  /** Fx29 LD F, Vx: I = address of the glyph for digit Vx. */
  function OpFx29(m: Machine): (r: Machine)
    requires WellFormed(m)
    ensures WellFormed(r) && r == m.(I := r.I)
    ensures r.I == FontsetStartAddress + GlyphHeight * m.V[X(m.opcode)]
  {
    m.(I := FontSize + GlyphHeight * m.V[X(m.opcode)])
  }

  /** The hundreds, tens and ones digits of v. */
  function Bcd(v: byte): (d: seq<byte>)
    ensures |d| == 3 && d[0] < 10 && d[1] < 10 && d[2] < 10
    ensures d[0] as int * 100 + d[1] as int * 10 + d[2] == v
  {
    [v / 100, v / 10 % 10, v % 10]
  }

  /**
   * Fx33 LD B, Vx: the decimal digits of Vx at I, I+1, I+2, written ones
   * first, as the interpreter does; a store beyond memory faults.
   */
  function OpFx33(m: Machine): (r: Outcome)
    requires WellFormed(m)
    ensures WellFormed(r.m)
    ensures r.status == (if m.I + 2 < MemorySize then Ok else AddressOutOfRange)
    ensures r.status != Ok ==> r.m == m
    ensures r.status == Ok ==> r.m == m.(memory := r.m.memory)
    ensures r.status == Ok ==> r.m.memory[m.I .. m.I + 3] == Bcd(m.V[X(m.opcode)])
    ensures r.status == Ok ==> forall a :: 0 <= a < MemorySize && !(m.I <= a < m.I + 3) ==> r.m.memory[a] == m.memory[a]
  {
    if m.I + 2 >= MemorySize then Outcome(AddressOutOfRange, m)
    else
      var value := m.V[X(m.opcode)];
      var ones := m.memory[m.I + 2 := value % 10];
      var value' := value / 10;
      var tens := ones[m.I + 1 := value' % 10];
      var value'' := value' / 10;
      Outcome(Ok, m.(memory := tens[m.I := value'' % 10]))
  }

  /**
   * Fx55 LD [I], Vx: V0..Vx to memory[I..I+x]; I unchanged.  A store beyond
   * memory faults.
   */
  function OpFx55(m: Machine): (r: Outcome)
    requires WellFormed(m)
    ensures WellFormed(r.m)
    ensures r.status == (if m.I + X(m.opcode) < MemorySize then Ok else AddressOutOfRange)
    ensures r.status != Ok ==> r.m == m
    ensures r.status == Ok ==> r.m == m.(memory := r.m.memory)
    ensures r.status == Ok ==> forall j :: 0 <= j <= X(m.opcode) ==> r.m.memory[m.I + j] == m.V[j]
    ensures r.status == Ok ==> forall a :: 0 <= a < MemorySize && !(m.I <= a <= m.I + X(m.opcode)) ==> r.m.memory[a] == m.memory[a]
  {
    var x := X(m.opcode);
    if m.I + x >= MemorySize then Outcome(AddressOutOfRange, m)
    else Outcome(Ok, m.(memory := m.memory[..m.I] + m.V[..x + 1] + m.memory[m.I + x + 1..]))
  }

  /**
   * Fx65 LD Vx, [I]: memory[I..I+x] to V0..Vx; I unchanged.  A load beyond
   * memory faults.
   */
  function OpFx65(m: Machine): (r: Outcome)
    requires WellFormed(m)
    ensures WellFormed(r.m)
    ensures r.status == (if m.I + X(m.opcode) < MemorySize then Ok else AddressOutOfRange)
    ensures r.status != Ok ==> r.m == m
    ensures r.status == Ok ==> r.m == m.(V := r.m.V)
    ensures r.status == Ok ==> forall j :: 0 <= j <= X(m.opcode) ==> r.m.V[j] == m.memory[m.I + j]
    ensures r.status == Ok ==> forall j :: X(m.opcode) < j < RegisterCount ==> r.m.V[j] == m.V[j]
  {
    var x := X(m.opcode);
    if m.I + x >= MemorySize then Outcome(AddressOutOfRange, m)
    else Outcome(Ok, m.(V := m.memory[m.I .. m.I + x + 1] + m.V[x + 1..]))
  }

  /** An unassigned slot: nothing changes. */
  function OpNull(m: Machine): (r: Machine)
    requires WellFormed(m)
    ensures r == m
  {
    m
  }
}
