/**
 * Properties that relate several operations of the interpreter: the
 * dispatch against the nibble patterns its tables test, the cycle's timer
 * cadence, call/return discipline,
 * the await-key re-fetch, the draw instruction at machine level, the font
 * reached by Fx29, and a small program run to completion.
 */
module Properties {
  import opened Layout
  import opened Display
  import opened Semantics

  // ---------------------------------------------------------------------------
  // Dispatch

  /**
   * The pattern each handler is selected by, in terms of the nibbles the
   * dispatch tables test: the high nibble, then the low nibble (groups 0, 8
   * and E) or the low byte (group F).  The middle nibbles are never looked at.
   */
  predicate Matches(op: word, h: Handler)
  {
    var g, n, kk := Group(op), N(op), Kk(op);
    match h
    case Cls => g == 0x0 && n == 0x0
    case Ret => g == 0x0 && n == 0xE
    case Jp => g == 0x1
    case Call => g == 0x2
    case SeByte => g == 0x3
    case SneByte => g == 0x4
    case SeReg => g == 0x5
    case LdByte => g == 0x6
    case AddByte => g == 0x7
    case LdReg => g == 0x8 && n == 0x0
    case OrReg => g == 0x8 && n == 0x1
    case AndReg => g == 0x8 && n == 0x2
    case XorReg => g == 0x8 && n == 0x3
    case AddReg => g == 0x8 && n == 0x4
    case SubReg => g == 0x8 && n == 0x5
    case Shr => g == 0x8 && n == 0x6
    case Subn => g == 0x8 && n == 0x7
    case Shl => g == 0x8 && n == 0xE
    case SneReg => g == 0x9
    case LdI => g == 0xA
    case JpV0 => g == 0xB
    case Rnd => g == 0xC
    case Drw => g == 0xD
    case Skp => g == 0xE && n == 0xE
    case Sknp => g == 0xE && n == 0x1
    case LdVxDt => g == 0xF && kk == 0x07
    case LdVxK => g == 0xF && kk == 0x0A
    case LdDtVx => g == 0xF && kk == 0x15
    case LdStVx => g == 0xF && kk == 0x18
    case AddI => g == 0xF && kk == 0x1E
    case LdF => g == 0xF && kk == 0x29
    case LdB => g == 0xF && kk == 0x33
    case StoreRegs => g == 0xF && kk == 0x55
    case LoadRegs => g == 0xF && kk == 0x65
    case Null => false
  }

  /** The two-level dispatch selects a handler exactly when the word fits its pattern. */
  lemma DecodeByPattern(op: word, h: Handler)
    requires h != Null
    ensures Decode(op) == h <==> Matches(op, h)
  {
    var g := Group(op);
    if g == 0x0 {
      DecodeGroup0(op, h);
    } else if g == 0x8 {
      DecodeGroup8(op, h);
    } else if g == 0xE {
      DecodeGroupE(op, h);
    } else if g == 0xF {
      DecodeGroupF(op, h);
    } else {
      assert Decode(op) == MainTable[g].h;
    }
  }

  /** DecodeByPattern, group by group. */
  lemma DecodeGroup0(op: word, h: Handler)
    requires h != Null && Group(op) == 0x0
    ensures Decode(op) == h <==> Matches(op, h)
  {
    assert Decode(op) == if N(op) < Table0Size then Group0Table[N(op)] else Null;
  }

  lemma DecodeGroup8(op: word, h: Handler)
    requires h != Null && Group(op) == 0x8
    ensures Decode(op) == h <==> Matches(op, h)
  {
    assert Decode(op) == if N(op) < Table8Size then Group8Table[N(op)] else Null;
  }

  lemma DecodeGroupE(op: word, h: Handler)
    requires h != Null && Group(op) == 0xE
    ensures Decode(op) == h <==> Matches(op, h)
  {
    assert Decode(op) == if N(op) < TableESize then GroupETable[N(op)] else Null;
  }

  lemma DecodeGroupF(op: word, h: Handler)
    requires h != Null && Group(op) == 0xF
    ensures Decode(op) == h <==> Matches(op, h)
  {
    assert Decode(op) == if Kk(op) < TableFSize then SlotF(Kk(op)) else Null;
  }

  /** A word that fits no pattern, and only such a word, selects the no-op. */
  lemma DecodeNull(op: word)
    ensures Decode(op) == Null <==> forall h :: !Matches(op, h)
  {
    if Decode(op) != Null {
      DecodeByPattern(op, Decode(op));
    }
    forall h | h != Null
      ensures Matches(op, h) ==> Decode(op) == h
    {
      DecodeByPattern(op, h);
    }
  }

  /**
   * The indices beyond the secondary tables (a low nibble of F in groups 0, 8
   * and E, a low byte above 0x65 in group F) select the no-op.
   */
  lemma BeyondTablesIsNull(op: word)
    ensures (Group(op) == 0x0 || Group(op) == 0x8 || Group(op) == 0xE) && N(op) == 0xF ==> Decode(op) == Null
    ensures Group(op) == 0xF && Kk(op) > 0x65 ==> Decode(op) == Null
  {
  }

  /**
   * The tables test fewer nibbles than the instruction names suggest: every
   * word 0xy0 clears the screen, every 0xyE returns, every Exy1 and ExyE
   * tests a key and every 5xyn compares registers, whatever x, y and n are.
   * No word of group 0 is ignored as a machine-code call.
   */
  lemma LooseDecoding(op: word)
    ensures Group(op) == 0x0 && N(op) == 0x0 ==> Decode(op) == Cls
    ensures Group(op) == 0x0 && N(op) == 0xE ==> Decode(op) == Ret
    ensures Group(op) == 0xE && N(op) == 0x1 ==> Decode(op) == Sknp
    ensures Group(op) == 0xE && N(op) == 0xE ==> Decode(op) == Skp
    ensures Group(op) == 0x5 ==> Decode(op) == SeReg
    ensures Decode(0x0120) == Cls && Decode(0x012E) == Ret && Decode(0xE12E) == Skp
    ensures Decode(0xE101) == Sknp && Decode(0x5121) == SeReg
  {
  }

  // ---------------------------------------------------------------------------
  // The cycle

  /** The machine a successful cycle leaves when the handler has produced e. */
  function Ticked(e: Machine): (r: Machine)
    ensures r == e.(delayTimer := r.delayTimer, soundTimer := r.soundTimer)
    ensures r.delayTimer == (if e.delayTimer > 0 then e.delayTimer - 1 else 0)
    ensures r.soundTimer == (if e.soundTimer > 0 then e.soundTimer - 1 else 0)
  {
    e.(delayTimer := Tick(e.delayTimer), soundTimer := Tick(e.soundTimer))
  }

  /** The handler that the word at PC selects. */
  function NextHandler(m: Machine): Handler
    requires WellFormed(m) && m.PC + 1 < MemorySize
  {
    Decode(Fetch(m.memory, m.PC))
  }

  /** Only Fx15 and Fx18 write a timer; every other handler leaves both where they were. */
  lemma ExecuteKeepsTimers(m: Machine, h: Handler, rnd: byte)
    requires WellFormed(m) && h != LdDtVx && h != LdStVx
    ensures Execute(m, h, rnd).m.delayTimer == m.delayTimer
    ensures Execute(m, h, rnd).m.soundTimer == m.soundTimer
  {
  }

  /**
   * A successful cycle of any instruction other than Fx15 and Fx18 lowers
   * each set timer by exactly one and leaves a zero timer at zero.
   */
  lemma CycleTicksTimers(m: Machine, rnd: byte)
    requires WellFormed(m) && m.PC + 1 < MemorySize
    requires NextHandler(m) != LdDtVx && NextHandler(m) != LdStVx
    ensures var r := Cycle(m, rnd);
            r.status == Ok ==> r.m.delayTimer == Tick(m.delayTimer) && r.m.soundTimer == Tick(m.soundTimer)
  {
    ExecuteKeepsTimers(Fetched(m), NextHandler(m), rnd);
  }

  /** Fx15 sets the delay timer, and the same cycle already ticks it once. */
  lemma CycleSetsDelayTimer(m: Machine, rnd: byte)
    requires WellFormed(m) && m.PC + 1 < MemorySize && NextHandler(m) == LdDtVx
    ensures var r, op := Cycle(m, rnd), Fetch(m.memory, m.PC);
            r.status == Ok && r.m.delayTimer == Tick(m.V[X(op)]) && r.m.soundTimer == Tick(m.soundTimer)
  {
  }

  /** Fx18 sets the sound timer, and the same cycle already ticks it once; the delay timer ticks as usual. */
  lemma CycleSetsSoundTimer(m: Machine, rnd: byte)
    requires WellFormed(m) && m.PC + 1 < MemorySize && NextHandler(m) == LdStVx
    ensures var r, op := Cycle(m, rnd), Fetch(m.memory, m.PC);
            r.status == Ok && r.m.soundTimer == Tick(m.V[X(op)]) && r.m.delayTimer == Tick(m.delayTimer)
  {
  }

  /**
   * An instruction that selects the no-op changes nothing beyond the fetch
   * (instruction word recorded, PC advanced by 2) and the timer tick.
   */
  lemma NullCycle(m: Machine, rnd: byte)
    requires WellFormed(m) && m.PC + 1 < MemorySize && NextHandler(m) == Null
    ensures Cycle(m, rnd) == Outcome(Ok, Ticked(m.(opcode := Fetch(m.memory, m.PC), PC := m.PC + 2)))
  {
  }

  // ---------------------------------------------------------------------------
  // Call and return

  /** A call followed by a return restores PC and SP; only the stack slot written and the word differ. */
  lemma CallThenReturn(m: Machine, w: word)
    requires WellFormed(m) && m.SP < StackLevels
    ensures var c := Op2nnn(m);
            && c.status == Ok
            && Op00EE(c.m.(opcode := w)) == Outcome(Ok, m.(stack := c.m.stack, opcode := w))
  {
  }

  /**
   * Two cycles over a CALL whose target holds a RET: execution resumes at the
   * instruction after the call, with the stack depth it had before.
   */
  lemma CallReturnCycles(m: Machine, rnd: byte)
    requires WellFormed(m) && m.PC + 1 < MemorySize && NextHandler(m) == Call && m.SP < StackLevels
    requires var a := Nnn(Fetch(m.memory, m.PC)); a + 1 < MemorySize && Fetch(m.memory, a) == 0x00EE
    ensures var r1 := Cycle(m, rnd);
            var r2 := Cycle(r1.m, rnd);
            && r1.status == Ok && r2.status == Ok
            && r2.m.PC == m.PC + 2 && r2.m.SP == m.SP
            && r2.m.V == m.V && r2.m.I == m.I && r2.m.memory == m.memory && r2.m.video == m.video
  {
    var a := Nnn(Fetch(m.memory, m.PC));
    var r1 := Cycle(m, rnd);
    assert r1.m.PC == a && r1.m.memory == m.memory;
    assert Decode(0x00EE) == Ret;
  }

  /** k calls in a row, each a CALL with the same instruction word; stops at the first fault. */
  function Calls(m: Machine, k: nat): (r: Outcome)
    requires WellFormed(m)
    ensures WellFormed(r.m)
  {
    if k == 0 then Outcome(Ok, m)
    else
      var prev := Calls(m, k - 1);
      if prev.status != Ok then prev else Op2nnn(prev.m)
  }

  /** From an empty stack, k <= 16 nested calls all succeed and leave k return addresses. */
  lemma {:induction false} NestedCalls(m: Machine, k: nat)
    requires WellFormed(m) && m.SP == 0 && k <= StackLevels
    ensures Calls(m, k).status == Ok && Calls(m, k).m.SP == k
  {
    if k > 0 {
      NestedCalls(m, k - 1);
    }
  }

  /** The seventeenth nested call faults and leaves the state of the sixteenth untouched. */
  lemma SeventeenthCallFails(m: Machine)
    requires WellFormed(m) && m.SP == 0
    ensures Calls(m, StackLevels + 1) == Outcome(StackOverflow, Calls(m, StackLevels).m)
  {
    NestedCalls(m, StackLevels);
  }

  // ---------------------------------------------------------------------------
  // Await key

  /**
   * Fx0A with no key pressed: the cycle ends with PC back on the same
   * instruction and nothing else changed but the word and the timers.
   */
  lemma AwaitKeyWaits(m: Machine, rnd: byte)
    requires WellFormed(m) && m.PC + 1 < MemorySize && NextHandler(m) == LdVxK
    requires forall k :: 0 <= k < KeyCount ==> !m.keypad[k]
    ensures Cycle(m, rnd) == Outcome(Ok, Ticked(m.(opcode := Fetch(m.memory, m.PC))))
  {
    assert FirstPressed(m.keypad, 0) == KeyCount;
    var f := Fetched(m);
    AwaitNoKeyStep(f, rnd);
    assert f.(PC := f.PC - 2) == m.(opcode := f.opcode);
  }

  /** Fx0A's handler with no key pressed steps PC back onto the instruction. */
  lemma AwaitNoKeyStep(f: Machine, rnd: byte)
    requires WellFormed(f) && f.PC >= 2 && FirstPressed(f.keypad, 0) == KeyCount
    ensures Execute(f, LdVxK, rnd) == Outcome(Ok, f.(PC := f.PC - 2))
  {
  }

  /** Fx0A with keys pressed: Vx = the lowest pressed key, and execution moves on. */
  lemma AwaitKeyTakesLowest(m: Machine, rnd: byte, key: nat)
    requires WellFormed(m) && m.PC + 1 < MemorySize && NextHandler(m) == LdVxK
    requires key < KeyCount && m.keypad[key] && forall k :: 0 <= k < key ==> !m.keypad[k]
    ensures var op := Fetch(m.memory, m.PC);
            Cycle(m, rnd) == Outcome(Ok, Ticked(m.(opcode := op, PC := m.PC + 2, V := m.V[X(op) := key])))
  {
    FirstPressedIsLowest(m.keypad, 0, key);
  }

  lemma {:induction false} FirstPressedIsLowest(keypad: seq<bool>, from: nat, key: nat)
    requires from <= key < |keypad| && keypad[key] && forall k :: from <= k < key ==> !keypad[k]
    ensures FirstPressed(keypad, from) == key
    decreases key - from
  {
    if from < key {
      FirstPressedIsLowest(keypad, from + 1, key);
    }
  }

  // ---------------------------------------------------------------------------
  // Skips and register arithmetic

  /** Each conditional skip has a complement that skips exactly when it does not. */
  lemma SkipPairsComplement(m: Machine)
    requires WellFormed(m)
    ensures Op3xkk(m).PC != m.PC <==> Op4xkk(m).PC == m.PC
    ensures Op5xy0(m).PC != m.PC <==> Op9xy0(m).PC == m.PC
    ensures OpEx9E(m).PC != m.PC <==> OpExA1(m).PC == m.PC
  {
    assert SkipNext(m.PC) != m.PC;
  }

  /** XOR with the same w-bit number twice gives back a w-bit number. */
  lemma {:induction false} XorTwice(a: nat, b: nat, w: nat)
    requires a < Pow2(w)
    ensures Bits(Xor, Bits(Xor, a, b, w), b, w) == a
  {
    if w > 0 {
      XorTwice(a / 2, b / 2, w - 1);
    }
  }

  /** 8xy3 applied twice with x != y gives back the machine it started from. */
  lemma XorTwiceRestores(m: Machine)
    requires WellFormed(m) && X(m.opcode) != Y(m.opcode)
    ensures Op8xy3(Op8xy3(m)) == m
  {
    var x, y := X(m.opcode), Y(m.opcode);
    assert Pow2(8) == 0x100;
    XorTwice(m.V[x], m.V[y], 8);
    assert Op8xy3(Op8xy3(m)).V == m.V;
  }

  /** 8xy5 undoes 8xy4 on Vx when x and y are distinct registers other than VF. */
  lemma SubUndoesAdd(m: Machine)
    requires WellFormed(m) && X(m.opcode) != Y(m.opcode) && X(m.opcode) != VF && Y(m.opcode) != VF
    ensures Op8xy5(Op8xy4(m)).V[X(m.opcode)] == m.V[X(m.opcode)]
  {
  }

  /** An operation on a w-bit number and itself: OR and AND give it back, XOR gives 0. */
  lemma {:induction false} BitsSelf(f: Logic, a: nat, w: nat)
    requires a < Pow2(w)
    ensures Bits(f, a, a, w) == if f == Xor then 0 else a
  {
    if w > 0 {
      BitsSelf(f, a / 2, w - 1);
    }
  }

  /** 8xy1 and 8xy2 with x = y change nothing; 8xy3 with x = y clears Vx. */
  lemma SameRegisterLogic(m: Machine)
    requires WellFormed(m) && X(m.opcode) == Y(m.opcode)
    ensures Op8xy1(m) == m && Op8xy2(m) == m
    ensures Op8xy3(m).V[X(m.opcode)] == 0
  {
    var x := X(m.opcode);
    assert Pow2(8) == 0x100;
    BitsSelf(Or, m.V[x], 8);
    BitsSelf(And, m.V[x], 8);
    BitsSelf(Xor, m.V[x], 8);
    assert Op8xy1(m).V == m.V && Op8xy2(m).V == m.V;
  }

  /** AND with all w bits set keeps any w-bit number. */
  lemma {:induction false} AndFullMask(a: nat, w: nat)
    requires a < Pow2(w)
    ensures Bits(And, a, Pow2(w) - 1, w) == a
  {
    if w > 0 {
      assert (Pow2(w) - 1) / 2 == Pow2(w - 1) - 1 && (Pow2(w) - 1) % 2 == 1;
      AndFullMask(a / 2, w - 1);
    }
  }

  /** Cxkk with the full mask FF loads the random byte itself. */
  lemma RandomFullMask(m: Machine, rnd: byte)
    requires WellFormed(m) && Kk(m.opcode) == 0xFF
    ensures OpCxkk(m, rnd).V[X(m.opcode)] == rnd
  {
    assert Pow2(8) == 0x100;
    AndFullMask(rnd, 8);
  }

  /** No bitwise operation depends on the order of its operands. */
  lemma {:induction false} BitsCommute(f: Logic, a: nat, b: nat, w: nat)
    ensures Bits(f, a, b, w) == Bits(f, b, a, w)
  {
    if w > 0 {
      BitsCommute(f, a / 2, b / 2, w - 1);
    }
  }

  /** Fx55 followed by Fx65 on the same register range gives back every register. */
  lemma StoreThenLoad(m: Machine, op: word)
    requires WellFormed(m) && OpFx55(m).status == Ok && X(op) == X(m.opcode)
    ensures var s := OpFx55(m).m.(opcode := op);
            OpFx65(s).status == Ok && OpFx65(s).m == s.(V := m.V)
  {
    var s := OpFx55(m).m.(opcode := op);
    assert OpFx65(s).m.V == m.V;
  }

  /** Fx65 followed by Fx55 on the same register range leaves memory as it was. */
  lemma LoadThenStore(m: Machine, op: word)
    requires WellFormed(m) && OpFx65(m).status == Ok && X(op) == X(m.opcode)
    ensures var l := OpFx65(m).m.(opcode := op);
            OpFx55(l).status == Ok && OpFx55(l).m.memory == m.memory
  {
    var l := OpFx55(OpFx65(m).m.(opcode := op));
    assert l.m.memory == m.memory;
  }

  // ---------------------------------------------------------------------------
  // Reset and loading

  /** A second reset changes nothing. */
  lemma ResetIdempotent(m: Machine)
    requires WellFormed(m)
    ensures Reset(Reset(m)) == Reset(m)
  {
  }

  /** After a program image of two or more bytes is loaded, the first fetch reads its first two bytes. */
  lemma LoadedProgramFirstFetch(m: Machine, rom: seq<byte>)
    requires WellFormed(m) && 2 <= |rom| <= MaxRomSize
    ensures var l := LoadRom(m, rom);
            l.status == Ok && Fetch(l.m.memory, StartAddress) == rom[0] as int * 0x100 + rom[1]
  {
    var l := LoadRom(m, rom);
    assert l.m.memory[StartAddress] == rom[0] && l.m.memory[StartAddress + 1] == rom[1];
  }

  // ---------------------------------------------------------------------------
  // Draw

  /** The sprite Dxyn reads: n rows at I. */
  function SpriteOf(m: Machine): (s: seq<byte>)
    requires WellFormed(m) && !SpriteOutOfRange(m)
    ensures |s| == N(m.opcode) && forall r :: 0 <= r < |s| ==> s[r] == m.memory[m.I + r]
  {
    SpriteAt(m.memory, m.I, N(m.opcode))
  }

  /**
   * Dxyn at machine level: a pixel flips exactly when a lit sprite cell lands
   * on it, and VF = 1 exactly when some lit cell lands on a pixel that was on.
   */
  lemma DrawMeaning(m: Machine)
    requires WellFormed(m) && !SpriteOutOfRange(m)
    ensures var r, s := OpDxyn(m), SpriteOf(m);
            var xPos, yPos := m.V[X(m.opcode)] % VideoWidth, m.V[Y(m.opcode)] % VideoHeight;
            && r.status == Ok
            && (forall p :: 0 <= p < PixelCount ==> r.m.video[p] == (m.video[p] != Lit(s, xPos, yPos, p, SpriteWidth * |s|)))
            && (r.m.V[VF] == 1 <==> exists p :: 0 <= p < PixelCount && m.video[p] && Lit(s, xPos, yPos, p, SpriteWidth * |s|))
  {
    var s := SpriteOf(m);
    var xPos, yPos := m.V[X(m.opcode)] % VideoWidth, m.V[Y(m.opcode)] % VideoHeight;
    DrawStepsClosedForm(m.video, s, xPos, yPos, SpriteWidth * |s|);
    CollisionMeaning(m.video, s, xPos, yPos, SpriteWidth * |s|);
  }

  /**
   * Drawing the same sprite twice gives back the display, provided neither
   * coordinate register is VF (which the first draw overwrites).
   */
  lemma DrawTwiceRestores(m: Machine)
    requires WellFormed(m) && !SpriteOutOfRange(m) && X(m.opcode) != VF && Y(m.opcode) != VF
    ensures OpDxyn(m).status == Ok && OpDxyn(OpDxyn(m).m).status == Ok
    ensures OpDxyn(OpDxyn(m).m).m.video == m.video
  {
    var s := SpriteOf(m);
    var xPos, yPos := m.V[X(m.opcode)] % VideoWidth, m.V[Y(m.opcode)] % VideoHeight;
    Display.DrawTwiceRestores(m.video, s, xPos, yPos);
  }

  // ---------------------------------------------------------------------------
  // Font

  /**
   * After a reset, Fx29 with Vx = d < 16 points I at the five rows of the
   * glyph for d.
   */
  lemma ResetFontGlyph(m: Machine, op: word, d: nat)
    requires WellFormed(m) && d < 16 && Group(op) == 0xF && Kk(op) == 0x29
    ensures var r := Reset(m);
            var f := OpFx29(r.(opcode := op, V := r.V[X(op) := d]));
            f.I + GlyphHeight <= MemorySize && f.memory[f.I .. f.I + GlyphHeight] == Glyph(d)
  {
    var mem := Reset(m).memory;
    assert mem[FontsetStartAddress .. FontsetStartAddress + FontsetSize] == FontData;
    var a := FontsetStartAddress + GlyphHeight * d;
    assert mem[a .. a + GlyphHeight] == FontData[GlyphHeight * d .. GlyphHeight * d + GlyphHeight];
  }

  // ---------------------------------------------------------------------------
  // A small program

  /**
   * The program 6005 7003 (V0 = 5; V0 += 3) loaded into a fresh interpreter:
   * after two cycles V0 = 8 and PC has moved 4 past the program base.
   */
  lemma LoadAndAddProgram()
    ensures var m0 := LoadRom(Initial(), [0x60, 0x05, 0x70, 0x03]);
            var r1 := Cycle(m0.m, 0);
            var r2 := Cycle(r1.m, 0);
            && m0.status == Ok && r1.status == Ok && r2.status == Ok
            && r2.m.V[0] == 8 && r2.m.PC == StartAddress + 4
  {
    var m0 := LoadRom(Initial(), [0x60, 0x05, 0x70, 0x03]);
    assert m0.m.memory[StartAddress .. StartAddress + 4] == [0x60, 0x05, 0x70, 0x03];
    ProgramFirstCycle(m0.m);
    var r1 := Cycle(m0.m, 0);
    assert r1.m.memory[StartAddress + 2 .. StartAddress + 4] == [0x70, 0x03];
    ProgramSecondCycle(r1.m);
  }

  /** The first cycle of the program: 6005 loads 5 into V0. */
  lemma ProgramFirstCycle(m: Machine)
    requires WellFormed(m) && m.PC == StartAddress
    requires m.memory[StartAddress .. StartAddress + 2] == [0x60, 0x05]
    ensures var r := Cycle(m, 0);
            r.status == Ok && r.m.V[0] == 5 && r.m.memory == m.memory && r.m.PC == StartAddress + 2
  {
    assert Fetch(m.memory, StartAddress) == 0x6005;
    var f := Fetched(m);
    assert Decode(0x6005) == LdByte && X(0x6005) == 0 && Kk(0x6005) == 5;
    assert Execute(f, LdByte, 0) == Outcome(Ok, Op6xkk(f));
  }

  /** The second cycle of the program: 7003 adds 3 to V0 = 5. */
  lemma ProgramSecondCycle(m: Machine)
    requires WellFormed(m) && m.PC == StartAddress + 2 && m.V[0] == 5
    requires m.memory[StartAddress + 2 .. StartAddress + 4] == [0x70, 0x03]
    ensures var r := Cycle(m, 0);
            r.status == Ok && r.m.V[0] == 8 && r.m.PC == StartAddress + 4
  {
    assert Fetch(m.memory, StartAddress + 2) == 0x7003;
    var f := Fetched(m);
    assert Decode(0x7003) == AddByte && X(0x7003) == 0 && Kk(0x7003) == 3;
    assert Execute(f, AddByte, 0) == Outcome(Ok, Op7xkk(f));
  }
}
