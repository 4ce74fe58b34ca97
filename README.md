# CHIP-8 interpreter core, modelled and proved in Dafny

This project models the interpreter object `Chip8` from `src/Chip8.cpp` and
`include/Chip8.hpp` in jeffke110/Chip-8-Emulator. The object holds:

- 4 KiB of memory, sixteen 8-bit registers V0..VF, a sixteen-level return stack,
  the index register I, PC, SP, the last instruction word, and the delay and sound timers;
- a 16-key keypad and a 64x32 monochrome display;
- a dispatch table of member-function pointers (a top-level table and four
  secondary tables).

One cycle fetches the big-endian word at PC, advances PC by 2, dispatches on
the high nibble (refined by the low nibble or the low byte), runs the handler,
and then ticks both timers.

Modules:

- `Layout` (layout.dfy): the header's constants, the 80-byte font, the 35
  handlers and the contents of the five dispatch tables.
- `Semantics` (semantics.dfy): the machine as a value, with one pure state
  transformer per handler, plus `Decode`, `Execute`, `Cycle`, `Reset` and `LoadRom`.
  Handlers that can run out of bounds return an `Outcome` with a fault status. A
  faulting handler changes nothing.
- `Display` (display.dfy): the sprite-drawing loop as a function of how many
  cells it has visited, with its closed form, its collision flag and its
  involution property.
- `Engine` (engine.dfy): class `Chip8`, whose `array` fields are updated in place
  as in the source. Each method is proved to move the abstract state
  (`Abs()`) exactly as the matching `Semantics` function says. The loops
  (font copy, table fill, ROM copy, sprite draw, key scan, register
  store/load) carry their invariants.
- `Properties` (properties.dfy): lemmas that relate several operations:
  - the dispatch against the nibble patterns its tables test;
  - the timer cadence;
  - call/return;
  - the await-key busy-wait;
  - drawing at machine level;
  - the font reached by Fx29;
  - round trips of the register operations;
  - a two-instruction program.
- `Findings` (findings.dfy): the places where the code as written departs from
  what it evidently intends, each with an input that shows it.

The model follows the code where it departs from its own header or from the
usual behaviour of CHIP-8 interpreters:

- A reset does not clear the display, the keypad or the last instruction word
  (`src/Chip8.cpp:19-36`), where interpreters commonly clear the display as well.
- Nothing stops a cycle before a program has been loaded.
- The header declares `registers`, `index` and `setup_table`, while the
  implementation uses `V`, `I` and `setupTable`. The model uses the
  implementation's names.

Where the code is wrong (see "## Findings"), the model uses the corrected
behaviour, and `Findings` models the code as written.

Fault policy of the corrected model:

- A call with sixteen return addresses on the stack and a return with an
  empty stack fault.
- Fetches and memory accesses beyond address 0xFFF fault.
- A program image longer than 0x1000 - 0x200 bytes is refused before anything is copied.
- A word that selects an index beyond a secondary table selects the no-op.
- When a handler faults, the cycle keeps the fetch (instruction word and
  advanced PC) and does not tick the timers.

## Model

| member | source | states |
|---|---|---|
| Layout.Glyph | include/Chip8.hpp:61-78 | the glyph of digit d is the five font bytes 5d..5d+4 |
| Layout.FontShape | include/Chip8.hpp:22-25 | the font is 80 bytes, sixteen five-row glyphs in digit order; the font region 0x50..0x9F lies below the program base 0x200, and FONT_SIZE equals the font base |
| Layout.GlyphsFourWide | include/Chip8.hpp:61-78 | every font byte has its low nibble clear, so each glyph is at most four pixels wide |
| Layout.SlotF | src/Chip8.cpp:81-94 | a group-F low byte selects a handler exactly when it is one of 07, 0A, 15, 18, 1E, 29, 33, 55, 65; every other slot is the no-op |
| Layout.TableShape | src/Chip8.cpp:38-94 | the five tables have the header's sizes, the top level defers to a secondary table for groups 0, 8, E and F only, and each secondary table holds the no-op outside its assigned slots |
| Display.PixelIndex | src/Chip8.cpp:335-347 | the display pixel a sprite cell lands on is always inside the 2048-pixel buffer; its row and column are the wrapped coordinates (y + row) mod 32 and (x + col) mod 64 |
| Display.SpriteBitWeight | src/Chip8.cpp:346 | the mask test `spriteByte & (0x80 >> col)` of SpriteBit holds exactly when bit 7 - col of the byte is 1, that is, when the byte divided by 2^(7 - col) is odd |
| Display.PixelIndexInverse | src/Chip8.cpp:344-347 | for an origin on screen, sprite cell to pixel is one-to-one, and RowOf/ColOf recover the cell from the pixel |
| Display.DrawSteps | src/Chip8.cpp:340-361 | the display after any number of loop steps still has 2048 pixels |
| Display.DrawCell | src/Chip8.cpp:346-360 | one loop step toggles the cell's pixel exactly when the sprite bit is lit, and raises the collision flag exactly when that pixel was on |
| Display.CollisionSteps | src/Chip8.cpp:338 | the collision flag is clear before the first cell is visited |
| Display.CollisionSticky | src/Chip8.cpp:349-356 | once a cell has raised the collision flag, every later cell keeps it raised: the loop only ever sets VF to 1 |
| Display.DrawStepsClosedForm | src/Chip8.cpp:340-362 | after k steps a pixel is flipped exactly when a lit sprite cell among the first k lands on it; every other pixel keeps its value |
| Display.CollisionMeaning | src/Chip8.cpp:349-356 | the collision flag is set exactly when some lit sprite cell lands on a pixel that was on before the draw |
| Display.DrawTwiceRestores | src/Chip8.cpp:358-359 | drawing the same sprite at the same place twice gives back the display |
| Display.DrawTogglesLitCells | src/Chip8.cpp:346-359 | each lit cell of the sprite flips its own pixel, and each clear cell leaves its pixel alone |
| Semantics.Group | src/Chip8.cpp:126 | the top-level index, bits 15..12, always selects one of the 16 entries |
| Semantics.X | src/Chip8.cpp:177 | bits 11..8 name one of the 16 registers |
| Semantics.Y | src/Chip8.cpp:196 | bits 7..4 name one of the 16 registers |
| Semantics.N | src/Chip8.cpp:464 | the low nibble is below 16 |
| Semantics.Kk | src/Chip8.cpp:178 | the immediate byte is the y nibble times 16 plus the low nibble, the word's two low nibbles |
| Semantics.Tick | src/Chip8.cpp:128-138 | a set timer goes down by exactly one, and a timer stays put exactly when it is zero |
| Semantics.Nnn | src/Chip8.cpp:163 | the address field is below 0x1000 |
| Semantics.OperandFields | src/Chip8.cpp:175-178 | the four nibbles recompose the word; kk is y and n, and nnn is x and kk |
| Semantics.Bits | src/Chip8.cpp:223-242 | a bitwise operation on w bits yields a w-bit result, and AND never exceeds either operand |
| Semantics.BitAnd | src/Chip8.cpp:230-235 | the 8-bit AND never exceeds either operand |
| Semantics.Zeros | src/Chip8.cpp:22-23 | n bytes, every one zero |
| Semantics.WithFont | src/Chip8.cpp:31-34 | the font region holds the 80 font bytes, and every other address is as before |
| Semantics.WithFontPointwise | src/Chip8.cpp:31-34 | a memory that agrees byte by byte with the font in the font region and with the old memory elsewhere is WithFont of the old memory |
| Semantics.Reset | src/Chip8.cpp:19-36 | memory is zero outside the font region, which holds the font; registers, stack, index, SP and both timers are zero and PC is 0x200; display, keypad and instruction word are kept |
| Semantics.Initial | src/Chip8.cpp:8-18 | a fresh interpreter is well formed with PC at 0x200, an empty stack, a dark display and no key pressed |
| Semantics.LoadRom | src/Chip8.cpp:98-115 | an image that fits is copied to 0x200 with every other byte and field unchanged; a larger one is refused with RomTooLarge and changes nothing |
| Semantics.Fetch | src/Chip8.cpp:120 | the word's high byte is memory[PC] and its low byte memory[PC + 1] |
| Semantics.Fetched | src/Chip8.cpp:119-123 | the fetch records the word at PC, advances PC by 2, and changes nothing else |
| Semantics.Execute | src/Chip8.cpp:126 | every handler keeps the state well formed; only the four fault statuses can come out, and a fault changes nothing |
| Semantics.Decode | src/Chip8.cpp:462-480 | the no-op can only come out of the four secondary tables, groups 0, 8, E and F; every other high nibble runs its own handler |
| Semantics.Cycle | src/Chip8.cpp:117-139 | the fetch is refused exactly when PC + 1 is beyond memory, and then nothing changes; a handler fault keeps the fetched state |
| Semantics.Op00E0 | src/Chip8.cpp:150-153 | every pixel is off and nothing else changes |
| Semantics.Op00EE | src/Chip8.cpp:155-159 | with an empty stack: StackUnderflow and no change; otherwise SP drops by one and PC is the popped address |
| Semantics.Op1nnn | src/Chip8.cpp:161-165 | only PC changes, to nnn |
| Semantics.Op2nnn | src/Chip8.cpp:167-173 | with sixteen levels in use: StackOverflow and no change; otherwise PC is pushed, SP rises by one and PC becomes nnn |
| Semantics.SkipNext | src/Chip8.cpp:180 | a skip always moves PC, by exactly 2 unless that passes the 16-bit range |
| Semantics.Op3xkk | src/Chip8.cpp:175-182 | only PC changes; it skips exactly when Vx = kk |
| Semantics.Op4xkk | src/Chip8.cpp:184-191 | only PC changes; it skips exactly when Vx differs from kk |
| Semantics.Op5xy0 | src/Chip8.cpp:193-200 | only PC changes; it skips exactly when Vx = Vy |
| Semantics.Op6xkk | src/Chip8.cpp:202-207 | only Vx changes, to kk |
| Semantics.Op7xkk | src/Chip8.cpp:209-214 | Vx becomes Vx + kk modulo 256; every other register, VF included, is unchanged |
| Semantics.Op8xy0 | src/Chip8.cpp:216-221 | only Vx changes, to Vy |
| Semantics.Op8xy1 | src/Chip8.cpp:223-228 | only Vx changes, to Vx OR Vy |
| Semantics.Op8xy2 | src/Chip8.cpp:230-235 | only Vx changes, to Vx AND Vy |
| Semantics.Op8xy3 | src/Chip8.cpp:237-242 | only Vx changes, to Vx XOR Vy |
| Semantics.Op8xy4 | src/Chip8.cpp:244-255 | carry VF and new Vx together are the 9-bit sum Vx + Vy; VF = 1 exactly when the sum exceeds 255; other registers unchanged |
| Semantics.Op8xy5 | src/Chip8.cpp:257-268 | the new Vx plus Vy is the old Vx modulo 256; VF = 1 exactly when Vx > Vy; other registers unchanged |
| Semantics.Op8xy6 | src/Chip8.cpp:270-275 | twice the new Vx plus VF is the old Vx (VF the bit shifted out); for x = F the result is 0 |
| Semantics.Op8xy7 | src/Chip8.cpp:277-288 | the new Vx plus the old Vx is Vy modulo 256; VF = 1 exactly when Vy > Vx; other registers unchanged |
| Semantics.Op8xyE | src/Chip8.cpp:290-297 | 256 VF + new Vx is twice the old Vx (VF the bit shifted out); for x = F the flag is shifted once more |
| Semantics.Op9xy0 | src/Chip8.cpp:299-307 | only PC changes; it skips exactly when Vx differs from Vy |
| Semantics.OpAnnn | src/Chip8.cpp:309-313 | only I changes, to the twelve-bit address |
| Semantics.OpBnnn | src/Chip8.cpp:315-319 | only PC changes, to V0 + nnn |
| Semantics.OpCxkk | src/Chip8.cpp:321-326 | only Vx changes, to the random byte AND kk, which never exceeds kk |
| Semantics.SpriteAt | src/Chip8.cpp:340-342 | the sprite is the n bytes at I, row r at I + r |
| Semantics.OpDxyn | src/Chip8.cpp:328-363 | a sprite read beyond memory faults and changes nothing; otherwise only the display and VF change, and VF is 0 or 1 |
| Semantics.KeyIndex | src/Chip8.cpp:368 | the key a register names is one of the 16 keys |
| Semantics.OpEx9E | src/Chip8.cpp:365-373 | only PC changes; it skips exactly when the key in Vx is pressed |
| Semantics.OpExA1 | src/Chip8.cpp:375-383 | only PC changes; it skips exactly when the key in Vx is not pressed |
| Semantics.OpFx07 | src/Chip8.cpp:385-389 | only Vx changes, to the delay timer |
| Semantics.FirstPressed | src/Chip8.cpp:394-399 | the result is a pressed key with no pressed key below it (from the start index), or 16 when none is pressed |
| Semantics.OpFx0A | src/Chip8.cpp:391-401 | with a key pressed, Vx = the lowest pressed key; with none, PC goes back by 2 (modulo 2^16) and nothing else changes |
| Semantics.OpFx15 | src/Chip8.cpp:403-407 | only the delay timer changes, to Vx |
| Semantics.OpFx18 | src/Chip8.cpp:409-413 | only the sound timer changes, to Vx |
| Semantics.OpFx1E | src/Chip8.cpp:415-419 | only I changes, to I + Vx modulo 2^16 |
| Semantics.OpFx29 | src/Chip8.cpp:421-426 | only I changes, to the font base plus 5 Vx |
| Semantics.Bcd | src/Chip8.cpp:430-439 | three decimal digits whose weighted sum 100 d0 + 10 d1 + d2 is the value |
| Semantics.OpFx33 | src/Chip8.cpp:428-440 | a store beyond memory faults and changes nothing; otherwise memory[I..I+2] holds the decimal digits of Vx and nothing else changes |
| Semantics.OpFx55 | src/Chip8.cpp:442-448 | a store beyond memory faults; otherwise memory[I + j] = Vj for j <= x, every other byte and the rest of the state unchanged |
| Semantics.OpFx65 | src/Chip8.cpp:450-456 | a load beyond memory faults; otherwise Vj = memory[I + j] for j <= x, the higher registers and the rest of the state unchanged |
| Semantics.OpNull | src/Chip8.cpp:458-460 | the no-op changes nothing |
| Engine.Chip8.constructor | src/Chip8.cpp:8-18 | the new object's state is Initial() and its tables hold the listed contents |
| Engine.Chip8.LoadFont | src/Chip8.cpp:13-16 | memory becomes WithFont of the old memory |
| Engine.Chip8.CopyFont | src/Chip8.cpp:31-34 | the copy loop puts the font at 0x50.. and leaves every other byte |
| Engine.Chip8.SetupTable | src/Chip8.cpp:38-95 | afterwards all five tables hold the listed contents |
| Engine.Chip8.FillTable | src/Chip8.cpp:41-56 | the top-level table holds the sixteen entries |
| Engine.Chip8.FillTable0 | src/Chip8.cpp:58-66 | table0: CLS at 0, RET at E, the no-op elsewhere |
| Engine.Chip8.FillTable8 | src/Chip8.cpp:68-76 | table8: the nine register operations at 0..7 and E, the no-op elsewhere |
| Engine.Chip8.FillTableE | src/Chip8.cpp:78-79 | tableE: SKNP at 1, SKP at E, the no-op elsewhere |
| Engine.Chip8.FillTableF | src/Chip8.cpp:81-94 | tableF: the nine Fx handlers at their low bytes, the no-op elsewhere |
| Engine.Chip8.Reset | src/Chip8.cpp:19-36 | the abstract state becomes Semantics.Reset of the old one, with the tables refilled |
| Engine.Chip8.ClearState | src/Chip8.cpp:21-29 | memory, registers and stack all zero; I, SP and timers zero, PC 0x200; instruction word, keypad and display kept |
| Engine.Chip8.LoadRom | src/Chip8.cpp:98-115 | the status and new state are those of Semantics.LoadRom |
| Engine.Chip8.Dispatch | src/Chip8.cpp:462-480 | the table lookup returns Decode of the word |
| Engine.Chip8.Cycle | src/Chip8.cpp:117-139 | the status and new state are those of Semantics.Cycle |
| Engine.Chip8.FetchWord | src/Chip8.cpp:119-123 | the abstract state becomes Fetched of the old one |
| Engine.Chip8.TickTimers | src/Chip8.cpp:128-138 | each timer that is set goes down by one; nothing else changes |
| Engine.Chip8.Execute | src/Chip8.cpp:126 | the status and new state are those of Semantics.Execute for the handler |
| Engine.Chip8.Op00E0 | src/Chip8.cpp:150-153 | in-place update equal to Semantics.Op00E0 |
| Engine.Chip8.Op00EE | src/Chip8.cpp:155-159 | in-place update equal to Semantics.Op00EE, fault included |
| Engine.Chip8.Op1nnn | src/Chip8.cpp:161-165 | in-place update equal to Semantics.Op1nnn |
| Engine.Chip8.Op2nnn | src/Chip8.cpp:167-173 | in-place update equal to Semantics.Op2nnn, fault included |
| Engine.Chip8.Op3xkk | src/Chip8.cpp:175-182 | in-place update equal to Semantics.Op3xkk |
| Engine.Chip8.Op4xkk | src/Chip8.cpp:184-191 | in-place update equal to Semantics.Op4xkk |
| Engine.Chip8.Op5xy0 | src/Chip8.cpp:193-200 | in-place update equal to Semantics.Op5xy0 |
| Engine.Chip8.Op6xkk | src/Chip8.cpp:202-207 | in-place update equal to Semantics.Op6xkk |
| Engine.Chip8.Op7xkk | src/Chip8.cpp:209-214 | in-place update equal to Semantics.Op7xkk |
| Engine.Chip8.Op8xy0 | src/Chip8.cpp:216-221 | in-place update equal to Semantics.Op8xy0 |
| Engine.Chip8.Op8xy1 | src/Chip8.cpp:223-228 | in-place update equal to Semantics.Op8xy1 |
| Engine.Chip8.Op8xy2 | src/Chip8.cpp:230-235 | in-place update equal to Semantics.Op8xy2 |
| Engine.Chip8.Op8xy3 | src/Chip8.cpp:237-242 | in-place update equal to Semantics.Op8xy3 |
| Engine.Chip8.Op8xy4 | src/Chip8.cpp:244-255 | in-place update equal to Semantics.Op8xy4 (flag written before the sum) |
| Engine.Chip8.Op8xy5 | src/Chip8.cpp:257-268 | in-place update equal to Semantics.Op8xy5 |
| Engine.Chip8.Op8xy6 | src/Chip8.cpp:270-275 | in-place update equal to Semantics.Op8xy6 |
| Engine.Chip8.Op8xy7 | src/Chip8.cpp:277-288 | in-place update equal to Semantics.Op8xy7 |
| Engine.Chip8.Op8xyE | src/Chip8.cpp:290-297 | in-place update equal to Semantics.Op8xyE |
| Engine.Chip8.Op9xy0 | src/Chip8.cpp:299-307 | in-place update equal to Semantics.Op9xy0 |
| Engine.Chip8.OpAnnn | src/Chip8.cpp:309-313 | in-place update equal to Semantics.OpAnnn |
| Engine.Chip8.OpBnnn | src/Chip8.cpp:315-319 | in-place update equal to Semantics.OpBnnn |
| Engine.Chip8.OpCxkk | src/Chip8.cpp:321-326 | in-place update equal to Semantics.OpCxkk for the supplied random byte |
| Engine.Chip8.OpDxyn | src/Chip8.cpp:328-363 | the nested row/column loops leave the display and VF of Semantics.OpDxyn, fault included |
| Engine.Chip8.DrawRow | src/Chip8.cpp:342-361 | one pass of the column loop advances display and VF by the eight cells of one row |
| Engine.Chip8.DrawPixel | src/Chip8.cpp:346-360 | one cell: display and VF advance by exactly one step of DrawSteps and CollisionSteps |
| Engine.Chip8.OpEx9E | src/Chip8.cpp:365-373 | in-place update equal to Semantics.OpEx9E |
| Engine.Chip8.OpExA1 | src/Chip8.cpp:375-383 | in-place update equal to Semantics.OpExA1 |
| Engine.Chip8.OpFx07 | src/Chip8.cpp:385-389 | in-place update equal to Semantics.OpFx07 |
| Engine.Chip8.ScanKeys | src/Chip8.cpp:394-399 | the ascending key scan returns FirstPressed of the keypad: the lowest pressed key, or 16 |
| Engine.Chip8.OpFx0A | src/Chip8.cpp:391-401 | in-place update equal to Semantics.OpFx0A |
| Engine.Chip8.OpFx15 | src/Chip8.cpp:403-407 | in-place update equal to Semantics.OpFx15 |
| Engine.Chip8.OpFx18 | src/Chip8.cpp:409-413 | in-place update equal to Semantics.OpFx18 |
| Engine.Chip8.OpFx1E | src/Chip8.cpp:415-419 | in-place update equal to Semantics.OpFx1E |
| Engine.Chip8.OpFx29 | src/Chip8.cpp:421-426 | in-place update equal to Semantics.OpFx29 |
| Engine.Chip8.OpFx33 | src/Chip8.cpp:428-440 | the ones-first digit writes give Semantics.OpFx33, fault included |
| Engine.Chip8.OpFx55 | src/Chip8.cpp:442-448 | the store loop gives Semantics.OpFx55, fault included |
| Engine.Chip8.OpFx65 | src/Chip8.cpp:450-456 | the load loop gives Semantics.OpFx65, fault included |
| Engine.Chip8.OpNull | src/Chip8.cpp:458-460 | the no-op changes nothing (it modifies nothing) |
| Properties.DecodeByPattern | src/Chip8.cpp:38-95 | for every handler, the two-level dispatch selects it exactly when the word fits that handler's instruction pattern |
| Properties.DecodeGroup0 | src/Chip8.cpp:462-465 | the same for words of group 0 |
| Properties.DecodeGroup8 | src/Chip8.cpp:467-470 | the same for words of group 8 |
| Properties.DecodeGroupE | src/Chip8.cpp:472-475 | the same for words of group E |
| Properties.DecodeGroupF | src/Chip8.cpp:477-480 | the same for words of group F |
| Properties.DecodeNull | src/Chip8.cpp:58-84 | a word selects the no-op exactly when it fits no instruction pattern |
| Properties.BeyondTablesIsNull | src/Chip8.cpp:462-480 | a low nibble F in groups 0, 8 and E, or a low byte above 0x65 in group F, selects the no-op |
| Properties.LooseDecoding | src/Chip8.cpp:462-475 | every 0xy0 clears the screen, every 0xyE returns, every Exy1 and ExyE tests a key and every 5xyn compares registers, whatever the untested nibbles are; 0120, 012E, E12E, E101 and 5121 are examples |
| Properties.Ticked | src/Chip8.cpp:128-138 | each timer goes down by one if set and stays at zero otherwise; nothing else changes |
| Properties.ExecuteKeepsTimers | src/Chip8.cpp:403-413 | only Fx15 and Fx18 write a timer |
| Properties.CycleTicksTimers | src/Chip8.cpp:117-139 | a successful cycle of any other instruction lowers each set timer by exactly one |
| Properties.CycleSetsDelayTimer | src/Chip8.cpp:403-407 | a cycle of Fx15 leaves the delay timer at Vx already ticked once |
| Properties.CycleSetsSoundTimer | src/Chip8.cpp:409-413 | a cycle of Fx18 leaves the sound timer at Vx already ticked once, and ticks the delay timer as usual |
| Properties.NullCycle | src/Chip8.cpp:458-460 | a cycle of an unassigned word changes only the instruction word, PC (+2) and the timers |
| Properties.CallThenReturn | src/Chip8.cpp:155-173 | a call then a return restore PC and SP; only the stack slot written differs |
| Properties.CallReturnCycles | src/Chip8.cpp:117-173 | two cycles over a CALL whose target is a RET resume after the call with the same stack depth, registers, memory and display |
| Properties.Calls | src/Chip8.cpp:167-173 | k nested calls keep the state well formed |
| Properties.NestedCalls | src/Chip8.cpp:167-173 | from an empty stack, up to 16 nested calls all succeed and leave k return addresses |
| Properties.SeventeenthCallFails | src/Chip8.cpp:167-173 | the seventeenth nested call faults with StackOverflow and leaves the sixteenth's state |
| Properties.AwaitKeyWaits | src/Chip8.cpp:391-401 | with no key pressed, a cycle of Fx0A ends with PC back on the same instruction |
| Properties.AwaitNoKeyStep | src/Chip8.cpp:391-401 | with no key pressed, the Fx0A handler only moves PC back by 2 |
| Properties.AwaitKeyTakesLowest | src/Chip8.cpp:391-401 | with keys pressed, a cycle of Fx0A loads the lowest pressed key and moves on |
| Properties.FirstPressedIsLowest | src/Chip8.cpp:394-399 | the scan finds precisely the lowest pressed key |
| Properties.SkipPairsComplement | src/Chip8.cpp:175-200 | 3xkk/4xkk, 5xy0/9xy0 and Ex9E/ExA1 each skip exactly when their partner does not |
| Properties.XorTwice | src/Chip8.cpp:237-242 | XOR with the same number twice gives back any w-bit number |
| Properties.XorTwiceRestores | src/Chip8.cpp:237-242 | 8xy3 twice with x and y distinct gives back the machine |
| Properties.SubUndoesAdd | src/Chip8.cpp:244-268 | 8xy5 after 8xy4 restores Vx (x, y distinct and not VF) |
| Properties.BitsSelf | src/Chip8.cpp:223-242 | OR and AND of a number with itself give it back; XOR gives 0 |
| Properties.SameRegisterLogic | src/Chip8.cpp:223-242 | 8xy1 and 8xy2 with x = y change nothing, and 8xy3 with x = y clears Vx |
| Properties.AndFullMask | src/Chip8.cpp:321-326 | AND with all w bits set keeps any w-bit number |
| Properties.RandomFullMask | src/Chip8.cpp:321-326 | Cxkk with kk = FF loads the random byte itself |
| Properties.BitsCommute | src/Chip8.cpp:223-242 | OR, AND and XOR do not depend on operand order |
| Properties.StoreThenLoad | src/Chip8.cpp:442-456 | Fx55 then Fx65 on the same register range gives back every register |
| Properties.LoadThenStore | src/Chip8.cpp:442-456 | Fx65 then Fx55 on the same register range leaves memory as it was |
| Properties.ResetIdempotent | src/Chip8.cpp:19-36 | a second reset changes nothing |
| Properties.LoadedProgramFirstFetch | src/Chip8.cpp:98-123 | after loading an image of two or more bytes, the first fetch reads its first two bytes |
| Properties.SpriteOf | src/Chip8.cpp:340-342 | the sprite Dxyn reads is the n bytes at I |
| Properties.DrawMeaning | src/Chip8.cpp:328-363 | Dxyn flips exactly the pixels under lit sprite cells, and VF = 1 exactly when one of them was on |
| Properties.DrawTwiceRestores | src/Chip8.cpp:328-363 | Dxyn twice restores the display when neither coordinate register is VF |
| Properties.ResetFontGlyph | src/Chip8.cpp:421-426 | after a reset, Fx29 with Vx = d < 16 points I at the five rows of the glyph for d |
| Properties.LoadAndAddProgram | src/Chip8.cpp:202-214 | the program 6005 7003 loaded into a fresh interpreter leaves V0 = 8 and PC = 0x204 after two cycles |
| Properties.ProgramFirstCycle | src/Chip8.cpp:202-207 | a cycle at 0x200 over the bytes 60 05 succeeds, sets V0 = 5, keeps memory and moves PC to 0x202 |
| Properties.ProgramSecondCycle | src/Chip8.cpp:209-214 | a cycle at 0x202 over the bytes 70 03 with V0 = 5 succeeds, sets V0 = 8 and moves PC to 0x204 |
| Findings.CallAsWritten | src/Chip8.cpp:167-173 | as written, a call stores PC at stack[SP], leaves SP where it was and jumps to nnn |
| Findings.ImmediateAsWritten | src/Chip8.cpp:187 | as written, the immediate is 0 or 1, and 1 exactly when the word is non-zero |
| Findings.AddressAsWritten | src/Chip8.cpp:309-319 | as written, the address is nnn less a multiple of 256, below 256 |
| Findings.PixelIndexAsWritten | src/Chip8.cpp:347 | as written, a cell whose column stays left of the edge lands on row y + row, unwrapped, and column x + col |
| Findings.ReturnSlotAsWritten | src/Chip8.cpp:155-159 | as written, SP drops by one when set, and wraps from 0 to 255 |
| Findings.SecondaryIndexAsWritten | src/Chip8.cpp:462-480 | as written, the secondary index is a low byte for group F and a low nibble for the others, with no bound against the table size |
| Findings.KeyIndexAsWritten | src/Chip8.cpp:365-383 | as written, the keypad index is the whole register, which agrees with the corrected key index whenever it is below 16 |
| Findings.LastAddressAsWritten | src/Chip8.cpp:120 | an access of count > 0 bytes at a stays inside memory exactly when its last address is below 4096 |
| Findings.ResetMemoryAsWritten | src/Chip8.cpp:31-34 | the memory a reset leaves as written, 4096 bytes |
| Findings.CallAsWrittenReturnsElsewhere | src/Chip8.cpp:167-173 | as written, with one address already stacked, a call then a return goes back to the older address |
| Findings.ImmediateAsWrittenIsOne | src/Chip8.cpp:202-207 | as written, the immediate of 4xkk, 6xkk, 7xkk and Cxkk is always 1, right only when kk = 1 |
| Findings.AddressAsWrittenTruncates | src/Chip8.cpp:309-319 | as written, Annn and Bnnn use nnn modulo 256, right only below 0x100 |
| Findings.FontAsWrittenMissesFx29 | src/Chip8.cpp:13-16 | as written, the bytes Fx29 points at for digit 0 are zeros, and a loaded program overwrites the font |
| Findings.PixelIndexAsWrittenOverruns | src/Chip8.cpp:347 | as written, a sprite at the bottom-right corner indexes pixel 2118 of 2048 |
| Findings.ReturnAsWrittenUnderflows | src/Chip8.cpp:155-159 | as written, a return with an empty stack reads slot 255 of 16 |
| Findings.SecondaryIndexAsWrittenOverruns | src/Chip8.cpp:462-480 | as written, 000F, 800F, E00F and F0FF index past the end of their tables |
| Findings.KeyIndexAsWrittenOverruns | src/Chip8.cpp:365-383 | as written, Vx = 16 indexes past the 16 keys |
| Findings.AccessAsWrittenOverruns | src/Chip8.cpp:117-123 | as written, a fetch at 4095, Fx33 at 4094, Fx55/Fx65 at 4090 with x = F, Dxy2 at 4095, and an image of 3585 bytes reach past memory |

## Left out

- The random source (`src/Chip8.cpp:142-148`) is a parameter: `Cycle` and Cxkk take the random byte as an argument.
- File access in `LoadROM` (`src/Chip8.cpp:98-115`): the model receives the image as a byte sequence. The source silently does nothing when the file cannot be opened, and the model has no such case.
- A refusal to cycle before an image is loaded, which interpreters commonly have, is not modelled, because the code has no such check.
- Strict decoding is not modelled: the dispatch tests only the high nibble and then the low nibble or low byte, so every word 0xy0 runs CLS, every 0xyE runs RET, every Exy1 and ExyE runs SKNP or SKP, and every 5xyn runs SE Vx, Vy (Properties.LooseDecoding). Cowgod's Chip-8 Technical Reference names these 00E0, 00EE, ExA1, Ex9E and 5xy0, and ignores the other group-0 words as SYS calls; the model decodes as the tables do.
- Pixels are `bool`, not the source's `uint32_t` values 0 and 0xFFFFFFFF. The collision test compares with 0xFFFFFFFF, which matches the boolean reading only while every pixel keeps one of those two values, and the code itself keeps that.
- Keys are `bool`, not `uint8_t`; a non-zero key byte reads as pressed.
- The getters and `getInstruction` (`include/Chip8.hpp:39-48`) and the `instruction` string field have no definitions in `src/Chip8.cpp`; they are not part of this model.
- Graphics, Emulator and CPU (`src/Graphics.cpp`, `src/Emulator.cpp`, `src/CPU.cpp`) are not part of this model.
- No real-time pacing: the timers tick once per cycle, as the code does, not at 60 Hz.
- Engine.Chip8.OpNull: its contract only says that the state is unchanged, which its empty body and missing modifies clause already say.
- Display.DrawSteps: its own contract states only the length; what the drawn display holds is stated by DrawStepsClosedForm and DrawCell.

## Findings

| source | as written | input that shows it | evidently intended | confidence | as-written member | corrected member |
|---|---|---|---|---|---|---|
| src/Chip8.cpp:167-173 | CALL stores PC at stack[SP] and increments PC, not SP | SP = 1 with stack[0] different from PC: a call then a return goes to stack[0] | SP incremented after the push, so the return comes back to the caller | high (not executed) | Findings.CallAsWritten, Findings.CallAsWrittenReturnsElsewhere | Semantics.Op2nnn, Properties.CallThenReturn |
| src/Chip8.cpp:187 | the immediate is `opcode && 0x00FFu` in 4xkk, 6xkk, 7xkk and Cxkk (lines 187, 205, 212, 324) | 6005 loads 1 into V0 instead of 5 | bitwise AND, as in 3xkk | high (not executed) | Findings.ImmediateAsWritten, Findings.ImmediateAsWrittenIsOne | Semantics.OperandFields, Semantics.Op6xkk |
| src/Chip8.cpp:311 | Annn and Bnnn hold the address in a `uint8_t` (lines 311 and 317) | A123 sets I to 0x23 | all twelve address bits | high (not executed) | Findings.AddressAsWritten, Findings.AddressAsWrittenTruncates | Semantics.Nnn, Semantics.OpAnnn |
| src/Chip8.cpp:13-16 | the font is copied to START_ADDRESS (0x200), in the constructor and again in reset (lines 31-34) | Fx29 with Vx = 0 points I at 0x50, which holds zeros; the first program byte overwrites the font | the font at FONTSET_START_ADDRESS 0x50, where Fx29 looks | high (not executed) | Findings.ResetMemoryAsWritten, Findings.FontAsWrittenMissesFx29 | Semantics.WithFont, Properties.ResetFontGlyph |
| src/Chip8.cpp:347 | the pixel index wraps only the sprite origin, not origin plus offset | V[x] = 63, V[y] = 31, a lit cell at row 1, column 7: index 2118 of a 2048-pixel buffer | each coordinate wrapped | high (not executed) | Findings.PixelIndexAsWritten, Findings.PixelIndexAsWrittenOverruns | Display.PixelIndex, Display.PixelIndexInverse |
| src/Chip8.cpp:155-159 | RET decrements SP without checking it | SP = 0: SP wraps to 255 and stack[255] is read | StackUnderflow reported | high (not executed) | Findings.ReturnSlotAsWritten, Findings.ReturnAsWrittenUnderflows | Semantics.Op00EE |
| src/Chip8.cpp:462-480 | the secondary tables are indexed without a range check | 000F, 800F, E00F (slot 15 of 15) and F0FF (slot 0xFF of 0x66) | an unassigned index runs the no-op | high (not executed) | Findings.SecondaryIndexAsWritten, Findings.SecondaryIndexAsWrittenOverruns | Properties.BeyondTablesIsNull |
| src/Chip8.cpp:365-383 | SKP and SKNP index the keypad with the whole register | Vx = 16 reads past the 16 keys | the key named by the low nibble | medium (not executed) | Findings.KeyIndexAsWritten, Findings.KeyIndexAsWrittenOverruns | Semantics.KeyIndex, Semantics.OpEx9E |
| src/Chip8.cpp:120 | fetch, Fx33, Fx55, Fx65, Dxyn and LoadROM do not check addresses against the end of memory | PC = 4095 reads address 4096; Fx33 at I = 4094 writes 4096; Fx55 at I = 4090 with x = F writes 4105; Dxy2 at I = 4095 reads 4096 for its second row; a 3585-byte image reaches 4096 | the access refused as a fault, the image rejected before copying | high (not executed) | Findings.LastAddressAsWritten, Findings.AccessAsWrittenOverruns | Semantics.Cycle, Semantics.OpFx33, Semantics.OpFx55, Semantics.OpDxyn, Semantics.LoadRom |
