# CHIP-8 machine state (Pixi8 core)

This project models the state container of the Pixi8 CHIP-8 interpreter: the
`Chip8` struct and its five operations `new`, `reset`, `load_font`, `push` and
`pop`, all in `core/src/lib.rs`.

The struct holds the following:

- 4096 bytes of memory;
- sixteen 8-bit registers `V0`–`VF`;
- the 16-bit index register `I` and program counter;
- a 16-slot call stack of return addresses, with its stack pointer;
- the delay and sound timers;
- sixteen key flags;
- a 64×32 row-major pixel grid.

The model comes in two layers.

- `MachineState` (`machine_state.dfy`) gives the whole machine as a value (`Machine`) and each operation as a function on it. The lemmas there state what the operations promise:
  - the memory layout after construction;
  - what reset clears;
  - idempotence of reset and of loading the font;
  - the push/pop round trip, and the LIFO unwinding of any run of nested calls;
  - that the stack pointer never passes the capacity of 16.
- `Chip8Core` (`chip8.dfy`) is the struct itself, as a class. Its arrays are updated in place: reset overwrites each array whole, load_font copies the font over a prefix of memory, and push and pop write or read one stack slot and move the pointer. Each method is proved to leave `Abs()`, the machine as a value, equal to the corresponding `MachineState` function applied to the old value. Each also keeps `Valid()`, the invariant of fixed array lengths and `stack_pointer <= 16`.

The font table lives in the crate's `font` module, which is not part of this model. The model treats it as a parameter `fontset` of any length up to 4096, because copying it into `memory[..FONT_SIZE]` only works when it fits. No glyph bytes are fixed.

Rust's `u8` and `u16` are the newtypes `u8` and `u16`. `push` and `pop` panic when the stack index is out of range. `pop` on an empty stack also underflows the `u16` pointer. These panics become preconditions:

- `push` requires `stack_pointer < 16`;
- `pop` requires `stack_pointer > 0`.

## Model

| member | source | states |
|---|---|---|
| `MachineState.New` | core/src/lib.rs:27-43 | a newly built machine has the fixed array lengths and an empty stack |
| `MachineState.NewLayout` | core/src/lib.rs:27-43 | after `new`, memory holds the font at addresses below its length and 0 everywhere above; pc is 0x200; I, the stack pointer and both timers are 0; every register and stack slot is 0; every key and pixel is off |
| `MachineState.LoadFont` | core/src/lib.rs:58-60 | loading the font makes the memory prefix of the font's length equal to the font and leaves the rest of memory and every other field unchanged |
| `MachineState.LoadFontIdempotent` | core/src/lib.rs:58-60 | loading the font twice leaves the same machine as loading it once |
| `MachineState.Reset` | core/src/lib.rs:45-56 | the machine after reset satisfies the invariant and its stack is empty, whatever the machine was before |
| `MachineState.ResetClears` | core/src/lib.rs:45-56 | after reset every memory cell is 0, the font region included; pc is 0x200; every other field is at its zero value |
| `MachineState.ResetIdempotent` | core/src/lib.rs:45-56 | resetting twice leaves the same machine as resetting once |
| `MachineState.ResetDropsFont` | core/src/lib.rs:41-56 | if the font has a non-zero byte at `k`, reset leaves 0 at `k` while `new` leaves the glyph byte there, so reset never gives back the machine `new` builds |
| `MachineState.ResetThenLoadFontIsNew` | core/src/lib.rs:27-60 | reset followed by loading the font gives, from any machine, exactly the machine `new` builds |
| `MachineState.Push` | core/src/lib.rs:62-65 | under `stack_pointer < 16`, push appends the address to the live stack and writes it at the old pointer. The pointer grows by one, the invariant is kept, and the other stack slots and all non-stack fields are unchanged |
| `MachineState.Pop` | core/src/lib.rs:67-70 | under `stack_pointer > 0`, the returned address is the top of the live stack and the live stack loses exactly that element. The pointer drops by one; the stack array and every other field are unchanged |
| `MachineState.PushPopRoundTrip` | core/src/lib.rs:62-70 | a pop right after a push returns the pushed address and restores the pointer and the live stack. The machine comes back unchanged except that the slot above the pointer keeps the address |
| `MachineState.PushAll` | core/src/lib.rs:62-65 | pushing a run of addresses that fits appends them, in order, to the live stack and keeps the invariant |
| `MachineState.PopN` | core/src/lib.rs:67-70 | `n` pops take the top `n` live addresses and return them last-pushed first. Only the stack pointer changes |
| `MachineState.NestedCallsRoundTrip` | core/src/lib.rs:62-70 | pushing any fitting run of addresses, then popping as many, returns them in reverse order. The pointer, the live stack and every field outside the stack array are restored |
| `MachineState.StackDepthBoundary` | core/src/lib.rs:62-65 | from an empty stack, 16 pushes all meet push's precondition and leave the pointer at 16, where a 17th push's precondition fails |
| `Chip8Core.Chip8.constructor` | core/src/lib.rs:27-43 | the constructed machine has fresh arrays, satisfies the invariant and equals `MachineState.New` of the font |
| `Chip8Core.Chip8.Reset` | core/src/lib.rs:45-56 | the arrays are overwritten in place and the new state equals `MachineState.Reset` of the old one, with the invariant kept |
| `Chip8Core.Chip8.LoadFont` | core/src/lib.rs:58-60 | only `memory` is modified, and the new state equals `MachineState.LoadFont` of the old one |
| `Chip8Core.Chip8.ResetWithFont` | core/src/lib.rs:41-60 | a reset followed by reloading the font leaves the machine equal to `MachineState.New` of the font |
| `Chip8Core.Chip8.Push` | core/src/lib.rs:62-65 | only the stack array and the pointer change, and the new state equals `MachineState.Push` of the old one |
| `Chip8Core.Chip8.Pop` | core/src/lib.rs:67-70 | only the pointer changes, and the new state and the returned address are those of `MachineState.Pop` of the old state |

## Left out

- Font data: the glyph bytes and `FONT_SIZE` come from the `font` module, which is not part of this model. The font is a parameter of any length up to 4096.
- The fetch/decode/execute loop, the per-opcode semantics, sprite drawing, key wait and the timer tick are not part of this model. None of them appears in `core/src/lib.rs`.
- I/O collaborators are not modelled: loading a program image, rendering the screen, polling keys into `keypad`, and sound output.
- The random byte source used by the random-number opcode is not modelled.
- Panics: out-of-range stack indexing and `u16` underflow of the stack pointer are preconditions of `Push` and `Pop`. The debug-build panic and the release-build wrap-around are not modelled.
- Typed `StackOverflow` / `StackUnderflow` errors are not modelled. A design description of this system has `push`/`pop` fail with these errors, but the code does not return errors: it indexes the array directly and panics. The model follows the code.
- Reset and the font: the same description says reset restores the font table. The code does not, and the model follows the code (see Findings).

## Findings

| source | as written | input that shows it | evidently intended | confidence | as-written member | corrected member |
|---|---|---|---|---|---|---|
| core/src/lib.rs:45-56 | `reset` zeroes all of memory and never calls `load_font`, so the font glyphs are gone until a new machine is built (`load_font` is private) | any machine and any font whose byte `k` is non-zero: after `reset`, `memory[k] == 0`, where `new` leaves the glyph byte there | reset leaves the machine as `new` builds it, font included | high; not executed | `MachineState.ResetDropsFont` | `Chip8Core.Chip8.ResetWithFont` |
