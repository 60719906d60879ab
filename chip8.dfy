/** The `Chip8` struct: fixed-size arrays updated in place, with the scalar
    registers as mutable fields. Each operation is proved against the function
    of the same name in MachineState, through the abstract value Abs(). */
module Chip8Core {
  import opened MachineState

  class Chip8 {
    const memory: array<u8>
    var iReg: u16
    const vReg: array<u8>
    var pc: u16
    const stack: array<u16>
    var stackPointer: u16
    var delayTimer: u8
    var soundTimer: u8
    const keypad: array<bool>
    const screen: array<bool>

    /** The whole machine as a value. */
    ghost function Abs(): Machine
      reads this, memory, vReg, stack, keypad, screen
    {
      Machine(memory[..], iReg, vReg[..], pc, stack[..], stackPointer,
              delayTimer, soundTimer, keypad[..], screen[..])
    }

    /** The array lengths are the struct's, and the stack pointer is within capacity. */
    ghost predicate Valid()
      reads this, memory, vReg, stack, keypad, screen
    {
      MachineState.Valid(Abs())
    }

    /** `Chip8::new`: a zeroed machine at the program start, with the font loaded. */
    constructor (fontset: seq<u8>)
      requires |fontset| <= MEMORY_SIZE
      ensures Valid() && fresh(memory) && fresh(vReg) && fresh(stack) && fresh(keypad) && fresh(screen)
      ensures Abs() == New(fontset)
    {
      memory := new u8[MEMORY_SIZE](_ => 0);
      iReg := 0;
      vReg := new u8[NUM_REGS](_ => 0);
      pc := START_ADDRESS;
      stack := new u16[STACK_SIZE](_ => 0);
      stackPointer := 0;
      delayTimer := 0;
      soundTimer := 0;
      keypad := new bool[NUM_KEYS](_ => false);
      screen := new bool[SCREEN_WIDTH * SCREEN_HEIGHT](_ => false);
      new;
      assert Abs() == Cleared();
      LoadFont(fontset);
    }

    /** `Chip8::reset`: every field back to its zero value and the program
        counter to the program start; memory is zeroed whole, font included. */
    method Reset()
      requires Valid()
      modifies this, memory, vReg, stack, keypad, screen
      ensures Valid()
      ensures Abs() == MachineState.Reset(old(Abs()))
    {
      forall a | 0 <= a < memory.Length {
        memory[a] := 0;
      }
      iReg := 0;
      forall r | 0 <= r < vReg.Length {
        vReg[r] := 0;
      }
      pc := START_ADDRESS;
      forall k | 0 <= k < stack.Length {
        stack[k] := 0;
      }
      stackPointer := 0;
      delayTimer := 0;
      soundTimer := 0;
      forall k | 0 <= k < keypad.Length {
        keypad[k] := false;
      }
      forall p | 0 <= p < screen.Length {
        screen[p] := false;
      }
      assert Abs() == Cleared();
    }

    /** `Chip8::load_font`: copies the font over the low end of memory in place. */
    method LoadFont(fontset: seq<u8>)
      requires Valid() && |fontset| <= MEMORY_SIZE
      modifies memory
      ensures Valid()
      ensures Abs() == MachineState.LoadFont(old(Abs()), fontset)
    {
      forall a | 0 <= a < |fontset| {
        memory[a] := fontset[a];
      }
      assert memory[..] == fontset + old(memory[..])[|fontset|..];
    }

    /** Reset followed by reloading the font: the reset the design intends,
        which leaves the machine exactly as construction does. */
    method ResetWithFont(fontset: seq<u8>)
      requires Valid() && |fontset| <= MEMORY_SIZE
      modifies this, memory, vReg, stack, keypad, screen
      ensures Valid()
      ensures Abs() == New(fontset)
    {
      Reset();
      LoadFont(fontset);
      ResetThenLoadFontIsNew(old(Abs()), fontset);
    }

    /** `Chip8::push`: writes the address at the stack pointer, then steps it up. */
    method Push(address: u16)
      requires Valid() && (stackPointer as int) < STACK_SIZE
      modifies this, stack
      ensures Valid()
      ensures Abs() == MachineState.Push(old(Abs()), address)
    {
      stack[stackPointer] := address;
      stackPointer := stackPointer + 1;
    }

    /** `Chip8::pop`: steps the stack pointer down and returns the address there. */
    method Pop() returns (address: u16)
      requires Valid() && stackPointer > 0
      modifies this
      ensures Valid()
      ensures (Abs(), address) == MachineState.Pop(old(Abs()))
    {
      stackPointer := stackPointer - 1;
      address := stack[stackPointer];
    }
  }
}
