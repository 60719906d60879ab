/** The architectural state of the CHIP-8 machine as a value, and the effect of
    each state operation on it. The class in chip8.dfy is proved against these
    functions; the lemmas here state what the operations promise. */
module MachineState {

  /** Rust's `u8` and `u16`. */
  newtype u8 = x: int | 0 <= x < 0x100
  newtype u16 = x: int | 0 <= x < 0x1_0000

  const MEMORY_SIZE: nat := 4096
  const STACK_SIZE: nat := 16
  const NUM_KEYS: nat := 16
  const NUM_REGS: nat := 16
  const START_ADDRESS: u16 := 0x200
  const SCREEN_WIDTH: nat := 64
  const SCREEN_HEIGHT: nat := 32

  /** Every field of the `Chip8` struct; the screen is row-major. */
  datatype Machine = Machine(
    memory: seq<u8>,
    iReg: u16,
    vReg: seq<u8>,
    pc: u16,
    stack: seq<u16>,
    stackPointer: u16,
    delayTimer: u8,
    soundTimer: u8,
    keypad: seq<bool>,
    screen: seq<bool>)

  /** The fixed array lengths, and a stack pointer that never passes the capacity. */
  predicate Valid(m: Machine) {
    && |m.memory| == MEMORY_SIZE
    && |m.vReg| == NUM_REGS
    && |m.stack| == STACK_SIZE
    && |m.keypad| == NUM_KEYS
    && |m.screen| == SCREEN_WIDTH * SCREEN_HEIGHT
    && m.stackPointer as int <= STACK_SIZE
  }

  /** The return addresses currently on the stack, oldest first. */
  function Live(m: Machine): seq<u16>
    requires Valid(m)
  {
    m.stack[..m.stackPointer]
  }

  /** `m` and `m'` agree on every field except the stack array and its pointer. */
  predicate SameExceptStack(m: Machine, m': Machine) {
    m' == m.(stack := m'.stack, stackPointer := m'.stackPointer)
  }

  /** The struct literal that both construction and reset write: every field at
      its zero value except the program counter. */
  function Cleared(): Machine {
    Machine(
      seq(MEMORY_SIZE, _ => 0), 0, seq(NUM_REGS, _ => 0), START_ADDRESS,
      seq(STACK_SIZE, _ => 0), 0, 0, 0,
      seq(NUM_KEYS, _ => false), seq(SCREEN_WIDTH * SCREEN_HEIGHT, _ => false))
  }

  /** Copies the font into the low end of memory. */
  function LoadFont(m: Machine, fontset: seq<u8>): (r: Machine)
    requires Valid(m) && |fontset| <= MEMORY_SIZE
    ensures Valid(r)
    ensures r.memory[..|fontset|] == fontset
    ensures r.memory[|fontset|..] == m.memory[|fontset|..]
    ensures r == m.(memory := r.memory)
  {
    m.(memory := fontset + m.memory[|fontset|..])
  }

  /** The machine `Chip8::new` builds. */
  function New(fontset: seq<u8>): (r: Machine)
    requires |fontset| <= MEMORY_SIZE
    ensures Valid(r) && Live(r) == []
  {
    LoadFont(Cleared(), fontset)
  }

  /** The machine `Chip8::reset` leaves: the old state is discarded entirely,
      and the font is not written again. */
  function Reset(m: Machine): (r: Machine)
    ensures Valid(r) && Live(r) == []
  {
    Cleared()
  }

  /** Writes a return address at the stack pointer and steps the pointer up. */
  function Push(m: Machine, address: u16): (r: Machine)
    requires Valid(m) && (m.stackPointer as int) < STACK_SIZE
    ensures Valid(r)
    ensures Live(r) == Live(m) + [address]
    ensures r.stackPointer == m.stackPointer + 1 && r.stack[m.stackPointer] == address
    ensures forall k :: 0 <= k < STACK_SIZE && k != m.stackPointer as int ==> r.stack[k] == m.stack[k]
    ensures SameExceptStack(m, r)
  {
    m.(stack := m.stack[m.stackPointer := address], stackPointer := m.stackPointer + 1)
  }

  /** Steps the stack pointer down and returns the address it now points at;
      the slot itself is left as it was. */
  function Pop(m: Machine): (r: (Machine, u16))
    requires Valid(m) && m.stackPointer > 0
    ensures Valid(r.0)
    ensures Live(m) == Live(r.0) + [r.1]
    ensures r.0.stackPointer == m.stackPointer - 1 && r.1 == m.stack[m.stackPointer - 1]
    ensures r.0.stack == m.stack && SameExceptStack(m, r.0)
  {
    var m' := m.(stackPointer := m.stackPointer - 1);
    (m', m'.stack[m'.stackPointer])
  }

  /** The sequence `s` read back to front. */
  function Reversed(s: seq<u16>): (r: seq<u16>)
    ensures |r| == |s|
  {
    if s == [] then [] else [s[|s| - 1]] + Reversed(s[..|s| - 1])
  }

  /** `addresses` pushed one after another, as nested calls do. */
  function PushAll(m: Machine, addresses: seq<u16>): (r: Machine)
    requires Valid(m) && m.stackPointer as int + |addresses| <= STACK_SIZE
    ensures Valid(r)
    ensures Live(r) == Live(m) + addresses
    ensures SameExceptStack(m, r)
    decreases |addresses|
  {
    if addresses == [] then m
    else
      var m' := PushAll(Push(m, addresses[0]), addresses[1..]);
      assert addresses == [addresses[0]] + addresses[1..];
      m'
  }

  /** `n` pops one after another, with the addresses in the order they come off. */
  function PopN(m: Machine, n: nat): (r: (Machine, seq<u16>))
    requires Valid(m) && n <= m.stackPointer as int
    ensures Valid(r.0)
    ensures Live(m) == Live(r.0) + Reversed(r.1)
    ensures |r.1| == n
    ensures r.0 == m.(stackPointer := r.0.stackPointer)
    decreases n
  {
    if n == 0 then (m, [])
    else
      var (m1, top) := Pop(m);
      var (m2, rest) := PopN(m1, n - 1);
      ReversedSnoc(rest, top);
      (m2, [top] + rest)
  }

  // Helper: reversing `[x] + s` puts `x` last.
  lemma {:induction false} ReversedSnoc(s: seq<u16>, x: u16)
    ensures Reversed([x] + s) == Reversed(s) + [x]
    decreases |s|
  {
    if s == [] {
      assert Reversed([x]) == [x] + Reversed([]);
    } else {
      var t := [x] + s;
      assert t[..|t| - 1] == [x] + s[..|s| - 1];
      ReversedSnoc(s[..|s| - 1], x);
    }
  }

  // Helper: reversing twice gives the sequence back.
  lemma {:induction false} ReversedReversed(s: seq<u16>)
    ensures Reversed(Reversed(s)) == s
    decreases |s|
  {
    if s != [] {
      var init, last := s[..|s| - 1], s[|s| - 1];
      ReversedReversed(init);
      ReversedSnoc(Reversed(init), last);
      assert s == init + [last];
    }
  }

  /** After construction the font occupies addresses [0, |fontset|), every
      other byte of memory is zero, and every other field is at its zero value
      except the program counter, which is at the program start. */
  lemma NewLayout(fontset: seq<u8>)
    requires |fontset| <= MEMORY_SIZE
    ensures var m := New(fontset);
      && m.memory[..|fontset|] == fontset
      && (forall a :: |fontset| <= a < MEMORY_SIZE ==> m.memory[a] == 0)
      && m.pc == START_ADDRESS && m.iReg == 0 && m.stackPointer == 0
      && m.delayTimer == 0 && m.soundTimer == 0
      && (forall r :: 0 <= r < NUM_REGS ==> m.vReg[r] == 0)
      && (forall k :: 0 <= k < STACK_SIZE ==> m.stack[k] == 0)
      && (forall k :: 0 <= k < NUM_KEYS ==> !m.keypad[k])
      && (forall p :: 0 <= p < SCREEN_WIDTH * SCREEN_HEIGHT ==> !m.screen[p])
  {
    var m := New(fontset);
    forall a | |fontset| <= a < MEMORY_SIZE ensures m.memory[a] == 0 {
      assert m.memory[a] == m.memory[|fontset|..][a - |fontset|];
    }
  }

  /** Reset zeroes every cell of memory, the font region included, and every
      other field except the program counter, which returns to the program start. */
  lemma ResetClears(m: Machine)
    ensures var r := Reset(m);
      && (forall a :: 0 <= a < MEMORY_SIZE ==> r.memory[a] == 0)
      && r.pc == START_ADDRESS && r.iReg == 0 && r.stackPointer == 0
      && r.delayTimer == 0 && r.soundTimer == 0
      && (forall k :: 0 <= k < NUM_REGS ==> r.vReg[k] == 0)
      && (forall k :: 0 <= k < STACK_SIZE ==> r.stack[k] == 0)
      && (forall k :: 0 <= k < NUM_KEYS ==> !r.keypad[k])
      && (forall p :: 0 <= p < SCREEN_WIDTH * SCREEN_HEIGHT ==> !r.screen[p])
  {
  }

  /** Resetting a second time changes nothing. */
  lemma ResetIdempotent(m: Machine)
    ensures Reset(Reset(m)) == Reset(m)
  {
  }

  /** Loading the font a second time changes nothing. */
  lemma LoadFontIdempotent(m: Machine, fontset: seq<u8>)
    requires Valid(m) && |fontset| <= MEMORY_SIZE
    ensures LoadFont(LoadFont(m, fontset), fontset) == LoadFont(m, fontset)
  {
  }

  /** Reset as written: for any font with a non-zero byte at `k`, the reset
      machine holds 0 at `k` where a newly built one holds the glyph byte, so a
      reset machine is never the machine `new` builds. */
  lemma ResetDropsFont(m: Machine, fontset: seq<u8>, k: nat)
    requires |fontset| <= MEMORY_SIZE && k < |fontset| && fontset[k] != 0
    ensures Reset(m).memory[k] == 0 && New(fontset).memory[k] == fontset[k]
    ensures Reset(m) != New(fontset)
  {
    assert New(fontset).memory[k] == New(fontset).memory[..|fontset|][k];
  }

  /** The evidently intended reset, a reset followed by loading the font again,
      gives from any machine exactly the machine `new` builds. */
  lemma ResetThenLoadFontIsNew(m: Machine, fontset: seq<u8>)
    requires |fontset| <= MEMORY_SIZE
    ensures LoadFont(Reset(m), fontset) == New(fontset)
  {
  }

  /** A push followed by a pop returns the pushed address and restores the
      stack pointer and the live stack; the slot above keeps the address. */
  lemma PushPopRoundTrip(m: Machine, address: u16)
    requires Valid(m) && (m.stackPointer as int) < STACK_SIZE
    ensures Pop(Push(m, address)).1 == address
    ensures Pop(Push(m, address)).0 == m.(stack := m.stack[m.stackPointer := address])
    ensures Live(Pop(Push(m, address)).0) == Live(m)
  {
  }

  /** Any run of nested calls unwinds in reverse: pushing `addresses` and then
      popping as many times returns them last-first and restores the stack
      pointer, the live stack and every field outside the stack array. */
  lemma {:induction false} NestedCallsRoundTrip(m: Machine, addresses: seq<u16>)
    requires Valid(m) && m.stackPointer as int + |addresses| <= STACK_SIZE
    ensures var (m', popped) := PopN(PushAll(m, addresses), |addresses|);
      && popped == Reversed(addresses)
      && m'.stackPointer == m.stackPointer
      && Live(m') == Live(m)
      && SameExceptStack(m, m')
  {
    var pushed := PushAll(m, addresses);
    var (m', popped) := PopN(pushed, |addresses|);
    assert Live(m) + addresses == Live(m') + Reversed(popped);
    assert |Live(m')| == |Live(m)|;
    assert Live(m') == (Live(m) + addresses)[..|Live(m)|];
    assert Reversed(popped) == addresses;
    ReversedReversed(popped);
  }

  /** From an empty stack, sixteen nested calls all meet push's precondition
      and fill the stack, after which a seventeenth push would not. */
  lemma StackDepthBoundary(m: Machine, addresses: seq<u16>)
    requires Valid(m) && m.stackPointer == 0 && |addresses| == STACK_SIZE
    ensures PushAll(m, addresses).stackPointer as int == STACK_SIZE
    ensures Live(PushAll(m, addresses)) == addresses
  {
  }
}
