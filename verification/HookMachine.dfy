/** The memory and the machine that hooked code is judged by: a 32-bit byte memory and a small-step
    machine whose own instructions are the two relative jumps (src/hooks.c:243-303). */
module HookMachine {
  import opened Arith
  import opened Bits

  const MEMORY: nat := 0x1_0000_0000
  const LINK: nat := 4

  // ---- Memory.

  function Patch(mem: seq<byte>, a: nat, bytes: seq<byte>): (m: seq<byte>)
    requires a + |bytes| <= |mem|
    ensures |m| == |mem| && m[a..a + |bytes|] == bytes
    ensures forall k :: 0 <= k < |mem| && !(a <= k < a + |bytes|) ==> m[k] == mem[k]
  {
    var m := mem[..a] + bytes + mem[a + |bytes|..];
    assert m[a..a + |bytes|] == bytes;
    m
  }

  ghost predicate Apart(a: nat, n: nat, b: nat, m: nat) {
    a + n <= b || b + m <= a
  }

  /** Bytes that a patch does not touch. */
  lemma Untouched(mem: seq<byte>, a: nat, bytes: seq<byte>, b: nat, n: nat)
    requires a + |bytes| <= |mem| && b + n <= |mem| && Apart(a, |bytes|, b, n)
    ensures Patch(mem, a, bytes)[b..b + n] == mem[b..b + n]
  {
    var m := Patch(mem, a, bytes);
    assert b + n <= a ==> m[b..b + n] == mem[..a][b..b + n] == mem[b..b + n];
    assert a + |bytes| <= b ==> m[b..b + n] == mem[b..b + n];
  }

  // ---- The machine.

  /** Instructions whose length follows from their first byte and whose effect does not depend on
      where they are; the two relative jumps are the machine's own. */
  datatype Isa<!S> = Isa(size: byte -> nat, run: (seq<byte>, S) -> S)

  const SHORT_JMP: byte := 0xEB
  const LONG_JMP: byte := 0xE9
  const NOP: byte := 0x90

  function Signed(x: nat, n: nat): int {
    if 2 * x < n then x else x - n
  }

  function Fetch(mem: seq<byte>, pc: nat, n: nat): seq<byte>
    requires |mem| == MEMORY && pc < MEMORY
  {
    if pc + n <= MEMORY then mem[pc..pc + n]
    else if pc + n - MEMORY <= MEMORY then mem[pc..] + mem[..pc + n - MEMORY]
    else mem
  }

  function Step<S>(isa: Isa<S>, mem: seq<byte>, pc: nat, s: S): (r: (nat, S))
    requires |mem| == MEMORY && pc < MEMORY
    ensures r.0 < MEMORY
  {
    var op := mem[pc];
    if op == SHORT_JMP then ((pc + 2 + Signed(mem[(pc + 1) % MEMORY], 0x100)) % MEMORY, s)
    else if op == LONG_JMP then ((pc + 5 + LeValue(Fetch(mem, (pc + 1) % MEMORY, 4))) % MEMORY, s)
    else ((pc + isa.size(op)) % MEMORY, isa.run(Fetch(mem, pc, isa.size(op)), s))
  }

  function Run<S>(isa: Isa<S>, mem: seq<byte>, n: nat, pc: nat, s: S): (r: (nat, S))
    requires |mem| == MEMORY && pc < MEMORY
    ensures r.0 < MEMORY
    decreases n
  {
    if n == 0 then (pc, s)
    else
      var next := Step(isa, mem, pc, s);
      Run(isa, mem, n - 1, next.0, next.1)
  }

  lemma {:induction false} RunSum<S>(isa: Isa<S>, mem: seq<byte>, n: nat, m: nat, pc: nat, s: S)
    requires |mem| == MEMORY && pc < MEMORY
    ensures var mid := Run(isa, mem, n, pc, s);
      Run(isa, mem, n + m, pc, s) == Run(isa, mem, m, mid.0, mid.1)
    decreases n
  {
    hide Step;
    if n > 0 {
      var next := Step(isa, mem, pc, s);
      RunSum(isa, mem, n - 1, m, next.0, next.1);
    }
  }

  /** Whole instructions without jumps. */
  predicate Straight<S>(isa: Isa<S>, code: seq<byte>)
    decreases |code|
  {
    code == []
    || (code[0] != SHORT_JMP && code[0] != LONG_JMP && 1 <= isa.size(code[0]) <= |code| && Straight(isa, code[isa.size(code[0])..]))
  }

  function Effect<S>(isa: Isa<S>, code: seq<byte>, s: S): S
    requires Straight(isa, code)
    decreases |code|
  {
    if code == [] then s
    else
      var n := isa.size(code[0]);
      Effect(isa, code[n..], isa.run(code[..n], s))
  }

  function Instructions<S>(isa: Isa<S>, code: seq<byte>): nat
    requires Straight(isa, code)
    decreases |code|
  {
    if code == [] then 0 else 1 + Instructions(isa, code[isa.size(code[0])..])
  }

  /** Straight code runs through, wherever it lies. */
  lemma {:induction false} StraightRuns<S>(isa: Isa<S>, mem: seq<byte>, a: nat, code: seq<byte>, s: S)
    requires |mem| == MEMORY && a + |code| < MEMORY && mem[a..a + |code|] == code && Straight(isa, code)
    ensures Run(isa, mem, Instructions(isa, code), a, s) == (a + |code|, Effect(isa, code, s))
    decreases |code|
  {
    if code != [] {
      var n := isa.size(code[0]);
      FirstInstruction(isa, mem, a, code, s);
      assert mem[a + n..a + n + |code[n..]|] == mem[a..a + |code|][n..];
      StraightRuns(isa, mem, a + n, code[n..], isa.run(code[..n], s));
    }
  }

  lemma FirstInstruction<S>(isa: Isa<S>, mem: seq<byte>, a: nat, code: seq<byte>, s: S)
    requires |mem| == MEMORY && a + |code| < MEMORY && mem[a..a + |code|] == code && code != [] && Straight(isa, code)
    ensures Step(isa, mem, a, s) == (a + isa.size(code[0]), isa.run(code[..isa.size(code[0])], s))
  {
    var n := isa.size(code[0]);
    assert mem[a] == mem[a..a + |code|][0];
    assert mem[a..a + n] == mem[a..a + |code|][..n];
  }

  lemma {:induction false} StraightConcat<S>(isa: Isa<S>, a: seq<byte>, b: seq<byte>, s: S)
    requires Straight(isa, a) && Straight(isa, b)
    ensures Straight(isa, a + b) && Effect(isa, a + b, s) == Effect(isa, b, Effect(isa, a, s))
    decreases |a|
  {
    if a == [] {
      assert a + b == b;
    } else {
      var n := isa.size(a[0]);
      StraightConcat(isa, a[n..], b, isa.run(a[..n], s));
      assert (a + b)[n..] == a[n..] + b && (a + b)[..n] == a[..n] && (a + b)[0] == a[0];
    }
  }

  // ---- Relative jumps.

  /** target - after, as a signed 32-bit number. */
  function Offset(target: nat, after: nat): int {
    Signed((target - after) % MEMORY, MEMORY)
  }

  predicate IsShort(addr: nat, target: nat) {
    -129 < Offset(target, addr + 2) < 128
  }

  function JumpBytes(addr: nat, target: nat): (s: seq<byte>)
    ensures |s| == if IsShort(addr, target) then 2 else 5
  {
    if IsShort(addr, target) then [SHORT_JMP, Offset(target, addr + 2) % 0x100]
    else [LONG_JMP] + LeBytes((target - (addr + 5)) % MEMORY, 4)
  }

  lemma ShortBytes(addr: nat, target: nat)
    requires IsShort(addr, target)
    ensures JumpBytes(addr, target) == [SHORT_JMP, Offset(target, addr + 2) % 0x100]
  {
  }

  lemma LongBytes(addr: nat, target: nat)
    requires !IsShort(addr, target)
    ensures JumpBytes(addr, target) == [LONG_JMP] + LeBytes((target - (addr + 5)) % MEMORY, 4)
  {
  }

  lemma ShortLands(addr: nat, target: nat)
    requires addr < MEMORY && target < MEMORY && IsShort(addr, target)
    ensures (addr + 2 + Signed(Offset(target, addr + 2) % 0x100, 0x100)) % MEMORY == target
  {
    var o := Offset(target, addr + 2);
    assert Signed(o % 0x100, 0x100) == o;
    Lands(addr + 2, target);
  }

  lemma Lands(after: nat, target: nat)
    requires target < MEMORY
    ensures (after + (target - after) % MEMORY) % MEMORY == target
    ensures (after + Offset(target, after)) % MEMORY == target
  {
    var d := (target - after) % MEMORY;
    var q := (target - after) / MEMORY;
    assert target - after == q * MEMORY + d;
    assert after + d == target - q * MEMORY;
    ModShift(target, -q);
    ModShift(target, -q - 1);
  }

  lemma ModShift(x: nat, k: int)
    requires x < MEMORY
    ensures (x + k * MEMORY) % MEMORY == x
  {
  }

  lemma LeRoundTrip(v: nat, bytes: seq<byte>)
    requires v < MEMORY && bytes == LeBytes(v, 4)
    ensures LeValue(bytes) == v
  {
    hide Pow2;
    Pow2Word();
    LeValueBytes(v, 4);
  }

  lemma Pow2Word()
    ensures Pow2(32) == MEMORY
  {
    hide Pow2;
    Pow2Values();
    Pow2Add(8, 8);
    Pow2Add(16, 16);
  }

  /** One step takes the machine from the jump to its target. */
  lemma JumpLands<S>(isa: Isa<S>, mem: seq<byte>, addr: nat, target: nat, s: S)
    requires |mem| == MEMORY && target < MEMORY && addr + |JumpBytes(addr, target)| <= MEMORY
    requires mem[addr..addr + |JumpBytes(addr, target)|] == JumpBytes(addr, target)
    ensures Step(isa, mem, addr, s) == (target, s)
    ensures Run(isa, mem, 1, addr, s) == (target, s)
  {
    if IsShort(addr, target) {
      ShortStep(isa, mem, addr, target, s);
    } else {
      LongStep(isa, mem, addr, target, s);
    }
    hide Step, JumpBytes;
    assert Run(isa, mem, 0, target, s) == (target, s);
  }

  lemma ShortStep<S>(isa: Isa<S>, mem: seq<byte>, addr: nat, target: nat, s: S)
    requires |mem| == MEMORY && target < MEMORY && addr + 2 <= MEMORY && IsShort(addr, target)
    requires mem[addr..addr + 2] == JumpBytes(addr, target)
    ensures Step(isa, mem, addr, s) == (target, s)
  {
    var here := mem[addr..addr + 2];
    assert here[0] == mem[addr] && here[1] == mem[addr + 1];
    ShortLands(addr, target);
    hide Offset, IsShort, Signed;
  }

  lemma LongStep<S>(isa: Isa<S>, mem: seq<byte>, addr: nat, target: nat, s: S)
    requires |mem| == MEMORY && target < MEMORY && addr + 5 <= MEMORY && !IsShort(addr, target)
    requires mem[addr..addr + 5] == JumpBytes(addr, target)
    ensures Step(isa, mem, addr, s) == (target, s)
  {
    hide Offset, IsShort, Signed, LeValue, LeBytes;
    var d := (target - (addr + 5)) % MEMORY;
    var here := mem[addr..addr + 5];
    assert here[0] == mem[addr] && here[1..] == mem[addr + 1..addr + 5];
    assert ([LONG_JMP] + LeBytes(d, 4))[1..] == LeBytes(d, 4);
    LeRoundTrip(d, here[1..]);
    Lands(addr + 5, target);
  }

  /** A jump to target stands at a. */
  ghost predicate JumpAt(mem: seq<byte>, a: nat, target: nat) {
    a + |JumpBytes(a, target)| <= |mem| && mem[a..a + |JumpBytes(a, target)|] == JumpBytes(a, target)
  }

  /** content stands at a, followed by a jump to next. */
  ghost predicate Moved(mem: seq<byte>, a: nat, content: seq<byte>, next: nat) {
    && |mem| == MEMORY && a + |content| + 5 <= MEMORY
    && mem[a..a + |content|] == content && JumpAt(mem, a + |content|, next)
  }

  lemma JumpKept(m: seq<byte>, mem: seq<byte>, a: nat, target: nat)
    requires JumpAt(m, a, target) && |m| == |mem| && a + 5 <= |m| && m[a..a + 5] == mem[a..a + 5]
    ensures JumpAt(mem, a, target)
  {
    hide JumpBytes;
    var n := |JumpBytes(a, target)|;
    FirstPart(m, a, 5, n);
    FirstPart(mem, a, 5, n);
  }

  lemma FirstPart(mem: seq<byte>, a: nat, n: nat, k: nat)
    requires a + n <= |mem| && k <= n
    ensures mem[a..a + n][..k] == mem[a..a + k]
  {
  }

  lemma SameJump(mem0: seq<byte>, mem: seq<byte>, a: nat, target: nat, n: nat)
    requires |mem0| == |mem| && a + n <= |mem| && mem[a..a + n] == mem0[a..a + n]
    ensures JumpAt(mem0, a, target) && |JumpBytes(a, target)| <= n ==> JumpAt(mem, a, target)
  {
    hide JumpBytes;
    var k := |JumpBytes(a, target)|;
    if k <= n {
      FirstPart(mem, a, n, k);
      FirstPart(mem0, a, n, k);
    }
  }

  // ---- What runs.

  lemma MovedRuns<S>(isa: Isa<S>, mem: seq<byte>, a: nat, content: seq<byte>, next: nat, s: S)
    requires |mem| == MEMORY && a + |content| + 5 <= MEMORY && mem[a..a + |content|] == content && JumpAt(mem, a + |content|, next)
    requires next < MEMORY && Straight(isa, content)
    ensures Run(isa, mem, Instructions(isa, content) + 1, a, s) == (next, Effect(isa, content, s))
  {
    hide Straight, JumpBytes, Step, Run, Effect, Instructions;
    StraightRuns(isa, mem, a, content, s);
    RunSum(isa, mem, Instructions(isa, content), 1, a, s);
    JumpLands(isa, mem, a + |content|, next, Effect(isa, content, s));
  }
}
