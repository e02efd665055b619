/**
 Signal delivery on x86-64: the frame that is pushed on the user stack when a handler is
 entered, and `sigreturn`, which takes it back (xscore/kernel/process.c).

 Memory is seen as 64-bit words at addresses that are multiples of 8.
 */
module SignalFrames {

  const RAX: nat := 14
  const RSI: nat := 8
  const RDI: nat := 9
  const RDX: nat := 11
  const RIP: nat := 15
  const RSP: nat := 18
  const MAGIC: nat := 0x53494746
  const WORDS: nat := 37
  const FRAME: nat := 8 * WORDS
  /** Where the signal information starts within the frame. */
  const SIGINFO: nat := 168

  /** The saved registers of a trap, in the order of the frame. */
  type Context = c: seq<nat> | |c| == 20 witness seq(20, _ => 0)

  /** A word of memory: one number, or two 32-bit fields. */
  datatype Word = Num(value: nat) | Halves(low: bv32, high: nat)

  type Memory = nat -> Word

  datatype Cpu = Cpu(ctx: Context, mask: bv32, mem: Memory)

  /** How a handler was installed, and what it is told. */
  datatype Delivery = Delivery(signal: nat, handler: nat, restorer: nat, blocks: bv32,
                               nodefer: bool, siginfo: bool, code: nat, address: nat)

  ghost function Write(mem: Memory, at: nat, words: seq<Word>): Memory {
    (a: nat) => if at <= a < at + 8 * |words| && (a - at) % 8 == 0 then words[(a - at) / 8] else mem(a)
  }

  ghost function Read(mem: Memory, at: nat, n: nat): (r: seq<Word>)
    ensures |r| == n
  {
    seq(n, i requires 0 <= i < n => mem(at + 8 * i))
  }

  /** The frame: the registers with a zero result, the mask with the magic, and the signal information. */
  function Frame(ctx: Context, mask: bv32, d: Delivery): (f: seq<Word>)
    ensures |f| == WORDS
  {
    Nums(ctx[RAX := 0]) + [Halves(mask, MAGIC)] + Nums([d.signal, d.code, d.address]) + Nums(seq(13, _ => 0))
  }

  function Nums(values: seq<nat>): (w: seq<Word>)
    ensures |w| == |values| && forall i :: 0 <= i < |w| ==> w[i] == Num(values[i])
  {
    seq(|values|, i requires 0 <= i < |values| => Num(values[i]))
  }

  /** The registers in a frame; a word that is no number counts as zero. */
  function Values(words: seq<Word>): (v: seq<nat>)
    ensures |v| == |words| && forall i :: 0 <= i < |v| ==> v[i] == if words[i].Num? then words[i].value else 0
  {
    seq(|words|, i requires 0 <= i < |words| => if words[i].Num? then words[i].value else 0)
  }

  function FrameAddress(rsp: nat): nat
    requires rsp >= FRAME
  {
    (rsp - FRAME) / 16 * 16
  }

  ghost predicate CanPush(cpu: Cpu) {
    cpu.ctx[RSP] >= FRAME + 24
  }

  /** The bit of a signal in a mask. */
  function Bit(signal: nat): bv32 {
    if signal == 0 then 1 else Bit(signal - 1) << 1
  }

  /** The mask while the handler runs. */
  function MaskDuring(mask: bv32, d: Delivery): bv32 {
    mask | d.blocks | (if d.nodefer then 0 else Bit(d.signal))
  }

  /** `dispatch_user_signal` with both copies done. */
  ghost function Delivered(cpu: Cpu, d: Delivery): (r: Cpu)
    requires CanPush(cpu)
  {
    var sp := FrameAddress(cpu.ctx[RSP]);
    var ctx := cpu.ctx[RSP := sp - 8][RIP := d.handler][RDI := d.signal];
    var told := if d.siginfo then ctx[RSI := sp + SIGINFO][RDX := sp] else ctx;
    Cpu(told, MaskDuring(cpu.mask, d),
        Write(Write(cpu.mem, sp, Frame(cpu.ctx, cpu.mask, d)), sp - 8, [Num(d.restorer)]))
  }

  datatype Return = Refused | Resumed(cpu: Cpu)

  /** `sigreturn`: refused when there is no frame at the stack pointer. */
  ghost function Returned(cpu: Cpu): (r: Return) {
    var f := Read(cpu.mem, cpu.ctx[RSP], WORDS);
    if f[20].Halves? && f[20].high == MAGIC then Resumed(Cpu(Values(f[..20]), f[20].low, cpu.mem)) else Refused
  }

  lemma Eighth(i: nat)
    ensures (8 * i) % 8 == 0 && (8 * i) / 8 == i
  {
  }

  /** What is written is read back, and other words stay. */
  lemma ReadWrite(mem: Memory, at: nat, words: seq<Word>)
    ensures Read(Write(mem, at, words), at, |words|) == words
  {
    var r := Read(Write(mem, at, words), at, |words|);
    forall i | 0 <= i < |words|
      ensures r[i] == words[i]
    {
      WriteAt(mem, at, words, i);
    }
  }

  lemma WriteAt(mem: Memory, at: nat, words: seq<Word>, i: nat)
    requires i < |words|
    ensures Write(mem, at, words)(at + 8 * i) == words[i]
  {
    Eighth(i);
    var a := at + 8 * i;
    assert a - at == 8 * i;
  }

  lemma ReadSame(mem: Memory, mem': Memory, at: nat, n: nat)
    requires forall a :: a in Words(at, n) ==> mem'(a) == mem(a)
    ensures Read(mem', at, n) == Read(mem, at, n)
  {
    forall i | 0 <= i < n
      ensures mem'(at + 8 * i) == mem(at + 8 * i)
    {
      Eighth(i);
      assert at + 8 * i in Words(at, n);
    }
  }

  /** The addresses of `n` words. */
  ghost function Words(at: nat, n: nat): iset<nat> {
    iset a: nat | InWords(a, at, n)
  }

  ghost predicate InWords(a: nat, at: nat, n: nat) {
    at <= a < at + 8 * n && (a - at) % 8 == 0
  }

  /** A frame that is still on the stack is taken back exactly, with a zero result. */
  lemma FrameReturns(cpu: Cpu, d: Delivery, e: Cpu)
    requires CanPush(cpu) && e.ctx[RSP] == FrameAddress(cpu.ctx[RSP])
    requires forall a :: a in Words(e.ctx[RSP], WORDS) ==> e.mem(a) == Delivered(cpu, d).mem(a)
    ensures Returned(e) == Resumed(Cpu(cpu.ctx[RAX := 0], cpu.mask, e.mem))
  {
    var sp := e.ctx[RSP];
    var frame := Frame(cpu.ctx, cpu.mask, d);
    var pushed := Write(cpu.mem, sp, frame);
    var both := Write(pushed, sp - 8, [Num(d.restorer)]);
    ReadWrite(cpu.mem, sp, frame);
    ReadSame(pushed, both, sp, WORDS);
    ReadSame(both, e.mem, sp, WORDS);
    assert frame[..20] == Nums(cpu.ctx[RAX := 0]);
    assert Values(frame[..20]) == cpu.ctx[RAX := 0];
  }

  /** A return is refused if and only if no frame with its magic number stands at the stack pointer. */
  lemma ReturnRefused(e: Cpu)
    ensures Returned(e) == Refused <==> !exists mask :: e.mem(e.ctx[18] + 160) == Halves(mask, 0x53494746)
  {
    var f := Read(e.mem, e.ctx[RSP], WORDS);
    assert f[20] == e.mem(e.ctx[18] + 8 * 20);
    if Returned(e) != Refused {
      assert f[20] == Halves(f[20].low, MAGIC);
    }
  }

  // ---------- How a handler is entered ----------

  lemma WriteElsewhere(mem: Memory, at: nat, words: seq<Word>, a: nat)
    requires a < at || at + 8 * |words| <= a
    ensures Write(mem, at, words)(a) == mem(a)
  {
  }

  /** The words of the frame, at their addresses. */
  lemma FrameWords(s: Cpu, d: Delivery, sp: nat, i: nat)
    requires CanPush(s) && sp == FrameAddress(s.ctx[RSP]) && i < WORDS
    ensures Delivered(s, d).mem(sp + 8 * i) == Frame(s.ctx, s.mask, d)[i]
  {
    var frame := Frame(s.ctx, s.mask, d);
    WriteAt(s.mem, sp, frame, i);
    WriteElsewhere(Write(s.mem, sp, frame), sp - 8, [Num(d.restorer)], sp + 8 * i);
  }

  /**
   The handler starts with the signal as its first argument and, where it asks for them, the addresses
   of the signal information and of the frame as the others; every other register is as it was.
   */
  lemma EntryRegisters(s: Cpu, d: Delivery)
    requires CanPush(s)
    ensures var t := Delivered(s, d).ctx; var sp := FrameAddress(s.ctx[18]);
      && t[15] == d.handler && t[9] == d.signal && t[18] == sp - 8
      && t[8] == (if d.siginfo then sp + 168 else s.ctx[8]) && t[11] == (if d.siginfo then sp else s.ctx[11])
      && forall i :: 0 <= i < 20 && i !in {8, 9, 11, 15, 18} ==> t[i] == s.ctx[i]
  {
  }

  /** The frame lies below the old stack pointer, as high as its alignment lets it. */
  lemma EntryFrame(s: Cpu)
    requires CanPush(s)
    ensures var sp := FrameAddress(s.ctx[18]); sp % 16 == 0 && sp + 296 <= s.ctx[18] < sp + 296 + 16
  {
  }

  /** What the handler finds in memory: its return address, the registers, the mask and the signal information. */
  lemma EntryMemory(s: Cpu, d: Delivery, sp: nat)
    requires CanPush(s) && sp == FrameAddress(s.ctx[18])
    ensures var m := Delivered(s, d).mem;
      && m(sp - 8) == Num(d.restorer)
      && (forall i: nat :: i < 20 ==> m(sp + 8 * i) == Num(if i == 14 then 0 else s.ctx[i]))
      && m(sp + 160) == Halves(s.mask, 0x53494746)
      && m(sp + 168) == Num(d.signal) && m(sp + 176) == Num(d.code) && m(sp + 184) == Num(d.address)
      && (forall a: nat :: a < sp - 8 || sp + 296 <= a ==> m(a) == s.mem(a))
  {
    WriteAt(Write(s.mem, sp, Frame(s.ctx, s.mask, d)), sp - 8, [Num(d.restorer)], 0);
    forall i: nat | i < 20
      ensures Delivered(s, d).mem(sp + 8 * i) == Num(if i == 14 then 0 else s.ctx[i])
    {
      FrameWords(s, d, sp, i);
    }
    FrameWords(s, d, sp, 20);
    FrameWords(s, d, sp, 21);
    FrameWords(s, d, sp, 22);
    FrameWords(s, d, sp, 23);
  }

  lemma Union(a: bv32, b: bv32)
    ensures (a | b) & a == a && (a | b) & b == b
  {
  }

  /** The first, a middle and the last signal that a handler can have. */
  lemma SignalBits()
    ensures Bit(1) == 0x2 && Bit(16) == 0x1_0000 && Bit(31) == 0x8000_0000
  {
    assert Bit(4) == 0x10 && Bit(8) == 0x100 && Bit(12) == 0x1000;
    assert Bit(20) == 0x10_0000 && Bit(24) == 0x100_0000 && Bit(28) == 0x1000_0000;
  }

  /** While the handler runs, what was blocked stays blocked, with what the handler blocks and the signal itself. */
  lemma EntryMask(s: Cpu, d: Delivery)
    requires CanPush(s) && !d.nodefer
    ensures var mask := Delivered(s, d).mask;
      && mask == s.mask | d.blocks | Bit(d.signal)
      && mask & (s.mask | d.blocks) == s.mask | d.blocks && mask & Bit(d.signal) == Bit(d.signal)
  {
    Union(s.mask | d.blocks, Bit(d.signal));
  }

  /** A handler that does not defer its signal can be interrupted by it, if it was not blocked before. */
  lemma OpenMask(s: Cpu, d: Delivery)
    requires CanPush(s) && d.nodefer
    ensures Delivered(s, d).mask == s.mask | d.blocks
  {
    Nothing(s.mask | d.blocks);
  }

  lemma Nothing(a: bv32)
    ensures a | 0 == a
  {
  }

  // ---------- Handlers that are interrupted themselves ----------

  /** Code that runs until a state is reached, or a signal whose handler does `body` and returns. */
  datatype Action = Work(after: Cpu) | Handle(d: Delivery, body: seq<Action>)

  /** The state after an action: a handler returns to its restorer, which calls `sigreturn`. */
  ghost function Step(s: Cpu, a: Action): Cpu
    requires Able(s, a)
    decreases a, 1
  {
    match a
    case Work(after) => after
    case Handle(d, body) => Left(Run(Delivered(s, d), body))
  }

  /** The handler returns, taking its return address off the stack, into `sigreturn`. */
  ghost function Left(e: Cpu): Cpu {
    var r := Returned(Popped(e));
    if r.Resumed? then r.cpu else e
  }

  ghost function Popped(e: Cpu): (r: Cpu)
    ensures r.ctx[RSP] == e.ctx[RSP] + 8 && r.mem == e.mem
  {
    e.(ctx := e.ctx[RSP := e.ctx[RSP] + 8])
  }

  ghost function Run(s: Cpu, actions: seq<Action>): Cpu
    requires AllAble(s, actions)
    decreases actions, 1
  {
    if actions == [] then s else Run(Step(s, actions[0]), actions[1..])
  }

  /** Every delivery finds room on the stack. */
  ghost predicate Able(s: Cpu, a: Action)
    decreases a, 0
  {
    a.Handle? ==> CanPush(s) && AllAble(Delivered(s, a.d), a.body)
  }

  ghost predicate AllAble(s: Cpu, actions: seq<Action>)
    decreases actions, 0
  {
    actions != [] ==> Able(s, actions[0]) && AllAble(Step(s, actions[0]), actions[1..])
  }

  /** The words that must survive lie at or above the stack pointer. */
  ghost predicate StackBelow(s: Cpu, kept: iset<nat>) {
    forall a :: a in kept ==> a >= s.ctx[RSP]
  }

  ghost predicate SameWords(mem: Memory, mem': Memory, kept: iset<nat>) {
    forall a :: a in kept ==> mem'(a) == mem(a)
  }

  /** The frame of a delivery, with the return address below it. */
  ghost function Pushed(s: Cpu): iset<nat>
    requires CanPush(s)
  {
    Words(FrameAddress(s.ctx[RSP]) - 8, WORDS + 1)
  }

  /**
   What is asked of user code: it leaves alone what lies above its stack pointer on entry
   that is marked as kept, keeps its stack below that, and a handler returns with the stack
   pointer it was entered with.
   */
  ghost predicate Obeys(s: Cpu, actions: seq<Action>, kept: iset<nat>)
    requires AllAble(s, actions)
    decreases actions
  {
    actions != [] ==> StepObeys(s, actions[0], kept) && Obeys(Step(s, actions[0]), actions[1..], kept)
  }

  ghost predicate StepObeys(s: Cpu, a: Action, kept: iset<nat>)
    requires Able(s, a)
    decreases a
  {
    match a
    case Work(after) => SameWords(s.mem, after.mem, kept) && StackBelow(after, kept)
    case Handle(d, body) =>
      && Obeys(Delivered(s, d), body, kept + Pushed(s))
      && Run(Delivered(s, d), body).ctx[RSP] == Delivered(s, d).ctx[RSP]
  }

  lemma PushMisses(s: Cpu, d: Delivery, kept: iset<nat>)
    requires CanPush(s) && StackBelow(s, kept)
    ensures SameWords(s.mem, Delivered(s, d).mem, kept)
    ensures StackBelow(Delivered(s, d), kept + Pushed(s))
  {
    var sp := FrameAddress(s.ctx[RSP]);
    assert sp + FRAME <= s.ctx[RSP];
  }

  /**
   Handlers may be interrupted by further signals to any depth: each one resumes the
   interrupted code with exactly its registers, apart from a zero result, and its mask, and
   it gets there through its own restorer.
   */
  lemma {:induction false} HandlerRestores(s: Cpu, d: Delivery, body: seq<Action>, kept: iset<nat>)
    requires Able(s, Handle(d, body)) && StepObeys(s, Handle(d, body), kept) && StackBelow(s, kept)
    ensures var t := Step(s, Handle(d, body));
      t.ctx == s.ctx[RAX := 0] && t.mask == s.mask && SameWords(s.mem, t.mem, kept)
    ensures var e := Run(Delivered(s, d), body); e.mem(e.ctx[RSP]) == Num(d.restorer)
    decreases body, 1
  {
    PushMisses(s, d, kept);
    KeptThroughout(Delivered(s, d), body, kept + Pushed(s));
    var e := Run(Delivered(s, d), body);
    KeptTwice(s.mem, Delivered(s, d).mem, e.mem, kept, Pushed(s));
    BalancedReturns(s, d, e);
  }

  lemma KeptTwice(m: Memory, m': Memory, m'': Memory, kept: iset<nat>, more: iset<nat>)
    requires SameWords(m, m', kept) && SameWords(m', m'', kept + more)
    ensures SameWords(m, m'', kept) && SameWords(m', m'', more)
  {
  }

  lemma EntryStack(s: Cpu, d: Delivery)
    requires CanPush(s)
    ensures Delivered(s, d).ctx[RSP] == FrameAddress(s.ctx[RSP]) - 8
  {
  }

  /** A handler that ends with the stack pointer it began with, and has left the frame alone. */
  lemma BalancedReturns(s: Cpu, d: Delivery, e: Cpu)
    requires CanPush(s) && e.ctx[RSP] == Delivered(s, d).ctx[RSP] && SameWords(Delivered(s, d).mem, e.mem, Pushed(s))
    ensures Left(e) == Cpu(s.ctx[RAX := 0], s.mask, e.mem)
    ensures e.mem(e.ctx[RSP]) == Num(d.restorer)
  {
    EntryStack(s, d);
    PushedWords(s, d, e);
    FrameReturns(s, d, Popped(e));
  }

  lemma PushedWords(s: Cpu, d: Delivery, e: Cpu)
    requires CanPush(s) && SameWords(Delivered(s, d).mem, e.mem, Pushed(s))
    ensures var sp := FrameAddress(s.ctx[RSP]);
      (forall a :: a in Words(sp, WORDS) ==> e.mem(a) == Delivered(s, d).mem(a)) && e.mem(sp - 8) == Num(d.restorer)
  {
    var sp := FrameAddress(s.ctx[RSP]);
    forall a | a in Words(sp, WORDS)
      ensures a in Pushed(s)
    {
      assert (a - (sp - 8)) % 8 == 0;
    }
    assert InWords(sp - 8, sp - 8, WORDS + 1);
    assert sp - 8 in Pushed(s);
  }

  /** Whatever runs, with whatever signals in between, keeps what has to be kept. */
  lemma {:induction false} KeptThroughout(s: Cpu, actions: seq<Action>, kept: iset<nat>)
    requires AllAble(s, actions) && Obeys(s, actions, kept) && StackBelow(s, kept)
    ensures SameWords(s.mem, Run(s, actions).mem, kept) && StackBelow(Run(s, actions), kept)
    decreases actions, 0
  {
    if actions != [] {
      var mid := Step(s, actions[0]);
      match actions[0] {
        case Work(after) =>
        case Handle(d, body) =>
          HandlerRestores(s, d, body, kept);
      }
      KeptThroughout(mid, actions[1..], kept);
    }
  }
}
