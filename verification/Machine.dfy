// The part of x86-64 that the emitted code uses: fourteen general registers (in the order of the compiler's
// register table), rsp, rbp, word memory, flags, labels and a trace of what was printed.
module Machine {
  import opened Basics
  import opened Words
  import opened Source

  const NUM_REGS: nat := 14

  type Reg = r: int | 0 <= r < NUM_REGS witness 0
  type RegFile = s: seq<int> | |s| == NUM_REGS witness [0, 0, 0, 0, 0, 0, 0, 0, 0, 0, 0, 0, 0, 0]

  // Positions in the compiler's register table that the code below has to name.
  const RCX: Reg := 1
  const R11: Reg := 5
  const RDX: Reg := 10
  const RAX: Reg := 12
  const RDI: Reg := 13

  datatype AluOp = Add | Sub | Imul

  // The condition codes e, ne, l, g, le and ge.
  datatype CC = CcE | CcNe | CcL | CcG | CcLe | CcGe

  datatype Instr =
    | Push(r: Reg)
    | Pop(r: Reg)
    | MovImm(d: Reg, n: int)
    | MovReg(d: Reg, s: Reg)
    | Lea(d: Reg, off: int)              // lea d, [rbp+off]
    | Load(d: Reg, a: Reg)               // mov d, [a]
    | Store(a: Reg, s: Reg)              // mov [a], s
    | Alu(op: AluOp, d: Reg, s: Reg)     // add, sub, imul
    | XorSelf(d: Reg)                    // xor d, d
    | Cmp(a: Reg, b: Reg)
    | CmpOne(a: Reg)                     // cmp a, 1
    | SetCC(cc: CC, d: Reg)              // setcc on the low byte of d
    | Movzx(d: Reg, s: Reg)              // movzx d, low byte of s
    | Cdq
    | Idiv(s: Reg)
    | AddRsp(n: int)
    | SubRsp(n: int)
    | MovRbpRsp
    | CallWriteInteger
    | CallWriteNewline
    | Label(l: int)
    | Jne(l: int)
    | Jmp(l: int)
    | Syscall

  datatype Flags = Undefined | Flags(zero: bool, sign: bool, overflow: bool)

  datatype State = State(regs: RegFile, rsp: int, rbp: int, mem: map<int, int>, flags: Flags, out: seq<Event>)

  // What the machine leaves unspecified, as a function of what was printed so far: the words a call leaves
  // below the stack pointer, and the values the write system call puts in rcx and r11.
  datatype Env = Env(junk: seq<Event> -> map<int, int>, kernel: seq<Event> -> (int, int))

  function Read(mem: map<int, int>, a: int): int {
    if a in mem then mem[a] else 0
  }

  // A called routine may overwrite anything below rsp and nothing else.
  function AfterCall(mem: map<int, int>, rsp: int, junk: map<int, int>): map<int, int> {
    map a | a in mem.Keys + junk.Keys :: if a < rsp then Read(junk, a) else Read(mem, a)
  }

  function LowByte(x: int): int { x % 256 }

  // idiv divides the 128-bit rdx:rax by a nonzero word, truncating toward zero; the quotient must fit.
  function Quot(a: int, b: int): int
    requires b != 0
  {
    var q := (if a < 0 then -a else a) / (if b < 0 then -b else b);
    if (a < 0) == (b < 0) then q else -q
  }

  function Rem(a: int, b: int): int
    requires b != 0
  {
    a - Quot(a, b) * b
  }

  function Dividend(rdx: int, rax: int): int {
    Wrap(rdx) * TWO_64 + rax % TWO_64
  }

  function Compute(op: AluOp, a: int, b: int): Word {
    match op
    case Add => Wrap(a + b)
    case Sub => Wrap(a - b)
    case Imul => Wrap(a * b)
  }

  // cmp sets the flags from the 64-bit difference.
  function Compared(a: int, b: int): Flags {
    var d := Wrap(a - b);
    Flags(d == 0, d < 0, d != a - b)
  }

  // What setcc reads off the flags.
  predicate Meets(cc: CC, f: Flags)
    requires f.Flags?
  {
    match cc
    case CcE => f.zero
    case CcNe => !f.zero
    case CcL => f.sign != f.overflow
    case CcG => !f.zero && f.sign == f.overflow
    case CcLe => f.zero || f.sign != f.overflow
    case CcGe => f.sign == f.overflow
  }

  // Memory is accessed in aligned words; an unaligned access, a conditional on undefined flags and a
  // division that faults have no successor.
  function Step(env: Env, i: Instr, s: State): Option<State> {
    match i
    case Push(r) =>
      if s.rsp % 8 != 0 then None
      else Some(s.(rsp := s.rsp - 8, mem := s.mem[s.rsp - 8 := s.regs[r]]))
    case Pop(r) =>
      if s.rsp % 8 != 0 then None
      else Some(s.(rsp := s.rsp + 8, regs := s.regs[r := Read(s.mem, s.rsp)]))
    case MovImm(d, n) => Some(s.(regs := s.regs[d := n]))
    case MovReg(d, r) => Some(s.(regs := s.regs[d := s.regs[r]]))
    case Lea(d, off) => Some(s.(regs := s.regs[d := s.rbp + off]))
    case Load(d, a) =>
      if s.regs[a] % 8 != 0 then None else Some(s.(regs := s.regs[d := Read(s.mem, s.regs[a])]))
    case Store(a, r) =>
      if s.regs[a] % 8 != 0 then None else Some(s.(mem := s.mem[s.regs[a] := s.regs[r]]))
    case Alu(op, d, r) =>
      Some(s.(regs := s.regs[d := Compute(op, s.regs[d], s.regs[r])], flags := Undefined))
    case XorSelf(d) => Some(s.(regs := s.regs[d := 0], flags := Undefined))
    case Cmp(a, b) => Some(s.(flags := Compared(s.regs[a], s.regs[b])))
    case CmpOne(a) => Some(s.(flags := Compared(s.regs[a], 1)))
    case SetCC(cc, d) =>
      if s.flags.Undefined? then None
      else
        var bit := if Meets(cc, s.flags) then 1 else 0;
        Some(s.(regs := s.regs[d := s.regs[d] - LowByte(s.regs[d]) + bit]))
    case Movzx(d, r) => Some(s.(regs := s.regs[d := LowByte(s.regs[r])]))
    case Cdq =>
      var eax := s.regs[RAX] % TWO_32;
      Some(s.(regs := s.regs[RDX := if eax < TWO_31 then 0 else TWO_32 - 1]))
    case Idiv(r) =>
      var a, b := Dividend(s.regs[RDX], s.regs[RAX]), s.regs[r];
      if b == 0 || !(-TWO_63 <= Quot(a, b) < TWO_63) then None
      else Some(s.(regs := s.regs[RAX := Quot(a, b)][RDX := Rem(a, b)], flags := Undefined))
    case AddRsp(n) => Some(s.(rsp := s.rsp + n, flags := Undefined))
    case SubRsp(n) => Some(s.(rsp := s.rsp - n, flags := Undefined))
    case MovRbpRsp => Some(s.(rbp := s.rsp))
    case CallWriteInteger =>
      if s.rsp % 8 != 0 then None
      else Some(s.(mem := AfterCall(s.mem, s.rsp, env.junk(s.out)), flags := Undefined,
                   out := s.out + [Printed(Read(s.mem, s.rsp))]))
    case CallWriteNewline =>
      if s.rsp % 8 != 0 then None
      else
        var k := env.kernel(s.out);
        Some(s.(mem := AfterCall(s.mem, s.rsp, env.junk(s.out)), flags := Undefined,
                regs := s.regs[RCX := k.0][R11 := k.1], out := s.out + [Newline]))
    case Label(_) => Some(s)
    case Jne(_) | Jmp(_) | Syscall => None
  }

  predicate Straight(i: Instr) {
    !i.Jne? && !i.Jmp? && !i.Syscall?
  }

  // ---- straight-line execution ----

  ghost predicate Stepped(env: Env, c: seq<Instr>, tr: seq<State>, i: int)
    requires 0 <= i < |c| && |tr| == |c| + 1
  {
    Step(env, c[i], tr[i]) == Some(tr[i + 1])
  }

  // Executing the instructions of c one after the other takes s to t.
  ghost predicate Runs(env: Env, c: seq<Instr>, s: State, t: State) {
    exists tr: seq<State> :: |tr| == |c| + 1 && tr[0] == s && tr[|c|] == t && RunTrace(env, c, tr)
  }

  ghost predicate RunTrace(env: Env, c: seq<Instr>, tr: seq<State>)
    requires |tr| == |c| + 1
  {
    forall i {:trigger Stepped(env, c, tr, i)} :: 0 <= i < |c| ==> Stepped(env, c, tr, i)
  }

  lemma RunsNone(env: Env, s: State)
    ensures Runs(env, [], s, s)
  {
    assert RunTrace(env, [], [s]);
  }

  lemma RunsOne(env: Env, i: Instr, s: State, t: State)
    requires Step(env, i, s) == Some(t)
    ensures Runs(env, [i], s, t)
  {
    assert Stepped(env, [i], [s, t], 0);
    assert RunTrace(env, [i], [s, t]);
  }

  lemma RunsAppend(env: Env, c: seq<Instr>, d: seq<Instr>, s: State, t: State, u: State)
    requires Runs(env, c, s, t) && Runs(env, d, t, u)
    ensures Runs(env, c + d, s, u)
  {
    var p: seq<State> :| |p| == |c| + 1 && p[0] == s && p[|c|] == t && RunTrace(env, c, p);
    var q: seq<State> :| |q| == |d| + 1 && q[0] == t && q[|d|] == u && RunTrace(env, d, q);
    var r := p + q[1..];
    forall i | 0 <= i < |c + d| ensures Stepped(env, c + d, r, i) {
      if i < |c| {
        assert Stepped(env, c, p, i);
      } else {
        assert Stepped(env, d, q, i - |c|);
        assert (c + d)[i] == d[i - |c|] && r[i] == q[i - |c|] && r[i + 1] == q[i - |c| + 1];
      }
    }
    assert RunTrace(env, c + d, r);
  }

  lemma RunsTwo(env: Env, i: Instr, j: Instr, s: State, t: State, u: State)
    requires Step(env, i, s) == Some(t) && Step(env, j, t) == Some(u)
    ensures Runs(env, [i, j], s, u)
  {
    RunsOne(env, i, s, t);
    RunsOne(env, j, t, u);
    RunsAppend(env, [i], [j], s, t, u);
    assert [i] + [j] == [i, j];
  }

  lemma RunsThree(env: Env, c: seq<Instr>, d: seq<Instr>, e: seq<Instr>, s: State, s1: State, s2: State, t: State)
    requires Runs(env, c, s, s1) && Runs(env, d, s1, s2) && Runs(env, e, s2, t)
    ensures Runs(env, c + d + e, s, t)
  {
    RunsAppend(env, c, d, s, s1, s2);
    RunsAppend(env, c + d, e, s, s2, t);
  }

  // ---- whole programs ----

  datatype Config = Config(pc: int, s: State)

  // The position of the first definition of label l, or |code| if there is none.
  function FindLabel(code: seq<Instr>, l: int): (i: nat)
    ensures i <= |code|
    ensures i < |code| ==> code[i] == Label(l)
    ensures i == |code| ==> Label(l) !in code
  {
    if code == [] then 0
    else if code[0] == Label(l) then 0
    else
      var i := FindLabel(code[1..], l);
      assert i < |code| - 1 ==> code[1..][i] == code[i + 1];
      i + 1
  }

  ghost predicate Defines(code: seq<Instr>, i: int, l: int) {
    0 <= i < |code| && code[i] == Label(l)
  }

  ghost predicate UniqueLabels(code: seq<Instr>) {
    forall i, j, l :: Defines(code, i, l) && Defines(code, j, l) ==> i == j
  }

  function Jump(code: seq<Instr>, l: int, s: State): Option<Config> {
    var i := FindLabel(code, l);
    if i == |code| then None else Some(Config(i, s))
  }

  function Tick(env: Env, code: seq<Instr>, c: Config): Option<Config> {
    if !(0 <= c.pc < |code|) then None
    else
      match code[c.pc]
      case Jmp(l) => Jump(code, l, c.s)
      case Jne(l) =>
        if c.s.flags.Undefined? then None
        else if !c.s.flags.zero then Jump(code, l, c.s)
        else Some(Config(c.pc + 1, c.s))
      case i =>
        var r := Step(env, i, c.s);
        if r.None? then None else Some(Config(c.pc + 1, r.value))
  }

  ghost predicate Ticked(env: Env, code: seq<Instr>, tr: seq<Config>, i: int)
    requires 0 <= i < |tr| - 1
  {
    Tick(env, code, tr[i]) == Some(tr[i + 1])
  }

  ghost predicate TickTrace(env: Env, code: seq<Instr>, tr: seq<Config>) {
    forall i {:trigger Ticked(env, code, tr, i)} :: 0 <= i < |tr| - 1 ==> Ticked(env, code, tr, i)
  }

  // Started at c, the machine is at d after exactly n steps.
  ghost predicate Reaches(env: Env, code: seq<Instr>, c: Config, n: nat, d: Config) {
    exists tr: seq<Config> :: |tr| == n + 1 && tr[0] == c && tr[n] == d && TickTrace(env, code, tr)
  }

  lemma ReachesSelf(env: Env, code: seq<Instr>, c: Config)
    ensures Reaches(env, code, c, 0, c)
  {
    assert TickTrace(env, code, [c]);
  }

  lemma ReachesNext(env: Env, code: seq<Instr>, c: Config, d: Config)
    requires Tick(env, code, c) == Some(d)
    ensures Reaches(env, code, c, 1, d)
  {
    assert Ticked(env, code, [c, d], 0);
    assert TickTrace(env, code, [c, d]);
  }

  lemma Chain(env: Env, code: seq<Instr>, c: Config, d: Config, e: Config, m: nat, n: nat)
    requires Reaches(env, code, c, m, d) && Reaches(env, code, d, n, e)
    ensures Reaches(env, code, c, m + n, e)
  {
    var p: seq<Config> :| |p| == m + 1 && p[0] == c && p[m] == d && TickTrace(env, code, p);
    var q: seq<Config> :| |q| == n + 1 && q[0] == d && q[n] == e && TickTrace(env, code, q);
    var r := p + q[1..];
    forall i | 0 <= i < |r| - 1 ensures Ticked(env, code, r, i) {
      if i < m {
        assert Ticked(env, code, p, i);
      } else {
        assert Ticked(env, code, q, i - m);
        assert r[i] == q[i - m] && r[i + 1] == q[i - m + 1];
      }
    }
    assert TickTrace(env, code, r);
  }

  // The machine is deterministic: two runs agree as long as both last.
  lemma {:induction false} TracesAgree(env: Env, code: seq<Instr>, p: seq<Config>, q: seq<Config>, i: nat)
    requires i < |p| && i < |q| && p[0] == q[0]
    requires TickTrace(env, code, p) && TickTrace(env, code, q)
    ensures p[i] == q[i]
  {
    if i != 0 {
      TracesAgree(env, code, p, q, i - 1);
      assert Ticked(env, code, p, i - 1) && Ticked(env, code, q, i - 1);
    }
  }

  lemma Deterministic(env: Env, code: seq<Instr>, c: Config, n: nat, d: Config, e: Config)
    requires Reaches(env, code, c, n, d) && Reaches(env, code, c, n, e)
    ensures d == e
  {
    var p: seq<Config> :| |p| == n + 1 && p[0] == c && p[n] == d && TickTrace(env, code, p);
    var q: seq<Config> :| |q| == n + 1 && q[0] == c && q[n] == e && TickTrace(env, code, q);
    TracesAgree(env, code, p, q, n);
  }

  // Output is never taken back: a longer run has printed what a shorter one has, and perhaps more.
  lemma OutputGrows(env: Env, code: seq<Instr>, c: Config, n: nat, d: Config, more: nat, e: Config)
    requires Reaches(env, code, c, n, d) && Reaches(env, code, c, more, e) && n <= more
    ensures d.s.out <= e.s.out
  {
    var p: seq<Config> :| |p| == n + 1 && p[0] == c && p[n] == d && TickTrace(env, code, p);
    var q: seq<Config> :| |q| == more + 1 && q[0] == c && q[more] == e && TickTrace(env, code, q);
    TracesAgree(env, code, p, q, n);
    TraceOutputGrows(env, code, q, n, more);
  }

  lemma {:induction false} TraceOutputGrows(env: Env, code: seq<Instr>, q: seq<Config>, i: nat, j: nat)
    requires TickTrace(env, code, q) && i <= j < |q|
    ensures q[i].s.out <= q[j].s.out
    decreases j
  {
    if i < j {
      TraceOutputGrows(env, code, q, i, j - 1);
      assert Ticked(env, code, q, j - 1);
    }
  }

  // The program has ended: it is at the exit system call (rax = 60) with status rdi = 0.
  predicate Exited(code: seq<Instr>, c: Config) {
    0 <= c.pc < |code| && code[c.pc] == Syscall && c.s.regs[RAX] == 60 && c.s.regs[RDI] == 0
  }

  // Nothing follows the end of the program, so a run that gets there is the longest one.
  lemma ExitIsFinal(env: Env, code: seq<Instr>, c: Config, n: nat, d: Config, more: nat, e: Config)
    requires Reaches(env, code, c, n, d) && Exited(code, d)
    requires Reaches(env, code, c, more, e)
    ensures more <= n
  {
    if more > n {
      var p: seq<Config> :| |p| == n + 1 && p[0] == c && p[n] == d && TickTrace(env, code, p);
      var q: seq<Config> :| |q| == more + 1 && q[0] == c && q[more] == e && TickTrace(env, code, q);
      TracesAgree(env, code, p, q, n);
      NothingAfterExit(env, code, d);
      var next := Ticked(env, code, q, n);
    }
  }

  lemma NothingAfterExit(env: Env, code: seq<Instr>, d: Config)
    requires Exited(code, d)
    ensures Tick(env, code, d) == None
  {
  }

  // ---- code embedded in a program ----

  ghost predicate Placed(code: seq<Instr>, a: int, c: seq<Instr>, i: int)
    requires 0 <= i < |c| && 0 <= a + i < |code|
  {
    c[i] == code[a + i]
  }

  // c stands in code from position a on.
  ghost predicate At(code: seq<Instr>, a: int, c: seq<Instr>) {
    0 <= a && a + |c| <= |code| && forall i {:trigger Placed(code, a, c, i)} :: 0 <= i < |c| ==> Placed(code, a, c, i)
  }

  lemma AtIndex(code: seq<Instr>, a: int, c: seq<Instr>, i: int)
    requires At(code, a, c) && 0 <= i < |c|
    ensures code[a + i] == c[i]
  {
    assert Placed(code, a, c, i);
  }

  lemma AtSplit(code: seq<Instr>, a: int, c: seq<Instr>, d: seq<Instr>)
    requires At(code, a, c + d)
    ensures At(code, a, c) && At(code, a + |c|, d)
  {
    forall i | 0 <= i < |c| ensures Placed(code, a, c, i) {
      assert Placed(code, a, c + d, i);
    }
    var b := a + |c|;
    forall i | 0 <= i < |d| ensures Placed(code, b, d, i) {
      assert Placed(code, a, c + d, |c| + i);
    }
  }

  ghost predicate StraightCode(c: seq<Instr>) {
    forall i :: i in c ==> Straight(i) && !i.Label?
  }

  // Straight-line code runs the same inside a program.
  lemma RunEmbedded(env: Env, code: seq<Instr>, a: int, c: seq<Instr>, s: State, t: State)
    requires At(code, a, c) && StraightCode(c)
    requires Runs(env, c, s, t)
    ensures Reaches(env, code, Config(a, s), |c|, Config(a + |c|, t))
  {
    var tr: seq<State> :| |tr| == |c| + 1 && tr[0] == s && tr[|c|] == t && RunTrace(env, c, tr);
    var q := seq(|tr|, i requires 0 <= i < |tr| => Config(a + i, tr[i]));
    forall i | 0 <= i < |q| - 1 ensures Ticked(env, code, q, i) {
      assert Stepped(env, c, tr, i);
      AtIndex(code, a, c, i);
      assert c[i] in c;
    }
    assert TickTrace(env, code, q);
  }

  // ---- control ----

  lemma LabelFound(code: seq<Instr>, i: int, l: int)
    requires UniqueLabels(code) && 0 <= i < |code| && code[i] == Label(l)
    ensures FindLabel(code, l) == i
  {
    assert code[i] in code;
    assert Defines(code, i, l) && Defines(code, FindLabel(code, l), l);
  }

  lemma PassLabel(env: Env, code: seq<Instr>, i: int, l: int, s: State)
    requires 0 <= i < |code| && code[i] == Label(l)
    ensures Reaches(env, code, Config(i, s), 1, Config(i + 1, s))
  {
    ReachesNext(env, code, Config(i, s), Config(i + 1, s));
  }

  lemma TakeJump(env: Env, code: seq<Instr>, i: int, l: int, j: int, s: State)
    requires UniqueLabels(code) && 0 <= j < |code| && code[j] == Label(l)
    requires 0 <= i < |code| && code[i] == Jmp(l)
    ensures Reaches(env, code, Config(i, s), 1, Config(j, s))
  {
    LabelFound(code, j, l);
    ReachesNext(env, code, Config(i, s), Config(j, s));
  }

  lemma TestOne(env: Env, code: seq<Instr>, i: int, l: int, j: int, s: State) returns (t: State)
    requires UniqueLabels(code) && 0 <= j < |code| && code[j] == Label(l)
    requires At(code, i, [CmpOne(0), Jne(l)]) && 0 <= s.regs[0] <= 1
    ensures t == s.(flags := Compared(s.regs[0], 1))
    ensures Reaches(env, code, Config(i, s), 2, Config(if s.regs[0] == 1 then i + 2 else j, t))
  {
    AtIndex(code, i, [CmpOne(0), Jne(l)], 0);
    AtIndex(code, i, [CmpOne(0), Jne(l)], 1);
    LabelFound(code, j, l);
    t := s.(flags := Compared(s.regs[0], 1));
    var d := Config(if s.regs[0] == 1 then i + 2 else j, t);
    ReachesNext(env, code, Config(i, s), Config(i + 1, t));
    ReachesNext(env, code, Config(i + 1, t), d);
    Chain(env, code, Config(i, s), Config(i + 1, t), d, 1, 1);
  }
}
