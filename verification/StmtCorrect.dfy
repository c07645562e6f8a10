// Running the code of statements: the emitted program simulates the source program step for step, and it
// terminates exactly when the source program does.
module StmtCorrect {
  import opened Words
  import opened Source
  import opened Machine
  import opened Code
  import opened ExprCorrect

  // Distinct variables occupy distinct words.
  ghost predicate Injective(lay: Layout) {
    forall x, y :: x in lay && y in lay && x != y ==> lay[x] != lay[y]
  }

  ghost predicate Related(lay: Layout, st: Run, m: State) {
    Matches(lay, st.store, m) && m.out == st.out
  }

  ghost predicate IsVariable(lay: Layout, rbp: int, a: int) {
    exists x :: x in lay && a == rbp + lay[x]
  }

  ghost predicate KeptAt(lay: Layout, m: State, t: State, a: int) {
    a >= m.rsp && !IsVariable(lay, m.rbp, a) ==> Read(t.mem, a) == Read(m.mem, a)
  }

  // The stack is as before, and at or above rsp only words of variables differ.
  ghost predicate Kept(lay: Layout, m: State, t: State) {
    t.rsp == m.rsp && t.rbp == m.rbp && forall a {:trigger KeptAt(lay, m, t, a)} :: KeptAt(lay, m, t, a)
  }

  lemma KeptIfSame(lay: Layout, m: State, t: State)
    requires t.rsp == m.rsp && t.rbp == m.rbp
    requires forall a :: a >= m.rsp ==> Read(t.mem, a) == Read(m.mem, a)
    ensures Kept(lay, m, t)
  {
    forall a ensures KeptAt(lay, m, t, a) { }
  }

  lemma KeptTrans(lay: Layout, m: State, t: State, u: State)
    requires Kept(lay, m, t) && Kept(lay, t, u)
    ensures Kept(lay, m, u)
  {
    forall a ensures KeptAt(lay, m, u, a) {
      assert KeptAt(lay, m, t, a) && KeptAt(lay, t, u, a);
    }
  }

  lemma {:induction false} SeenAccepted(sch: Scheme, s: Stmt, names: set<string>)
    requires Accepted(names, s)
    ensures Accepted(names, SeenStmt(sch, s))
    decreases s, 1
  {
    match s
    case Empty =>
    case Assign(x, e) => SeenResolves(sch, 1, e, names);
    case Ite(c, t, f) =>
      SeenCondOk(sch, c, names);
      SeenAccepted(sch, t, names);
      SeenAccepted(sch, f, names);
    case Wdo(c, b) =>
      SeenCondOk(sch, c, names);
      SeenAccepted(sch, b, names);
    case Stmts(ss) => SeenAcceptedAll(sch, ss, names);
    case Write(es, _) => SeenArgsOk(sch, es, names);
  }

  lemma {:induction false} SeenAcceptedAll(sch: Scheme, ss: seq<Stmt>, names: set<string>)
    requires AcceptedAll(names, ss)
    ensures AcceptedAll(names, SeenStmts(sch, ss))
    decreases ss, 0
  {
    if ss != [] {
      SeenAccepted(sch, ss[0], names);
      SeenAcceptedAll(sch, ss[1..], names);
    }
  }

  lemma SeenCondOk(sch: Scheme, c: Cond, names: set<string>)
    requires CondOk(names, c)
    ensures CondOk(names, SeenCond(sch, c))
  {
    SeenResolves(sch, 0, c.left, names);
    SeenResolves(sch, 1, c.right, names);
  }

  lemma SeenArgsOk(sch: Scheme, es: seq<Expr>, names: set<string>)
    requires ResolvesAll(names, es)
    ensures ResolvesAll(names, SeenArgs(sch, es))
  {
    forall i | 0 <= i < |es| ensures Resolves(names, SeenArgs(sch, es)[i]) {
      SeenResolves(sch, 0, es[i], names);
    }
  }

  // ---- straight-line statements ----

  // The flags of a difference of words tell whether a comparison holds.
  lemma ConditionCode(op: RelOp, a: Word, b: Word)
    ensures Meets(CodeOf(op), Compared(a, b)) <==> Holds(op, a, b)
  {
    if a - b >= TWO_63 {
      WrapUnique(a - b, a - b - TWO_64, 1);
    } else if a - b < -TWO_63 {
      WrapUnique(a - b, a - b + TWO_64, -1);
    } else {
      WrapUnique(a - b, a - b, 0);
    }
  }

  // cmp, setcc and movzx turn two words into 0 or 1.
  lemma CompareRuns(env: Env, op: RelOp, m: State) returns (t: State)
    requires IsWord(m.regs[0]) && IsWord(m.regs[1])
    ensures Runs(env, [Cmp(0, 1), SetCC(CodeOf(op), 1), Movzx(0, 1)], m, t)
    ensures t.regs[0] == if Holds(op, m.regs[0], m.regs[1]) then 1 else 0
    ensures t.rsp == m.rsp && t.rbp == m.rbp && t.mem == m.mem && t.out == m.out
  {
    var i, j, k := Cmp(0, 1), SetCC(CodeOf(op), 1), Movzx(0, 1);
    var u := Step(env, i, m).value;
    var v := Step(env, j, u).value;
    ConditionCode(op, m.regs[0], m.regs[1]);
    LowByteSet(u.regs[1], if Holds(op, m.regs[0], m.regs[1]) then 1 else 0);
    t := Step(env, k, v).value;
    RunsOne(env, i, m, u);
    RunsTwo(env, j, k, u, v, t);
    RunsAppend(env, [i], [j, k], m, u, t);
    assert [i] + [j, k] == [i, j, k];
  }

  lemma LowByteSet(x: int, b: int)
    requires 0 <= b <= 1
    ensures LowByte(x - LowByte(x) + b) == b
  {
  }

  lemma CondRuns(env: Env, sch: Scheme, lay: Layout, c: Cond, st: Run, m: State) returns (t: State, holds: bool)
    requires CondOk(lay.Keys, c)
    requires Related(lay, st, m)
    ensures Runs(env, CondCode(sch, lay, c), m, t)
    ensures CondOk(st.store.Keys, SeenCond(sch, c))
    ensures holds == Test(SeenCond(sch, c), st.store) && t.regs[0] == if holds then 1 else 0
    ensures Related(lay, st, t) && Kept(lay, m, t)
  {
    hide Eval, ExprCode, Seen, Resolves;
    SeenCondOk(sch, c, st.store.Keys);
    var t1 := ExprRuns(env, sch, lay, 0, c.left, st.store, m);
    var t2 := ExprRuns(env, sch, lay, 1, c.right, st.store, t1);
    EvalWord(Seen(sch, 0, c.left), st.store);
    EvalWord(Seen(sch, 1, c.right), st.store);
    t := CompareRuns(env, c.op, t2);
    holds := Test(SeenCond(sch, c), st.store);
    KeptIfSame(lay, m, t);
    RunsThree(env, ExprCode(sch, lay, 0, c.left), ExprCode(sch, lay, 1, c.right), [Cmp(0, 1), SetCC(CodeOf(c.op), 1), Movzx(0, 1)],
              m, t1, t2, t);
  }

  lemma AssignRuns(env: Env, sch: Scheme, lay: Layout, x: string, e: Expr, st: Run, m: State) returns (t: State)
    requires x in lay && Resolves(lay.Keys, e)
    requires Injective(lay) && Related(lay, st, m)
    ensures Runs(env, [Lea(0, lay[x])] + ExprCode(sch, lay, 1, e) + [Store(0, 1)], m, t)
    ensures Resolves(st.store.Keys, Seen(sch, 1, e))
    ensures Related(lay, st.(store := st.store[x := Eval(Seen(sch, 1, e), st.store)]), t) && Kept(lay, m, t)
  {
    var i, j := Lea(0, lay[x]), Instr.Store(0, 1);
    var m1 := LeaRuns(env, lay, x, st, m);
    hide ExprCode, Seen, Eval, Resolves, Injective;
    var m2 := ExprRuns(env, sch, lay, 1, e, st.store, m1);
    KeptIfSame(lay, m, m2);
    EvalWord(Seen(sch, 1, e), st.store);
    t := StoreRuns(env, lay, x, Eval(Seen(sch, 1, e), st.store), st, m2);
    RunsThree(env, [i], ExprCode(sch, lay, 1, e), [j], m, m1, m2, t);
    KeptTrans(lay, m, m2, t);
  }

  // The address of a variable in the first register.
  lemma LeaRuns(env: Env, lay: Layout, x: string, st: Run, m: State) returns (t: State)
    requires x in lay && Related(lay, st, m)
    ensures Runs(env, [Lea(0, lay[x])], m, t) && Related(lay, st, t)
    ensures t == m.(regs := m.regs[0 := m.rbp + lay[x]]) && t.regs[0] % 8 == 0
  {
    t := m.(regs := m.regs[0 := m.rbp + lay[x]]);
    RunsOne(env, Lea(0, lay[x]), m, t);
  }

  lemma StoreRuns(env: Env, lay: Layout, x: string, v: int, st: Run, m: State) returns (t: State)
    requires x in lay && Injective(lay) && Related(lay, st, m)
    requires m.regs[0] == m.rbp + lay[x] && m.regs[0] % 8 == 0 && m.regs[1] == v && IsWord(v)
    ensures Runs(env, [Instr.Store(0, 1)], m, t)
    ensures Related(lay, st.(store := st.store[x := v]), t) && Kept(lay, m, t)
  {
    t := m.(mem := m.mem[m.regs[0] := m.regs[1]]);
    RunsOne(env, Instr.Store(0, 1), m, t);
    forall a ensures KeptAt(lay, m, t, a) { }
  }

  lemma PrintOne(env: Env, lay: Layout, st: Run, m: State) returns (t: State)
    requires Related(lay, st, m)
    ensures Runs(env, [Push(0), CallWriteInteger, AddRsp(8)], m, t)
    ensures Related(lay, st.(out := st.out + [Printed(m.regs[0])]), t) && Kept(lay, m, t)
  {
    t := PushAndCall(env, m);
    KeptIfSame(lay, m, t);
  }

  // The word pushed is printed; what the callee leaves behind lies below it.
  lemma PushAndCall(env: Env, m: State) returns (t: State)
    requires m.rsp % 8 == 0
    ensures Runs(env, [Push(0), CallWriteInteger, AddRsp(8)], m, t)
    ensures t.rsp == m.rsp && t.rbp == m.rbp && t.out == m.out + [Printed(m.regs[0])]
    ensures forall a :: a >= m.rsp ==> Read(t.mem, a) == Read(m.mem, a)
  {
    var i, j, k := Push(0), CallWriteInteger, AddRsp(8);
    var u := Step(env, i, m).value;
    var v := Step(env, j, u).value;
    t := Step(env, k, v).value;
    RunsOne(env, i, m, u);
    RunsTwo(env, j, k, u, v, t);
    RunsAppend(env, [i], [j, k], m, u, t);
    assert [i] + [j, k] == [i, j, k];
    AfterCallKeeps(u.mem, u.rsp, env.junk(u.out));
  }

  lemma AfterCallKeeps(mem: map<int, int>, rsp: int, junk: map<int, int>)
    ensures forall a :: a >= rsp ==> Read(AfterCall(mem, rsp, junk), a) == Read(mem, a)
  {
  }

  lemma {:induction false} WriteRuns(env: Env, sch: Scheme, lay: Layout, es: seq<Expr>, st: Run, m: State) returns (t: State)
    requires ResolvesAll(lay.Keys, es)
    requires Related(lay, st, m)
    ensures Runs(env, WriteCode(sch, lay, es), m, t)
    ensures ResolvesAll(st.store.Keys, SeenArgs(sch, es))
    ensures Related(lay, st.(out := st.out + Print(SeenArgs(sch, es), st.store)), t) && Kept(lay, m, t)
    decreases es
  {
    SeenArgsOk(sch, es, st.store.Keys);
    if es == [] {
      t := m;
      KeptIfSame(lay, m, t);
      RunsNone(env, m);
      assert st.out + Print(SeenArgs(sch, es), st.store) == st.out;
    } else {
      var m1 := ExprRuns(env, sch, lay, 0, es[0], st.store, m);
      var m2 := PrintOne(env, lay, st, m1);
      KeptIfSame(lay, m, m1);
      KeptTrans(lay, m, m1, m2);
      var v := Printed(Eval(Seen(sch, 0, es[0]), st.store));
      var st1 := st.(out := st.out + [v]);
      t := WriteRuns(env, sch, lay, es[1..], st1, m2);
      KeptTrans(lay, m, m2, t);
      RunsThree(env, ExprCode(sch, lay, 0, es[0]), [Push(0), CallWriteInteger, AddRsp(8)], WriteCode(sch, lay, es[1..]),
                m, m1, m2, t);
      PrintCons(sch, es, st);
    }
  }

  lemma PrintCons(sch: Scheme, es: seq<Expr>, st: Run)
    requires es != [] && ResolvesAll(st.store.Keys, SeenArgs(sch, es))
    ensures ResolvesAll(st.store.Keys, SeenArgs(sch, es[1..]))
    ensures st.out + Print(SeenArgs(sch, es), st.store) ==
            st.out + [Printed(Eval(Seen(sch, 0, es[0]), st.store))] + Print(SeenArgs(sch, es[1..]), st.store)
  {
    assert SeenArgs(sch, es)[1..] == SeenArgs(sch, es[1..]);
  }

  lemma NewlineRuns(env: Env, lay: Layout, st: Run, m: State) returns (t: State)
    requires Related(lay, st, m)
    ensures Runs(env, [CallWriteNewline], m, t)
    ensures Related(lay, st.(out := st.out + [Newline]), t) && Kept(lay, m, t)
  {
    t := Step(env, CallWriteNewline, m).value;
    RunsOne(env, CallWriteNewline, m, t);
    AfterCallKeeps(m.mem, m.rsp, env.junk(m.out));
    KeptIfSame(lay, m, t);
  }

  lemma WriteStmtRuns(env: Env, sch: Scheme, lay: Layout, es: seq<Expr>, newline: bool, st: Run, m: State) returns (t: State)
    requires ResolvesAll(lay.Keys, es)
    requires Related(lay, st, m)
    ensures Runs(env, WriteCode(sch, lay, es) + (if newline then [CallWriteNewline] else []), m, t)
    ensures ResolvesAll(st.store.Keys, SeenArgs(sch, es))
    ensures Related(lay, st.(out := st.out + Print(SeenArgs(sch, es), st.store) + if newline then [Newline] else []), t)
    ensures Kept(lay, m, t)
  {
    t := WriteRuns(env, sch, lay, es, st, m);
    var w := WriteCode(sch, lay, es);
    var st1 := st.(out := st.out + Print(SeenArgs(sch, es), st.store));
    if newline {
      var u := NewlineRuns(env, lay, st1, t);
      RunsAppend(env, w, [CallWriteNewline], m, t, u);
      KeptTrans(lay, m, t, u);
      t := u;
    } else {
      assert w + [] == w && st1.out + [] == st1.out;
    }
  }

  lemma {:induction false} WriteStraight(sch: Scheme, lay: Layout, es: seq<Expr>)
    requires ResolvesAll(lay.Keys, es)
    ensures StraightCode(WriteCode(sch, lay, es))
  {
    if es != [] {
      ExprStraight(sch, lay, 0, es[0]);
      WriteStraight(sch, lay, es[1..]);
    }
  }

  // ---- conditional jumps ----

  function BranchCode(sch: Scheme, lay: Layout, c: Cond, l: int): seq<Instr>
    requires CondOk(lay.Keys, c)
  {
    CondCode(sch, lay, c) + [CmpOne(0), Jne(l)]
  }

  // The code of a condition followed by its conditional jump falls through when the condition holds and
  // goes to the label otherwise.
  lemma BranchSteps(env: Env, sch: Scheme, lay: Layout, code: seq<Instr>, a: int, c: Cond, l: int, i: int, st: Run, m: State)
    returns (n: nat, t: State, holds: bool)
    requires CondOk(lay.Keys, c)
    requires Related(lay, st, m)
    requires At(code, a, BranchCode(sch, lay, c, l))
    requires UniqueLabels(code) && 0 <= i < |code| && code[i] == Label(l)
    ensures CondOk(st.store.Keys, SeenCond(sch, c))
    ensures holds == Test(SeenCond(sch, c), st.store)
    ensures n >= 1 && Reaches(env, code, Config(a, m), n, Config(if holds then a + |BranchCode(sch, lay, c, l)| else i, t))
    ensures Related(lay, st, t) && Kept(lay, m, t)
  {
    var t1;
    t1, holds := CondRuns(env, sch, lay, c, st, m);
    CondStraight(sch, lay, c);
    n, t := JumpSteps(env, lay, code, a, CondCode(sch, lay, c), l, i, m, t1, holds);
  }

  lemma JumpSteps(env: Env, lay: Layout, code: seq<Instr>, a: int, cc: seq<Instr>, l: int, i: int, m: State,
                  t1: State, holds: bool)
    returns (n: nat, t: State)
    requires At(code, a, cc + [CmpOne(0), Jne(l)]) && StraightCode(cc)
    requires UniqueLabels(code) && 0 <= i < |code| && code[i] == Label(l)
    requires Runs(env, cc, m, t1) && t1.regs[0] == (if holds then 1 else 0) && Kept(lay, m, t1)
    ensures n >= 1 && Reaches(env, code, Config(a, m), n, Config(if holds then a + |cc| + 2 else i, t))
    ensures t == t1.(flags := t.flags) && Kept(lay, m, t)
  {
    AtSplit(code, a, cc, [CmpOne(0), Jne(l)]);
    RunEmbedded(env, code, a, cc, m, t1);
    t := TestOne(env, code, a + |cc|, l, i, t1);
    KeptIfSame(lay, t1, t);
    KeptTrans(lay, m, t1, t);
    n := |cc| + 2;
    Chain(env, code, Config(a, m), Config(a + |cc|, t1), Config(if holds then a + |cc| + 2 else i, t), |cc|, 2);
  }

  lemma CondStraight(sch: Scheme, lay: Layout, c: Cond)
    requires CondOk(lay.Keys, c)
    ensures StraightCode(CondCode(sch, lay, c))
  {
    ExprStraight(sch, lay, 0, c.left);
    ExprStraight(sch, lay, 1, c.right);
  }

  // ---- layout of compound statements ----

  lemma IteAt(sch: Scheme, lay: Layout, code: seq<Instr>, a: int, lbl: int, s: Stmt) returns (b: int, d: int, e: int)
    requires s.Ite? && Accepted(lay.Keys, s)
    requires At(code, a, StmtCode(sch, lay, lbl, s))
    ensures At(code, a, BranchCode(sch, lay, s.cond, lbl))
    ensures b == a + |BranchCode(sch, lay, s.cond, lbl)| && At(code, b, StmtCode(sch, lay, lbl + 2, s.thn))
    ensures d == b + |StmtCode(sch, lay, lbl + 2, s.thn)| && d + 1 < |code|
    ensures code[d] == Jmp(lbl + 1) && code[d + 1] == Label(lbl)
    ensures At(code, d + 2, StmtCode(sch, lay, lbl + 2 + LabelsOf(s.thn), s.els))
    ensures e == d + 2 + |StmtCode(sch, lay, lbl + 2 + LabelsOf(s.thn), s.els)| < |code| && code[e] == Label(lbl + 1)
    ensures e + 1 == a + |StmtCode(sch, lay, lbl, s)|
  {
    var c, t := BranchCode(sch, lay, s.cond, lbl), StmtCode(sch, lay, lbl + 2, s.thn);
    var j, f := [Jmp(lbl + 1), Label(lbl)], StmtCode(sch, lay, lbl + 2 + LabelsOf(s.thn), s.els);
    var z := [Label(lbl + 1)];
    IteShape(sch, lay, lbl, s);
    hide StmtCode, BranchCode, LabelsOf, At, Accepted;
    b, d, e := FiveAt(code, a, c, t, j, f, z);
    AtIndex(code, d, j, 0);
    AtIndex(code, d, j, 1);
    AtIndex(code, e, z, 0);
  }

  // Five pieces of code, one after the other.
  lemma FiveAt(code: seq<Instr>, a: int, c: seq<Instr>, t: seq<Instr>, j: seq<Instr>, f: seq<Instr>, z: seq<Instr>)
    returns (b: int, d: int, e: int)
    requires At(code, a, c + t + j + f + z)
    ensures b == a + |c| && d == b + |t| && e == d + |j| + |f|
    ensures At(code, a, c) && At(code, b, t) && At(code, d, j) && At(code, d + |j|, f) && At(code, e, z)
  {
    hide At;
    b := a + |c|;
    d := b + |t|;
    e := d + |j| + |f|;
    AtSplit(code, a, c + t + j + f, z);
    AtSplit(code, a, c + t + j, f);
    AtSplit(code, a, c + t, j);
    AtSplit(code, a, c, t);
  }

  lemma IteShape(sch: Scheme, lay: Layout, lbl: int, s: Stmt)
    requires s.Ite? && Accepted(lay.Keys, s)
    ensures StmtCode(sch, lay, lbl, s) ==
            BranchCode(sch, lay, s.cond, lbl) + StmtCode(sch, lay, lbl + 2, s.thn) + [Jmp(lbl + 1), Label(lbl)]
            + StmtCode(sch, lay, lbl + 2 + LabelsOf(s.thn), s.els) + [Label(lbl + 1)]
  {
  }

  lemma WdoAt(sch: Scheme, lay: Layout, code: seq<Instr>, a: int, lbl: int, s: Stmt) returns (b: int, d: int)
    requires s.Wdo? && Accepted(lay.Keys, s)
    requires At(code, a, StmtCode(sch, lay, lbl, s))
    ensures 0 <= a < |code| && code[a] == Label(lbl)
    ensures At(code, a + 1, BranchCode(sch, lay, s.cond, lbl + 1))
    ensures b == a + 1 + |BranchCode(sch, lay, s.cond, lbl + 1)| && At(code, b, StmtCode(sch, lay, lbl + 2, s.body))
    ensures d == b + |StmtCode(sch, lay, lbl + 2, s.body)| && d + 1 < |code|
    ensures code[d] == Jmp(lbl) && code[d + 1] == Label(lbl + 1)
    ensures d + 2 == a + |StmtCode(sch, lay, lbl, s)|
  {
    var c, t := BranchCode(sch, lay, s.cond, lbl + 1), StmtCode(sch, lay, lbl + 2, s.body);
    var i, j := [Label(lbl)], [Jmp(lbl), Label(lbl + 1)];
    WdoShape(sch, lay, lbl, s);
    b := a + 1 + |c|;
    d := b + |t|;
    AtSplit(code, a, i + c + t, j);
    AtSplit(code, a, i + c, t);
    AtSplit(code, a, i, c);
    AtIndex(code, a, i, 0);
    AtIndex(code, d, j, 0);
    AtIndex(code, d, j, 1);
  }

  lemma WdoShape(sch: Scheme, lay: Layout, lbl: int, s: Stmt)
    requires s.Wdo? && Accepted(lay.Keys, s)
    ensures StmtCode(sch, lay, lbl, s) ==
            [Label(lbl)] + BranchCode(sch, lay, s.cond, lbl + 1) + StmtCode(sch, lay, lbl + 2, s.body)
            + [Jmp(lbl), Label(lbl + 1)]
  {
    var cc := CondCode(sch, lay, s.cond);
    assert [Label(lbl)] + cc + [CmpOne(0), Jne(lbl + 1)] == [Label(lbl)] + (cc + [CmpOne(0), Jne(lbl + 1)]);
  }

  // ---- the simulation ----

  // What n machine steps from (a, m) to c mean for a statement whose code ends at z.
  ghost predicate Simulates(lay: Layout, z: int, r: Outcome, m: State, fuel: nat, n: nat, c: Config) {
    && Related(lay, r.run, c.s) && Kept(lay, m, c.s)
    && if r.Ended? then c.pc == z else n >= fuel
  }

  // If the source ends within the fuel, the code reaches its own end in a matching state.  If the fuel runs
  // out, the code gets after at least that many steps to a state that matches where the source was cut short.
  lemma {:induction false} StmtSteps(env: Env, sch: Scheme, lay: Layout, code: seq<Instr>, a: int, lbl: int,
                                     s: Stmt, st: Run, m: State, fuel: nat)
    returns (n: nat, c: Config)
    requires Accepted(lay.Keys, s) && Injective(lay) && UniqueLabels(code)
    requires At(code, a, StmtCode(sch, lay, lbl, s))
    requires Related(lay, st, m)
    ensures Accepted(st.store.Keys, SeenStmt(sch, s))
    ensures Reaches(env, code, Config(a, m), n, c)
    ensures Simulates(lay, a + |StmtCode(sch, lay, lbl, s)|, Exec(SeenStmt(sch, s), st, fuel), m, fuel, n, c)
    decreases fuel, s, 2
  {
    SeenAccepted(sch, s, lay.Keys);
    hide At, Injective, UniqueLabels;
    match s
    case Empty =>
      n, c := 0, Config(a, m);
      KeptIfSame(lay, m, m);
      ReachesSelf(env, code, c);
    case Assign(_, _) =>
      n, c := SimpleSteps(env, sch, lay, code, a, lbl, s, st, m, fuel);
    case Write(_, _) =>
      n, c := SimpleSteps(env, sch, lay, code, a, lbl, s, st, m, fuel);
    case Stmts(ss) =>
      n, c := StmtsSteps(env, sch, lay, code, a, lbl, ss, st, m, fuel);
    case Ite(_, _, _) =>
      n, c := IteSteps(env, sch, lay, code, a, lbl, s, st, m, fuel);
    case Wdo(_, _) =>
      n, c := WdoSteps(env, sch, lay, code, a, lbl, s, st, m, fuel);
  }

  lemma {:induction false} IteSteps(env: Env, sch: Scheme, lay: Layout, code: seq<Instr>, a: int, lbl: int,
                                    s: Stmt, st: Run, m: State, fuel: nat)
    returns (n: nat, c: Config)
    requires s.Ite? && Accepted(lay.Keys, s) && Injective(lay) && UniqueLabels(code)
    requires At(code, a, StmtCode(sch, lay, lbl, s))
    requires Related(lay, st, m)
    ensures Accepted(st.store.Keys, SeenStmt(sch, s))
    ensures Reaches(env, code, Config(a, m), n, c)
    ensures Simulates(lay, a + |StmtCode(sch, lay, lbl, s)|, Exec(SeenStmt(sch, s), st, fuel), m, fuel, n, c)
    decreases fuel, s, 1
  {
    hide Exec, SeenStmt, StmtCode, BranchCode, LabelsOf;
    SeenAccepted(sch, s, lay.Keys);
    var b, d, e := IteAt(sch, lay, code, a, lbl, s);
    var n1, m1, holds := BranchSteps(env, sch, lay, code, a, s.cond, lbl, d + 1, st, m);
    ExecIte(sch, s, st, fuel);
    n, c := ArmSteps(env, sch, lay, code, a, lbl, s.cond, s.thn, s.els, st, m, fuel, b, d, e, n1, m1, holds);
  }

  // The arm that the condition selects, and the way past the other one.
  lemma {:induction false} ArmSteps(env: Env, sch: Scheme, lay: Layout, code: seq<Instr>, a: int, lbl: int,
                                    cond: Cond, thn: Stmt, els: Stmt, st: Run, m: State, fuel: nat,
                                    b: int, d: int, e: int, n1: nat, m1: State, holds: bool)
    returns (n: nat, c: Config)
    requires Accepted(lay.Keys, thn) && Accepted(lay.Keys, els) && Injective(lay) && UniqueLabels(code)
    requires At(code, b, StmtCode(sch, lay, lbl + 2, thn))
    requires d == b + |StmtCode(sch, lay, lbl + 2, thn)| && 0 <= d && d + 1 < |code|
    requires code[d] == Jmp(lbl + 1) && code[d + 1] == Label(lbl)
    requires At(code, d + 2, StmtCode(sch, lay, lbl + 2 + LabelsOf(thn), els))
    requires e == d + 2 + |StmtCode(sch, lay, lbl + 2 + LabelsOf(thn), els)| < |code| && code[e] == Label(lbl + 1)
    requires Reaches(env, code, Config(a, m), n1, Config(if holds then b else d + 1, m1))
    requires Kept(lay, m, m1) && Related(lay, st, m1)
    ensures Accepted(st.store.Keys, SeenStmt(sch, thn)) && Accepted(st.store.Keys, SeenStmt(sch, els))
    ensures Reaches(env, code, Config(a, m), n, c)
    ensures Simulates(lay, e + 1, Exec(if holds then SeenStmt(sch, thn) else SeenStmt(sch, els), st, fuel), m, fuel, n, c)
    decreases fuel, Ite(cond, thn, els), 0
  {
    hide Exec, SeenStmt, StmtCode, LabelsOf, Accepted;
    SeenAccepted(sch, thn, lay.Keys);
    SeenAccepted(sch, els, lay.Keys);
    assert st.store.Keys == lay.Keys;
    if holds {
      var n2, c2 := StmtSteps(env, sch, lay, code, b, lbl + 2, thn, st, m1, fuel);
      n, c := IteThen(env, lay, code, a, lbl, Exec(SeenStmt(sch, thn), st, fuel), m, fuel, b, d, e, n1, m1, n2, c2);
    } else {
      var n2, c2 := StmtSteps(env, sch, lay, code, d + 2, lbl + 2 + LabelsOf(thn), els, st, m1, fuel);
      n, c := IteElse(env, lay, code, a, lbl, Exec(SeenStmt(sch, els), st, fuel), m, fuel, d, e, n1, m1, n2, c2);
    }
  }

  lemma ExecIte(sch: Scheme, s: Stmt, st: Run, fuel: nat)
    requires s.Ite? && Accepted(st.store.Keys, SeenStmt(sch, s))
    ensures CondOk(st.store.Keys, SeenCond(sch, s.cond))
    ensures Accepted(st.store.Keys, SeenStmt(sch, s.thn)) && Accepted(st.store.Keys, SeenStmt(sch, s.els))
    ensures Exec(SeenStmt(sch, s), st, fuel) ==
            Exec(if Test(SeenCond(sch, s.cond), st.store) then SeenStmt(sch, s.thn) else SeenStmt(sch, s.els), st, fuel)
  {
  }

  lemma {:induction false} WdoSteps(env: Env, sch: Scheme, lay: Layout, code: seq<Instr>, a: int, lbl: int,
                                    s: Stmt, st: Run, m: State, fuel: nat)
    returns (n: nat, c: Config)
    requires s.Wdo? && Accepted(lay.Keys, s) && Injective(lay) && UniqueLabels(code)
    requires At(code, a, StmtCode(sch, lay, lbl, s))
    requires Related(lay, st, m)
    ensures Accepted(st.store.Keys, SeenStmt(sch, s))
    ensures Reaches(env, code, Config(a, m), n, c)
    ensures Simulates(lay, a + |StmtCode(sch, lay, lbl, s)|, Exec(SeenStmt(sch, s), st, fuel), m, fuel, n, c)
    decreases fuel, s, 1
  {
    SeenAccepted(sch, s, lay.Keys);
    var b, d := WdoAt(sch, lay, code, a, lbl, s);
    var n1, m1, holds := BranchSteps(env, sch, lay, code, a + 1, s.cond, lbl + 1, d + 1, st, m);
    ExecWdo(SeenStmt(sch, s), st, fuel);
    if !holds {
      n, c := WdoExit(env, lay, code, a, lbl, d, n1, m, m1);
    } else if fuel == 0 {
      n, c := 0, Config(a, m);
      ReachesSelf(env, code, c);
    } else {
      n, c := WdoAgain(env, sch, lay, code, a, lbl, s, st, m, fuel, b, d, n1, m1);
    }
  }

  // The condition holds: one iteration, then the rest of the loop.
  lemma {:induction false} WdoAgain(env: Env, sch: Scheme, lay: Layout, code: seq<Instr>, a: int, lbl: int,
                                    s: Stmt, st: Run, m: State, fuel: nat, b: int, d: int, n1: nat, m1: State)
    returns (n: nat, c: Config)
    requires s.Wdo? && Accepted(lay.Keys, s) && Injective(lay) && UniqueLabels(code)
    requires At(code, a, StmtCode(sch, lay, lbl, s)) && At(code, b, StmtCode(sch, lay, lbl + 2, s.body))
    requires d == b + |StmtCode(sch, lay, lbl + 2, s.body)| && 0 <= d < |code| && code[d] == Jmp(lbl)
    requires 0 <= a < |code| && code[a] == Label(lbl)
    requires fuel > 0
    requires Reaches(env, code, Config(a + 1, m), n1, Config(b, m1)) && Kept(lay, m, m1) && Related(lay, st, m1)
    ensures Accepted(st.store.Keys, SeenStmt(sch, s.body)) && Accepted(st.store.Keys, SeenStmt(sch, s))
    ensures Reaches(env, code, Config(a, m), n, c)
    ensures Simulates(lay, a + |StmtCode(sch, lay, lbl, s)|, ThenAgain(SeenStmt(sch, s.body), SeenStmt(sch, s), st, fuel),
                      m, fuel, n, c)
    decreases fuel, s, 0
  {
    hide Exec, SeenStmt, StmtCode;
    SeenAccepted(sch, s, lay.Keys);
    var z := a + |StmtCode(sch, lay, lbl, s)|;
    var n2, c2 := StmtSteps(env, sch, lay, code, b, lbl + 2, s.body, st, m1, fuel - 1);
    var r := Exec(SeenStmt(sch, s.body), st, fuel - 1);
    n, c := WdoOnce(env, lay, code, a, lbl, r, m, fuel, b, d, n1, m1, n2, c2);
    if r.Ended? {
      var n3, c3 := StmtSteps(env, sch, lay, code, a, lbl, s, r.run, c.s, fuel - 1);
      var x := Exec(SeenStmt(sch, s), r.run, fuel - 1);
      Follow(env, lay, code, Config(a, m), c, c3, z, x, fuel, n, n3);
      n, c := n + n3, c3;
    }
  }

  function ThenAgain(body: Stmt, loop: Stmt, st: Run, fuel: nat): Outcome
    requires fuel > 0 && Accepted(st.store.Keys, body) && Accepted(st.store.Keys, loop)
  {
    var r := Exec(body, st, fuel - 1);
    if r.OutOfFuel? then r else Exec(loop, r.run, fuel - 1)
  }

  lemma ExecWdo(s: Stmt, st: Run, fuel: nat)
    requires s.Wdo? && Accepted(st.store.Keys, s)
    ensures Exec(s, st, fuel) ==
            if !Test(s.cond, st.store) then Ended(st)
            else if fuel == 0 then OutOfFuel(st) else ThenAgain(s.body, s, st, fuel)
  {
  }

  lemma SimpleSteps(env: Env, sch: Scheme, lay: Layout, code: seq<Instr>, a: int, lbl: int,
                    s: Stmt, st: Run, m: State, fuel: nat)
    returns (n: nat, c: Config)
    requires s.Assign? || s.Write?
    requires Accepted(lay.Keys, s) && Injective(lay)
    requires At(code, a, StmtCode(sch, lay, lbl, s))
    requires Related(lay, st, m)
    ensures Accepted(st.store.Keys, SeenStmt(sch, s))
    ensures Reaches(env, code, Config(a, m), n, c)
    ensures Simulates(lay, a + |StmtCode(sch, lay, lbl, s)|, Exec(SeenStmt(sch, s), st, fuel), m, fuel, n, c)
  {
    SeenAccepted(sch, s, lay.Keys);
    var t: State;
    match s {
      case Assign(x, e) =>
        t := AssignRuns(env, sch, lay, x, e, st, m);
        ExprStraight(sch, lay, 1, e);
      case Write(es, nl) =>
        t := WriteStmtRuns(env, sch, lay, es, nl, st, m);
        WriteStraight(sch, lay, es);
    }
    n := |StmtCode(sch, lay, lbl, s)|;
    c := Config(a + n, t);
    RunEmbedded(env, code, a, StmtCode(sch, lay, lbl, s), m, t);
  }

  // A finished run of n1 steps followed by another run of at least one loop iteration less.
  lemma Follow(env: Env, lay: Layout, code: seq<Instr>, c0: Config, c1: Config, c2: Config, z: int, r: Outcome,
               fuel: nat, n1: nat, n2: nat)
    requires Reaches(env, code, c0, n1, c1) && Kept(lay, c0.s, c1.s)
    requires Reaches(env, code, c1, n2, c2)
    requires fuel > 0 && n1 > 0 && Simulates(lay, z, r, c1.s, fuel - 1, n2, c2)
    ensures Reaches(env, code, c0, n1 + n2, c2) && Simulates(lay, z, r, c0.s, fuel, n1 + n2, c2)
  {
    Chain(env, code, c0, c1, c2, n1, n2);
    KeptTrans(lay, c0.s, c1.s, c2.s);
  }

  lemma WdoExit(env: Env, lay: Layout, code: seq<Instr>, a: int, lbl: int, d: int, n1: nat, m: State, m1: State)
    returns (n: nat, c: Config)
    requires 0 <= a < |code| && code[a] == Label(lbl) && 0 <= d + 1 < |code| && code[d + 1] == Label(lbl + 1)
    requires Reaches(env, code, Config(a + 1, m), n1, Config(d + 1, m1))
    ensures Reaches(env, code, Config(a, m), n, c) && c == Config(d + 2, m1)
  {
    PassLabel(env, code, a, lbl, m);
    Chain(env, code, Config(a, m), Config(a + 1, m), Config(d + 1, m1), 1, n1);
    PassLabel(env, code, d + 1, lbl + 1, m1);
    n, c := 1 + n1 + 1, Config(d + 2, m1);
    Chain(env, code, Config(a, m), Config(d + 1, m1), c, 1 + n1, 1);
  }

  // One iteration: from the loop label through condition and body, and back when the body ends.
  lemma WdoOnce(env: Env, lay: Layout, code: seq<Instr>, a: int, lbl: int, r: Outcome, m: State, fuel: nat,
                b: int, d: int, n1: nat, m1: State, n2: nat, c2: Config)
    returns (n: nat, c: Config)
    requires UniqueLabels(code) && 0 <= a < |code| && code[a] == Label(lbl) && 0 <= d < |code| && code[d] == Jmp(lbl)
    requires Reaches(env, code, Config(a + 1, m), n1, Config(b, m1)) && Kept(lay, m, m1)
    requires fuel > 0
    requires Reaches(env, code, Config(b, m1), n2, c2) && Simulates(lay, d, r, m1, fuel - 1, n2, c2)
    ensures n > 0 && Reaches(env, code, Config(a, m), n, c)
    ensures Related(lay, r.run, c.s) && Kept(lay, m, c.s)
    ensures if r.Ended? then c.pc == a else n >= fuel
  {
    PassLabel(env, code, a, lbl, m);
    Chain(env, code, Config(a, m), Config(a + 1, m), Config(b, m1), 1, n1);
    Chain(env, code, Config(a, m), Config(b, m1), c2, 1 + n1, n2);
    n, c := 1 + n1 + n2, c2;
    KeptTrans(lay, m, m1, c2.s);
    if r.Ended? {
      TakeJump(env, code, d, lbl, a, c2.s);
      Chain(env, code, Config(a, m), c2, Config(a, c2.s), n, 1);
      n, c := n + 1, Config(a, c2.s);
    }
  }

  lemma IteThen(env: Env, lay: Layout, code: seq<Instr>, a: int, lbl: int, r: Outcome, m: State, fuel: nat,
                b: int, d: int, e: int, n1: nat, m1: State, n2: nat, c2: Config)
    returns (n: nat, c: Config)
    requires UniqueLabels(code) && 0 <= d < |code| && 0 <= e < |code|
    requires code[d] == Jmp(lbl + 1) && code[e] == Label(lbl + 1)
    requires Reaches(env, code, Config(a, m), n1, Config(b, m1)) && Kept(lay, m, m1)
    requires Reaches(env, code, Config(b, m1), n2, c2) && Simulates(lay, d, r, m1, fuel, n2, c2)
    ensures Reaches(env, code, Config(a, m), n, c) && Simulates(lay, e + 1, r, m, fuel, n, c)
  {
    Chain(env, code, Config(a, m), Config(b, m1), c2, n1, n2);
    n, c := n1 + n2, c2;
    KeptTrans(lay, m, m1, c2.s);
    if r.Ended? {
      TakeJump(env, code, d, lbl + 1, e, c2.s);
      Chain(env, code, Config(a, m), c2, Config(e, c2.s), n, 1);
      PassLabel(env, code, e, lbl + 1, c2.s);
      Chain(env, code, Config(a, m), Config(e, c2.s), Config(e + 1, c2.s), n + 1, 1);
      n, c := n + 1 + 1, Config(e + 1, c2.s);
    }
  }

  lemma IteElse(env: Env, lay: Layout, code: seq<Instr>, a: int, lbl: int, r: Outcome, m: State, fuel: nat,
                d: int, e: int, n1: nat, m1: State, n2: nat, c2: Config)
    returns (n: nat, c: Config)
    requires 0 <= d + 1 < |code| && code[d + 1] == Label(lbl) && 0 <= e < |code| && code[e] == Label(lbl + 1)
    requires Reaches(env, code, Config(a, m), n1, Config(d + 1, m1)) && Kept(lay, m, m1)
    requires Reaches(env, code, Config(d + 2, m1), n2, c2) && Simulates(lay, e, r, m1, fuel, n2, c2)
    ensures Reaches(env, code, Config(a, m), n, c) && Simulates(lay, e + 1, r, m, fuel, n, c)
  {
    PassLabel(env, code, d + 1, lbl, m1);
    Chain(env, code, Config(a, m), Config(d + 1, m1), Config(d + 2, m1), n1, 1);
    Chain(env, code, Config(a, m), Config(d + 2, m1), c2, n1 + 1, n2);
    n, c := n1 + 1 + n2, c2;
    KeptTrans(lay, m, m1, c2.s);
    if r.Ended? {
      PassLabel(env, code, e, lbl + 1, c2.s);
      Chain(env, code, Config(a, m), c2, Config(e + 1, c2.s), n, 1);
      n, c := n + 1, Config(e + 1, c2.s);
    }
  }

  lemma NoneSteps(env: Env, sch: Scheme, lay: Layout, code: seq<Instr>, a: int, lbl: int, st: Run, m: State, fuel: nat)
    returns (n: nat, c: Config)
    requires Related(lay, st, m)
    ensures Reaches(env, code, Config(a, m), n, c)
    ensures Simulates(lay, a + |StmtsCode(sch, lay, lbl, [])|, ExecAll(SeenStmts(sch, []), st, fuel), m, fuel, n, c)
  {
    n, c := 0, Config(a, m);
    KeptIfSame(lay, m, m);
    ReachesSelf(env, code, c);
  }

  lemma {:induction false} StmtsSteps(env: Env, sch: Scheme, lay: Layout, code: seq<Instr>, a: int, lbl: int,
                                      ss: seq<Stmt>, st: Run, m: State, fuel: nat)
    returns (n: nat, c: Config)
    requires AcceptedAll(lay.Keys, ss) && Injective(lay) && UniqueLabels(code)
    requires At(code, a, StmtsCode(sch, lay, lbl, ss))
    requires Related(lay, st, m)
    ensures AcceptedAll(st.store.Keys, SeenStmts(sch, ss))
    ensures Reaches(env, code, Config(a, m), n, c)
    ensures Simulates(lay, a + |StmtsCode(sch, lay, lbl, ss)|, ExecAll(SeenStmts(sch, ss), st, fuel), m, fuel, n, c)
    decreases fuel, ss, 1
  {
    SeenAcceptedAll(sch, ss, lay.Keys);
    assert st.store.Keys == lay.Keys;
    hide StmtCode, Exec, SeenStmt, Reaches, At, Kept, Related, Injective, UniqueLabels, Simulates, Accepted;
    if ss == [] {
      n, c := NoneSteps(env, sch, lay, code, a, lbl, st, m, fuel);
    } else {
      AtSplit(code, a, StmtCode(sch, lay, lbl, ss[0]), StmtsCode(sch, lay, lbl + LabelsOf(ss[0]), ss[1..]));
      ExecCons(sch, ss, st, fuel);
      n, c := ConsSteps(env, sch, lay, code, a, lbl, ss, st, m, fuel);
    }
  }

  function ThenAll(s: Stmt, ss: seq<Stmt>, st: Run, fuel: nat): Outcome
    requires Accepted(st.store.Keys, s) && AcceptedAll(st.store.Keys, ss)
  {
    var r := Exec(s, st, fuel);
    if r.OutOfFuel? then r else ExecAll(ss, r.run, fuel)
  }

  // The first statement, then the others.
  lemma {:induction false} ConsSteps(env: Env, sch: Scheme, lay: Layout, code: seq<Instr>, a: int, lbl: int,
                                     ss: seq<Stmt>, st: Run, m: State, fuel: nat)
    returns (n: nat, c: Config)
    requires ss != [] && Accepted(lay.Keys, ss[0]) && AcceptedAll(lay.Keys, ss[1..])
    requires Injective(lay) && UniqueLabels(code) && Related(lay, st, m)
    requires At(code, a, StmtCode(sch, lay, lbl, ss[0]))
    requires At(code, a + |StmtCode(sch, lay, lbl, ss[0])|, StmtsCode(sch, lay, lbl + LabelsOf(ss[0]), ss[1..]))
    ensures Accepted(st.store.Keys, SeenStmt(sch, ss[0])) && AcceptedAll(st.store.Keys, SeenStmts(sch, ss[1..]))
    ensures Reaches(env, code, Config(a, m), n, c)
    ensures Simulates(lay, a + |StmtCode(sch, lay, lbl, ss[0])| + |StmtsCode(sch, lay, lbl + LabelsOf(ss[0]), ss[1..])|,
                      ThenAll(SeenStmt(sch, ss[0]), SeenStmts(sch, ss[1..]), st, fuel), m, fuel, n, c)
    decreases fuel, ss, 0
  {
    hide StmtCode, StmtsCode, Exec, ExecAll, SeenStmt, SeenStmts, At, Kept, Injective, UniqueLabels, Accepted, AcceptedAll;
    SeenAcceptedAll(sch, ss[1..], lay.Keys);
    assert st.store.Keys == lay.Keys;
    var b := a + |StmtCode(sch, lay, lbl, ss[0])|;
    n, c := StmtSteps(env, sch, lay, code, a, lbl, ss[0], st, m, fuel);
    var r := Exec(SeenStmt(sch, ss[0]), st, fuel);
    if r.Ended? {
      var n2, c2 := StmtsSteps(env, sch, lay, code, b, lbl + LabelsOf(ss[0]), ss[1..], r.run, c.s, fuel);
      ThenRest(env, lay, code, Config(a, m), c, c2, b + |StmtsCode(sch, lay, lbl + LabelsOf(ss[0]), ss[1..])|,
               ExecAll(SeenStmts(sch, ss[1..]), r.run, fuel), fuel, n, n2);
      n, c := n + n2, c2;
    }
  }

  // A finished run of n1 steps followed by another run.
  lemma ThenRest(env: Env, lay: Layout, code: seq<Instr>, c0: Config, c1: Config, c2: Config, z: int, r: Outcome,
                 fuel: nat, n1: nat, n2: nat)
    requires Reaches(env, code, c0, n1, c1) && Kept(lay, c0.s, c1.s)
    requires Reaches(env, code, c1, n2, c2) && Simulates(lay, z, r, c1.s, fuel, n2, c2)
    ensures Reaches(env, code, c0, n1 + n2, c2) && Simulates(lay, z, r, c0.s, fuel, n1 + n2, c2)
  {
    Chain(env, code, c0, c1, c2, n1, n2);
    KeptTrans(lay, c0.s, c1.s, c2.s);
  }

  lemma ExecCons(sch: Scheme, ss: seq<Stmt>, st: Run, fuel: nat)
    requires ss != [] && AcceptedAll(st.store.Keys, SeenStmts(sch, ss))
    ensures Accepted(st.store.Keys, SeenStmt(sch, ss[0])) && AcceptedAll(st.store.Keys, SeenStmts(sch, ss[1..]))
    ensures ExecAll(SeenStmts(sch, ss), st, fuel) ==
            (var r := Exec(SeenStmt(sch, ss[0]), st, fuel);
             if r.OutOfFuel? then r else ExecAll(SeenStmts(sch, ss[1..]), r.run, fuel))
  {
    assert SeenStmts(sch, ss)[0] == SeenStmt(sch, ss[0]) && SeenStmts(sch, ss)[1..] == SeenStmts(sch, ss[1..]);
  }
}
