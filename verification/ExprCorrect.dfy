// Running the code of an expression: every depth, both spill schemes.
module ExprCorrect {
  import opened Words
  import opened Source
  import opened Machine
  import opened Code

  // The machine state represents the store of words: variable x lives in the aligned word at rbp + lay[x], and
  // the stack pointer is below all variables.
  ghost predicate Matches(lay: Layout, store: Source.Store, s: State) {
    && s.rsp % 8 == 0 && s.rbp % 8 == 0 && s.rsp <= s.rbp
    && store.Keys == lay.Keys && WordStore(store)
    && forall x :: x in lay ==> lay[x] >= 0 && lay[x] % 8 == 0 && Read(s.mem, s.rbp + lay[x]) == store[x]
  }

  // The outcome of computing a value v into the k-th temporary: the value is there, every live register is
  // kept, and the stack holds exactly the word that the temporary's owner will pop.
  ghost predicate Computed(sch: Scheme, k: nat, v: int, s: State, t: State) {
    && t.regs[Owner(sch, k)] == v
    && t.rbp == s.rbp && t.out == s.out
    && t.rsp == (if k < NUM_REGS then s.rsp else s.rsp - 8)
    && (k >= NUM_REGS ==> Read(t.mem, s.rsp - 8) == s.regs[Owner(sch, k)])
    && (forall j: Reg :: j != Owner(sch, k) && (k >= NUM_REGS || j < k) ==> t.regs[j] == s.regs[j])
    && (forall a :: a >= s.rsp ==> Read(t.mem, a) == Read(s.mem, a))
  }

  lemma {:induction false} SeenResolves(sch: Scheme, k: nat, e: Expr, names: set<string>)
    requires Resolves(names, e)
    ensures Resolves(names, Leftmost(e)) && Resolves(names, Seen(sch, k, e))
    decreases e
  {
    if e.Bin? {
      SeenResolves(sch, k, e.left, names);
      SeenResolves(sch, k + 1, e.right, names);
    }
  }

  // The two operands of an operator never share a register in the intended rotation, and never below the
  // second spill in the written one.
  lemma OperandsApart(sch: Scheme, k: nat)
    ensures sch.Intended? || k < NUM_REGS ==> Owner(sch, k) != Owner(sch, k + 1)
  {
    if k >= NUM_REGS && sch.Intended? {
      var i := 6 + (k - NUM_REGS);
      assert (i + 1) % NUM_REGS == if i % NUM_REGS == NUM_REGS - 1 then 0 else i % NUM_REGS + 1;
    }
  }

  lemma {:induction false} TakeOk(env: Env, sch: Scheme, k: nat, s: State) returns (t: State)
    requires s.rsp % 8 == 0
    ensures Runs(env, Take(sch, k), s, t)
    ensures t == if k < NUM_REGS then s
                 else s.(rsp := s.rsp - 8, mem := s.mem[s.rsp - 8 := s.regs[Owner(sch, k)]])
  {
    t := if k < NUM_REGS then s else s.(rsp := s.rsp - 8, mem := s.mem[s.rsp - 8 := s.regs[Owner(sch, k)]]);
    if k >= NUM_REGS { RunsOne(env, Push(Owner(sch, k)), s, t); } else { RunsNone(env, s); }
  }

  // Operator and release, given both operands computed.
  lemma {:induction false} CombineOk(env: Env, sch: Scheme, k: nat, op: ArithOp, a: int, b: int,
                                     s: State, s1: State, s2: State)
    returns (t: State)
    requires s.rsp % 8 == 0
    requires Computed(sch, k, a, s, s1)
    requires Computed(sch, k + 1, b, s1, s2)
    ensures Runs(env, OpCode(sch, k, op), s2, t)
    ensures Computed(sch, k, if sch.Written? && k >= NUM_REGS then a else Wrap(Exact(op, a, b)), s, t)
  {
    OperandsApart(sch, k);
    var alu, pop := Alu(AluOf(op), Owner(sch, k), Owner(sch, k + 1)), Pop(Owner(sch, k + 1));
    var u := Step(env, alu, s2).value;
    if k + 1 < NUM_REGS {
      t := u;
      RunsOne(env, alu, s2, t);
      assert OpCode(sch, k, op) == [alu];
    } else {
      t := Step(env, pop, u).value;
      RunsTwo(env, alu, pop, s2, u, t);
      assert OpCode(sch, k, op) == [alu, pop];
    }
  }

  lemma LitRuns(env: Env, sch: Scheme, k: nat, n: int, s: State) returns (t: State)
    requires s.rsp % 8 == 0
    ensures Runs(env, Take(sch, k) + [MovImm(Owner(sch, k), n)], s, t)
    ensures Computed(sch, k, n, s, t)
  {
    var u := TakeOk(env, sch, k, s);
    var i := MovImm(Owner(sch, k), n);
    t := Step(env, i, u).value;
    RunsOne(env, i, u, t);
    RunsAppend(env, Take(sch, k), [i], s, u, t);
  }

  lemma PathRuns(env: Env, sch: Scheme, k: nat, off: int, s: State) returns (t: State)
    requires s.rsp % 8 == 0 && s.rsp <= s.rbp && s.rbp % 8 == 0 && off >= 0 && off % 8 == 0
    ensures Runs(env, Take(sch, k) + [Lea(Owner(sch, k), off), Load(Owner(sch, k), Owner(sch, k))], s, t)
    ensures Computed(sch, k, Read(s.mem, s.rbp + off), s, t)
  {
    var u := TakeOk(env, sch, k, s);
    var r := Owner(sch, k);
    var i, j := Lea(r, off), Load(r, r);
    var v := Step(env, i, u).value;
    assert v.regs[r] == s.rbp + off && (s.rbp + off) % 8 == 0;
    t := Step(env, j, v).value;
    RunsTwo(env, i, j, u, v, t);
    RunsAppend(env, Take(sch, k), [i, j], s, u, t);
  }

  lemma MatchesAfterExpr(sch: Scheme, lay: Layout, k: nat, v: int, store: Source.Store, s: State, t: State)
    requires Matches(lay, store, s) && Computed(sch, k, v, s, t)
    ensures Matches(lay, store, t)
  {
  }

  // Code for an expression computes what Seen says it computes, from any number of live temporaries.
  lemma {:induction false} ExprRuns(env: Env, sch: Scheme, lay: Layout, k: nat, e: Expr, store: Source.Store, s: State)
    returns (t: State)
    requires Resolves(lay.Keys, e)
    requires Matches(lay, store, s)
    ensures Runs(env, ExprCode(sch, lay, k, e), s, t)
    ensures Resolves(store.Keys, Seen(sch, k, e)) && Computed(sch, k, Eval(Seen(sch, k, e), store), s, t)
    ensures Matches(lay, store, t)
    decreases e
  {
    SeenResolves(sch, k, e, lay.Keys);
    var r := Owner(sch, k);
    assert store.Keys == lay.Keys;
    match e
    case Lit(n) =>
      t := LitRuns(env, sch, k, n, s);
      MatchesAfterExpr(sch, lay, k, n, store, s, t);
    case Path(x) =>
      t := PathRuns(env, sch, k, lay[x], s);
      MatchesAfterExpr(sch, lay, k, store[x], store, s, t);
    case Bin(op, a, b) =>
      var s1 := ExprRuns(env, sch, lay, k, a, store, s);
      var s2 := ExprRuns(env, sch, lay, k + 1, b, store, s1);
      t := BinRuns(env, sch, lay, k, e, store, s, s1, s2);
  }

  lemma BinRuns(env: Env, sch: Scheme, lay: Layout, k: nat, e: Expr, store: Source.Store, s: State, s1: State, s2: State)
    returns (t: State)
    requires e.Bin? && Resolves(lay.Keys, e) && Matches(lay, store, s)
    requires Resolves(store.Keys, Seen(sch, k, e.left)) && Resolves(store.Keys, Seen(sch, k + 1, e.right))
    requires Runs(env, ExprCode(sch, lay, k, e.left), s, s1) && Computed(sch, k, Eval(Seen(sch, k, e.left), store), s, s1)
    requires Runs(env, ExprCode(sch, lay, k + 1, e.right), s1, s2)
    requires Computed(sch, k + 1, Eval(Seen(sch, k + 1, e.right), store), s1, s2)
    ensures Runs(env, ExprCode(sch, lay, k, e), s, t)
    ensures Resolves(store.Keys, Seen(sch, k, e)) && Computed(sch, k, Eval(Seen(sch, k, e), store), s, t)
    ensures Matches(lay, store, t)
  {
    var va, vb := Eval(Seen(sch, k, e.left), store), Eval(Seen(sch, k + 1, e.right), store);
    t := CombineOk(env, sch, k, e.op, va, vb, s, s1, s2);
    RunsThree(env, ExprCode(sch, lay, k, e.left), ExprCode(sch, lay, k + 1, e.right), OpCode(sch, k, e.op), s, s1, s2, t);
    BinCode(sch, lay, k, e);
    assert store.Keys == lay.Keys;
    SeenBin(sch, k, e, store);
    MatchesAfterExpr(sch, lay, k, Eval(Seen(sch, k, e), store), store, s, t);
  }

  function OpCode(sch: Scheme, k: nat, op: ArithOp): seq<Instr> {
    [Alu(AluOf(op), Owner(sch, k), Owner(sch, k + 1))] + GiveBack(sch, k + 1)
  }

  lemma BinCode(sch: Scheme, lay: Layout, k: nat, e: Expr)
    requires e.Bin? && Resolves(lay.Keys, e)
    ensures ExprCode(sch, lay, k, e) ==
            ExprCode(sch, lay, k, e.left) + ExprCode(sch, lay, k + 1, e.right) + OpCode(sch, k, e.op)
  {
  }

  lemma SeenBin(sch: Scheme, k: nat, e: Expr, store: Source.Store)
    requires e.Bin? && Resolves(store.Keys, e)
    ensures Resolves(store.Keys, Seen(sch, k, e)) && Resolves(store.Keys, Seen(sch, k, e.left))
    ensures Resolves(store.Keys, Seen(sch, k + 1, e.right))
    ensures Eval(Seen(sch, k, e), store) ==
            if sch.Written? && k >= NUM_REGS then Eval(Seen(sch, k, e.left), store)
            else Wrap(Exact(e.op, Eval(Seen(sch, k, e.left), store), Eval(Seen(sch, k + 1, e.right), store)))
  {
    SeenResolves(sch, k, e, store.Keys);
    SeenResolves(sch, k, e.left, store.Keys);
    SeenResolves(sch, k + 1, e.right, store.Keys);
  }

  lemma {:induction false} ExprStraight(sch: Scheme, lay: Layout, k: nat, e: Expr)
    requires Resolves(lay.Keys, e)
    ensures StraightCode(ExprCode(sch, lay, k, e))
    decreases e
  {
    if e.Bin? {
      ExprStraight(sch, lay, k, e.left);
      ExprStraight(sch, lay, k + 1, e.right);
    }
  }
}
