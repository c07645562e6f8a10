// Expressions with div and mod, nested as they may be.
module Quotients {
  import opened Basics
  import opened Words
  import opened Source
  import opened Machine
  import opened Code
  import opened ExprCorrect
  import opened StmtCorrect
  import opened Spill
  import opened DivMod

  datatype Quotient =
    | Whole(e: Expr)
    | Combine(op: ArithOp, left: Quotient, right: Quotient)
    | Divide(div: DivOp, left: Quotient, right: Quotient)

  predicate Resolved(names: set<string>, q: Quotient) {
    match q
    case Whole(e) => Resolves(names, e)
    case Combine(_, a, b) => Resolved(names, a) && Resolved(names, b)
    case Divide(_, a, b) => Resolved(names, a) && Resolved(names, b)
  }

  // The value, if no divisor is zero.
  function Value(q: Quotient, store: Source.Store): Option<int>
    requires Resolved(store.Keys, q)
  {
    match q
    case Whole(e) => Some(Eval(e, store))
    case Combine(op, a, b) =>
      var x, y := Value(a, store), Value(b, store);
      if x.None? || y.None? then None else Some(Wrap(Exact(op, x.value, y.value)))
    case Divide(op, a, b) =>
      var x, y := Value(a, store), Value(b, store);
      if x.None? || y.None? || y.value == 0 then None else Some(Answer(op, x.value, y.value))
  }

  function QuotientCode(sch: Scheme, lay: Layout, k: nat, q: Quotient): seq<Instr>
    requires Resolved(lay.Keys, q)
    decreases q
  {
    match q
    case Whole(e) => ExprCode(sch, lay, k, e)
    case Combine(op, a, b) =>
      QuotientCode(sch, lay, k, a) + QuotientCode(sch, lay, k + 1, b) + OpCode(sch, k, op)
    case Divide(op, a, b) =>
      QuotientCode(sch, lay, k, a) + QuotientCode(sch, lay, k + 1, b)
      + (DivBlock(op, Owner(sch, k), Owner(sch, k + 1)) + GiveBack(sch, k + 1))
  }

  // Spilling is harmless, divisions stay out of rax and rdx, and every dividend is a word that is extended
  // correctly.
  predicate Safe(sch: Scheme, k: nat, q: Quotient, store: Source.Store)
    requires Resolved(store.Keys, q)
    decreases q
  {
    match q
    case Whole(e) => Seen(sch, k, e) == e
    case Combine(_, a, b) => (sch.Intended? || k < NUM_REGS) && Safe(sch, k, a, store) && Safe(sch, k + 1, b, store)
    case Divide(_, a, b) =>
      && Clear(Owner(sch, k), Owner(sch, k + 1)) && Safe(sch, k, a, store) && Safe(sch, k + 1, b, store)
      && var x := Value(a, store); x.Some? ==> Extends(x.value) && IsWord(x.value)
  }

  // The division and the release of its right operand, spilled or not.
  lemma DivideOk(env: Env, sch: Scheme, k: nat, op: DivOp, a: int, b: int, s: State, s1: State, s2: State)
    returns (t: State)
    requires s.rsp % 8 == 0 && Clear(Owner(sch, k), Owner(sch, k + 1))
    requires Computed(sch, k, a, s, s1) && Computed(sch, k + 1, b, s1, s2)
    requires Extends(a) && IsWord(a) && b != 0
    ensures Runs(env, DivBlock(op, Owner(sch, k), Owner(sch, k + 1)) + GiveBack(sch, k + 1), s2, t)
    ensures Computed(sch, k, Answer(op, a, b), s, t)
  {
    var l, r := Owner(sch, k), Owner(sch, k + 1);
    ExtendedWhen(a);
    QuotFits(a, b);
    var u := BlockRuns(env, op, l, r, s2);
    if k + 1 < NUM_REGS {
      t := u;
      assert DivBlock(op, l, r) + GiveBack(sch, k + 1) == DivBlock(op, l, r);
    } else {
      t := Step(env, Pop(r), u).value;
      RunsOne(env, Pop(r), u, t);
      RunsAppend(env, DivBlock(op, l, r), [Pop(r)], s2, u, t);
    }
    Divided(sch, k, a, b, Answer(op, a, b), s, s1, s2, u, t);
  }

  lemma Divided(sch: Scheme, k: nat, a: int, b: int, v: int, s: State, s1: State, s2: State, u: State, t: State)
    requires Owner(sch, k) != Owner(sch, k + 1)
    requires Computed(sch, k, a, s, s1) && Computed(sch, k + 1, b, s1, s2)
    requires OnlyResult(Owner(sch, k), s2, u) && u.regs[Owner(sch, k)] == v
    requires var r := Owner(sch, k + 1);
             t == if k + 1 < NUM_REGS then u else u.(rsp := u.rsp + 8, regs := u.regs[r := Read(u.mem, u.rsp)])
    ensures Computed(sch, k, v, s, t)
  {
  }

  lemma {:induction false} ValueWord(sch: Scheme, k: nat, q: Quotient, store: Source.Store)
    requires Resolved(store.Keys, q) && WordStore(store) && Safe(sch, k, q, store) && Value(q, store).Some?
    ensures IsWord(Value(q, store).value)
    decreases q
  {
    match q
    case Whole(e) => EvalWord(e, store);
    case Combine(_, _, _) =>
    case Divide(op, a, b) =>
      ValueWord(sch, k + 1, b, store);
      var x, y := Value(a, store).value, Value(b, store).value;
      QuotFits(x, y);
      RemSmaller(x, y);
  }

  lemma RemSmaller(x: nat, d: int)
    requires d != 0
    ensures 0 <= Rem(x, d) <= x
  {
    RemOf(x, d);
    var e := Abs(d);
    DivSmaller(x, e);
    assert x % e == x - x / e * e;
    MulAtLeast(x / e, e);
  }

  // Safe expressions are computed correctly, divisions nested in divisions and all.
  lemma {:induction false} QuotientRuns(env: Env, sch: Scheme, lay: Layout, k: nat, q: Quotient,
                                        store: Source.Store, s: State)
    returns (t: State)
    requires Resolved(lay.Keys, q) && Resolved(store.Keys, q) && Matches(lay, store, s)
    requires Safe(sch, k, q, store) && Value(q, store).Some?
    ensures Runs(env, QuotientCode(sch, lay, k, q), s, t)
    ensures Computed(sch, k, Value(q, store).value, s, t) && Matches(lay, store, t)
    decreases q
  {
    if q.Whole? {
      t := ExprRuns(env, sch, lay, k, q.e, store, s);
    } else {
      hide QuotientCode;
      var s1 := QuotientRuns(env, sch, lay, k, q.left, store, s);
      var s2 := QuotientRuns(env, sch, lay, k + 1, q.right, store, s1);
      t := OperatorRuns(env, sch, lay, k, q, store, s, s1, s2);
    }
  }

  lemma OperatorRuns(env: Env, sch: Scheme, lay: Layout, k: nat, q: Quotient, store: Source.Store,
                     s: State, s1: State, s2: State)
    returns (t: State)
    requires !q.Whole? && Resolved(lay.Keys, q) && Resolved(store.Keys, q) && Matches(lay, store, s)
    requires Safe(sch, k, q, store) && Value(q, store).Some?
    requires Runs(env, QuotientCode(sch, lay, k, q.left), s, s1)
    requires Computed(sch, k, Value(q.left, store).value, s, s1)
    requires Runs(env, QuotientCode(sch, lay, k + 1, q.right), s1, s2)
    requires Computed(sch, k + 1, Value(q.right, store).value, s1, s2)
    ensures Runs(env, QuotientCode(sch, lay, k, q), s, t)
    ensures Computed(sch, k, Value(q, store).value, s, t) && Matches(lay, store, t)
  {
    var x, y := Value(q.left, store).value, Value(q.right, store).value;
    var c: seq<Instr>;
    if q.Combine? {
      c := OpCode(sch, k, q.op);
      t := CombineOk(env, sch, k, q.op, x, y, s, s1, s2);
    } else {
      c := DivBlock(q.div, Owner(sch, k), Owner(sch, k + 1)) + GiveBack(sch, k + 1);
      t := DivideOk(env, sch, k, q.div, x, y, s, s1, s2);
    }
    OperatorCode(sch, lay, k, q);
    hide QuotientCode, Value, Safe, Resolved;
    RunsThree(env, QuotientCode(sch, lay, k, q.left), QuotientCode(sch, lay, k + 1, q.right), c, s, s1, s2, t);
    MatchesAfterExpr(sch, lay, k, Value(q, store).value, store, s, t);
  }

  lemma OperatorCode(sch: Scheme, lay: Layout, k: nat, q: Quotient)
    requires !q.Whole? && Resolved(lay.Keys, q)
    ensures Resolved(lay.Keys, q.left) && Resolved(lay.Keys, q.right)
    ensures QuotientCode(sch, lay, k, q) ==
            QuotientCode(sch, lay, k, q.left) + QuotientCode(sch, lay, k + 1, q.right)
            + (if q.Combine? then OpCode(sch, k, q.op)
               else DivBlock(q.div, Owner(sch, k), Owner(sch, k + 1)) + GiveBack(sch, k + 1))
  {
  }

  // One division of arithmetic operands.
  function DivExprCode(sch: Scheme, lay: Layout, k: nat, op: DivOp, a: Expr, b: Expr): seq<Instr>
    requires Resolves(lay.Keys, a) && Resolves(lay.Keys, b)
  {
    ExprCode(sch, lay, k, a) + ExprCode(sch, lay, k + 1, b)
    + (DivBlock(op, Owner(sch, k), Owner(sch, k + 1)) + GiveBack(sch, k + 1))
  }

  lemma FittingRuns(env: Env, sch: Scheme, lay: Layout, k: nat, e: Expr, store: Source.Store, s: State)
    returns (t: State)
    requires Resolves(lay.Keys, e) && Resolves(store.Keys, e) && Matches(lay, store, s) && Fits(k, e)
    ensures Runs(env, ExprCode(sch, lay, k, e), s, t) && Computed(sch, k, Eval(e, store), s, t) && Matches(lay, store, t)
  {
    SeenWhenFits(k, e);
    assert Seen(sch, k, e) == e;
    t := ExprRuns(env, sch, lay, k, e, store, s);
  }

  // Up to the ninth live temporary, one division of arithmetic operands that fit is computed correctly for
  // every dividend that is extended correctly and every nonzero divisor.
  lemma DivExprRuns(env: Env, sch: Scheme, lay: Layout, k: nat, op: DivOp, a: Expr, b: Expr, store: Source.Store, s: State)
    returns (t: State)
    requires Resolves(lay.Keys, a) && Resolves(lay.Keys, b) && Matches(lay, store, s)
    requires k <= 8 && Fits(k, a) && Fits(k + 1, b)
    requires Resolves(store.Keys, a) && Resolves(store.Keys, b)
    requires Extends(Eval(a, store)) && Eval(a, store) < TWO_63 && Eval(b, store) != 0
    ensures Runs(env, DivExprCode(sch, lay, k, op, a, b), s, t)
    ensures Computed(sch, k, Answer(op, Eval(a, store), Eval(b, store)), s, t)
  {
    ClearExactly(sch, k);
    hide ExprCode, Eval, Resolves, Fits, DivBlock, GiveBack;
    var s1 := FittingRuns(env, sch, lay, k, a, store, s);
    var s2 := FittingRuns(env, sch, lay, k + 1, b, store, s1);
    t := DivideOk(env, sch, k, op, Eval(a, store), Eval(b, store), s, s1, s2);
    RunsThree(env, ExprCode(sch, lay, k, a), ExprCode(sch, lay, k + 1, b),
              DivBlock(op, Owner(sch, k), Owner(sch, k + 1)) + GiveBack(sch, k + 1), s, s1, s2, t);
  }

  // ---- statements ----

  function QuotientAssignCode(sch: Scheme, lay: Layout, x: string, q: Quotient): seq<Instr>
    requires x in lay && Resolved(lay.Keys, q)
  {
    [Lea(0, lay[x])] + QuotientCode(sch, lay, 1, q) + [Instr.Store(0, 1)]
  }

  // An assignment of a safe expression stores its value in the variable's word and changes no other variable.
  lemma QuotientAssignRuns(env: Env, sch: Scheme, lay: Layout, x: string, q: Quotient, st: Run, m: State)
    returns (t: State)
    requires x in lay && Resolved(lay.Keys, q) && Resolved(st.store.Keys, q)
    requires Injective(lay) && Related(lay, st, m)
    requires Safe(sch, 1, q, st.store) && Value(q, st.store).Some?
    ensures Runs(env, QuotientAssignCode(sch, lay, x, q), m, t)
    ensures Related(lay, st.(store := st.store[x := Value(q, st.store).value]), t) && Kept(lay, m, t)
  {
    hide QuotientCode, Value, Safe, Resolved;
    var i, j := Lea(0, lay[x]), Instr.Store(0, 1);
    var m1 := LeaRuns(env, lay, x, st, m);
    hide Injective;
    var m2 := QuotientRuns(env, sch, lay, 1, q, st.store, m1);
    KeptIfSame(lay, m, m2);
    ValueWord(sch, 1, q, st.store);
    t := StoreRuns(env, lay, x, Value(q, st.store).value, st, m2);
    RunsThree(env, [i], QuotientCode(sch, lay, 1, q), [j], m, m1, m2, t);
    KeptTrans(lay, m, m2, t);
  }

  function QuotientWriteCode(sch: Scheme, lay: Layout, q: Quotient): seq<Instr>
    requires Resolved(lay.Keys, q)
  {
    QuotientCode(sch, lay, 0, q) + [Push(0), CallWriteInteger, AddRsp(8)]
  }

  // Writing a safe expression prints its value.
  lemma QuotientWriteRuns(env: Env, sch: Scheme, lay: Layout, q: Quotient, st: Run, m: State) returns (t: State)
    requires Resolved(lay.Keys, q) && Resolved(st.store.Keys, q) && Related(lay, st, m)
    requires Safe(sch, 0, q, st.store) && Value(q, st.store).Some?
    ensures Runs(env, QuotientWriteCode(sch, lay, q), m, t)
    ensures Related(lay, st.(out := st.out + [Printed(Value(q, st.store).value)]), t) && Kept(lay, m, t)
  {
    hide QuotientCode, Value, Safe, Resolved;
    var m1 := QuotientRuns(env, sch, lay, 0, q, st.store, m);
    t := PrintOne(env, lay, st, m1);
    KeptIfSame(lay, m, m1);
    KeptTrans(lay, m, m1, t);
    RunsAppend(env, QuotientCode(sch, lay, 0, q), [Push(0), CallWriteInteger, AddRsp(8)], m, m1, t);
  }

  function QuotientTestCode(sch: Scheme, lay: Layout, op: RelOp, a: Quotient, b: Quotient): seq<Instr>
    requires Resolved(lay.Keys, a) && Resolved(lay.Keys, b)
  {
    QuotientCode(sch, lay, 0, a) + QuotientCode(sch, lay, 1, b) + [Cmp(0, 1), SetCC(CodeOf(op), 1), Movzx(0, 1)]
  }

  // A comparison of safe expressions leaves 1 or 0 in the first register, as it holds or not.
  lemma QuotientTestRuns(env: Env, sch: Scheme, lay: Layout, op: RelOp, a: Quotient, b: Quotient, st: Run, m: State)
    returns (t: State)
    requires Resolved(lay.Keys, a) && Resolved(lay.Keys, b) && Resolved(st.store.Keys, a) && Resolved(st.store.Keys, b)
    requires Related(lay, st, m) && Safe(sch, 0, a, st.store) && Safe(sch, 1, b, st.store)
    requires Value(a, st.store).Some? && Value(b, st.store).Some?
    ensures Runs(env, QuotientTestCode(sch, lay, op, a, b), m, t)
    ensures t.regs[0] == if Holds(op, Value(a, st.store).value, Value(b, st.store).value) then 1 else 0
    ensures Related(lay, st, t) && Kept(lay, m, t)
  {
    hide QuotientCode, Value, Safe, Resolved;
    var t1 := QuotientRuns(env, sch, lay, 0, a, st.store, m);
    var t2 := QuotientRuns(env, sch, lay, 1, b, st.store, t1);
    ValueWord(sch, 0, a, st.store);
    ValueWord(sch, 1, b, st.store);
    t := CompareRuns(env, op, t2);
    KeptIfSame(lay, m, t);
    RunsThree(env, QuotientCode(sch, lay, 0, a), QuotientCode(sch, lay, 1, b), [Cmp(0, 1), SetCC(CodeOf(op), 1), Movzx(0, 1)],
              m, t1, t2, t);
  }
}
