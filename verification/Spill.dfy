// How deep expressions may be: the intended spill scheme is right at every depth, the written one exactly as
// long as the live temporaries and the register need add up to at most fifteen.
module Spill {
  import opened Words
  import opened Source
  import opened Machine
  import opened Code
  import opened ExprCorrect

  // Wherever the emitted code runs to its end from a state that represents a store, the result register
  // holds the value of e in that store.
  ghost predicate CompiledRight(sch: Scheme, k: nat, e: Expr) {
    forall env: Env, lay: Layout, store: Source.Store, s: State, t: State ::
      Resolves(lay.Keys, e) && Matches(lay, store, s) && Runs(env, ExprCode(sch, lay, k, e), s, t)
      ==> t.regs[Owner(sch, k)] == Eval(e, store)
  }

  // The same operators in the same places; leaves may differ.
  ghost predicate SameShape(e: Expr, f: Expr) {
    if e.Bin? then f.Bin? && f.op == e.op && SameShape(e.left, f.left) && SameShape(e.right, f.right)
    else !f.Bin?
  }

  predicate Fits(k: nat, e: Expr) {
    !e.Bin? || k + Need(e) <= NUM_REGS + 1
  }

  // ---- the machine is deterministic on straight-line code ----

  lemma {:induction false} RunTracesAgree(env: Env, c: seq<Instr>, p: seq<State>, q: seq<State>, i: nat)
    requires |p| == |q| == |c| + 1 && i <= |c| && p[0] == q[0]
    requires RunTrace(env, c, p) && RunTrace(env, c, q)
    ensures p[i] == q[i]
  {
    if i != 0 {
      RunTracesAgree(env, c, p, q, i - 1);
      assert Stepped(env, c, p, i - 1) && Stepped(env, c, q, i - 1);
    }
  }

  lemma RunsDeterministic(env: Env, c: seq<Instr>, s: State, t: State, u: State)
    requires Runs(env, c, s, t) && Runs(env, c, s, u)
    ensures t == u
  {
    var p: seq<State> :| |p| == |c| + 1 && p[0] == s && p[|c|] == t && RunTrace(env, c, p);
    var q: seq<State> :| |q| == |c| + 1 && q[0] == s && q[|c|] == u && RunTrace(env, c, q);
    RunTracesAgree(env, c, p, q, |c|);
  }

  // What the code leaves in its register is the value of what Seen says, and nothing else.
  lemma ResultIsSeen(env: Env, sch: Scheme, lay: Layout, k: nat, e: Expr, store: Source.Store, s: State, t: State)
    requires Resolves(lay.Keys, e) && Matches(lay, store, s) && Runs(env, ExprCode(sch, lay, k, e), s, t)
    ensures Resolves(store.Keys, Seen(sch, k, e)) && t.regs[Owner(sch, k)] == Eval(Seen(sch, k, e), store)
  {
    var u := ExprRuns(env, sch, lay, k, e, store, s);
    RunsDeterministic(env, ExprCode(sch, lay, k, e), s, t, u);
  }

  lemma SeenItselfIsRight(sch: Scheme, k: nat, e: Expr)
    requires Seen(sch, k, e) == e
    ensures CompiledRight(sch, k, e)
  {
    forall env: Env, lay: Layout, store: Source.Store, s: State, t: State |
      Resolves(lay.Keys, e) && Matches(lay, store, s) && Runs(env, ExprCode(sch, lay, k, e), s, t)
      ensures t.regs[Owner(sch, k)] == Eval(e, store)
    {
      ResultIsSeen(env, sch, lay, k, e, store, s, t);
    }
  }

  // ---- the intended scheme ----

  lemma IntendedRightAtEveryDepth(k: nat, e: Expr)
    ensures CompiledRight(Intended, k, e)
  {
    SeenItselfIsRight(Intended, k, e);
  }

  // ---- the written scheme ----

  lemma {:induction false} SeenWhenFits(k: nat, e: Expr)
    ensures Fits(k, e) <==> Seen(Written, k, e) == e
    decreases e
  {
    if e.Bin? {
      LeftmostSmaller(e);
      if k < NUM_REGS {
        SeenWhenFits(k, e.left);
        SeenWhenFits(k + 1, e.right);
        NeedPositive(e.left);
        NeedPositive(e.right);
        LeafNeed(e.left);
        LeafNeed(e.right);
      } else {
        NeedPositive(e.right);
      }
    }
  }

  lemma NeedPositive(e: Expr)
    ensures Need(e) >= 1
  {
  }

  lemma LeafNeed(e: Expr)
    ensures Need(e) == 1 <==> !e.Bin?
  {
    if e.Bin? { NeedPositive(e.right); }
  }

  lemma {:induction false} LeftmostSmaller(e: Expr)
    ensures !Leftmost(e).Bin?
  {
    if e.Bin? { LeftmostSmaller(e.left); }
  }

  function NoStore(): (m: Source.Store)
    ensures forall x :: x !in m
  {
    map[]
  }

  // A closed expression with value v.
  predicate Denotes(e: Expr, v: int) {
    Resolves(NoStore().Keys, e) && Eval(e, NoStore()) == v
  }

  // Literals for the leaves of a shape that make it evaluate to bit, with the leftmost leaf equal to bit.
  function Fill(e: Expr, bit: int): Expr
    requires bit == 0 || bit == 1
  {
    match e
    case Bin(Times, l, r) => Bin(Times, Fill(l, bit), Fill(r, bit))
    case Bin(op, l, r) => Bin(op, Fill(l, bit), Fill(r, 0))
    case _ => Lit(bit)
  }

  lemma {:induction false} FillOk(e: Expr, bit: int, k: nat)
    requires bit == 0 || bit == 1
    ensures SameShape(e, Fill(e, bit))
    ensures Denotes(Fill(e, bit), bit)
    ensures Denotes(Seen(Written, k, Fill(e, bit)), bit)
    ensures Leftmost(Fill(e, bit)) == Lit(bit)
    decreases e
  {
    if e.Bin? {
      FillOk(e.left, bit, k);
      FillOk(e.right, if e.op.Times? then bit else 0, k + 1);
      WrapSmall(bit);
    }
  }

  lemma WrapSmall(x: int)
    requires -2 <= x <= 2
    ensures Wrap(x) == x
  {
    WrapUnique(x, x, 0);
  }

  // Literals that expose the wrong spill: the expression and what the code computes for it differ, and
  // both are small.
  lemma {:induction false} Expose(e: Expr, k: nat) returns (f: Expr, a: int, b: int)
    requires !Fits(k, e)
    ensures SameShape(e, f)
    ensures Denotes(f, a)
    ensures Denotes(Seen(Written, k, f), b)
    ensures a != b && -2 <= a <= 2 && -2 <= b <= 2
    decreases e
  {
    if k >= NUM_REGS {
      f, a, b := ExposeHere(e, k);
    } else if !Fits(k, e.left) {
      f, a, b := Expose(e.left, k);
      var other := if e.op.Times? then 1 else 0;
      FillOk(e.right, other, k + 1);
      f := Bin(e.op, f, Fill(e.right, other));
      ExactUnit(e.op, other, a);
      ExactUnit(e.op, other, b);
      WrapSmall(a);
      WrapSmall(b);
    } else {
      LeafNeed(e.left);
      LeafNeed(e.right);
      f, a, b := Expose(e.right, k + 1);
      f, a, b := ExposeRight(e, k, f, a, b);
    }
  }

  // A wrong right operand is passed on by a left operand of 0 or 1.
  lemma ExposeRight(e: Expr, k: nat, g: Expr, c: int, d: int) returns (f: Expr, a: int, b: int)
    requires e.Bin? && k < NUM_REGS && SameShape(e.right, g)
    requires Denotes(g, c)
    requires Denotes(Seen(Written, k + 1, g), d)
    requires c != d && -2 <= c <= 2 && -2 <= d <= 2
    ensures SameShape(e, f)
    ensures Denotes(f, a)
    ensures Denotes(Seen(Written, k, f), b)
    ensures a != b && -2 <= a <= 2 && -2 <= b <= 2
  {
    var other := if e.op.Times? then 1 else 0;
    FillOk(e.left, other, k);
    f := Bin(e.op, Fill(e.left, other), g);
    a, b := Exact(e.op, other, c), Exact(e.op, other, d);
    assert Seen(Written, k, f) == Bin(e.op, Seen(Written, k, Fill(e.left, other)), Seen(Written, k + 1, g));
    ExactUnit(e.op, other, c);
    ExactUnit(e.op, other, d);
    WrapSmall(a);
    WrapSmall(b);
  }

  lemma ExactUnit(op: ArithOp, unit: int, x: int)
    requires unit == if op.Times? then 1 else 0
    ensures Exact(op, unit, x) == if op.Minus? then -x else x
    ensures Exact(op, x, unit) == x
  {
  }

  lemma ExposeHere(e: Expr, k: nat) returns (f: Expr, a: int, b: int)
    requires e.Bin? && k >= NUM_REGS
    ensures SameShape(e, f)
    ensures Denotes(f, a)
    ensures Denotes(Seen(Written, k, f), b)
    ensures a != b && -2 <= a <= 2 && -2 <= b <= 2
  {
    var other := if e.op.Times? then 0 else 1;
    FillOk(e.left, 1, k);
    FillOk(e.right, other, k + 1);
    f := Bin(e.op, Fill(e.left, 1), Fill(e.right, other));
    WrapSmall(Exact(e.op, 1, other));
    a, b := Exact(e.op, 1, other), 1;
  }

  // ---- a state to run on ----

  function Blank(): State {
    State(seq(NUM_REGS, i => 0), 0, 0, map[], Undefined, [])
  }

  // A closed expression whose value differs from what the code computes is compiled wrongly.
  lemma WrongIsWrong(k: nat, f: Expr, a: int, b: int)
    requires Denotes(f, a) && Denotes(Seen(Written, k, f), b) && a != b
    ensures !CompiledRight(Written, k, f)
  {
    var env := Env((h: seq<Event>) => map[], (h: seq<Event>) => (0, 0));
    var lay: Layout := NoStore();
    var t := ExprRuns(env, Written, lay, k, f, NoStore(), Blank());
    assert t.regs[Owner(Written, k)] == b;
  }

  // The written scheme compiles every expression of a shape correctly if and only if the shape fits.
  lemma WrittenRightExactlyWhenFits(k: nat, e: Expr)
    ensures (forall f :: SameShape(e, f) ==> CompiledRight(Written, k, f)) <==> Fits(k, e)
  {
    if Fits(k, e) {
      forall f | SameShape(e, f) ensures CompiledRight(Written, k, f) {
        SameShapeNeed(e, f);
        SeenWhenFits(k, f);
        SeenItselfIsRight(Written, k, f);
      }
    } else {
      var f, a, b := Expose(e, k);
      WrongIsWrong(k, f, a, b);
    }
  }

  lemma {:induction false} SameShapeNeed(e: Expr, f: Expr)
    requires SameShape(e, f)
    ensures Need(f) == Need(e) && f.Bin? == e.Bin?
  {
    if e.Bin? {
      SameShapeNeed(e.left, f.left);
      SameShapeNeed(e.right, f.right);
    }
  }

  // The sum 1 + (1 + (1 + ...)) of n + 1 ones.
  function Spine(n: nat): Expr {
    if n == 0 then Lit(1) else Bin(Plus, Lit(1), Spine(n - 1))
  }

  lemma {:induction false} SpineDenotes(n: nat)
    requires n < 100
    ensures Need(Spine(n)) == n + 1 && Denotes(Spine(n), n + 1)
  {
    if n > 0 {
      SpineDenotes(n - 1);
      WrapUnique(n + 1, n + 1, 0);
    }
  }

  // As written, only the ones above the spill point are added.
  lemma {:induction false} SpineSeen(n: nat, k: nat)
    requires k <= NUM_REGS
    ensures Seen(Written, k, Spine(n)) == Spine(if k + n <= NUM_REGS then n else NUM_REGS - k)
    decreases n
  {
    assert Leftmost(Spine(n)) == Lit(1);
    if n > 0 && k < NUM_REGS { SpineSeen(n - 1, k + 1); }
  }

  // The bound of fifteen is reached: a sum of sixteen ones needs sixteen registers and comes out as fifteen.
  lemma SixteenOnes()
    ensures Need(Spine(15)) == 16 && Denotes(Spine(15), 16) && !CompiledRight(Written, 0, Spine(15))
  {
    SpineDenotes(15);
    SpineDenotes(14);
    SpineSeen(15, 0);
    WrongIsWrong(0, Spine(15), 16, 15);
  }

  // ---- when nothing is spilled ----

  ghost predicate NoPush(c: seq<Instr>) {
    forall i :: i in c ==> !i.Push?
  }

  lemma {:induction false} NoSpillExactly(sch: Scheme, lay: Layout, k: nat, e: Expr)
    requires Resolves(lay.Keys, e)
    ensures NoPush(ExprCode(sch, lay, k, e)) <==> k + Need(e) <= NUM_REGS
    decreases e
  {
    if e.Bin? {
      NoSpillExactly(sch, lay, k, e.left);
      NoSpillExactly(sch, lay, k + 1, e.right);
      var l, r := ExprCode(sch, lay, k, e.left), ExprCode(sch, lay, k + 1, e.right);
      BinCode(sch, lay, k, e);
      NoPushParts(l, r, OpCode(sch, k, e.op));
      NeedPositive(e.right);
    } else if k >= NUM_REGS {
      assert Push(Owner(sch, k)) in ExprCode(sch, lay, k, e);
    }
  }

  lemma NoPushParts(c: seq<Instr>, d: seq<Instr>, e: seq<Instr>)
    ensures NoPush(c + d + e) <==> NoPush(c) && NoPush(d) && NoPush(e)
  {
    assert forall i :: i in c + d + e <==> i in c || i in d || i in e;
  }

  // ---- whole statements ----

  predicate FitsCond(c: Cond) {
    c.Rel? ==> Fits(0, c.left) && Fits(1, c.right)
  }

  // Every expression of the statement fits where it is computed: an assignment holds the address of its
  // target while the right-hand side is computed, a comparison holds its left operand.
  predicate FitsStmt(s: Stmt)
    decreases s, 1
  {
    match s
    case Empty => true
    case Assign(_, e) => Fits(1, e)
    case Ite(c, t, f) => FitsCond(c) && FitsStmt(t) && FitsStmt(f)
    case Wdo(c, b) => FitsCond(c) && FitsStmt(b)
    case Stmts(ss) => FitsAll(ss)
    case Write(es, _) => forall i :: 0 <= i < |es| ==> Fits(0, es[i])
  }

  predicate FitsAll(ss: seq<Stmt>)
    decreases ss, 0
  {
    ss == [] || (FitsStmt(ss[0]) && FitsAll(ss[1..]))
  }

  lemma CondWhenFits(c: Cond)
    ensures FitsCond(c) <==> SeenCond(Written, c) == c
  {
    if c.Rel? {
      SeenWhenFits(0, c.left);
      SeenWhenFits(1, c.right);
    }
  }

  // The written scheme alters a statement exactly when some expression of it does not fit.
  lemma {:induction false} StmtWhenFits(s: Stmt)
    ensures FitsStmt(s) <==> SeenStmt(Written, s) == s
    decreases s, 1
  {
    match s
    case Empty =>
    case Assign(_, e) => SeenWhenFits(1, e);
    case Ite(c, t, f) =>
      CondWhenFits(c);
      StmtWhenFits(t);
      StmtWhenFits(f);
    case Wdo(c, b) =>
      CondWhenFits(c);
      StmtWhenFits(b);
    case Stmts(ss) => StmtsWhenFit(ss);
    case Write(es, _) =>
      forall i | 0 <= i < |es| ensures Fits(0, es[i]) <==> SeenArgs(Written, es)[i] == es[i] {
        SeenWhenFits(0, es[i]);
      }
  }

  lemma {:induction false} StmtsWhenFit(ss: seq<Stmt>)
    ensures FitsAll(ss) <==> SeenStmts(Written, ss) == ss
    decreases ss, 0
  {
    if ss != [] {
      StmtWhenFits(ss[0]);
      StmtsWhenFit(ss[1..]);
      var t := SeenStmts(Written, ss);
      assert t[0] == SeenStmt(Written, ss[0]) && t[1..] == SeenStmts(Written, ss[1..]);
    }
  }

  lemma {:induction false} IntendedSeesAll(s: Stmt)
    ensures SeenStmt(Intended, s) == s
    decreases s, 1
  {
    match s
    case Ite(c, t, f) =>
      IntendedSeesAll(t);
      IntendedSeesAll(f);
    case Wdo(c, b) => IntendedSeesAll(b);
    case Stmts(ss) => IntendedSeesEach(ss);
    case Write(es, _) => assert SeenArgs(Intended, es) == es;
    case _ =>
  }

  lemma {:induction false} IntendedSeesEach(ss: seq<Stmt>)
    ensures SeenStmts(Intended, ss) == ss
    decreases ss, 0
  {
    if ss != [] {
      IntendedSeesAll(ss[0]);
      IntendedSeesEach(ss[1..]);
    }
  }
}
