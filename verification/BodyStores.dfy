// Statements of main as bodies: what is checked and what a run does are the same.
module BodyStores {
  import opened Basics
  import opened Words
  import opened Source
  import opened Machine
  import opened Code
  import opened CodeLists
  import opened DivMod
  import opened Quotients
  import opened Scoping
  import opened Symbols
  import opened Bodies
  import opened Nonlocals

  function TermOf(e: Expr): Term {
    match e
    case Lit(n) => Number(n)
    case Path(x) => Name(x)
    case Bin(op, a, b) => Binary(Arithmetic(op), TermOf(a), TermOf(b))
  }

  function TermsOf(es: seq<Expr>): seq<Term> {
    seq(|es|, i requires 0 <= i < |es| => TermOf(es[i]))
  }

  function TestOf(c: Cond): Term {
    match c
    case Plain(e) => TermOf(e)
    case Rel(op, a, b) => Binary(Comparison(op), TermOf(a), TermOf(b))
  }

  function CmdOf(s: Stmt): Cmd {
    match s
    case Empty => Skip
    case Assign(x, e) => Set(x, TermOf(e))
    case Ite(c, a, b) => If(TestOf(c), CmdOf(a), CmdOf(b))
    case Wdo(c, b) => While(TestOf(c), CmdOf(b))
    case Stmts(ss) => Block(seq(|ss|, i requires 0 <= i < |ss| => CmdOf(ss[i])))
    case Write(es, newline) => Call(if newline then "writeln" else "write", TermsOf(es))
  }

  // ---- the meaning of terms ----

  predicate Truth(x: int) {
    x == 0 || x == 1
  }

  // Division by zero and a quotient that is no word are faults; and and or are given a meaning on truth values.
  function Operate(op: Operator, x: int, y: int): Option<int> {
    match op
    case Arithmetic(a) => Some(Wrap(Exact(a, x, y)))
    case Comparison(r) => Some(if Holds(r, x, y) then 1 else 0)
    case And => if Truth(x) && Truth(y) then Some(x * y) else None
    case Or => if Truth(x) && Truth(y) then Some(x + y - x * y) else None
    case Div => if y != 0 && -TWO_63 <= Quot(x, y) < TWO_63 then Some(Quot(x, y)) else None
    case Slash => if y != 0 && -TWO_63 <= Quot(x, y) < TWO_63 then Some(Quot(x, y)) else None
    case Mod => if y != 0 && -TWO_63 <= Quot(x, y) < TWO_63 then Some(Rem(x, y)) else None
  }

  function ValueIn(t: Tab, e: Term, cells: seq<int>): Option<int>
    requires TabOk(t)
  {
    match e
    case Number(n) => Some(n)
    case Name(x) =>
      var id := Named(t, x);
      if id.Some? && id.value < |cells| then Some(cells[id.value]) else None
    case Binary(op, a, b) =>
      var x, y := ValueIn(t, a, cells), ValueIn(t, b, cells);
      if x.None? || y.None? then None else Operate(op, x.value, y.value)
    case Apply(_, _) => None
  }

  function Worth(t: Tab): Meaning
    requires TabOk(t)
  {
    (e, cells) => ValueIn(t, e, cells)
  }

  // ---- runs on cells are runs on stores ----

  // The store that a body sees.
  function StoreOf(t: Tab, cells: seq<int>): (store: Store)
    requires TabOk(t) && |cells| == |t.vars|
    ensures store.Keys == Visible(t)
  {
    map x | x in Visible(t) :: if Named(t, x).Some? then cells[Named(t, x).value] else 0
  }

  // Different visible names have different cells.
  lemma NamesApart(t: Tab, x: string, y: string)
    requires Good(t) && Named(t, x).Some? && Named(t, x) == Named(t, y)
    ensures x == y
  {
    ResolvedExists(t, Vars, x);
    ResolvedExists(t, Vars, y);
    assert OwnName(t, Bind(Vars, x, Named(t, x).value)) && OwnName(t, Bind(Vars, y, Named(t, x).value));
  }

  lemma StoreAfter(t: Tab, cells: seq<int>, x: string, v: int)
    requires Good(t) && |cells| == |t.vars| && x in Visible(t) && Named(t, x).Some?
    ensures StoreOf(t, cells[Named(t, x).value := v]) == StoreOf(t, cells)[x := v]
  {
    forall y | y in Visible(t) && y != x ensures Named(t, y) != Named(t, x) {
      if Named(t, y) == Named(t, x) { NamesApart(t, x, y); }
    }
  }

  lemma {:induction false} ValueIsEval(t: Tab, e: Expr, cells: seq<int>)
    requires TabOk(t) && |cells| == |t.vars| && Resolves(Visible(t), e)
    ensures ValueIn(t, TermOf(e), cells) == Some(Eval(e, StoreOf(t, cells)))
  {
    match e
    case Lit(_) =>
    case Path(x) => VisibleExactly(t, x);
    case Bin(_, a, b) =>
      ValueIsEval(t, a, cells);
      ValueIsEval(t, b, cells);
  }

  lemma ValueIsTest(t: Tab, c: Cond, cells: seq<int>)
    requires TabOk(t) && |cells| == |t.vars| && CondOk(Visible(t), c)
    ensures ValueIn(t, TestOf(c), cells) == Some(if Test(c, StoreOf(t, cells)) then 1 else 0)
  {
    ValueIsEval(t, c.left, cells);
    ValueIsEval(t, c.right, cells);
  }

  // write and writeln, where they can be called, are the library's.
  predicate PrintsWithLibrary(t: Tab)
    requires Good(t)
  {
    Numbered(t, "write", MAGIC_WRITE) && Numbered(t, "writeln", MAGIC_WRITELN)
  }

  // The routine of this name, if there is one, has this magic number.
  predicate Numbered(t: Tab, f: string, which: int)
    requires Good(t)
  {
    Routine(t, f).Some? ==> Routine(t, f).value.magic == which
  }

  predicate SameOutcome(t: Tab, r: (World, bool), x: Outcome)
    requires TabOk(t) && |r.0.cells| == |t.vars|
  {
    r.1 == x.Ended? && x.run == Run(StoreOf(t, r.0.cells), r.0.out)
  }

  // On accepted statements of main the cells follow the store semantics and the output is the same, also when
  // the fuel runs out.
  lemma {:induction false} CellsFollowStores(t: Tab, s: Stmt, w: World, fuel: nat)
    requires Good(t) && PrintsWithLibrary(t) && |w.cells| == |t.vars|
    requires Accepted(Visible(t), s) && Runnable(t, CmdOf(s))
    ensures SameOutcome(t, RunCmd(t, Worth(t), CmdOf(s), w, fuel), Exec(s, Run(StoreOf(t, w.cells), w.out), fuel))
    decreases fuel, s, 1
  {
    var m := Worth(t);
    match s
    case Empty =>
    case Assign(x, e) =>
      VisibleExactly(t, x);
      ValueIsEval(t, e, w.cells);
      StoreAfter(t, w.cells, x, Eval(e, StoreOf(t, w.cells)));
    case Ite(c, a, b) =>
      ValueIsTest(t, c, w.cells);
      CellsFollowStores(t, if Test(c, StoreOf(t, w.cells)) then a else b, w, fuel);
    case Wdo(c, b) =>
      ValueIsTest(t, c, w.cells);
      if Test(c, StoreOf(t, w.cells)) && fuel > 0 {
        CellsFollowStores(t, b, w, fuel - 1);
        var r := RunCmd(t, m, CmdOf(b), w, fuel - 1);
        if r.1 { CellsFollowStores(t, s, r.0, fuel - 1); }
      }
    case Stmts(ss) => CellsFollowStoresAll(t, ss, w, fuel);
    case Write(es, newline) =>
      var which := if newline then MAGIC_WRITELN else MAGIC_WRITE;
      assert CmdOf(s) == Call(if newline then "writeln" else "write", TermsOf(es));
      PrintsFollow(t, which, es, w);
  }

  lemma {:induction false} CellsFollowStoresAll(t: Tab, ss: seq<Stmt>, w: World, fuel: nat)
    requires Good(t) && PrintsWithLibrary(t) && |w.cells| == |t.vars|
    requires AcceptedAll(Visible(t), ss) && Runnable(t, CmdOf(Stmts(ss)))
    ensures SameOutcome(t, RunBlock(t, Worth(t), CmdOf(Stmts(ss)).cs, w, fuel),
                        ExecAll(ss, Run(StoreOf(t, w.cells), w.out), fuel))
    decreases fuel, ss, 0
  {
    if ss != [] {
      var cs := CmdOf(Stmts(ss)).cs;
      assert cs[1..] == CmdOf(Stmts(ss[1..])).cs && cs[0] == CmdOf(ss[0]);
      CellsFollowStores(t, ss[0], w, fuel);
      var r := RunCmd(t, Worth(t), cs[0], w, fuel);
      if r.1 { CellsFollowStoresAll(t, ss[1..], r.0, fuel); }
    }
  }

  lemma {:induction false} PrintsFollow(t: Tab, which: int, es: seq<Expr>, w: World)
    requires TabOk(t) && |w.cells| == |t.vars| && ResolvesAll(Visible(t), es)
    ensures WriteTerms(Worth(t), which, TermsOf(es), w) ==
            (w.(out := w.out + Print(es, StoreOf(t, w.cells)) + if which == MAGIC_WRITELN then [Newline] else []), true)
    decreases es
  {
    var store := StoreOf(t, w.cells);
    if es == [] {
      assert w.out + Print(es, store) + [] == w.out;
      assert w.out + Print(es, store) + [Newline] == w.out + [Newline];
    } else {
      assert TermsOf(es)[1..] == TermsOf(es[1..]);
      ValueIsEval(t, es[0], w.cells);
      var v := Printed(Eval(es[0], store));
      PrintsFollow(t, which, es[1..], w.(out := w.out + [v]));
      assert w.out + ([v] + Print(es[1..], store)) == w.out + [v] + Print(es[1..], store);
    }
  }

  // ---- div, mod, and, or ----

  function DivTerm(op: DivOp): Operator {
    if op.Div? then Operator.Div else Operator.Mod
  }

  function QuotientTerm(q: Quotient): Term {
    match q
    case Whole(e) => TermOf(e)
    case Combine(op, a, b) => Binary(Arithmetic(op), QuotientTerm(a), QuotientTerm(b))
    case Divide(op, a, b) => Binary(DivTerm(op), QuotientTerm(a), QuotientTerm(b))
  }

  // The value of an expression with div and mod is the one that its code leaves behind when it is safe.
  lemma {:induction false} ValueIsQuotient(t: Tab, sch: Scheme, k: nat, q: Quotient, cells: seq<int>)
    requires TabOk(t) && |cells| == |t.vars| && Resolved(Visible(t), q)
    requires WordStore(StoreOf(t, cells)) && Safe(sch, k, q, StoreOf(t, cells)) && Value(q, StoreOf(t, cells)).Some?
    ensures ValueIn(t, QuotientTerm(q), cells) == Value(q, StoreOf(t, cells))
    decreases q
  {
    var store := StoreOf(t, cells);
    match q
    case Whole(e) => ValueIsEval(t, e, cells);
    case Combine(_, a, b) =>
      ValueIsQuotient(t, sch, k, a, cells);
      ValueIsQuotient(t, sch, k + 1, b, cells);
    case Divide(op, a, b) =>
      ValueIsQuotient(t, sch, k, a, cells);
      ValueIsQuotient(t, sch, k + 1, b, cells);
      QuotFits(Value(a, store).value, Value(b, store).value);
  }

  // On truth values and and or are what their names say, and nowhere else do they have a value.
  lemma TruthLaws(x: int, y: int)
    ensures Operate(And, x, y).Some? <==> Truth(x) && Truth(y)
    ensures Operate(Or, x, y).Some? <==> Truth(x) && Truth(y)
    ensures Truth(x) && Truth(y) ==> (Operate(And, x, y) == Some(1) <==> x == 1 && y == 1)
    ensures Truth(x) && Truth(y) ==> (Operate(Or, x, y) == Some(1) <==> x == 1 || y == 1)
    ensures Truth(x) && Truth(y) ==> Truth(Operate(And, x, y).value) && Truth(Operate(Or, x, y).value)
  {
  }

  // ---- labels ----

  // A body uses as many labels as the code of the statement.
  lemma {:induction false} LabelsAgree(s: Stmt)
    ensures LabelsIn(CmdOf(s)) == LabelsOf(s)
    decreases s, 1
  {
    match s
    case Ite(_, a, b) =>
      LabelsAgree(a);
      LabelsAgree(b);
    case Wdo(_, b) => LabelsAgree(b);
    case Stmts(ss) => LabelsAgreeAll(ss);
    case _ =>
  }

  lemma {:induction false} LabelsAgreeAll(ss: seq<Stmt>)
    ensures LabelsInAll(CmdOf(Stmts(ss)).cs) == LabelsOfAll(ss)
    decreases ss, 0
  {
    if ss != [] {
      var n := |ss| - 1;
      assert CmdOf(Stmts(ss)).cs[..n] == CmdOf(Stmts(ss[..n])).cs && ss == ss[..n] + [ss[n]];
      LabelsAgreeAll(ss[..n]);
      LabelsAgree(ss[n]);
      LabelsAppend(ss[..n], [ss[n]]);
      OneStmt({}, true, ss[n]);
    }
  }
}
