// The source language: the integer fragment of dragon's AST and its meaning.
module Source {
  import opened Words

  datatype ArithOp = Plus | Minus | Times
  datatype RelOp = Eq | Ne | Lt | Gt | Le | Ge

  datatype Expr =
    | Lit(n: Word)
    | Path(name: string)
    | Bin(op: ArithOp, left: Expr, right: Expr)

  // What may stand after `if` and `while`.  A Plain condition is an integer expression:
  // the analysis rejects it, because its type is not boolean.
  datatype Cond = Rel(op: RelOp, left: Expr, right: Expr) | Plain(e: Expr)

  // Empty is the null statement (a missing else branch, an empty begin/end).
  datatype Stmt =
    | Empty
    | Assign(name: string, rhs: Expr)
    | Ite(cond: Cond, thn: Stmt, els: Stmt)
    | Wdo(cond: Cond, body: Stmt)
    | Stmts(ss: seq<Stmt>)
    | Write(args: seq<Expr>, newline: bool)

  datatype Event = Printed(v: int) | Newline

  type Store = map<string, int>

  // ---- meaning of expressions ----

  function Exact(op: ArithOp, a: int, b: int): int {
    match op
    case Plus => a + b
    case Minus => a - b
    case Times => a * b
  }

  predicate Holds(op: RelOp, a: int, b: int) {
    match op
    case Eq => a == b
    case Ne => a != b
    case Lt => a < b
    case Gt => a > b
    case Le => a <= b
    case Ge => a >= b
  }

  // What fixes the operators: sum and product by recursion on the right operand, the difference as the inverse
  // of the sum.
  lemma ExactLaws(a: int, b: int)
    ensures Exact(Plus, a, 0) == a && Exact(Plus, a, b + 1) == Exact(Plus, a, b) + 1
    ensures Exact(Times, a, 0) == 0 && Exact(Times, a, b + 1) == Exact(Plus, Exact(Times, a, b), a)
    ensures Exact(Minus, Exact(Plus, a, b), b) == a
  {
    assert a * (b + 1) == a * b + a;
  }

  // What fixes the comparisons: the order is that of the successor, and exactly one of less, equal and greater
  // holds.
  lemma HoldsLaws(a: int, b: int, c: int)
    ensures Holds(Lt, a, a + 1)
    ensures Holds(Lt, a, b) && Holds(Lt, b, c) ==> Holds(Lt, a, c)
    ensures Holds(Gt, a, b) <==> Holds(Lt, b, a)
    ensures Holds(Eq, a, b) <==> !Holds(Lt, a, b) && !Holds(Gt, a, b)
    ensures !(Holds(Lt, a, b) && Holds(Gt, a, b))
    ensures Holds(Ne, a, b) <==> !Holds(Eq, a, b)
    ensures Holds(Le, a, b) <==> !Holds(Gt, a, b)
    ensures Holds(Ge, a, b) <==> !Holds(Lt, a, b)
  {
  }

  // Every variable of e is one of names.
  predicate Resolves(names: set<string>, e: Expr) {
    match e
    case Lit(_) => true
    case Path(x) => x in names
    case Bin(_, l, r) => Resolves(names, l) && Resolves(names, r)
  }

  ghost predicate WordStore(store: Store) {
    forall x :: x in store ==> IsWord(store[x])
  }

  // Integers are 64-bit words and arithmetic wraps around.
  function Eval(e: Expr, store: Store): int
    requires Resolves(store.Keys, e)
  {
    match e
    case Lit(n) => n
    case Path(x) => store[x]
    case Bin(op, l, r) => Wrap(Exact(op, Eval(l, store), Eval(r, store)))
  }

  lemma EvalWord(e: Expr, store: Store)
    requires Resolves(store.Keys, e) && WordStore(store)
    ensures IsWord(Eval(e, store))
  {
  }

  // The same expression over the unbounded integers.
  function EvalExact(e: Expr, store: Store): int
    requires Resolves(store.Keys, e)
  {
    match e
    case Lit(n) => n
    case Path(x) => store[x]
    case Bin(op, l, r) => Exact(op, EvalExact(l, store), EvalExact(r, store))
  }

  // Intermediate overflow is harmless: the wrapped value is the word congruent to the exact one, so it IS
  // the exact one whenever that fits in 64 bits.
  lemma {:induction false} EvalWrapsExact(e: Expr, store: Store) returns (k: int)
    requires Resolves(store.Keys, e)
    ensures EvalExact(e, store) == Eval(e, store) + k * TWO_64
    ensures (forall x :: x in store ==> -TWO_63 <= store[x] < TWO_63) ==>
              Eval(e, store) == Wrap(EvalExact(e, store))
  {
    match e
    case Lit(n) =>
      k := 0;
      WrapUnique(n, n, 0);
    case Path(x) =>
      k := 0;
      if forall y :: y in store ==> -TWO_63 <= store[y] < TWO_63 {
        WrapUnique(store[x], store[x], 0);
      }
    case Bin(op, l, r) =>
      var kl := EvalWrapsExact(l, store);
      var kr := EvalWrapsExact(r, store);
      var a, b := Eval(l, store), Eval(r, store);
      var x, y := EvalExact(l, store), EvalExact(r, store);
      var d := match op case Plus => kl + kr case Minus => kl - kr case Times => a * kr + b * kl + kl * kr * TWO_64;
      ExactCongruent(op, a, b, kl, kr);
      assert Exact(op, x, y) == Exact(op, a, b) + d * TWO_64;
      WrapCongruent(Exact(op, x, y), Exact(op, a, b), d);
      k := (EvalExact(e, store) - Wrap(EvalExact(e, store))) / TWO_64;
  }

  lemma ExactCongruent(op: ArithOp, a: int, b: int, kl: int, kr: int)
    ensures Exact(op, a + kl * TWO_64, b + kr * TWO_64) ==
            Exact(op, a, b) +
            (match op case Plus => kl + kr case Minus => kl - kr case Times => a * kr + b * kl + kl * kr * TWO_64) * TWO_64
  {
    match op
    case Plus =>
    case Minus =>
    case Times =>
      var m := TWO_64;
      assert (a + kl * m) * (b + kr * m) == a * b + (a * kr + b * kl + kl * kr * m) * m by {
        assert (a + kl * m) * (b + kr * m) == a * b + a * (kr * m) + (kl * m) * b + (kl * m) * (kr * m);
      }
  }

  // ---- meaning of statements ----

  datatype Run = Run(store: Store, out: seq<Event>)

  predicate CondOk(names: set<string>, c: Cond) {
    c.Rel? && Resolves(names, c.left) && Resolves(names, c.right)
  }

  // The semantic checks a main-program statement of the fragment must pass: every name is declared and
  // every condition is boolean.
  predicate Accepted(names: set<string>, s: Stmt)
    decreases s, 1
  {
    match s
    case Empty => true
    case Assign(x, e) => x in names && Resolves(names, e)
    case Ite(c, t, f) => CondOk(names, c) && Accepted(names, t) && Accepted(names, f)
    case Wdo(c, b) => CondOk(names, c) && Accepted(names, b)
    case Stmts(ss) => AcceptedAll(names, ss)
    case Write(es, _) => ResolvesAll(names, es)
  }

  predicate AcceptedAll(names: set<string>, ss: seq<Stmt>)
    decreases ss, 0
  {
    ss == [] || (Accepted(names, ss[0]) && AcceptedAll(names, ss[1..]))
  }

  predicate ResolvesAll(names: set<string>, es: seq<Expr>) {
    forall i :: 0 <= i < |es| ==> Resolves(names, es[i])
  }

  predicate Test(c: Cond, store: Store)
    requires CondOk(store.Keys, c)
  {
    Holds(c.op, Eval(c.left, store), Eval(c.right, store))
  }

  function Print(es: seq<Expr>, store: Store): seq<Event>
    requires ResolvesAll(store.Keys, es)
  {
    if es == [] then [] else [Printed(Eval(es[0], store))] + Print(es[1..], store)
  }

  // Where a run stands when it has ended, or when its fuel has run out in the middle of it.
  datatype Outcome = Ended(run: Run) | OutOfFuel(run: Run)

  // Big-step execution.  fuel bounds the number of nested loop iterations.  A statement terminates from st
  // when it ends for some fuel.
  function Exec(s: Stmt, st: Run, fuel: nat): (r: Outcome)
    requires Accepted(st.store.Keys, s)
    ensures r.run.store.Keys == st.store.Keys
    decreases fuel, s, 1
  {
    match s
    case Empty => Ended(st)
    case Assign(x, e) => Ended(st.(store := st.store[x := Eval(e, st.store)]))
    case Ite(c, t, f) => if Test(c, st.store) then Exec(t, st, fuel) else Exec(f, st, fuel)
    case Wdo(c, b) =>
      if !Test(c, st.store) then Ended(st)
      else if fuel == 0 then OutOfFuel(st)
      else
        var r := Exec(b, st, fuel - 1);
        if r.OutOfFuel? then r else Exec(s, r.run, fuel - 1)
    case Stmts(ss) => ExecAll(ss, st, fuel)
    case Write(es, nl) => Ended(st.(out := st.out + Print(es, st.store) + if nl then [Newline] else []))
  }

  function ExecAll(ss: seq<Stmt>, st: Run, fuel: nat): (r: Outcome)
    requires AcceptedAll(st.store.Keys, ss)
    ensures r.run.store.Keys == st.store.Keys
    decreases fuel, ss, 0
  {
    if ss == [] then Ended(st)
    else
      var r := Exec(ss[0], st, fuel);
      if r.OutOfFuel? then r else ExecAll(ss[1..], r.run, fuel)
  }

  ghost predicate Terminates(s: Stmt, st: Run, r: Run)
    requires Accepted(st.store.Keys, s)
  {
    exists fuel: nat :: Exec(s, st, fuel) == Ended(r)
  }

  // More fuel never changes an answer.
  lemma {:induction false} MoreFuel(s: Stmt, st: Run, fuel: nat, more: nat)
    requires Accepted(st.store.Keys, s)
    requires fuel <= more
    requires Exec(s, st, fuel).Ended?
    ensures Exec(s, st, more) == Exec(s, st, fuel)
    decreases fuel, s, 1
  {
    match s
    case Empty =>
    case Assign(x, e) =>
    case Ite(c, t, f) =>
      if Test(c, st.store) { MoreFuel(t, st, fuel, more); } else { MoreFuel(f, st, fuel, more); }
    case Wdo(c, b) =>
      if Test(c, st.store) {
        MoreFuel(b, st, fuel - 1, more - 1);
        MoreFuel(s, Exec(b, st, fuel - 1).run, fuel - 1, more - 1);
      }
    case Stmts(ss) => MoreFuelAll(ss, st, fuel, more);
    case Write(es, nl) =>
  }

  lemma {:induction false} MoreFuelAll(ss: seq<Stmt>, st: Run, fuel: nat, more: nat)
    requires AcceptedAll(st.store.Keys, ss)
    requires fuel <= more
    requires ExecAll(ss, st, fuel).Ended?
    ensures ExecAll(ss, st, more) == ExecAll(ss, st, fuel)
    decreases fuel, ss, 0
  {
    if ss != [] {
      MoreFuel(ss[0], st, fuel, more);
      MoreFuelAll(ss[1..], Exec(ss[0], st, fuel).run, fuel, more);
    }
  }

  // A statement terminates in one way at most.
  lemma TerminatesOnce(s: Stmt, st: Run, r: Run, q: Run)
    requires Accepted(st.store.Keys, s) && Terminates(s, st, r) && Terminates(s, st, q)
    ensures r == q
  {
    var i: nat :| Exec(s, st, i) == Ended(r);
    var j: nat :| Exec(s, st, j) == Ended(q);
    if i <= j { MoreFuel(s, st, i, j); } else { MoreFuel(s, st, j, i); }
  }
}
