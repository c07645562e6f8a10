// What the analysis emits for expressions and statements, as functions of the number of registers in use.
module Code {
  import opened Source
  import opened Machine

  // Which register is pushed when the pool is empty: the code writes REGS[need_restore], which is always
  // rcx; REGS[which] is evidently meant.
  datatype Scheme = Written | Intended

  type Layout = map<string, int>

  // The register that the k-th live temporary occupies.  The overflow counter is 6 + (k - 14) when the
  // temporary is taken.
  function Owner(sch: Scheme, k: nat): Reg {
    if k < NUM_REGS then k
    else if sch.Written? then RCX
    else (6 + (k - NUM_REGS)) % NUM_REGS
  }

  function Take(sch: Scheme, k: nat): seq<Instr> {
    if k < NUM_REGS then [] else [Push(Owner(sch, k))]
  }

  function GiveBack(sch: Scheme, k: nat): seq<Instr> {
    if k < NUM_REGS then [] else [Pop(Owner(sch, k))]
  }

  // The instruction for an arithmetic operator.
  function AluOf(op: ArithOp): AluOp {
    match op
    case Plus => Add
    case Minus => Sub
    case Times => Imul
  }

  // The condition code for a comparison.
  function CodeOf(op: RelOp): CC {
    match op
    case Eq => CcE
    case Ne => CcNe
    case Lt => CcL
    case Gt => CcG
    case Le => CcLe
    case Ge => CcGe
  }

  // Code that leaves e in Owner(k), emitted while k temporaries are live.
  function ExprCode(sch: Scheme, lay: Layout, k: nat, e: Expr): seq<Instr>
    requires Resolves(lay.Keys, e)
    decreases e
  {
    var r := Owner(sch, k);
    match e
    case Lit(n) => Take(sch, k) + [MovImm(r, n)]
    case Path(x) => Take(sch, k) + [Lea(r, lay[x]), Load(r, r)]
    case Bin(op, a, b) =>
      ExprCode(sch, lay, k, a) + ExprCode(sch, lay, k + 1, b)
      + [Alu(AluOf(op), r, Owner(sch, k + 1))] + GiveBack(sch, k + 1)
  }

  // A condition leaves 0 or 1 in the first register.
  function CondCode(sch: Scheme, lay: Layout, c: Cond): seq<Instr>
    requires CondOk(lay.Keys, c)
  {
    ExprCode(sch, lay, 0, c.left) + ExprCode(sch, lay, 1, c.right) + [Cmp(0, 1), SetCC(CodeOf(c.op), 1), Movzx(0, 1)]
  }

  function WriteCode(sch: Scheme, lay: Layout, es: seq<Expr>): seq<Instr>
    requires ResolvesAll(lay.Keys, es)
  {
    if es == [] then []
    else ExprCode(sch, lay, 0, es[0]) + [Push(0), CallWriteInteger, AddRsp(8)] + WriteCode(sch, lay, es[1..])
  }

  // How many labels a statement uses: two for each if and while.
  function LabelsOf(s: Stmt): nat
    decreases s, 1
  {
    match s
    case Ite(_, t, f) => 2 + LabelsOf(t) + LabelsOf(f)
    case Wdo(_, b) => 2 + LabelsOf(b)
    case Stmts(ss) => LabelsOfAll(ss)
    case _ => 0
  }

  function LabelsOfAll(ss: seq<Stmt>): nat
    decreases ss, 0
  {
    if ss == [] then 0 else LabelsOf(ss[0]) + LabelsOfAll(ss[1..])
  }

  // Code for a statement whose labels are numbered from lbl.
  function StmtCode(sch: Scheme, lay: Layout, lbl: int, s: Stmt): seq<Instr>
    requires Accepted(lay.Keys, s)
    decreases s, 1
  {
    match s
    case Empty => []
    case Assign(x, e) => [Lea(0, lay[x])] + ExprCode(sch, lay, 1, e) + [Store(0, 1)]
    case Ite(c, t, f) =>
      CondCode(sch, lay, c) + [CmpOne(0), Jne(lbl)]
      + StmtCode(sch, lay, lbl + 2, t) + [Jmp(lbl + 1), Label(lbl)]
      + StmtCode(sch, lay, lbl + 2 + LabelsOf(t), f) + [Label(lbl + 1)]
    case Wdo(c, b) =>
      [Label(lbl)] + CondCode(sch, lay, c) + [CmpOne(0), Jne(lbl + 1)]
      + StmtCode(sch, lay, lbl + 2, b) + [Jmp(lbl), Label(lbl + 1)]
    case Stmts(ss) => StmtsCode(sch, lay, lbl, ss)
    case Write(es, nl) => WriteCode(sch, lay, es) + if nl then [CallWriteNewline] else []
  }

  function StmtsCode(sch: Scheme, lay: Layout, lbl: int, ss: seq<Stmt>): seq<Instr>
    requires AcceptedAll(lay.Keys, ss)
    decreases ss, 0
  {
    if ss == [] then []
    else StmtCode(sch, lay, lbl, ss[0]) + StmtsCode(sch, lay, lbl + LabelsOf(ss[0]), ss[1..])
  }

  // The whole of main: set up the frame, run the body, exit with status 0.
  function MainCode(sch: Scheme, lay: Layout, reserved: int, s: Stmt): seq<Instr>
    requires Accepted(lay.Keys, s)
  {
    [MovRbpRsp, SubRsp(reserved)] + StmtCode(sch, lay, 0, s) + [MovImm(RAX, 60), XorSelf(RDI), Syscall]
  }

  // ---- what the emitted code computes ----

  // The register need of an expression: how many temporaries are live at once while it is computed.
  function Need(e: Expr): nat {
    match e
    case Bin(_, l, r) => if Need(l) > 1 + Need(r) then Need(l) else 1 + Need(r)
    case _ => 1
  }

  function Leftmost(e: Expr): Expr {
    match e
    case Bin(_, l, _) => Leftmost(l)
    case _ => e
  }

  // The expression whose value the code for e leaves behind.  When the spilled register is always rcx, an
  // operation between two spilled temporaries is undone by the pop that follows it, so only the leftmost
  // leaf survives; the intended scheme computes e itself.
  function Seen(sch: Scheme, k: nat, e: Expr): Expr
    decreases e
  {
    if sch.Intended? then e
    else if k >= NUM_REGS then Leftmost(e)
    else
      match e
      case Bin(op, l, r) => Bin(op, Seen(sch, k, l), Seen(sch, k + 1, r))
      case _ => e
  }

  function SeenCond(sch: Scheme, c: Cond): Cond {
    match c
    case Rel(op, l, r) => Rel(op, Seen(sch, 0, l), Seen(sch, 1, r))
    case Plain(_) => c
  }

  function SeenArgs(sch: Scheme, es: seq<Expr>): (r: seq<Expr>)
    ensures |r| == |es| && forall i :: 0 <= i < |es| ==> r[i] == Seen(sch, 0, es[i])
  {
    seq(|es|, i requires 0 <= i < |es| => Seen(sch, 0, es[i]))
  }

  function SeenStmt(sch: Scheme, s: Stmt): Stmt
    decreases s, 1
  {
    match s
    case Empty => s
    case Assign(x, e) => Assign(x, Seen(sch, 1, e))
    case Ite(c, t, f) => Ite(SeenCond(sch, c), SeenStmt(sch, t), SeenStmt(sch, f))
    case Wdo(c, b) => Wdo(SeenCond(sch, c), SeenStmt(sch, b))
    case Stmts(ss) => Stmts(SeenStmts(sch, ss))
    case Write(es, nl) => Write(SeenArgs(sch, es), nl)
  }

  function SeenStmts(sch: Scheme, ss: seq<Stmt>): seq<Stmt>
    decreases ss, 0
  {
    if ss == [] then [] else [SeenStmt(sch, ss[0])] + SeenStmts(sch, ss[1..])
  }
}
