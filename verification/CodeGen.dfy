// The analysis itself: one walk over the tree that checks names and types, takes registers from a mutable
// pool and appends instructions.
module CodeGen {
  import opened Basics
  import opened Source
  import opened Machine
  import opened Code
  import opened CodeLists
  import opened ExprCorrect
  import opened StmtCorrect
  import opened Scoping
  import opened Symbols
  import opened SymbolTable
  import opened Frames
  import opened MainProgram
  import opened DivMod
  import opened Quotients
  import opened Globals

  // struct reg: which register, and whether it was taken by a push.
  datatype Handle = Handle(name: Reg, which: nat, needRestore: bool)

  // The handle of the k-th live temporary.
  function HandleOf(sch: Scheme, k: nat): Handle {
    if k < NUM_REGS then Handle(k, k, false)
    else Handle(Owner(sch, k), (6 + (k - NUM_REGS)) % NUM_REGS, true)
  }

  lemma Appended(o: seq<Instr>, a: seq<Instr>, b: seq<Instr>, c: seq<Instr>)
    ensures o + a + b + c == o + (a + b + c)
    ensures c == [] ==> o + a + b == o + (a + b)
  {
  }

  lemma AppendedFive(o: seq<Instr>, a: seq<Instr>, b: seq<Instr>, c: seq<Instr>, d: seq<Instr>, e: seq<Instr>)
    ensures o + a + b + c + d + e == o + (a + b + c + d + e)
    ensures e == [] ==> o + a + b + c + d == o + (a + b + c + d)
  {
  }

  function ArmsCode(sch: Scheme, lay: Layout, lbl: int, c: Cond, thn: Stmt, els: Stmt): seq<Instr>
    requires CondOk(lay.Keys, c) && Accepted(lay.Keys, thn) && Accepted(lay.Keys, els)
  {
    BranchCode(sch, lay, c, lbl) + StmtCode(sch, lay, lbl + 2, thn) + [Jmp(lbl + 1), Label(lbl)]
    + StmtCode(sch, lay, lbl + 2 + LabelsOf(thn), els) + [Label(lbl + 1)]
  }

  lemma IteAssembled(sch: Scheme, lay: Layout, output: bool, lbl: int, s: Stmt)
    requires s.Ite?
    ensures Allowed(lay.Keys, output, s) <==>
            CondOk(lay.Keys, s.cond) && Allowed(lay.Keys, output, s.thn) && Allowed(lay.Keys, output, s.els)
    ensures LabelsOf(s) == 2 + LabelsOf(s.thn) + LabelsOf(s.els)
    ensures Allowed(lay.Keys, output, s) ==>
            StmtCode(sch, lay, lbl, s) == ArmsCode(sch, lay, lbl, s.cond, s.thn, s.els)
  {
    if Allowed(lay.Keys, output, s) { IteShape(sch, lay, lbl, s); }
  }

  function LoopCode(sch: Scheme, lay: Layout, lbl: int, c: Cond, body: Stmt): seq<Instr>
    requires CondOk(lay.Keys, c) && Accepted(lay.Keys, body)
  {
    [Label(lbl)] + BranchCode(sch, lay, c, lbl + 1) + StmtCode(sch, lay, lbl + 2, body) + [Jmp(lbl), Label(lbl + 1)]
  }

  lemma WdoAssembled(sch: Scheme, lay: Layout, output: bool, lbl: int, s: Stmt)
    requires s.Wdo?
    ensures Allowed(lay.Keys, output, s) <==> CondOk(lay.Keys, s.cond) && Allowed(lay.Keys, output, s.body)
    ensures LabelsOf(s) == 2 + LabelsOf(s.body)
    ensures Allowed(lay.Keys, output, s) ==> StmtCode(sch, lay, lbl, s) == LoopCode(sch, lay, lbl, s.cond, s.body)
  {
    if Allowed(lay.Keys, output, s) { WdoShape(sch, lay, lbl, s); }
  }

  class Acx {
    const sch: Scheme
    const st: Stab
    const regsUsed: array<bool>
    var overflow: nat
    var label_: int
    var ofd: seq<Instr>
    ghost var names: seq<string>  // the variables of main in order of declaration
    ghost var lay: Layout         // where the symbol table puts them
    ghost var output: bool        // whether write and writeln are declared

    // The symbol table describes a frame of integers, and the pool is not part of it.
    ghost predicate Ready()
      reads `names, `lay, `output, st, st.Repr
    {
      && regsUsed.Length == NUM_REGS
      && this !in st.Repr && regsUsed !in st.Repr
      && Described()
    }

    ghost predicate Described()
      reads `names, `lay, `output, st, st.Repr
    {
      st.Valid() && MainFrame(st.View(), names) && lay == LayoutOf(st.View()) && CanPrint(st.View(), output)
    }

    // The pool with k live temporaries: the used registers are a prefix of the table, and the overflow
    // counter counts the pushes that still have to be popped.
    ghost predicate Live(k: nat)
      reads `overflow, regsUsed
    {
      && regsUsed.Length == NUM_REGS
      && (forall i :: 0 <= i < NUM_REGS ==> (regsUsed[i] <==> i < k))
      && overflow == 6 + if k < NUM_REGS then 0 else k - NUM_REGS
    }

    // The context that analyze starts from, with the global scope open.
    constructor (sch: Scheme)
      ensures this.sch == sch && Live(0) && label_ == 0 && ofd == []
      ensures st.Valid() && fresh(st.Repr) && this !in st.Repr && regsUsed !in st.Repr && fresh(regsUsed)
      ensures MainFrame(st.View(), []) && CanPrint(st.View(), false) && names == [] && !output
      ensures st.View().h == [Scoping.Enter] && IsInitial(st.View().(h := []))
    {
      this.sch := sch;
      var t := NewTable();
      st := t;
      regsUsed := new bool[NUM_REGS];
      overflow := 0;
      label_ := 0;
      ofd := [];
      names := [];
      lay := map[];
      output := false;
      new;
      hide MainFrame, CanPrint, TabOk, IsInitial;
      RegInit();
    }

    static method NewTable() returns (t: Stab)
      ensures t.Valid() && fresh(t.Repr) && MainFrame(t.View(), []) && CanPrint(t.View(), false)
      ensures t.View().h == [Scoping.Enter] && IsInitial(t.View().(h := []))
    {
      t := new Stab();
      GlobalScope(t.View());
      t.EnterScope();
    }

    // reg_init
    method RegInit()
      requires regsUsed.Length == NUM_REGS
      modifies `overflow, regsUsed
      ensures Live(0)
    {
      overflow := 6;
      for i := 0 to NUM_REGS
        invariant overflow == 6 && forall j :: 0 <= j < i ==> !regsUsed[j]
      {
        regsUsed[i] := false;
      }
    }

    // Any registers may be in use; the counter has not fallen below its start.
    ghost predicate Pool()
      reads `overflow, regsUsed
    {
      regsUsed.Length == NUM_REGS && overflow >= 6
    }

    // reg_gimme: the first free register, or a push; from k live temporaries, the k-th one.
    method RegGimme(ghost k: nat) returns (r: Handle)
      requires Pool()
      modifies `overflow, `ofd, regsUsed
      ensures Pool() && r.which < NUM_REGS && overflow == old(overflow) + if r.needRestore then 1 else 0
      ensures old(Live(k)) ==> Live(k + 1) && r == HandleOf(sch, k) && r.name == Owner(sch, k)
      ensures old(Live(k)) ==> ofd == old(ofd) + Take(sch, k)
    {
      for i := 0 to NUM_REGS
        invariant overflow == old(overflow) && ofd == old(ofd)
        invariant forall j :: 0 <= j < i ==> regsUsed[j]
        invariant old(Live(k)) ==> i <= k && Live(k)
      {
        if !regsUsed[i] {
          regsUsed[i] := true;
          r := Handle(i, i, false);
          return;
        }
      }
      var needRestore := 1;
      var which := overflow % NUM_REGS;
      overflow := overflow + 1;
      var name: Reg := if sch.Written? then needRestore else which;
      r := Handle(name, which, true);
      ofd := ofd + [Push(name)];
    }

    // reg_takeitback
    method RegTakeItBack(r: Handle, ghost k: nat)
      requires Pool() && r.which < NUM_REGS && (r.needRestore ==> overflow > 6)
      modifies `overflow, `ofd, regsUsed
      ensures Pool() && overflow == old(overflow) - if r.needRestore then 1 else 0
      ensures forall i :: 0 <= i < NUM_REGS ==> regsUsed[i] == (old(regsUsed[i]) && (r.needRestore || i != r.which))
      ensures old(Live(k + 1)) && r == HandleOf(sch, k) ==> Live(k) && ofd == old(ofd) + GiveBack(sch, k)
    {
      if !r.needRestore {
        regsUsed[r.which] := false;
      } else {
        overflow := overflow - 1;
        ofd := ofd + [Pop(r.name)];
      }
    }

    // What type_of_path asks of the symbol table for a one-component path.  In main every visible variable
    // is local, so its address is a frame offset and never a display slot.
    method Locate(x: string) returns (off: Option<int>, ty: int)
      requires Ready()
      ensures off == if x in lay then Some(lay[x]) else None
      ensures off.Some? ==> ty == INTEGER_TYPE_IDX
    {
      var id := st.ResolveId(Vars, x);
      ty := INTEGER_TYPE_IDX;
      if id.None? {
        return None, ty;
      }
      var local := st.HasLocal(Vars, x);
      assert local;
      ghost var i :| 0 <= i < |names| && names[i] == x;
      var v := st.vars.At(id.value);
      off := Some(v.offset);
      ty := v.ty;
    }

    // analyze_expr for literals, one-component paths and arithmetic.  Not ok is the exit on an undeclared
    // name; the two operand types are then never different, because only integers are in scope.
    method AnalyzeExpr(e: Expr, ghost k: nat) returns (ok: bool, ty: int, r: Handle)
      requires Ready() && Live(k)
      modifies `overflow, `ofd, regsUsed
      ensures ok <==> Resolves(lay.Keys, e)
      ensures ok ==> Live(k + 1) && ty == INTEGER_TYPE_IDX && r == HandleOf(sch, k)
      ensures ok ==> ofd == old(ofd) + ExprCode(sch, lay, k, e)
      decreases e, 1
    {
      hide Described;
      match e {
        case Lit(n) =>
          r := RegGimme(k);
          ofd := ofd + [MovImm(r.name, n)];
          ok, ty := true, INTEGER_TYPE_IDX;
        case Path(x) =>
          ok, ty, r := AddressOf(x, k);
          if ok {
            ofd := ofd + [Load(r.name, r.name)];
          }
        case Bin(_, _, _) =>
          ok, ty, r := AnalyzeBin(e, k);
      }
    }

    method AnalyzeBin(e: Expr, ghost k: nat) returns (ok: bool, ty: int, r: Handle)
      requires e.Bin? && Ready() && Live(k)
      modifies `overflow, `ofd, regsUsed
      ensures ok <==> Resolves(lay.Keys, e)
      ensures ok ==> Live(k + 1) && ty == INTEGER_TYPE_IDX && r == HandleOf(sch, k)
      ensures ok ==> ofd == old(ofd) + ExprCode(sch, lay, k, e)
      decreases e, 0
    {
      hide Described;
      var rr;
      ok, ty, r := AnalyzeExpr(e.left, k);
      if !ok { return; }
      var tyr;
      ok, tyr, rr := AnalyzeExpr(e.right, k + 1);
      if !ok { return; }
      if ty != tyr { return false, ty, r; }
      EmitOp(e.op, r, rr, k);
      BinCode(sch, lay, k, e);
      Appended(old(ofd), ExprCode(sch, lay, k, e.left), ExprCode(sch, lay, k + 1, e.right), OpCode(sch, k, e.op));
    }

    // The operator, and the release of its right operand.
    method EmitOp(op: ArithOp, l: Handle, r: Handle, ghost k: nat)
      requires Live(k + 2) && l == HandleOf(sch, k) && r == HandleOf(sch, k + 1)
      modifies `overflow, `ofd, regsUsed
      ensures Live(k + 1) && ofd == old(ofd) + OpCode(sch, k, op)
    {
      var mnemonic;
      match op {
        case Plus => mnemonic := Add;
        case Minus => mnemonic := Sub;
        case Times => mnemonic := Imul;
      }
      ofd := ofd + [Alu(mnemonic, l.name, r.name)];
      RegTakeItBack(r, k + 1);
    }

    // analyze_expr with div and mod among the operators.
    method AnalyzeQuotient(q: Quotient, ghost k: nat) returns (ok: bool, ty: int, r: Handle)
      requires Ready() && Live(k)
      modifies `overflow, `ofd, regsUsed
      ensures ok <==> Resolved(lay.Keys, q)
      ensures ok ==> Live(k + 1) && ty == INTEGER_TYPE_IDX && r == HandleOf(sch, k)
      ensures ok ==> ofd == old(ofd) + QuotientCode(sch, lay, k, q)
      decreases q
    {
      hide Described;
      if q.Whole? {
        ok, ty, r := AnalyzeExpr(q.e, k);
      } else {
        ok, ty, r := AnalyzeQuotient(q.left, k);
        if !ok { return; }
        var tyr, rr;
        ok, tyr, rr := AnalyzeQuotient(q.right, k + 1);
        if !ok { return; }
        if ty != tyr { return false, ty, r; }
        OperatorCode(sch, lay, k, q);
        hide QuotientCode;
        if q.Combine? {
          EmitOp(q.op, r, rr, k);
        } else {
          EmitDivision(q.div, r, rr, k);
        }
        Appended(old(ofd), QuotientCode(sch, lay, k, q.left), QuotientCode(sch, lay, k + 1, q.right),
                 if q.Combine? then OpCode(sch, k, q.op)
                 else DivBlock(q.div, Owner(sch, k), Owner(sch, k + 1)) + GiveBack(sch, k + 1));
      }
    }

    // The eight instructions of a division, and the release of the right operand.
    method EmitDivision(op: DivOp, l: Handle, r: Handle, ghost k: nat)
      requires Live(k + 2) && l == HandleOf(sch, k) && r == HandleOf(sch, k + 1)
      modifies `overflow, `ofd, regsUsed
      ensures Live(k + 1)
      ensures ofd == old(ofd) + (DivBlock(op, Owner(sch, k), Owner(sch, k + 1)) + GiveBack(sch, k + 1))
    {
      ofd := ofd + [Push(RDX), Push(RAX), MovReg(RAX, l.name), Cdq, Idiv(r.name)]
             + [MovReg(l.name, if op.Div? then RAX else RDX), Pop(RAX), Pop(RDX)];
      RegTakeItBack(r, k + 1);
    }

    // STMT_ASSIGN with such a right side.
    method AssignQuotient(x: string, q: Quotient) returns (ok: bool)
      requires Ready() && Live(0)
      modifies `overflow, `ofd, regsUsed
      ensures ok <==> x in lay && Resolved(lay.Keys, q)
      ensures ok ==> Live(0) && ofd == old(ofd) + QuotientAssignCode(sch, lay, x, q)
    {
      hide Described;
      var tyl, l, tyr, r;
      ok, tyl, l := AddressOf(x, 0);
      if !ok { return; }
      ok, tyr, r := AnalyzeQuotient(q, 1);
      if !ok { return; }
      if tyl != tyr { return false; }
      EmitStore(l, r);
      Appended(old(ofd), [Lea(0, lay[x])], QuotientCode(sch, lay, 1, q), [Instr.Store(0, 1)]);
    }

    // type_of_path of one component, without the load.
    method AddressOf(x: string, ghost k: nat) returns (ok: bool, ty: int, r: Handle)
      requires Ready() && Live(k)
      modifies `overflow, `ofd, regsUsed
      ensures ok <==> x in lay
      ensures ok ==> Live(k + 1) && ty == INTEGER_TYPE_IDX && r == HandleOf(sch, k)
      ensures ok ==> ofd == old(ofd) + Take(sch, k) + [Lea(Owner(sch, k), lay[x])]
    {
      hide Described;
      var off;
      off, ty := Locate(x);
      if off.None? {
        return false, ty, Handle(0, 0, false);
      }
      r := RegGimme(k);
      ofd := ofd + [Lea(r.name, off.value)];
      ok := true;
    }

    // The condition of an if or while.  A condition that is not a comparison has type integer and is
    // rejected.
    method AnalyzeCond(c: Cond) returns (ok: bool, r: Handle)
      requires Ready() && Live(0)
      modifies `overflow, `ofd, regsUsed
      ensures ok <==> CondOk(lay.Keys, c)
      ensures ok ==> Live(1) && r == HandleOf(sch, 0) && ofd == old(ofd) + CondCode(sch, lay, c)
    {
      hide Described;
      var ty;
      match c {
        case Plain(e) =>
          ok, ty, r := AnalyzeExpr(e, 0);
          ok := ok && ty == BOOLEAN_TYPE_IDX;
        case Rel(op, a, b) =>
          var tyr, rr;
          ok, ty, r := AnalyzeExpr(a, 0);
          if !ok { return; }
          ok, tyr, rr := AnalyzeExpr(b, 1);
          if !ok { return; }
          if ty != tyr { return false, r; }
          EmitCompare(op, r, rr);
          Appended(old(ofd), ExprCode(sch, lay, 0, a), ExprCode(sch, lay, 1, b),
                   [Cmp(0, 1), SetCC(CodeOf(op), 1), Movzx(0, 1)]);
      }
    }

    // cmp, setcc on the byte register of the right operand, movzx; the right operand is released.
    method EmitCompare(op: RelOp, l: Handle, r: Handle)
      requires Live(2) && l == HandleOf(sch, 0) && r == HandleOf(sch, 1)
      modifies `overflow, `ofd, regsUsed
      ensures Live(1) && ofd == old(ofd) + [Cmp(0, 1), SetCC(CodeOf(op), 1), Movzx(0, 1)]
    {
      var cc;
      match op {
        case Eq => cc := CcE;
        case Ne => cc := CcNe;
        case Lt => cc := CcL;
        case Gt => cc := CcG;
        case Le => cc := CcLe;
        case Ge => cc := CcGe;
      }
      ofd := ofd + [Cmp(l.name, r.name), SetCC(cc, r.name), Movzx(l.name, r.name)];
      RegTakeItBack(r, 1);
    }

    // Jump to l when the condition in r does not hold.
    method EmitBranch(r: Handle, l: int)
      requires Live(1) && r == HandleOf(sch, 0)
      modifies `overflow, `ofd, regsUsed
      ensures Live(0) && ofd == old(ofd) + [CmpOne(0), Jne(l)]
    {
      ofd := ofd + [CmpOne(r.name), Jne(l)];
      RegTakeItBack(r, 0);
    }

    // analyze_stmt for the fragment, in main.  Not ok is the exit on an undeclared name or a condition that
    // is not boolean.
    method AnalyzeStmt(s: Stmt) returns (ok: bool)
      requires Ready() && Live(0)
      modifies `overflow, `ofd, `label_, regsUsed
      ensures ok <==> Allowed(lay.Keys, output, s)
      ensures ok ==> Live(0) && label_ == old(label_) + LabelsOf(s)
      ensures ok ==> ofd == old(ofd) + StmtCode(sch, lay, old(label_), s)
      decreases s, 2
    {
      hide Described;
      match s {
        case Empty => ok := true;
        case Assign(x, e) => ok := AnalyzeAssign(x, e);
        case Ite(_, _, _) => ok := AnalyzeIte(s);
        case Wdo(_, _) => ok := AnalyzeWdo(s);
        case Stmts(ss) => ok := AnalyzeEach(ss);
        case Write(es, newline) => ok := AnalyzeCall(es, newline);
      }
    }

    // STMT_ASSIGN: the address, the value, the store.  In main check_assignability accepts every target.
    method AnalyzeAssign(x: string, e: Expr) returns (ok: bool)
      requires Ready() && Live(0)
      modifies `overflow, `ofd, regsUsed
      ensures ok <==> x in lay && Resolves(lay.Keys, e)
      ensures ok ==> Live(0)
      ensures ok ==> ofd == old(ofd) + ([Lea(0, lay[x])] + ExprCode(sch, lay, 1, e) + [Instr.Store(0, 1)])
    {
      hide Described;
      var tyl, l, tyr, r;
      ok, tyl, l := AddressOf(x, 0);
      if !ok { return; }
      ok, tyr, r := AnalyzeExpr(e, 1);
      if !ok { return; }
      if tyl != tyr { return false; }
      EmitStore(l, r);
      Appended(old(ofd), [Lea(0, lay[x])], ExprCode(sch, lay, 1, e), [Instr.Store(0, 1)]);
    }

    method EmitStore(l: Handle, r: Handle)
      requires Live(2) && l == HandleOf(sch, 0) && r == HandleOf(sch, 1)
      modifies `overflow, `ofd, regsUsed
      ensures Live(0) && ofd == old(ofd) + [Instr.Store(0, 1)]
    {
      ofd := ofd + [Instr.Store(l.name, r.name)];
      RegTakeItBack(r, 1);
      RegTakeItBack(l, 0);
    }

    // STMT_STMTS
    method AnalyzeEach(ss: seq<Stmt>) returns (ok: bool)
      requires Ready() && Live(0)
      modifies `overflow, `ofd, `label_, regsUsed
      ensures ok <==> AllowedAll(lay.Keys, output, ss)
      ensures ok ==> Live(0) && label_ == old(label_) + LabelsOfAll(ss)
      ensures ok ==> ofd == old(ofd) + StmtsCode(sch, lay, old(label_), ss)
      decreases ss, 0
    {
      hide Described;
      assert ss[..0] == [];
      for i := 0 to |ss|
        invariant Live(0) && AllowedAll(lay.Keys, output, ss[..i])
        invariant label_ == old(label_) + LabelsOfAll(ss[..i])
        invariant ofd == old(ofd) + StmtsCode(sch, lay, old(label_), ss[..i])
      {
        NextStmt(sch, lay, output, old(label_), ss, i);
        ghost var at := label_;
        ok := AnalyzeStmt(ss[i]);
        if !ok {
          RejectedStmts(lay.Keys, output, ss, i + 1);
          return;
        }
        Appended(old(ofd), StmtsCode(sch, lay, old(label_), ss[..i]), StmtCode(sch, lay, at, ss[i]), []);
      }
      assert ss[..|ss|] == ss;
      ok := true;
    }

    // STMT_ITE
    method AnalyzeIte(s: Stmt) returns (ok: bool)
      requires s.Ite? && Ready() && Live(0)
      modifies `overflow, `ofd, `label_, regsUsed
      ensures ok <==> Allowed(lay.Keys, output, s)
      ensures ok ==> Live(0) && label_ == old(label_) + LabelsOf(s)
      ensures ok ==> ofd == old(ofd) + StmtCode(sch, lay, old(label_), s)
      decreases s, 1
    {
      hide Described;
      IteAssembled(sch, lay, output, label_, s);
      ok := AnalyzeArms(s.cond, s.thn, s.els);
    }

    method AnalyzeArms(c: Cond, thn: Stmt, els: Stmt) returns (ok: bool)
      requires Ready() && Live(0)
      modifies `overflow, `ofd, `label_, regsUsed
      ensures ok <==> CondOk(lay.Keys, c) && Allowed(lay.Keys, output, thn) && Allowed(lay.Keys, output, els)
      ensures ok ==> Live(0) && label_ == old(label_) + 2 + LabelsOf(thn) + LabelsOf(els)
      ensures ok ==> ofd == old(ofd) + ArmsCode(sch, lay, old(label_), c, thn, els)
      decreases Ite(c, thn, els), 0
    {
      hide Described;
      hide StmtCode, BranchCode, LabelsOf;
      var l0, l1;
      ok, l0, l1 := AnalyzeTest(c);
      if !ok { return; }
      ok := AnalyzeArm(thn, [Jmp(l1), Label(l0)]);
      if !ok { return; }
      ok := AnalyzeArm(els, [Label(l1)]);
      AppendedFive(old(ofd), BranchCode(sch, lay, c, l0), StmtCode(sch, lay, l0 + 2, thn), [Jmp(l1), Label(l0)],
                   if ok then StmtCode(sch, lay, l0 + 2 + LabelsOf(thn), els) else [], [Label(l1)]);
    }

    // One arm of an if, and what follows it.
    method AnalyzeArm(arm: Stmt, after: seq<Instr>) returns (ok: bool)
      requires Ready() && Live(0)
      modifies `overflow, `ofd, `label_, regsUsed
      ensures ok <==> Allowed(lay.Keys, output, arm)
      ensures ok ==> Live(0) && label_ == old(label_) + LabelsOf(arm)
      ensures ok ==> ofd == old(ofd) + StmtCode(sch, lay, old(label_), arm) + after
      decreases arm, 3
    {
      hide Described;
      ok := AnalyzeStmt(arm);
      if ok {
        ofd := ofd + after;
      }
    }

    // The condition of an if, two new labels, and the jump to the first of them.
    method AnalyzeTest(c: Cond) returns (ok: bool, l0: int, l1: int)
      requires Ready() && Live(0)
      modifies `overflow, `ofd, `label_, regsUsed
      ensures ok <==> CondOk(lay.Keys, c)
      ensures l0 == old(label_) && l1 == l0 + 1
      ensures ok ==> Live(0) && label_ == old(label_) + 2 && ofd == old(ofd) + BranchCode(sch, lay, c, l0)
    {
      hide Described;
      var r;
      ok, r := AnalyzeCond(c);
      l0 := label_;
      label_ := label_ + 1;
      l1 := label_;
      label_ := label_ + 1;
      if ok {
        EmitBranch(r, l0);
        assert old(ofd) + CondCode(sch, lay, c) + [CmpOne(0), Jne(l0)] == old(ofd) + BranchCode(sch, lay, c, l0);
      }
    }

    // STMT_WDO: here the labels come before the condition.
    method AnalyzeWdo(s: Stmt) returns (ok: bool)
      requires s.Wdo? && Ready() && Live(0)
      modifies `overflow, `ofd, `label_, regsUsed
      ensures ok <==> Allowed(lay.Keys, output, s)
      ensures ok ==> Live(0) && label_ == old(label_) + LabelsOf(s)
      ensures ok ==> ofd == old(ofd) + StmtCode(sch, lay, old(label_), s)
      decreases s, 1
    {
      hide Described;
      WdoAssembled(sch, lay, output, label_, s);
      ok := AnalyzeLoop(s.cond, s.body);
    }

    method AnalyzeLoop(c: Cond, body: Stmt) returns (ok: bool)
      requires Ready() && Live(0)
      modifies `overflow, `ofd, `label_, regsUsed
      ensures ok <==> CondOk(lay.Keys, c) && Allowed(lay.Keys, output, body)
      ensures ok ==> Live(0) && label_ == old(label_) + 2 + LabelsOf(body)
      ensures ok ==> ofd == old(ofd) + LoopCode(sch, lay, old(label_), c, body)
      decreases Wdo(c, body), 0
    {
      hide Described;
      hide StmtCode, BranchCode, LabelsOf;
      var l0 := label_;
      label_ := label_ + 1;
      var l1 := label_;
      label_ := label_ + 1;
      ofd := ofd + [Label(l0)];
      ok := AnalyzeBranch(c, l1);
      if !ok { return; }
      ok := AnalyzeStmt(body);
      if !ok { return; }
      ofd := ofd + [Jmp(l0), Label(l1)];
      AppendedFive(old(ofd), [Label(l0)], BranchCode(sch, lay, c, l1), StmtCode(sch, lay, l0 + 2, body),
                   [Jmp(l0), Label(l1)], []);
    }

    // A condition and the jump to l when it does not hold.
    method AnalyzeBranch(c: Cond, l: int) returns (ok: bool)
      requires Ready() && Live(0)
      modifies `overflow, `ofd, regsUsed
      ensures ok <==> CondOk(lay.Keys, c)
      ensures ok ==> Live(0) && ofd == old(ofd) + BranchCode(sch, lay, c, l)
    {
      hide Described;
      var r;
      ok, r := AnalyzeCond(c);
      if ok {
        EmitBranch(r, l);
        assert old(ofd) + CondCode(sch, lay, c) + [CmpOne(0), Jne(l)] == old(ofd) + BranchCode(sch, lay, c, l);
      }
    }

    // analyze_call for write and writeln, followed by the release of the dummy register that a magic call
    // returns.
    method AnalyzeCall(es: seq<Expr>, newline: bool) returns (ok: bool)
      requires Ready() && Live(0)
      modifies `overflow, `ofd, regsUsed
      ensures ok <==> output && ResolvesAll(lay.Keys, es)
      ensures ok ==> Live(0)
      ensures ok ==> ofd == old(ofd) + (WriteCode(sch, lay, es) + if newline then [CallWriteNewline] else [])
    {
      var id := st.ResolveId(Funcs, if newline then "writeln" else "write");
      if id.None? { return false; }
      var which := MagicOf(id.value, newline);
      ok := AnalyzeMagic(which, es);
      if ok {
        RegTakeDummy();
      }
    }

    // The magic number of the routine that the name denotes.
    method MagicOf(id: nat, ghost newline: bool) returns (which: int)
      requires Ready() && Resolve(st.View().Chain(), Funcs, if newline then "writeln" else "write") == Some(id)
      ensures which == if newline then MAGIC_WRITELN else MAGIC_WRITE
    {
      assert output && |st.types.contents| == |st.View().types|;
      var entry := st.types.At(id);
      which := entry.magic;
    }

    method RegTakeDummy()
      requires Live(0)
      modifies regsUsed
      ensures Live(0)
    {
      regsUsed[0] := false;
    }

    // analyze_magic: every argument is computed, pushed and printed; writeln ends the line.
    method AnalyzeMagic(which: int, es: seq<Expr>) returns (ok: bool)
      requires Ready() && Live(0) && Writes(which)
      modifies `overflow, `ofd, regsUsed
      ensures ok <==> ResolvesAll(lay.Keys, es)
      ensures ok ==> Live(0)
      ensures ok ==> ofd == old(ofd) + (WriteCode(sch, lay, es) + if which == MAGIC_WRITELN then [CallWriteNewline] else [])
    {
      ok := AnalyzeArguments(es);
      if !ok { return; }
      if which == MAGIC_WRITELN {
        ofd := ofd + [CallWriteNewline];
      }
      Appended(old(ofd), WriteCode(sch, lay, es), if which == MAGIC_WRITELN then [CallWriteNewline] else [], []);
    }

    method AnalyzeArguments(es: seq<Expr>) returns (ok: bool)
      requires Ready() && Live(0)
      modifies `overflow, `ofd, regsUsed
      ensures ok <==> ResolvesAll(lay.Keys, es)
      ensures ok ==> Live(0) && ofd == old(ofd) + WriteCode(sch, lay, es)
    {
      hide Described;
      assert es[..0] == [];
      for i := 0 to |es|
        invariant Live(0) && ResolvesAll(lay.Keys, es[..i])
        invariant ofd == old(ofd) + WriteCode(sch, lay, es[..i])
      {
        ok := AnalyzeArgument(es[i]);
        if !ok { return; }
        assert es[..i + 1] == es[..i] + [es[i]];
        WriteCodeAppend(sch, lay, es[..i], es[i]);
        Appended(old(ofd), WriteCode(sch, lay, es[..i]), ExprCode(sch, lay, 0, es[i])
                 + [Push(0), CallWriteInteger, AddRsp(8)], []);
      }
      assert es[..|es|] == es;
      ok := true;
    }

    method AnalyzeArgument(e: Expr) returns (ok: bool)
      requires Ready() && Live(0)
      modifies `overflow, `ofd, regsUsed
      ensures ok <==> Resolves(lay.Keys, e)
      ensures ok ==> Live(0)
      ensures ok ==> ofd == old(ofd) + (ExprCode(sch, lay, 0, e) + [Push(0), CallWriteInteger, AddRsp(8)])
    {
      hide Described;
      var ty, r;
      ok, ty, r := AnalyzeExpr(e, 0);
      if !ok { return; }
      ofd := ofd + [Push(r.name), CallWriteInteger, AddRsp(8)];
      RegTakeItBack(r, 0);
      Appended(old(ofd), ExprCode(sch, lay, 0, e), [Push(0), CallWriteInteger, AddRsp(8)], []);
    }

    // ---- the whole program ----

    // From here on the symbol table t, which describes these variables, stays as it is.
    ghost method Record(t: Tab, variables: seq<string>, printing: bool)
      requires regsUsed.Length == NUM_REGS && this !in st.Repr && regsUsed !in st.Repr
      requires st.Valid() && st.View() == t && MainFrame(t, variables) && CanPrint(t, printing)
      modifies `names, `lay, `output
      ensures Ready() && lay == LayoutOf(t) && output == printing && names == variables
    {
      names, lay, output := variables, LayoutOf(t), printing;
      assert st.Valid() && st.View() == t;
    }

    // The part of analyze before the body: libraries, globals, prologue.
    method Open(p: Prog) returns (ok: bool)
      requires Ready() && names == [] && !output && ofd == []
      modifies `names, `lay, `output, `ofd, st.Repr
      ensures ok <==> (forall i :: 0 <= i < |p.imports| ==> Library(p.imports[i])) && Fresh([], p.Variables())
      ensures ok ==> Ready() && lay == Offsets(p.Variables()) && output == ("output" in p.imports)
      ensures ok ==> ofd == [MovRbpRsp, SubRsp(Reserved(p))]
    {
      var off;
      ok, off := SetUp(st, p);
      if !ok { return; }
      hide Described;
      ghost var t := st.View();
      OffsetsAreLayout(t, p.Variables());
      Record(t, p.Variables(), "output" in p.imports);
      ofd := [MovRbpRsp, SubRsp(off)];
    }

    // analyze
    method Analyze(p: Prog) returns (ok: bool)
      requires Ready() && Live(0) && names == [] && !output && label_ == 0 && ofd == []
      modifies this, regsUsed, st.Repr
      ensures ok <==> Legal(p)
      ensures ok ==> ofd == Emitted(sch, p) && Live(0) && label_ == LabelsOf(p.body)
    {
      hide Described;
      ok := Open(p);
      if !ok { return; }
      ok := AnalyzeStmt(p.body);
      if !ok { return; }
      ofd := ofd + [MovImm(RAX, 60), XorSelf(RDI), Syscall];
    }
  }

  // The compiler from the program to its instructions: it accepts exactly the legal programs, and with the
  // intended spill register the code does what the program means.
  method Compile(sch: Scheme, p: Prog) returns (ok: bool, code: seq<Instr>)
    ensures ok <==> Legal(p)
    ensures ok ==> code == Emitted(sch, p)
    ensures ok && sch.Intended? && FitsInt(|p.Variables()|) ==> Implements(code, p)
  {
    var acx := new Acx(sch);
    acx.Record(acx.st.View(), [], false);
    ok := acx.Analyze(p);
    code := acx.ofd;
    if ok && sch.Intended? && FitsInt(|p.Variables()|) { IntendedImplements(p); }
  }
}
