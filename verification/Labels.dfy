// Labels of the emitted code: each is defined once, so every jump has exactly one target.
module Labels {
  import opened Source
  import opened Machine
  import opened Code
  import opened ExprCorrect
  import opened StmtCorrect

  // How many times label l is defined.
  function Definitions(code: seq<Instr>, l: int): nat {
    if code == [] then 0 else (if code[0] == Label(l) then 1 else 0) + Definitions(code[1..], l)
  }

  lemma {:induction false} DefinitionsAppend(c: seq<Instr>, d: seq<Instr>, l: int)
    ensures Definitions(c + d, l) == Definitions(c, l) + Definitions(d, l)
  {
    if c == [] {
      assert c + d == d;
    } else {
      assert (c + d)[1..] == c[1..] + d;
      DefinitionsAppend(c[1..], d, l);
    }
  }

  // No labels and no jumps.
  lemma {:induction false} StraightHasNoLabels(c: seq<Instr>, l: int)
    requires StraightCode(c)
    ensures Definitions(c, l) == 0
    ensures forall i :: i in c ==> !i.Jmp? && !i.Jne?
  {
    if c != [] {
      assert c[0] in c;
      StraightHasNoLabels(c[1..], l);
    }
  }

  lemma CountParts(c: seq<Instr>, d: seq<Instr>, e: seq<Instr>, f: seq<Instr>, g: seq<Instr>, l: int)
    ensures Definitions(c + d + e + f + g, l) ==
            Definitions(c, l) + Definitions(d, l) + Definitions(e, l) + Definitions(f, l) + Definitions(g, l)
    ensures c + d + e + f + [] == c + d + e + f
  {
    DefinitionsAppend(c, d, l);
    DefinitionsAppend(c + d, e, l);
    DefinitionsAppend(c + d + e, f, l);
    DefinitionsAppend(c + d + e + f, g, l);
  }

  lemma CountShort(i: Instr, j: Instr, l: int)
    ensures Definitions([i], l) == if i == Label(l) then 1 else 0
    ensures Definitions([i, j], l) == (if i == Label(l) then 1 else 0) + if j == Label(l) then 1 else 0
  {
    assert [i, j][1..] == [j] && [j][1..] == [] && [i][1..] == [];
  }

  // The code of a statement defines each label in [lbl, lbl + LabelsOf(s)) exactly once and no other.
  lemma {:induction false} EachLabelOnce(sch: Scheme, lay: Layout, lbl: int, s: Stmt, l: int)
    requires Accepted(lay.Keys, s)
    ensures Definitions(StmtCode(sch, lay, lbl, s), l) == if lbl <= l < lbl + LabelsOf(s) then 1 else 0
    decreases s, 1
  {
    match s
    case Empty =>
    case Assign(_, _) => SimpleLabels(sch, lay, lbl, s, l);
    case Write(_, _) => SimpleLabels(sch, lay, lbl, s, l);
    case Stmts(ss) =>
      EachLabelOnceAll(sch, lay, lbl, ss, l);
    case Ite(c, t, f) =>
      EachLabelOnce(sch, lay, lbl + 2, t, l);
      EachLabelOnce(sch, lay, lbl + 2 + LabelsOf(t), f, l);
      IteLabels(sch, lay, lbl, s, l);
    case Wdo(c, b) =>
      EachLabelOnce(sch, lay, lbl + 2, b, l);
      WdoLabels(sch, lay, lbl, s, l);
  }

  lemma SimpleStraight(sch: Scheme, lay: Layout, lbl: int, s: Stmt)
    requires s.Assign? || s.Write?
    requires Accepted(lay.Keys, s)
    ensures StraightCode(StmtCode(sch, lay, lbl, s))
  {
    match s
    case Assign(x, e) => ExprStraight(sch, lay, 1, e);
    case Write(es, nl) => WriteStraight(sch, lay, es);
  }

  lemma SimpleLabels(sch: Scheme, lay: Layout, lbl: int, s: Stmt, l: int)
    requires s.Assign? || s.Write?
    requires Accepted(lay.Keys, s)
    ensures Definitions(StmtCode(sch, lay, lbl, s), l) == 0
  {
    SimpleStraight(sch, lay, lbl, s);
    StraightHasNoLabels(StmtCode(sch, lay, lbl, s), l);
  }

  lemma IteLabels(sch: Scheme, lay: Layout, lbl: int, s: Stmt, l: int)
    requires s.Ite? && Accepted(lay.Keys, s)
    ensures Definitions(StmtCode(sch, lay, lbl, s), l) ==
            Definitions(StmtCode(sch, lay, lbl + 2, s.thn), l)
            + Definitions(StmtCode(sch, lay, lbl + 2 + LabelsOf(s.thn), s.els), l)
            + if l == lbl || l == lbl + 1 then 1 else 0
  {
    IteShape(sch, lay, lbl, s);
    hide StmtCode, BranchCode, LabelsOf, Definitions;
    BranchLabels(sch, lay, s.cond, lbl, l);
    CountShort(Jmp(lbl + 1), Label(lbl), l);
    CountShort(Label(lbl + 1), Label(lbl), l);
    CountParts(BranchCode(sch, lay, s.cond, lbl), StmtCode(sch, lay, lbl + 2, s.thn), [Jmp(lbl + 1), Label(lbl)],
               StmtCode(sch, lay, lbl + 2 + LabelsOf(s.thn), s.els), [Label(lbl + 1)], l);
  }

  lemma WdoLabels(sch: Scheme, lay: Layout, lbl: int, s: Stmt, l: int)
    requires s.Wdo? && Accepted(lay.Keys, s)
    ensures Definitions(StmtCode(sch, lay, lbl, s), l) ==
            Definitions(StmtCode(sch, lay, lbl + 2, s.body), l) + if l == lbl || l == lbl + 1 then 1 else 0
  {
    BranchLabels(sch, lay, s.cond, lbl + 1, l);
    CountShort(Jmp(lbl), Label(lbl + 1), l);
    CountShort(Label(lbl), Label(lbl + 1), l);
    WdoShape(sch, lay, lbl, s);
    CountParts([Label(lbl)], BranchCode(sch, lay, s.cond, lbl + 1), StmtCode(sch, lay, lbl + 2, s.body),
               [Jmp(lbl), Label(lbl + 1)], [], l);
  }

  lemma {:induction false} EachLabelOnceAll(sch: Scheme, lay: Layout, lbl: int, ss: seq<Stmt>, l: int)
    requires AcceptedAll(lay.Keys, ss)
    ensures Definitions(StmtsCode(sch, lay, lbl, ss), l) == if lbl <= l < lbl + LabelsOfAll(ss) then 1 else 0
    decreases ss, 0
  {
    if ss != [] {
      EachLabelOnce(sch, lay, lbl, ss[0], l);
      EachLabelOnceAll(sch, lay, lbl + LabelsOf(ss[0]), ss[1..], l);
      DefinitionsAppend(StmtCode(sch, lay, lbl, ss[0]), StmtsCode(sch, lay, lbl + LabelsOf(ss[0]), ss[1..]), l);
    }
  }

  lemma BranchLabels(sch: Scheme, lay: Layout, c: Cond, target: int, l: int)
    requires CondOk(lay.Keys, c)
    ensures Definitions(BranchCode(sch, lay, c, target), l) == 0
  {
    CondStraight(sch, lay, c);
    StraightHasNoLabels(CondCode(sch, lay, c), l);
    CountShort(CmpOne(0), Jne(target), l);
    DefinitionsAppend(CondCode(sch, lay, c), [CmpOne(0), Jne(target)], l);
  }

  ghost predicate JumpsWithin(c: seq<Instr>, lo: int, hi: int) {
    forall i :: i in c && (i.Jmp? || i.Jne?) ==> lo <= i.l < hi
  }

  lemma WithinParts(c: seq<Instr>, d: seq<Instr>, e: seq<Instr>, f: seq<Instr>, g: seq<Instr>, lo: int, hi: int)
    requires JumpsWithin(c, lo, hi) && JumpsWithin(d, lo, hi) && JumpsWithin(e, lo, hi)
    requires JumpsWithin(f, lo, hi) && JumpsWithin(g, lo, hi)
    ensures JumpsWithin(c + d + e + f + g, lo, hi)
    ensures c + d + e + f + [] == c + d + e + f
  {
  }

  lemma WithinWider(c: seq<Instr>, lo: int, hi: int, lo': int, hi': int)
    requires JumpsWithin(c, lo, hi) && lo' <= lo && hi <= hi'
    ensures JumpsWithin(c, lo', hi')
  {
  }

  lemma JumpAndLabel(lbl: int, hi: int)
    requires lbl + 1 < hi
    ensures JumpsWithin([Jmp(lbl + 1), Label(lbl)], lbl, hi) && JumpsWithin([Label(lbl + 1)], lbl, hi)
  {
  }

  lemma BranchWithin(sch: Scheme, lay: Layout, c: Cond, target: int, lo: int, hi: int)
    requires CondOk(lay.Keys, c) && lo <= target < hi
    ensures JumpsWithin(BranchCode(sch, lay, c, target), lo, hi)
  {
    CondStraight(sch, lay, c);
  }

  // Every jump of a statement goes to a label of that statement.
  lemma {:induction false} JumpsStayInside(sch: Scheme, lay: Layout, lbl: int, s: Stmt)
    requires Accepted(lay.Keys, s)
    ensures JumpsWithin(StmtCode(sch, lay, lbl, s), lbl, lbl + LabelsOf(s))
    decreases s, 1
  {
    match s
    case Empty =>
    case Assign(_, _) => SimpleStraight(sch, lay, lbl, s);
    case Write(_, _) => SimpleStraight(sch, lay, lbl, s);
    case Stmts(ss) =>
      JumpsStayInsideAll(sch, lay, lbl, ss);
    case Ite(c, t, f) =>
      JumpsStayInside(sch, lay, lbl + 2, t);
      JumpsStayInside(sch, lay, lbl + 2 + LabelsOf(t), f);
      IteWithin(sch, lay, lbl, s);
    case Wdo(c, b) =>
      JumpsStayInside(sch, lay, lbl + 2, b);
      WdoWithin(sch, lay, lbl, s);
  }

  lemma IteWithin(sch: Scheme, lay: Layout, lbl: int, s: Stmt)
    requires s.Ite? && Accepted(lay.Keys, s)
    requires JumpsWithin(StmtCode(sch, lay, lbl + 2, s.thn), lbl + 2, lbl + 2 + LabelsOf(s.thn))
    requires JumpsWithin(StmtCode(sch, lay, lbl + 2 + LabelsOf(s.thn), s.els), lbl + 2 + LabelsOf(s.thn), lbl + LabelsOf(s))
    ensures JumpsWithin(StmtCode(sch, lay, lbl, s), lbl, lbl + LabelsOf(s))
  {
    hide StmtCode, BranchCode, JumpsWithin;
    var m := lbl + 2 + LabelsOf(s.thn);
    BranchWithin(sch, lay, s.cond, lbl, lbl, lbl + LabelsOf(s));
    IteShape(sch, lay, lbl, s);
    WithinWider(StmtCode(sch, lay, lbl + 2, s.thn), lbl + 2, m, lbl, lbl + LabelsOf(s));
    WithinWider(StmtCode(sch, lay, m, s.els), m, lbl + LabelsOf(s), lbl, lbl + LabelsOf(s));
    JumpAndLabel(lbl, lbl + LabelsOf(s));
    WithinParts(BranchCode(sch, lay, s.cond, lbl), StmtCode(sch, lay, lbl + 2, s.thn), [Jmp(lbl + 1), Label(lbl)],
                StmtCode(sch, lay, m, s.els), [Label(lbl + 1)], lbl, lbl + LabelsOf(s));
  }

  lemma WdoWithin(sch: Scheme, lay: Layout, lbl: int, s: Stmt)
    requires s.Wdo? && Accepted(lay.Keys, s)
    requires JumpsWithin(StmtCode(sch, lay, lbl + 2, s.body), lbl + 2, lbl + LabelsOf(s))
    ensures JumpsWithin(StmtCode(sch, lay, lbl, s), lbl, lbl + LabelsOf(s))
  {
    BranchWithin(sch, lay, s.cond, lbl + 1, lbl, lbl + LabelsOf(s));
    WdoShape(sch, lay, lbl, s);
    hide StmtCode, BranchCode;
    WithinParts([Label(lbl)], BranchCode(sch, lay, s.cond, lbl + 1), StmtCode(sch, lay, lbl + 2, s.body),
                [Jmp(lbl), Label(lbl + 1)], [], lbl, lbl + LabelsOf(s));
  }

  lemma {:induction false} JumpsStayInsideAll(sch: Scheme, lay: Layout, lbl: int, ss: seq<Stmt>)
    requires AcceptedAll(lay.Keys, ss)
    ensures JumpsWithin(StmtsCode(sch, lay, lbl, ss), lbl, lbl + LabelsOfAll(ss))
    decreases ss, 0
  {
    if ss != [] {
      JumpsStayInside(sch, lay, lbl, ss[0]);
      JumpsStayInsideAll(sch, lay, lbl + LabelsOf(ss[0]), ss[1..]);
    }
  }

  lemma CountBelowTwo(code: seq<Instr>, i: int, j: int, l: int)
    requires Defines(code, i, l) && Defines(code, j, l) && i < j
    ensures Definitions(code, l) >= 2
  {
    var a, b := code[..j], code[j..];
    assert code == a + b;
    DefinitionsAppend(a, b, l);
    CountHere(a, i, l);
    CountHere(b, 0, l);
  }

  lemma CountHere(code: seq<Instr>, i: int, l: int)
    requires Defines(code, i, l)
    ensures Definitions(code, l) >= 1
  {
    if i != 0 { CountHere(code[1..], i - 1, l); }
  }

  lemma OnceMeansUnique(code: seq<Instr>)
    requires forall l :: Definitions(code, l) <= 1
    ensures UniqueLabels(code)
  {
    forall i, j, l | Defines(code, i, l) && Defines(code, j, l) ensures i == j {
      assert Definitions(code, l) <= 1;
      if i < j { CountBelowTwo(code, i, j, l); }
      if j < i { CountBelowTwo(code, j, i, l); }
    }
  }

  lemma MainLabels(sch: Scheme, lay: Layout, reserved: int, s: Stmt)
    requires Accepted(lay.Keys, s)
    ensures UniqueLabels(MainCode(sch, lay, reserved, s))
  {
    forall l ensures Definitions(MainCode(sch, lay, reserved, s), l) <= 1 {
      EachLabelOnce(sch, lay, 0, s, l);
      CountMain(reserved, StmtCode(sch, lay, 0, s), l);
    }
    OnceMeansUnique(MainCode(sch, lay, reserved, s));
  }

  lemma CountMain(reserved: int, body: seq<Instr>, l: int)
    ensures Definitions([MovRbpRsp, SubRsp(reserved)] + body + [MovImm(RAX, 60), XorSelf(RDI), Syscall], l) ==
            Definitions(body, l)
  {
    var p, z := [MovRbpRsp, SubRsp(reserved)], [MovImm(RAX, 60), XorSelf(RDI)];
    DefinitionsAppend(p, body, l);
    DefinitionsAppend(p + body, z + [Syscall], l);
    DefinitionsAppend(z, [Syscall], l);
    CountShort(MovRbpRsp, SubRsp(reserved), l);
    CountShort(MovImm(RAX, 60), XorSelf(RDI), l);
    CountShort(Syscall, Syscall, l);
    assert z + [Syscall] == [MovImm(RAX, 60), XorSelf(RDI), Syscall];
  }
}
