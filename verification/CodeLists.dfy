// Lists of statements and arguments taken from the front: what one more element adds.
module CodeLists {
  import opened Source
  import opened Machine
  import opened Code

  // The statement prints, so it calls write or writeln.
  predicate Prints(s: Stmt)
    decreases s, 1
  {
    match s
    case Ite(_, t, f) => Prints(t) || Prints(f)
    case Wdo(_, b) => Prints(b)
    case Stmts(ss) => PrintsAny(ss)
    case Write(_, _) => true
    case _ => false
  }

  predicate PrintsAny(ss: seq<Stmt>)
    decreases ss, 0
  {
    ss != [] && (Prints(ss[0]) || PrintsAny(ss[1..]))
  }

  // Accepted, and printing only when the output library is imported.
  predicate Allowed(names: set<string>, output: bool, s: Stmt) {
    Accepted(names, s) && (output || !Prints(s))
  }

  predicate AllowedAll(names: set<string>, output: bool, ss: seq<Stmt>) {
    AcceptedAll(names, ss) && (output || !PrintsAny(ss))
  }

  lemma {:induction false} AllowedAppend(names: set<string>, output: bool, ss: seq<Stmt>, tt: seq<Stmt>)
    ensures AllowedAll(names, output, ss + tt) <==> AllowedAll(names, output, ss) && AllowedAll(names, output, tt)
  {
    if ss == [] {
      assert ss + tt == tt;
    } else {
      assert (ss + tt)[1..] == ss[1..] + tt;
      AllowedAppend(names, output, ss[1..], tt);
    }
  }

  lemma {:induction false} LabelsAppend(ss: seq<Stmt>, tt: seq<Stmt>)
    ensures LabelsOfAll(ss + tt) == LabelsOfAll(ss) + LabelsOfAll(tt)
  {
    if ss == [] {
      assert ss + tt == tt;
    } else {
      assert (ss + tt)[1..] == ss[1..] + tt;
      LabelsAppend(ss[1..], tt);
    }
  }

  lemma Regroup(a: seq<Instr>, b: seq<Instr>, c: seq<Instr>)
    ensures a + (b + c) == a + b + c
  {
  }

  lemma {:induction false} StmtsCodeAppend(sch: Scheme, lay: Layout, lbl: int, ss: seq<Stmt>, tt: seq<Stmt>)
    requires AcceptedAll(lay.Keys, ss) && AcceptedAll(lay.Keys, tt) && AcceptedAll(lay.Keys, ss + tt)
    ensures StmtsCode(sch, lay, lbl, ss + tt) ==
            StmtsCode(sch, lay, lbl, ss) + StmtsCode(sch, lay, lbl + LabelsOfAll(ss), tt)
    decreases ss
  {
    hide StmtCode, LabelsOf, Accepted;
    if ss == [] {
      assert ss + tt == tt;
    } else {
      var l := lbl + LabelsOf(ss[0]);
      assert (ss + tt)[1..] == ss[1..] + tt;
      StmtsCodeAppend(sch, lay, l, ss[1..], tt);
      Regroup(StmtCode(sch, lay, lbl, ss[0]), StmtsCode(sch, lay, l, ss[1..]),
              StmtsCode(sch, lay, l + LabelsOfAll(ss[1..]), tt));
    }
  }

  lemma OneStmt(names: set<string>, output: bool, s: Stmt)
    ensures AllowedAll(names, output, [s]) <==> Allowed(names, output, s)
    ensures AcceptedAll(names, [s]) <==> Accepted(names, s)
    ensures LabelsOfAll([s]) == LabelsOf(s)
  {
    var one := [s];
    assert one[0] == s && one[1..] == [];
    assert PrintsAny(one) <==> Prints(one[0]) || PrintsAny(one[1..]);
    assert AcceptedAll(names, one) <==> Accepted(names, one[0]) && AcceptedAll(names, one[1..]);
  }

  // One more statement of a list.
  lemma NextStmt(sch: Scheme, lay: Layout, output: bool, lbl: int, ss: seq<Stmt>, i: nat)
    requires i < |ss|
    ensures AllowedAll(lay.Keys, output, ss[..i + 1]) <==>
            AllowedAll(lay.Keys, output, ss[..i]) && Allowed(lay.Keys, output, ss[i])
    ensures LabelsOfAll(ss[..i + 1]) == LabelsOfAll(ss[..i]) + LabelsOf(ss[i])
    ensures AcceptedAll(lay.Keys, ss[..i]) && Accepted(lay.Keys, ss[i]) ==>
            AcceptedAll(lay.Keys, ss[..i + 1]) &&
            StmtsCode(sch, lay, lbl, ss[..i + 1]) ==
            StmtsCode(sch, lay, lbl, ss[..i]) + StmtCode(sch, lay, lbl + LabelsOfAll(ss[..i]), ss[i])
  {
    var one := [ss[i]];
    assert ss[..i + 1] == ss[..i] + one && one[1..] == [];
    OneStmt(lay.Keys, output, ss[i]);
    AllowedAppend(lay.Keys, output, ss[..i], one);
    AllowedAppend(lay.Keys, true, ss[..i], one);
    LabelsAppend(ss[..i], one);
    if AcceptedAll(lay.Keys, ss[..i]) && Accepted(lay.Keys, ss[i]) {
      StmtsCodeAppend(sch, lay, lbl, ss[..i], one);
    }
  }

  // A list with a rejected beginning is rejected.
  lemma RejectedStmts(names: set<string>, output: bool, ss: seq<Stmt>, i: nat)
    requires i <= |ss| && !AllowedAll(names, output, ss[..i])
    ensures !AllowedAll(names, output, ss)
  {
    assert ss == ss[..i] + ss[i..];
    AllowedAppend(names, output, ss[..i], ss[i..]);
  }

  lemma {:induction false} WriteCodeAppend(sch: Scheme, lay: Layout, es: seq<Expr>, e: Expr)
    requires ResolvesAll(lay.Keys, es) && Resolves(lay.Keys, e) && ResolvesAll(lay.Keys, es + [e])
    ensures WriteCode(sch, lay, es + [e]) ==
            WriteCode(sch, lay, es) + (ExprCode(sch, lay, 0, e) + [Push(0), CallWriteInteger, AddRsp(8)])
  {
    if es == [] {
      assert es + [e] == [e] && [e][1..] == [];
    } else {
      assert (es + [e])[1..] == es[1..] + [e];
      WriteCodeAppend(sch, lay, es[1..], e);
    }
  }
}
