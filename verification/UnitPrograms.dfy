// The two descriptions of which programs are accepted agree: the rules for programs of integer globals, and
// the checks of the analysis.
module UnitPrograms {
  import opened Basics
  import opened Words
  import opened Source
  import opened CodeLists
  import opened Scoping
  import opened Symbols
  import opened TypeArena
  import opened Frames
  import opened MainProgram
  import opened Bodies
  import opened Subprograms
  import opened BodyStores
  import opened Units

  function DeclsOf(ds: seq<seq<string>>): seq<Decls> {
    if ds == [] then [] else DeclsOf(ds[..|ds| - 1]) + [Decls(ds[|ds| - 1], AstType.Plain(Integer))]
  }

  function UnitOf(p: Prog): Unit {
    Unit(p.imports, [], DeclsOf(p.decls), [], CmdOf(p.body))
  }

  lemma {:induction false} IntegersNamed(names: set<string>, ds: seq<seq<string>>)
    ensures NamedInDecls(names, DeclsOf(ds))
  {
    if ds != [] {
      IntegersNamed(names, ds[..|ds| - 1]);
      assert DeclsOf(ds)[..|DeclsOf(ds)| - 1] == DeclsOf(ds[..|ds| - 1]);
    }
  }

  // ---- libraries and globals ----

  predicate Libraries(imports: seq<string>) {
    forall i :: 0 <= i < |imports| ==> Library(imports[i])
  }

  lemma {:induction false} ImportsAgree(t: Tab, imports: seq<string>)
    requires Good(t) && MainFrame(t, []) && CanPrint(t, false)
    ensures ImportAll(t, imports).Some? <==> Libraries(imports)
    ensures ImportAll(t, imports).Some? ==>
            MainFrame(ImportAll(t, imports).value, []) && CanPrint(ImportAll(t, imports).value, "output" in imports)
  {
    if imports != [] {
      var rest, name := imports[..|imports| - 1], imports[|imports| - 1];
      ImportsAgree(t, rest);
      assert imports == rest + [name];
      hide MainFrame, CanPrint, Good;
      if ImportAll(t, rest).Some? && Library(name) { ImportHolds(ImportAll(t, rest).value, name, "output" in rest); }
    }
  }

  lemma {:induction false} GlobalsAgree(t: Tab, ds: seq<seq<string>>, yes: bool)
    requires Good(t) && MainFrame(t, []) && CanPrint(t, yes)
    ensures NamedInDecls(TypeNames(t), DeclsOf(ds))
    ensures var r := AddGroups(t, DeclsOf(ds), 0, true);
            (r.Some? <==> Fresh([], Flatten(ds)))
            && (r.Some? ==> MainFrame(r.value.0, Flatten(ds)) && CanPrint(r.value.0, yes)
                            && r.value.1 == Int32(8 * |Flatten(ds)|))
  {
    IntegersNamed(TypeNames(t), ds);
    if ds != [] {
      var rest, names := ds[..|ds| - 1], ds[|ds| - 1];
      GlobalsAgree(t, rest, yes);
      assert DeclsOf(ds)[..|DeclsOf(ds)| - 1] == DeclsOf(rest);
      FreshAppend(Flatten(rest), names);
      hide MainFrame, CanPrint, Good, Fresh, Onward;
      var p := AddGroups(t, DeclsOf(rest), 0, true);
      if p.Some? { DeclareHolds(p.value.0, Flatten(rest), names, yes); }
    }
  }

  // ---- the body ----

  // The visible variables are these, all of them integers of the innermost scope, and write and writeln are
  // the library's or not declared.
  ghost predicate IntegersOnly(t: Tab, names: set<string>, yes: bool) {
    && Good(t)
    && (forall x :: VariableOk(t, names, x))
    && PrinterOk(t, "write", MAGIC_WRITE, yes) && PrinterOk(t, "writeln", MAGIC_WRITELN, yes)
  }

  ghost predicate VariableOk(t: Tab, names: set<string>, x: string)
    requires Good(t)
  {
    && (Named(t, x).Some? <==> x in names)
    && (Named(t, x).Some? ==> Local(t.Chain(), Vars, x) && t.vars[Named(t, x).value].ty == INTEGER_TYPE_IDX)
  }

  ghost predicate PrinterOk(t: Tab, f: string, which: int, yes: bool)
    requires Good(t)
  {
    (Routine(t, f).Some? <==> yes) && (yes ==> Routine(t, f).value.magic == which)
  }

  function SetOf(names: seq<string>): set<string> {
    set x | x in names
  }

  lemma MainIntegers(t: Tab, names: seq<string>, yes: bool)
    requires Good(t) && MainFrame(t, names) && CanPrint(t, yes)
    ensures IntegersOnly(t, SetOf(names), yes)
  {
    var c, declared := t.Chain(), SetOf(names);
    assert c[..|c| - 1] == [];
    forall x ensures VariableOk(t, declared, x) {
      assert Resolve(c[..|c| - 1], Vars, x) == None;
      assert Named(t, x) == if x in c[0].vars then Some(c[0].vars[x]) else None;
      if x in c[0].vars { var i :| 0 <= i < |names| && names[i] == x; }
    }
  }

  lemma {:induction false} TermAgrees(t: Tab, names: set<string>, yes: bool, d: Display, e: Expr)
    requires IntegersOnly(t, names, yes)
    ensures CheckTerm(t, d, TermOf(e)) == if Resolves(names, e) then Some((INTEGER_TYPE_IDX, d)) else None
  {
    match e
    case Lit(_) =>
    case Path(x) => assert VariableOk(t, names, x);
    case Bin(_, a, b) =>
      TermAgrees(t, names, yes, d, a);
      TermAgrees(t, names, yes, d, b);
  }

  lemma TestAgrees(t: Tab, names: set<string>, yes: bool, d: Display, c: Cond)
    requires IntegersOnly(t, names, yes)
    ensures CheckTest(t, d, TestOf(c)) == if CondOk(names, c) then Some(d) else None
  {
    match c
    case Plain(e) => TermAgrees(t, names, yes, d, e);
    case Rel(_, a, b) =>
      TermAgrees(t, names, yes, d, a);
      TermAgrees(t, names, yes, d, b);
  }

  lemma {:induction false} ArgumentsAgree(t: Tab, names: set<string>, yes: bool, d: Display, which: int, es: seq<Expr>)
    requires IntegersOnly(t, names, yes) && Writes(which)
    ensures CheckMagicArgs(t, d, which, TermsOf(es)) == if ResolvesAll(names, es) then Some(d) else None
    decreases es
  {
    if es != [] {
      var n := |es| - 1;
      assert TermsOf(es)[..n] == TermsOf(es[..n]);
      ArgumentsAgree(t, names, yes, d, which, es[..n]);
      TermAgrees(t, names, yes, d, es[n]);
      assert ResolvesAll(names, es) <==> ResolvesAll(names, es[..n]) && Resolves(names, es[n]) by {
        assert es == es[..n] + [es[n]];
      }
    }
  }

  // The analysis accepts a statement exactly when the rules do, and hands out no display slot.
  lemma {:induction false} BodyAgrees(t: Tab, names: set<string>, yes: bool, d: Display, s: Stmt)
    requires IntegersOnly(t, names, yes)
    ensures CheckCmd(t, Procedure, d, CmdOf(s)) == if Allowed(names, yes, s) then Some(d) else None
    decreases s, 1
  {
    match s
    case Empty =>
    case Assign(x, e) =>
      assert VariableOk(t, names, x);
      assert t.types[SimpleIdx(Integer)] == Primitive(Integer);
      TermAgrees(t, names, yes, d, e);
    case Ite(c, a, b) =>
      TestAgrees(t, names, yes, d, c);
      BodyAgrees(t, names, yes, d, a);
      BodyAgrees(t, names, yes, d, b);
    case Wdo(c, b) =>
      TestAgrees(t, names, yes, d, c);
      BodyAgrees(t, names, yes, d, b);
    case Stmts(ss) => BodiesAgree(t, names, yes, d, ss);
    case Write(es, newline) => WriteAgrees(t, names, yes, d, es, newline);
  }

  lemma WriteAgrees(t: Tab, names: set<string>, yes: bool, d: Display, es: seq<Expr>, newline: bool)
    requires IntegersOnly(t, names, yes)
    ensures CheckCmd(t, Procedure, d, CmdOf(Write(es, newline))) ==
            if Allowed(names, yes, Write(es, newline)) then Some(d) else None
  {
    var f, which := if newline then "writeln" else "write", if newline then MAGIC_WRITELN else MAGIC_WRITE;
    assert PrinterOk(t, f, which, yes);
    ArgumentsAgree(t, names, yes, d, which, es);
    assert CmdOf(Write(es, newline)) == Call(f, TermsOf(es));
    assert CheckMagic(t, d, which, TermsOf(es)) == if ResolvesAll(names, es) then Some(d) else None;
  }

  lemma {:induction false} BodiesAgree(t: Tab, names: set<string>, yes: bool, d: Display, ss: seq<Stmt>)
    requires IntegersOnly(t, names, yes)
    ensures CheckBlock(t, Procedure, d, CmdOf(Stmts(ss)).cs) == if AllowedAll(names, yes, ss) then Some(d) else None
    decreases ss, 0
  {
    if ss != [] {
      var n := |ss| - 1;
      assert CmdOf(Stmts(ss)).cs[..n] == CmdOf(Stmts(ss[..n])).cs && ss == ss[..n] + [ss[n]];
      BodiesAgree(t, names, yes, d, ss[..n]);
      BodyAgrees(t, names, yes, d, ss[n]);
      AllowedAppend(names, yes, ss[..n], [ss[n]]);
      OneStmt(names, yes, ss[n]);
    }
  }

  // ---- the program ----

  lemma GlobalFrame()
    ensures Good(GlobalTab()) && TypeNames(GlobalTab()) == {}
    ensures MainFrame(GlobalTab(), []) && CanPrint(GlobalTab(), false)
  {
    GlobalGood();
    var o := GlobalTab().(h := []);
    SixPrimitives(o.types);
    GlobalScope(o);
    assert Note(o, Enter) == GlobalTab();
  }

  lemma TypesAgree(p: Prog)
    ensures UnitNamed(UnitOf(p)) && (GlobalTypes(UnitOf(p)).Some? <==> Libraries(p.imports))
    ensures var g := GlobalTypes(UnitOf(p));
            g.Some? ==> MainFrame(g.value, []) && CanPrint(g.value, "output" in p.imports)
  {
    IntegersNamed({}, p.decls);
    GlobalFrame();
    hide Good, MainFrame, CanPrint, Libraries, ImportAll;
    ImportsAgree(GlobalTab(), p.imports);
  }

  // The table after libraries and globals.
  lemma SetUpAgrees(p: Prog)
    ensures UnitNamed(UnitOf(p))
    ensures Globals(UnitOf(p)).Some? <==> Libraries(p.imports) && Fresh([], p.Variables())
    ensures Globals(UnitOf(p)).Some? ==> IntegersOnly(Globals(UnitOf(p)).value, SetOf(p.Variables()), "output" in p.imports)
  {
    TypesAgree(p);
    var g := GlobalTypes(UnitOf(p));
    if g.Some? {
      hide GlobalTypes, Good, MainFrame, CanPrint, Libraries, Fresh, IntegersOnly, AddGroups, UnitNamed;
      GlobalsAgree(g.value, p.decls, "output" in p.imports);
      var r := AddGroups(g.value, DeclsOf(p.decls), 0, true);
      if r.Some? { MainIntegers(r.value.0, p.Variables(), "output" in p.imports); }
    }
  }

  // A program of integer globals without types and subprograms is legal exactly when the analysis accepts it.
  lemma LegalExactlyChecked(p: Prog)
    ensures UnitNamed(UnitOf(p))
    ensures CheckUnit(UnitOf(p)).Some? <==> Legal(p)
  {
    SetUpAgrees(p);
    OffsetsAt(p.Variables());
    if Globals(UnitOf(p)).Some? {
      var g := Globals(UnitOf(p)).value;
      hide Globals, Good, IntegersOnly;
      BodyAgrees(g, SetOf(p.Variables()), "output" in p.imports, Display(map[], 0), p.body);
    }
  }
}
