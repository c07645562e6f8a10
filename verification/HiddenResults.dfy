// A function whose result slot is hidden by a formal of a nested subprogram.
module HiddenResults {
  import opened Basics
  import opened Scoping
  import opened Symbols
  import opened TypeArena
  import opened Declarations
  import opened Bodies
  import opened Subprograms
  import opened LocalFrames

  // procedure p(x: integer); begin end;
  function Taking(p: string, x: string): Subprogram {
    Subprogram(p, Procedure, [Decls([x], Plain(Integer))], Plain(Void), [], [], [], Skip)
  }

  // function f: integer; procedure p(f: integer); begin end; begin f := 1 end;
  function Hiding(f: string, p: string): Subprogram {
    Subprogram(f, Function, [], Plain(Integer), [], [], [Taking(p, f)], Set(f, Number(1)))
  }

  lemma OneNamed(names: set<string>, x: string)
    ensures NamedInDecls(names, [Decls([x], Plain(Integer))])
  {
    var g := [Decls([x], Plain(Integer))];
    assert g[..|g| - 1] == [] && NamedInDecls(names, []) && NamedIn(names, g[|g| - 1].ty);
  }

  lemma TakingNamed(names: set<string>, p: string, x: string)
    ensures WellNamed(names, Taking(p, x))
  {
    OneNamed(names, x);
    assert names + NamesOf([]) == names;
  }

  lemma HidingNamed(names: set<string>, f: string, p: string)
    ensures WellNamed(names, Hiding(f, p)) && AllWellNamed(names, Hiding(f, p).subs)
  {
    TakingNamed(names, p, f);
    assert [Taking(p, f)][..0] == [];
    assert names + NamesOf([]) == names;
  }

  // One new name is accepted in a new scope.
  lemma OneAccepted(t: Tab, x: string, off: int, locals: bool)
    requires Good(t) && t.Chain()[|t.Chain()| - 1] == EmptyScope
    ensures NamedInDecls(TypeNames(t), [Decls([x], Plain(Integer))])
    ensures AddGroups(t, [Decls([x], Plain(Integer))], off, locals).Some?
  {
    var g := [Decls([x], Plain(Integer))];
    OneNamed(TypeNames(t), x);
    assert AllNames(g) == AllNames(g[..0]) + [x];
    GroupsAcceptedExactly(t, g, off, locals);
  }

  // A nested subprogram with one formal is accepted anywhere.
  lemma TakingAccepted(t: Tab, d: Display, p: string, x: string)
    requires Good(t)
    ensures WellNamed(TypeNames(t), Taking(p, x)) && CheckSub(t, d, Taking(p, x)).Some?
  {
    var s := Taking(p, x);
    TakingNamed(TypeNames(t), p, x);
    EnterGood(t);
    OneAccepted(Note(t, Enter), x, 16, false);
    hide Good, Inner, NewAndDistinct, WithResult;
    assert WithNames(Note(t, Enter), s).Some?;
    assert Opened(t, s).Some?;
    assert Prepared(t, d, s).Some?;
  }

  // The scope of the function before its nested subprogram: the result slot alone.
  lemma HidingOpened(t: Tab, f: string, p: string)
    requires Good(t)
    ensures WellNamed(TypeNames(t), Hiding(f, p))
    ensures var o := Opened(t, Hiding(f, p));
            o.Some? && o.value.vars == t.vars + [VarEntry(INTEGER_TYPE_IDX, f, 0)] && !Local(o.value.Chain(), Funcs, p)
  {
    var s, e := Hiding(f, p), Note(t, Enter);
    HidingNamed(TypeNames(t), f, p);
    EnterGood(t);
    assert WithNames(e, s) == Some((e, 0));
    AddVarOnlyVars(e, f, INTEGER_TYPE_IDX, Some(0), true);
  }

  lemma TakingResolved(o: Tab, f: string, p: string)
    requires |o.types| > VOID_TYPE_IDX
    ensures var a, q := AddVar(o, f, INTEGER_TYPE_IDX, None, false).0, ResolveType(o, p, Taking(p, f).Head());
            q.0.h == a.h && q.0.vars == a.vars && a.types <= q.0.types
  {
    var ds := Taking(p, f).formals;
    assert ds[..0] == [] && [f][..0] == [];
    assert ResolveFormals(o, [f][..0], Plain(Integer)) == (o, []);
    assert ResolveFormals(o, [f], Plain(Integer)).0 == AddVar(o, f, INTEGER_TYPE_IDX, None, false).0;
    assert ResolveArgs(o, ds[..0]) == (o, []);
    assert ResolveArgs(o, ds).0 == AddVar(o, f, INTEGER_TYPE_IDX, None, false).0;
  }

  // Declaring the nested subprogram puts its formal in the way.
  lemma TakingLeaks(o: Tab, f: string, p: string)
    requires Good(o) && !Local(o.Chain(), Funcs, p)
    ensures var g := AddFunc(o, p, Taking(p, f).Head());
            g.Some? && Good(g.value) && g.value.vars == o.vars + [VarEntry(INTEGER_TYPE_IDX, f, -1)]
            && Resolve(g.value.Chain(), Vars, f) == Some(|o.vars|) && Local(g.value.Chain(), Vars, f)
  {
    var s, a := Taking(p, f), AddVar(o, f, INTEGER_TYPE_IDX, None, false).0;
    TakingNamed(TypeNames(o), p, f);
    AddFuncInner(o, s);
    AddVarOnlyVars(o, f, INTEGER_TYPE_IDX, None, false);
    TakingResolved(o, f, p);
    var q := ResolveType(o, p, s.Head());
    GrowOk(a, q.0);
    KnownId(o, p, s.Head());
    NoteOk(q.0, Note(q.0, Bind(Funcs, p, q.1)), Bind(Funcs, p, q.1));
    BindElsewhere(q.0.Chain(), Funcs, p, q.1, Vars, f);
  }

  // After the nested procedure the formal is still in the way.
  lemma TakingChecked(o: Tab, d: Display, f: string, p: string) returns (u: Tab, e: Display)
    requires Good(o) && !Local(o.Chain(), Funcs, p)
    ensures AllWellNamed(TypeNames(o), Hiding(f, p).subs) && CheckSubs(o, d, Hiding(f, p).subs) == Some((u, e))
    ensures Good(u) && o.vars + [VarEntry(INTEGER_TYPE_IDX, f, -1)] <= u.vars
    ensures Resolve(u.Chain(), Vars, f) == Some(|o.vars|) && Local(u.Chain(), Vars, f)
  {
    var s := Taking(p, f);
    TakingLeaks(o, f, p);
    var g := AddFunc(o, p, s.Head()).value;
    TakingAccepted(g, d, p, f);
    ChainRestored(g, d, s);
    HidingNamed(TypeNames(o), f, p);
    hide Inner, CheckSub, AddFunc;
    u, e := CheckSub(g, d, s).value.0, CheckSub(g, d, s).value.1;
    assert Hiding(f, p).subs[..0] == [];
    assert CheckSubs(o, d, []) == Some((o, d));
    assert CheckNext(o, d, s) == Some((u, e));
  }

  lemma BodyChecked(u: Tab, d: Display, f: string)
    requires Good(u) && Resolve(u.Chain(), Vars, f).Some? && Local(u.Chain(), Vars, f)
    requires Named(u, f).Some? && u.vars[Named(u, f).value].ty == INTEGER_TYPE_IDX
    ensures CheckCmd(u, Function, d, Set(f, Number(1))).Some?
  {
    assert u.types[SimpleIdx(Integer)] == Primitive(Integer);
    assert TypesEq(u, INTEGER_TYPE_IDX, INTEGER_TYPE_IDX) == Some(true);
  }

  // Such a function is accepted, although the assignment in its body goes to the formal of the nested
  // procedure, at offset -1 of the function's frame, and the result slot gets no value.
  lemma HiddenAccepted(t: Tab, d: Display, f: string, p: string)
    requires Good(t)
    ensures WellNamed(TypeNames(t), Hiding(f, p)) && CheckSub(t, d, Hiding(f, p)).Some?
    ensures var u := Prepared(t, d, Hiding(f, p)).value.0;
            && |u.vars| > |t.vars| + 1 && Resolve(u.Chain(), Vars, f) == Some(|t.vars| + 1)
            && u.vars[|t.vars|] == VarEntry(INTEGER_TYPE_IDX, f, 0)
            && u.vars[|t.vars| + 1] == VarEntry(INTEGER_TYPE_IDX, f, -1)
  {
    var s := Hiding(f, p);
    HidingOpened(t, f, p);
    var o := Opened(t, s).value;
    hide Inner, Opened, CheckSubs, WellNamed, AllWellNamed, CheckCmd;
    var u, e := TakingChecked(o, d, f, p);
    assert Prepared(t, d, s) == Some((u, e));
    assert |o.vars| == |t.vars| + 1 && u.vars[|t.vars|] == o.vars[|t.vars|];
    BodyChecked(u, e, f);
    assert CheckBody(u, e, s).Some?;
  }
}
