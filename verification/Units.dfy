// A whole program as the analysis sees it: libraries, types, globals, subprograms and the main body.
module Units {
  import opened Basics
  import opened Code
  import opened Scoping
  import opened Symbols
  import opened TypeArena
  import opened Declarations
  import opened Frames
  import opened Bodies
  import opened Subprograms
  import opened CodeGen
  import opened FunctionContexts

  datatype Unit =
    Unit(imports: seq<string>, types: seq<TypeDecl>, decls: seq<Decls>, subs: seq<Subprogram>, body: Cmd)

  // No undeclared type name occurs in the program.
  predicate UnitNamed(u: Unit) {
    var names := NamesOf(u.types);
    TypesNamed({}, u.types) && NamedInDecls(names, u.decls) && AllWellNamed(names, u.subs)
  }

  // ---- what is checked ----

  // The table on entry to the global scope.
  function GlobalTab(): Tab {
    Tab([Enter], [], [Primitive(Integer), Primitive(Real), Primitive(String), Primitive(Boolean), Primitive(Char),
                      Primitive(Void)])
  }

  lemma GlobalGood()
    ensures Good(GlobalTab()) && TypeNames(GlobalTab()) == {}
  {
    var t := GlobalTab();
    var o := t.(h := []);
    SixPrimitives(t.types);
    InitialOk(o);
    assert [Enter] == o.h + [Enter];
    NoteOk(o, t, Enter);
    assert WellFounded(t);
    forall x ensures x !in TypeNames(t) { }
  }

  lemma ImportInner(t: Tab, name: string)
    requires Good(t)
    ensures Onward(t, Import(t, name))
  {
    if name == "input" {
      MagicInner(t, "readln", MAGIC_READLN);
      MagicInner(AddMagic(t, "readln", MAGIC_READLN), "read", MAGIC_READ);
      OnwardTrans(t, AddMagic(t, "readln", MAGIC_READLN), Import(t, name));
    } else {
      MagicInner(t, "writeln", MAGIC_WRITELN);
      MagicInner(AddMagic(t, "writeln", MAGIC_WRITELN), "write", MAGIC_WRITE);
      OnwardTrans(t, AddMagic(t, "writeln", MAGIC_WRITELN), Import(t, name));
    }
  }

  lemma MagicInner(t: Tab, name: string, which: int)
    requires Good(t)
    ensures Onward(t, AddMagic(t, name, which))
  {
    var entry := TypeEntry(DFunc(Function, [], 0), name, 0, which);
    OnwardSelf(t);
    PushInner(t, t, entry);
    var p := Push(t, entry).0;
    BindInner(p, AddMagic(t, name, which), Funcs, name, |t.types|);
    OnwardTrans(t, p, AddMagic(t, name, which));
  }

  // What a library name stands for after its import.
  ghost predicate StandsFor(t: Tab, f: string, which: int)
    requires Good(t)
  {
    Routine(t, f).Some? && Routine(t, f).value.magic == which
  }

  // Importing a library makes its two routines callable with their own magic numbers, and no other name.
  lemma ImportStandsFor(t: Tab, name: string)
    requires Good(t) && Library(name)
    ensures Good(Import(t, name))
    ensures name == "input" ==>
              StandsFor(Import(t, name), "read", MAGIC_READ) && StandsFor(Import(t, name), "readln", MAGIC_READLN)
    ensures name == "output" ==>
              StandsFor(Import(t, name), "write", MAGIC_WRITE) && StandsFor(Import(t, name), "writeln", MAGIC_WRITELN)
    ensures forall f :: f !in (if name == "input" then {"read", "readln"} else {"write", "writeln"}) ==>
              Resolve(Import(t, name).Chain(), Funcs, f) == Resolve(t.Chain(), Funcs, f)
  {
    ImportInner(t, name);
    if name == "input" {
      MagicStandsFor(t, "readln", MAGIC_READLN);
      MagicStandsFor(AddMagic(t, "readln", MAGIC_READLN), "read", MAGIC_READ);
    } else {
      MagicStandsFor(t, "writeln", MAGIC_WRITELN);
      MagicStandsFor(AddMagic(t, "writeln", MAGIC_WRITELN), "write", MAGIC_WRITE);
    }
  }

  lemma MagicStandsFor(t: Tab, name: string, which: int)
    requires Good(t)
    ensures var u := AddMagic(t, name, which);
            && Good(u) && StandsFor(u, name, which)
            && forall f :: f != name ==>
                 Resolve(u.Chain(), Funcs, f) == Resolve(t.Chain(), Funcs, f) && Routine(u, f) == Routine(t, f)
  {
    var u := AddMagic(t, name, which);
    MagicInner(t, name, which);
    AddMagicOk(t, name, which);
    var c, d := t.Chain(), u.Chain();
    assert d[..|d| - 1] == c[..|c| - 1];
    forall f | f != name ensures Resolve(d, Funcs, f) == Resolve(c, Funcs, f) && Routine(u, f) == Routine(t, f) {
      ResolvedExists(t, Funcs, f);
    }
  }

  // do_imports: None is the exit on an unknown library.
  function ImportAll(t: Tab, imports: seq<string>): (r: Option<Tab>)
    requires Good(t)
    ensures r.Some? ==> Onward(t, r.value)
  {
    if imports == [] then OnwardSelf(t); Some(t)
    else
      var p := ImportAll(t, imports[..|imports| - 1]);
      var name := imports[|imports| - 1];
      if p.None? || !Library(name) then None
      else
        ImportInner(p.value, name);
        OnwardTrans(t, p.value, Import(p.value, name));
        Some(Import(p.value, name))
  }

  // Libraries and global types.
  function GlobalTypes(u: Unit): (r: Option<Tab>)
    requires UnitNamed(u)
    ensures r.Some? ==> Good(r.value) && TypeNames(r.value) == NamesOf(u.types)
  {
    GlobalGood();
    var p := ImportAll(GlobalTab(), u.imports);
    if p.None? then None else AddTypes(p.value, u.types)
  }

  // Libraries, types and global variables.
  function Globals(u: Unit): (r: Option<Tab>)
    requires UnitNamed(u)
    ensures r.Some? ==> Good(r.value) && TypeNames(r.value) == NamesOf(u.types)
  {
    var p := GlobalTypes(u);
    if p.None? then None
    else
      var r := AddGroups(p.value, u.decls, 0, true);
      if r.None? then None else Some(r.value.0)
  }

  // analyze, apart from the code: the display slots of all captured variables, or an exit.
  function CheckUnit(u: Unit): Option<Display>
    requires UnitNamed(u)
  {
    var g := Globals(u);
    if g.None? then None
    else
      var r := CheckSubs(g.value, Display(map[], 0), u.subs);
      if r.None? then None else CheckCmd(r.value.0, Procedure, r.value.1, u.body)
  }

  // However a program nests its subprograms, captured variables and slots correspond one to one.
  lemma UnitSlotsDense(u: Unit)
    requires UnitNamed(u)
    ensures CheckUnit(u).Some? ==> Dense(CheckUnit(u).value)
  {
    if CheckUnit(u).Some? {
      var t := Globals(u).value;
      hide Good, Inner, Globals, Onward;
      SlotsStayDenseAll(t, Display(map[], 0), u.subs);
      var r := CheckSubs(t, Display(map[], 0), u.subs).value;
      CmdDense(r.0, Procedure, r.1, u.body);
    }
  }

  // ---- the walk ----

  // A new context, with the global scope open.
  method NewContext(sch: Scheme) returns (f: Fcx)
    ensures f.Over(GlobalTab()) && f.acx.Live(0) && f.Disp() == Display(map[], 0)
    ensures !f.toplevel && f.kind == Procedure
    ensures fresh(f) && fresh(f.acx) && fresh(f.acx.regsUsed) && fresh(f.acx.st.Repr)
  {
    var acx := new Acx(sch);
    OnlyGlobalTab(acx.st.View());
    f := new Fcx(acx);
  }

  lemma OnlyGlobalTab(t: Tab)
    requires t.h == [Enter] && IsInitial(t.(h := []))
    ensures t == GlobalTab()
  {
    var o := t.(h := []);
    forall i | 0 <= i < |t.types| ensures t.types[i] == GlobalTab().types[i] {
      var s := [Integer, Real, String, Boolean, Char, Void][i];
      assert SimpleIdx(s) == i && o.types[SimpleIdx(s)] == Primitive(s);
    }
  }

  lemma {:induction false} RejectedImports(t: Tab, imports: seq<string>, i: nat)
    requires Good(t) && i <= |imports| && ImportAll(t, imports[..i]).None?
    ensures ImportAll(t, imports).None?
  {
    if i == |imports| {
      assert imports[..i] == imports;
    } else {
      assert imports[..|imports| - 1][..i] == imports[..i];
      RejectedImports(t, imports[..|imports| - 1], i);
    }
  }

  method DoImports(f: Fcx, imports: seq<string>, ghost t: Tab) returns (ok: bool, ghost u: Tab)
    requires Good(t) && f.Over(t)
    modifies f.acx.st.Repr
    ensures fresh(f.acx.st.Repr - old(f.acx.st.Repr))
    ensures ok <==> ImportAll(t, imports).Some?
    ensures ok ==> f.Over(u) && ImportAll(t, imports) == Some(u)
  {
    hide Fcx.Holds, TabOk, WellFounded, VarsTyped, Inner;
    u := t;
    assert imports[..0] == [];
    for i := 0 to |imports|
      invariant f.Over(u) && fresh(f.acx.st.Repr - old(f.acx.st.Repr))
      invariant ImportAll(t, imports[..i]) == Some(u)
    {
      assert imports[..i + 1][..i] == imports[..i];
      if !Library(imports[i]) {
        RejectedImports(t, imports, i + 1);
        return false, u;
      }
      u := RegisterLibrary(f, imports[i], u);
    }
    assert imports[..|imports|] == imports;
    ok := true;
  }

  method RegisterLibrary(f: Fcx, name: string, ghost t: Tab) returns (ghost u: Tab)
    requires Good(t) && f.Over(t)
    modifies f.acx.st.Repr
    ensures fresh(f.acx.st.Repr - old(f.acx.st.Repr)) && u == Import(t, name) && f.Over(u)
  {
    hide Fcx.Holds;
    if name == "input" {
      MagicInner(t, "readln", MAGIC_READLN);
      u := Register(f, "readln", MAGIC_READLN, t);
      u := Register(f, "read", MAGIC_READ, u);
    } else {
      MagicInner(t, "writeln", MAGIC_WRITELN);
      u := Register(f, "writeln", MAGIC_WRITELN, t);
      u := Register(f, "write", MAGIC_WRITE, u);
    }
  }

  method Register(f: Fcx, name: string, which: int, ghost t: Tab) returns (ghost u: Tab)
    requires Good(t) && f.Over(t)
    modifies f.acx.st.Repr
    ensures fresh(f.acx.st.Repr - old(f.acx.st.Repr)) && u == AddMagic(t, name, which) && f.Over(u)
  {
    f.acx.st.AddMagicFunction(name, which);
    u := AddMagic(t, name, which);
  }

  method SetUp(f: Fcx, p: Unit) returns (ok: bool, ghost t: Tab)
    requires UnitNamed(p) && f.Over(GlobalTab())
    modifies f.acx.st.Repr
    ensures fresh(f.acx.st.Repr - old(f.acx.st.Repr))
    ensures ok <==> Globals(p).Some?
    ensures ok ==> f.Over(t) && Globals(p) == Some(t)
  {
    hide Fcx.Holds, TabOk, WellFounded, VarsTyped, Inner, TypeNames, GlobalTypes;
    ok, t := SetUpTypes(f, p);
    if ok {
      var off;
      ok, off, t := f.AddGroups(p.decls, 0, true, t);
    }
  }

  method SetUpTypes(f: Fcx, p: Unit) returns (ok: bool, ghost t: Tab)
    requires UnitNamed(p) && f.Over(GlobalTab())
    modifies f.acx.st.Repr
    ensures fresh(f.acx.st.Repr - old(f.acx.st.Repr))
    ensures ok <==> GlobalTypes(p).Some?
    ensures ok ==> f.Over(t) && GlobalTypes(p) == Some(t)
  {
    hide Fcx.Holds, TabOk, WellFounded, VarsTyped, Inner, TypeNames;
    GlobalGood();
    ok, t := DoImports(f, p.imports, GlobalTab());
    if ok {
      ok, t := f.AddTypes(p.types, t);
    }
  }

  // analyze, from an empty context: a program is accepted exactly as specified.
  method AnalyzeUnit(sch: Scheme, p: Unit) returns (ok: bool)
    requires UnitNamed(p)
    ensures ok <==> CheckUnit(p).Some?
  {
    hide Fcx.Holds, Good;
    var f := NewContext(sch);
    ghost var t;
    ok, t := SetUp(f, p);
    if !ok { return; }
    ok, t := f.AnalyzeSubs(p.subs, t);
    if !ok { return; }
    f.toplevel := true;
    ok := f.AnalyzeCmd(p.body, t, 0);
  }
}
