// Nested functions and procedures: what analyze_subprog checks and what it leaves in the symbol table.
module Subprograms {
  import opened Basics
  import opened Scoping
  import opened Symbols
  import opened TypeArena
  import opened Declarations
  import opened Bodies

  datatype TypeDecl = TypeDecl(name: string, ty: AstType)

  datatype Subprogram =
    Subprogram(name: string, kind: Sub, formals: seq<Decls>, ret: AstType, types: seq<TypeDecl>,
               locals: seq<Decls>, subs: seq<Subprogram>, body: Cmd)
  {
    function Head(): AstType { Func(kind, formals, ret) }
  }

  // ---- type names are declared before use ----

  function NamesOf(ts: seq<TypeDecl>): set<string> {
    if ts == [] then {} else NamesOf(ts[..|ts| - 1]) + {ts[|ts| - 1].name}
  }

  // Each type declaration mentions names only and earlier type declarations, and keeps its own name.
  predicate TypesNamed(names: set<string>, ts: seq<TypeDecl>) {
    ts == [] ||
    var rest, d := ts[..|ts| - 1], ts[|ts| - 1];
    TypesNamed(names, rest) && KeepsName(d.ty) && NamedIn(names + NamesOf(rest), d.ty)
  }

  // No undeclared type name occurs in s when names are the visible ones.
  predicate WellNamed(names: set<string>, s: Subprogram)
    decreases s, 0
  {
    && NamedIn(names, s.Head()) && TypesNamed(names, s.types)
    && var inner := names + NamesOf(s.types);
       && NamedInDecls(inner, s.formals) && NamedInDecls(inner, s.locals) && NamedIn(inner, s.ret)
       && AllWellNamed(inner, s.subs)
  }

  predicate AllWellNamed(names: set<string>, ss: seq<Subprogram>)
    decreases ss, 1
  {
    ss == [] || (AllWellNamed(names, ss[..|ss| - 1]) && WellNamed(names, ss[|ss| - 1]))
  }

  // ---- declarations of a subprogram ----

  // From t to u only the innermost scope changes, and whatever is new there was declared in between.
  ghost predicate Inner(t: Tab, u: Tab) {
    var n := |t.Chain()|;
    && n > 0 && |u.Chain()| == n && u.Chain()[..n - 1] == t.Chain()[..n - 1]
    && t.vars <= u.vars && t.types <= u.types
    && forall x :: x in u.Chain()[n - 1].vars ==> Declared(t, u, x)
  }

  ghost predicate Declared(t: Tab, u: Tab, x: string)
    requires |u.Chain()| == |t.Chain()| > 0 && x in u.Chain()[|u.Chain()| - 1].vars
  {
    var m, n := t.Chain()[|t.Chain()| - 1].vars, u.Chain()[|u.Chain()| - 1].vars;
    n[x] >= |t.vars| || (x in m && n[x] == m[x])
  }

  lemma InnerTrans(t: Tab, u: Tab, v: Tab)
    requires Inner(t, u) && Inner(u, v)
    ensures Inner(t, v)
  {
    forall x | x in v.Chain()[|v.Chain()| - 1].vars ensures Declared(t, v, x) {
      assert Declared(u, v, x);
      if x in u.Chain()[|u.Chain()| - 1].vars { assert Declared(t, u, x); }
    }
  }

  lemma InnerSelf(t: Tab, u: Tab)
    requires t.Chain() != [] && u.h == t.h && t.vars <= u.vars && t.types <= u.types
    ensures Inner(t, u)
  {
  }

  // The same with a good outcome and no new type names.
  ghost predicate Onward(t: Tab, u: Tab) {
    Good(u) && Inner(t, u) && (TabOk(t) ==> TypeNames(u) == TypeNames(t))
  }

  lemma OnwardSelf(t: Tab)
    requires Good(t)
    ensures Onward(t, t)
  {
    InnerSelf(t, t);
  }

  lemma OnwardTrans(t: Tab, u: Tab, v: Tab)
    requires Good(t) && Onward(t, u) && Onward(u, v)
    ensures Onward(t, v)
  {
    InnerTrans(t, u, v);
  }

  // One more binding in the innermost scope.
  lemma BindInner(t: Tab, u: Tab, sp: Space, x: string, id: nat)
    requires Good(t) && u.h == t.h + [Bind(sp, x, id)] && u.types == t.types
    requires t.vars <= u.vars && VarsTyped(u)
    requires if sp.Vars? then id == |t.vars| < |u.vars| && u.vars[id].name == x else id < |t.types|
    ensures Good(u) && Inner(t, u)
    ensures TypeNames(u) == TypeNames(t) + if sp.Types? then {x} else {}
  {
    NoteOk(t, u, Bind(sp, x, id));
    var c, d := t.Chain(), u.Chain();
    forall y | y in d[|d| - 1].vars ensures Declared(t, u, y) { }
    forall e | e in u.h ensures OwnName(u, e) { if e in t.h { assert OwnName(t, e); } }
    forall i | 0 <= i < |u.types| ensures Below(u, u.types[i].desc, i) { BelowStill(t, u, t.types[i].desc, i); }
    BindTypeNames(t, u, sp, x, id);
  }

  lemma BindTypeNames(t: Tab, u: Tab, sp: Space, x: string, id: nat)
    requires TabOk(t) && TabOk(u) && t.Chain() != [] && u.Chain() == Happen(t.Chain(), Bind(sp, x, id))
    ensures TypeNames(u) == TypeNames(t) + if sp.Types? then {x} else {}
  {
    var c, d := t.Chain(), u.Chain();
    assert d[..|d| - 1] == c[..|c| - 1];
    forall y ensures y in TypeNames(u) <==> y in TypeNames(t) || (sp.Types? && y == x) {
      TypeNamesExactly(t, y);
      TypeNamesExactly(u, y);
    }
  }

  lemma AddVarInner(t: Tab, x: string, ty: int, off: Option<int>, locals: bool)
    requires Good(t) && 0 <= ty < |t.types|
    ensures Onward(t, AddVar(t, x, ty, off, locals).0)
  {
    BindInner(t, AddVar(t, x, ty, off, locals).0, Vars, x, |t.vars|);
  }

  // ---- resolving types ----

  // A new entry at the end of the type arena.
  lemma PushInner(t: Tab, p: Tab, entry: TypeEntry)
    requires Good(t) && Onward(t, p) && Below(p, entry.desc, |p.types|)
    ensures Onward(t, Push(p, entry).0)
  {
    var u := Push(p, entry).0;
    GrowOk(p, u);
    PushKeeps(p, entry);
    InnerSelf(p, u);
    SameTypeNames(p, u);
    forall e | e in u.h ensures OwnName(u, e) { assert OwnName(p, e); }
    OnwardTrans(t, p, u);
  }

  // Resolving a type with declared names yields a good id and changes no more than the innermost scope.
  lemma {:induction false} ResolveInner(t: Tab, name: string, ty: AstType)
    requires Good(t) && AllNamed(t, ty)
    ensures var p := ResolveType(t, name, ty); Onward(t, p.0) && 0 <= p.1 < |p.0.types|
    decreases ty, 0
  {
    match ty
    case Plain(_) => OnwardSelf(t);
    case Ref(x) =>
      OnwardSelf(t);
      TypeNamesExactly(t, x);
      ResolvedExists(t, Types, x);
    case Array(lo, hi, s) =>
      OnwardSelf(t);
      PushInner(t, t, ResolveType(t, name, ty).0.types[|t.types|]);
    case Pointer(a) =>
      ResolveInner(t, name, a);
      var p := ResolveType(t, name, a);
      PushInner(t, p.0, TypeEntry(DPointer(p.1), name, 8, 0));
    case Record(fs) =>
      FieldsInner(t, fs);
      var p := ResolveFields(t, fs);
      PushInner(t, p.0, TypeEntry(DRecord(p.1), name, 0, 0));
    case Func(kind, args, ret) =>
      ResolveInner(t, "<func ret>", ret);
      var p := ResolveType(t, "<func ret>", ret);
      ArgsInner(p.0, args);
      var q := ResolveArgs(p.0, args);
      OnwardTrans(t, p.0, q.0);
      PushInner(t, q.0, TypeEntry(DFunc(kind, q.1, p.1), name, 16, 0));
  }

  lemma {:induction false} FieldsInner(t: Tab, fs: seq<Field>)
    requires Good(t) && NamedInFields(TypeNames(t), fs)
    ensures var p := ResolveFields(t, fs);
            Onward(t, p.0) && forall k :: 0 <= k < |p.1| ==> 0 <= p.1[k].1 < |p.0.types|
    decreases fs, 0
  {
    if fs == [] {
      OnwardSelf(t);
    } else {
      var rest, f := fs[..|fs| - 1], fs[|fs| - 1];
      FieldsInner(t, rest);
      var p := ResolveFields(t, rest);
      ResolveInner(p.0, f.name, f.ty);
      OnwardTrans(t, p.0, ResolveType(p.0, f.name, f.ty).0);
    }
  }

  lemma {:induction false} ArgsInner(t: Tab, ds: seq<Decls>)
    requires Good(t) && NamedInDecls(TypeNames(t), ds)
    ensures var p := ResolveArgs(t, ds); Onward(t, p.0) && FormalsOk(p.0, p.1)
    decreases ds, 0
  {
    if ds == [] {
      OnwardSelf(t);
    } else {
      var rest, d := ds[..|ds| - 1], ds[|ds| - 1];
      ArgsInner(t, rest);
      var p := ResolveArgs(t, rest);
      FormalsInner(p.0, d.names, d.ty);
      var q := ResolveFormals(p.0, d.names, d.ty);
      OnwardTrans(t, p.0, q.0);
      FormalsOkStill(p.0, q.0, p.1);
    }
  }

  lemma {:induction false} FormalsInner(t: Tab, names: seq<string>, ty: AstType)
    requires Good(t) && AllNamed(t, ty)
    ensures var p := ResolveFormals(t, names, ty); Onward(t, p.0) && FormalsOk(p.0, p.1)
    decreases ty, 1 + |names|
  {
    if names == [] {
      OnwardSelf(t);
    } else {
      var rest, x := names[..|names| - 1], names[|names| - 1];
      FormalsInner(t, rest, ty);
      var p := ResolveFormals(t, rest, ty);
      ResolveInner(p.0, x, ty);
      var q := ResolveType(p.0, x, ty);
      AddVarInner(q.0, x, q.1, None, false);
      var r := AddVar(q.0, x, q.1, None, false);
      OnwardTrans(t, p.0, q.0);
      OnwardTrans(t, q.0, r.0);
      FormalsOkStill(p.0, r.0, p.1);
    }
  }

  lemma {:induction false} AddNamesInner(t: Tab, names: seq<string>, ty: int, off: int, locals: bool)
    requires Good(t) && 0 <= ty < |t.types|
    requires AddNames(t, names, ty, off, locals).Some?
    ensures Onward(t, AddNames(t, names, ty, off, locals).value.0)
  {
    if names == [] {
      OnwardSelf(t);
    } else {
      var rest, x := names[..|names| - 1], names[|names| - 1];
      AddNamesInner(t, rest, ty, off, locals);
      var p := AddNames(t, rest, ty, off, locals).value;
      AddVarInner(p.0, x, ty, Some(p.1), locals);
      OnwardTrans(t, p.0, AddVar(p.0, x, ty, Some(p.1), locals).0);
    }
  }

  // ---- groups of formals or locals, one after the other ----

  // stab_add_decls with its type name declared.
  function AddGroup(t: Tab, d: Decls, off: int, locals: bool): (r: Option<(Tab, int)>)
    requires Good(t) && AllNamed(t, d.ty)
    ensures r.Some? ==> Onward(t, r.value.0)
  {
    NamedIsKnown(t, d.ty);
    AddGroupInner(t, d, off, locals);
    AddDecls(t, d, off, locals)
  }

  lemma AddGroupInner(t: Tab, d: Decls, off: int, locals: bool)
    requires Good(t) && AllNamed(t, d.ty) && Known(t, d.ty)
    ensures var r := AddDecls(t, d, off, locals); r.Some? ==> Onward(t, r.value.0)
  {
    ResolveInner(t, "<decls>", d.ty);
    var p := ResolveType(t, "<decls>", d.ty);
    if AddNames(p.0, d.names, p.1, off, locals).Some? {
      AddNamesInner(p.0, d.names, p.1, off, locals);
      OnwardTrans(t, p.0, AddNames(p.0, d.names, p.1, off, locals).value.0);
    }
  }

  function AddGroups(t: Tab, ds: seq<Decls>, off: int, locals: bool): (r: Option<(Tab, int)>)
    requires Good(t) && NamedInDecls(TypeNames(t), ds)
    ensures r.Some? ==> Onward(t, r.value.0)
  {
    if ds == [] then OnwardSelf(t); Some((t, off))
    else
      var p := AddGroups(t, ds[..|ds| - 1], off, locals);
      if p.None? then None
      else
        var r := AddGroup(p.value.0, ds[|ds| - 1], p.value.1, locals);
        if r.Some? then OnwardTrans(t, p.value.0, r.value.0); r else None
  }

  // ---- local types ----

  function AddTypes(t: Tab, ts: seq<TypeDecl>): (r: Option<Tab>)
    requires Good(t) && TypesNamed(TypeNames(t), ts)
    ensures r.Some? ==> Good(r.value) && Inner(t, r.value) && TypeNames(r.value) == TypeNames(t) + NamesOf(ts)
  {
    if ts == [] then InnerSelf(t, t); Some(t)
    else
      var p := AddTypes(t, ts[..|ts| - 1]);
      var d := ts[|ts| - 1];
      if p.None? then None
      else
        AddTypeInner(p.value, d);
        var r := AddType(p.value, d.name, d.ty);
        if r.Some? then InnerTrans(t, p.value, r.value); r else None
  }

  lemma AddTypeInner(t: Tab, d: TypeDecl)
    requires Good(t) && KeepsName(d.ty) && AllNamed(t, d.ty)
    ensures var r := AddType(t, d.name, d.ty);
            r.Some? ==> Good(r.value) && Inner(t, r.value) && TypeNames(r.value) == TypeNames(t) + {d.name}
  {
    ResolveInner(t, d.name, d.ty);
    var p := ResolveType(t, d.name, d.ty);
    BindInner(p.0, Note(p.0, Bind(Types, d.name, p.1)), Types, d.name, p.1);
    InnerTrans(t, p.0, Note(p.0, Bind(Types, d.name, p.1)));
  }

  // ---- a whole subprogram ----

  lemma AddFuncInner(t: Tab, s: Subprogram)
    requires Good(t) && AllNamed(t, s.Head())
    ensures var r := AddFunc(t, s.name, s.Head()); r.Some? ==> Onward(t, r.value)
  {
    ResolveInner(t, s.name, s.Head());
    var p := ResolveType(t, s.name, s.Head());
    BindInner(p.0, Note(p.0, Bind(Funcs, s.name, p.1)), Funcs, s.name, p.1);
    OnwardTrans(t, p.0, Note(p.0, Bind(Funcs, s.name, p.1)));
  }

  lemma EnterGood(t: Tab)
    requires Good(t)
    ensures Good(Note(t, Enter)) && Note(t, Enter).Chain() == t.Chain() + [EmptyScope]
    ensures TypeNames(Note(t, Enter)) == TypeNames(t)
  {
    var u := Note(t, Enter);
    NoteOk(t, u, Enter);
    NoteKeepsBelow(t, Enter);
    forall e | e in u.h ensures OwnName(u, e) { if e in t.h { assert OwnName(t, e); } }
    var c := t.Chain() + [EmptyScope];
    assert c[..|c| - 1] == t.Chain();
    forall x ensures Resolve(c, Types, x) == Resolve(t.Chain(), Types, x) { }
    SameTypeNames(t, u);
  }

  // Leaving a scope restores the chain that was there when it was entered.
  lemma LeaveRestores(t: Tab, u: Tab)
    requires Good(t) && Good(u) && Inner(Note(t, Enter), u)
    ensures Note(u, Leave).Chain() == t.Chain() && Onward(t, Note(u, Leave))
  {
    EnterGood(t);
    var v := Note(u, Leave);
    NoteOk(u, v, Leave);
    NoteKeepsBelow(u, Leave);
    assert (t.Chain() + [EmptyScope])[..|t.Chain()|] == t.Chain();
    forall x | x in v.Chain()[|v.Chain()| - 1].vars ensures Declared(t, v, x) { }
    forall e | e in v.h ensures OwnName(v, e) { if e in u.h { assert OwnName(u, e); } }
    SameTypeNames(t, v);
  }

  // Local types, then formals, then locals.
  function WithNames(t: Tab, s: Subprogram): (r: Option<(Tab, int)>)
    requires Good(t) && TypesNamed(TypeNames(t), s.types)
    requires NamedInDecls(TypeNames(t) + NamesOf(s.types), s.formals)
    requires NamedInDecls(TypeNames(t) + NamesOf(s.types), s.locals)
    ensures r.Some? ==> Good(r.value.0) && Inner(t, r.value.0)
    ensures r.Some? ==> TypeNames(r.value.0) == TypeNames(t) + NamesOf(s.types)
  {
    var o := AddTypes(t, s.types);
    if o.None? then None
    else
      var p := AddGroups(o.value, s.formals, 8 * (|s.formals| + 1), false);
      if p.None? then None
      else
        InnerTrans(t, o.value, p.value.0);
        var q := AddGroups(p.value.0, s.locals, 0, true);
        if q.Some? then InnerTrans(t, p.value.0, q.value.0); q else None
  }

  // The slot for the result bears the subprogram's name and is added without looking for an earlier
  // declaration.
  function WithResult(t: Tab, s: Subprogram, off: int): (u: Tab)
    requires Good(t) && AllNamed(t, s.ret)
    ensures Onward(t, u)
  {
    var p := ResolveType(t, "<retslot>", s.ret);
    ResolveInner(t, "<retslot>", s.ret);
    AddVarInner(p.0, s.name, p.1, Some(off), true);
    OnwardTrans(t, p.0, AddVar(p.0, s.name, p.1, Some(off), true).0);
    AddVar(p.0, s.name, p.1, Some(off), true).0
  }

  // A new scope with types, formals and locals.
  function Framed(t: Tab, s: Subprogram): (r: Option<(Tab, int)>)
    requires Good(t) && WellNamed(TypeNames(t), s)
    ensures r.Some? ==> Good(r.value.0) && Inner(Note(t, Enter), r.value.0)
    ensures r.Some? ==> TypeNames(r.value.0) == TypeNames(t) + NamesOf(s.types)
  {
    EnterGood(t);
    WithNames(Note(t, Enter), s)
  }

  // The same with the slot for the result.
  function Opened(t: Tab, s: Subprogram): (r: Option<Tab>)
    requires Good(t) && WellNamed(TypeNames(t), s)
    ensures r.Some? ==> Good(r.value) && Inner(Note(t, Enter), r.value)
    ensures r.Some? ==> TypeNames(r.value) == TypeNames(t) + NamesOf(s.types)
  {
    var p := Framed(t, s);
    if p.None? then None
    else
      InnerTrans(Note(t, Enter), p.value.0, WithResult(p.value.0, s, p.value.1));
      Some(WithResult(p.value.0, s, p.value.1))
  }

  // What precedes the body: the scope and the nested subprograms.
  function Prepared(t: Tab, d: Display, s: Subprogram): (r: Option<(Tab, Display)>)
    requires Good(t) && WellNamed(TypeNames(t), s)
    ensures r.Some? ==> Good(r.value.0) && Inner(Note(t, Enter), r.value.0)
    decreases s, 0
  {
    var o := Opened(t, s);
    if o.None? then None
    else
      var r := CheckSubs(o.value, d, s.subs);
      if r.Some? then InnerTrans(Note(t, Enter), o.value, r.value.0); r else None
  }

  // analyze_subprog: None is an exit.
  function CheckSub(t: Tab, d: Display, s: Subprogram): (r: Option<(Tab, Display)>)
    requires Good(t) && WellNamed(TypeNames(t), s)
    ensures r.Some? ==> Onward(t, r.value.0)
    decreases s, 1
  {
    var p := Prepared(t, d, s);
    if p.None? then None
    else
      LeaveRestores(t, p.value.0);
      CheckBody(p.value.0, p.value.1, s)
  }

  // The body, the check that a function assigns its result, and the end of the scope.
  function CheckBody(t: Tab, d: Display, s: Subprogram): Option<(Tab, Display)>
    requires Good(t)
  {
    var b := CheckCmd(t, s.kind, d, s.body);
    if b.None? || (s.kind.Function? && !Assigns(s.body, s.name)) then None else Some((Note(t, Leave), b.value))
  }

  // Declaring and analysing one more nested subprogram.
  function CheckNext(t: Tab, d: Display, s: Subprogram): (r: Option<(Tab, Display)>)
    requires Good(t) && WellNamed(TypeNames(t), s)
    ensures r.Some? ==> Onward(t, r.value.0)
    decreases s, 2
  {
    AddFuncInner(t, s);
    var f := AddFunc(t, s.name, s.Head());
    if f.None? then None
    else
      var r := CheckSub(f.value, d, s);
      if r.Some? then OnwardTrans(t, f.value, r.value.0); r else None
  }

  function CheckSubs(t: Tab, d: Display, ss: seq<Subprogram>): (r: Option<(Tab, Display)>)
    requires Good(t) && AllWellNamed(TypeNames(t), ss)
    ensures r.Some? ==> Onward(t, r.value.0)
    decreases ss, 3
  {
    if ss == [] then OnwardSelf(t); Some((t, d))
    else
      var p := CheckSubs(t, d, ss[..|ss| - 1]);
      if p.None? then None
      else
        var r := CheckNext(p.value.0, p.value.1, ss[|ss| - 1]);
        if r.Some? then OnwardTrans(t, p.value.0, r.value.0); r else None
  }

  // Whatever happens inside, the chain of scopes is what it was, and ids handed out stay valid.
  lemma ChainRestored(t: Tab, d: Display, s: Subprogram)
    requires Good(t) && WellNamed(TypeNames(t), s)
    ensures var r := CheckSub(t, d, s);
            r.Some? ==> r.value.0.Chain() == t.Chain() && t.vars <= r.value.0.vars && t.types <= r.value.0.types
  {
    if CheckSub(t, d, s).Some? { LeaveRestores(t, Prepared(t, d, s).value.0); }
  }

  // ---- every run keeps the display slots one to one ----

  // Analysing a subprogram, with all that is nested in it, hands out slots one to one and moves none.
  lemma {:induction false} SlotsStayDense(t: Tab, d: Display, s: Subprogram)
    requires Good(t) && WellNamed(TypeNames(t), s) && Dense(d)
    ensures var r := CheckSub(t, d, s); r.Some? ==> Dense(r.value.1) && Grows(d, r.value.1)
    decreases s, 1
  {
    if CheckSub(t, d, s).Some? {
      var p := Prepared(t, d, s).value;
      SlotsStayDenseAll(Opened(t, s).value, d, s.subs);
      CmdDense(p.0, s.kind, p.1, s.body);
    }
  }

  lemma {:induction false} SlotsStayDenseAll(t: Tab, d: Display, ss: seq<Subprogram>)
    requires Good(t) && AllWellNamed(TypeNames(t), ss) && Dense(d)
    ensures var r := CheckSubs(t, d, ss); r.Some? ==> Dense(r.value.1) && Grows(d, r.value.1)
    decreases ss, 3
  {
    if ss != [] {
      hide Good, Inner, Dense, CheckNext;
      SlotsStayDenseAll(t, d, ss[..|ss| - 1]);
      var p := CheckSubs(t, d, ss[..|ss| - 1]);
      if p.Some? { SlotsStayDenseNext(p.value.0, p.value.1, ss[|ss| - 1]); }
    }
  }

  lemma {:induction false} SlotsStayDenseNext(t: Tab, d: Display, s: Subprogram)
    requires Good(t) && WellNamed(TypeNames(t), s) && Dense(d)
    ensures var r := CheckNext(t, d, s); r.Some? ==> Dense(r.value.1) && Grows(d, r.value.1)
    decreases s, 2
  {
    AddFuncInner(t, s);
    hide Good, Inner, Dense, AddFunc;
    var f := AddFunc(t, s.name, s.Head());
    if f.Some? { SlotsStayDense(f.value, d, s); }
  }

  // ---- where the result goes ----

  function FormalsOfSubs(ss: seq<Subprogram>): set<string> {
    if ss == [] then {} else FormalsOfSubs(ss[..|ss| - 1]) + Formals(ss[|ss| - 1].Head())
  }

  // Through the declaration and analysis of nested subprograms, a variable name of this scope keeps its
  // meaning if and only if none of them has a formal of that name.
  lemma {:induction false} NestedFormalsLeak(t: Tab, d: Display, ss: seq<Subprogram>, x: string)
    requires Good(t) && AllWellNamed(TypeNames(t), ss) && CheckSubs(t, d, ss).Some?
    ensures var u := CheckSubs(t, d, ss).value.0;
            if x in FormalsOfSubs(ss) then exists id :: id >= |t.vars| && Resolve(u.Chain(), Vars, x) == Some(id)
            else Resolve(u.Chain(), Vars, x) == Resolve(t.Chain(), Vars, x)
    decreases ss, 1
  {
    if ss != [] {
      var rest, s := ss[..|ss| - 1], ss[|ss| - 1];
      NestedFormalsLeak(t, d, rest, x);
      assert t.vars <= CheckSubs(t, d, rest).value.0.vars;
      var p := CheckSubs(t, d, rest).value;
      NextLeaks(p.0, p.1, s, x);
      hide Good, Inner, Formals, AddFunc, TypeNames, CheckNext;
    }
  }

  // The same for one nested subprogram.
  lemma NextLeaks(t: Tab, d: Display, s: Subprogram, x: string)
    requires Good(t) && WellNamed(TypeNames(t), s) && CheckNext(t, d, s).Some?
    ensures var u := CheckNext(t, d, s).value.0;
            if x in Formals(s.Head()) then exists id :: id >= |t.vars| && Resolve(u.Chain(), Vars, x) == Some(id)
            else Resolve(u.Chain(), Vars, x) == Resolve(t.Chain(), Vars, x)
  {
    AddFuncInner(t, s);
    HeadLeaks(t, s, x);
    hide Good, Inner, Formals, AddFunc, TypeNames;
    ChainRestored(AddFunc(t, s.name, s.Head()).value, d, s);
  }

  lemma HeadLeaks(t: Tab, s: Subprogram, x: string)
    requires Good(t) && AddFunc(t, s.name, s.Head()).Some?
    ensures var u := AddFunc(t, s.name, s.Head()).value;
            if x in Formals(s.Head()) then exists id :: id >= |t.vars| && Resolve(u.Chain(), Vars, x) == Some(id)
            else Resolve(u.Chain(), Vars, x) == Resolve(t.Chain(), Vars, x)
  {
    FormalsLeakExactly(t, s.name, s.Head(), x);
    ResolveTypeOnlyVars(t, s.name, s.Head());
    var p := ResolveType(t, s.name, s.Head());
    KnownId(t, s.name, s.Head());
    NoteOk(p.0, AddFunc(t, s.name, s.Head()).value, Bind(Funcs, s.name, p.1));
    BindElsewhere(p.0.Chain(), Funcs, s.name, p.1, Vars, x);
  }

  // In the body, the subprogram's own name denotes the slot for the result exactly when no directly nested
  // subprogram has a formal of that name.
  lemma ResultNamedExactly(t: Tab, d: Display, s: Subprogram)
    requires Good(t) && WellNamed(TypeNames(t), s)
    ensures Prepared(t, d, s).Some? ==>
            (Resolve(Prepared(t, d, s).value.0.Chain(), Vars, s.name) == Some(|Opened(t, s).value.vars| - 1)
             <==> s.name !in FormalsOfSubs(s.subs))
  {
    if Prepared(t, d, s).Some? {
      ResultIsOwnName(t, s);
      hide Opened, Good, Inner;
      NestedFormalsLeak(Opened(t, s).value, d, s.subs, s.name);
    }
  }

  lemma ResultIsOwnName(t: Tab, s: Subprogram)
    requires Good(t) && WellNamed(TypeNames(t), s) && Opened(t, s).Some?
    ensures var o := Opened(t, s).value; o.vars != [] && Resolve(o.Chain(), Vars, s.name) == Some(|o.vars| - 1)
  {
    hide Good, Inner, TypeNames, WithResult, Framed;
    var p := Framed(t, s).value;
    ResultSlotNamed(p.0, s, p.1);
  }

  lemma ResultSlotNamed(t: Tab, s: Subprogram, off: int)
    requires Good(t) && AllNamed(t, s.ret)
    ensures var o := WithResult(t, s, off); o.vars != [] && Resolve(o.Chain(), Vars, s.name) == Some(|o.vars| - 1)
  {
    var p := ResolveType(t, "<retslot>", s.ret);
    ResolveInner(t, "<retslot>", s.ret);
    AddVarOnlyVars(p.0, s.name, p.1, Some(off), true);
  }
}
