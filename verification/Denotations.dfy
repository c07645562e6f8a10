// What a type id means: the syntax that the entries reachable from it describe.
module Denotations {
  import opened Basics
  import opened Scoping
  import opened Symbols
  import opened TypeArena
  import opened Declarations
  import opened Bodies
  import opened Subprograms

  // The id describes the type, with type names as the chain c resolves them.
  ghost predicate Means(c: Chain, t: Tab, id: int, ty: AstType)
    decreases ty, 0
  {
    && 0 <= id < |t.types|
    && var desc := t.types[id].desc;
       match ty
       case Plain(s) => id == SimpleIdx(s)
       case Ref(x) => Resolve(c, Types, x) == Some(id)
       case Pointer(a) => desc.DPointer? && Means(c, t, desc.target, a)
       case Record(fs) => desc.DRecord? && MeansFields(c, t, desc.fields, fs)
       case Array(lo, hi, s) => desc == DArray(lo, hi, SimpleIdx(s))
       case Func(kind, args, ret) =>
         desc.DFunc? && desc.kind == kind && Means(c, t, desc.ret, ret) && MeansArgs(c, t, desc.args, args)
  }

  // Names and types of the fields, in order.
  ghost predicate MeansFields(c: Chain, t: Tab, fields: seq<(string, int)>, fs: seq<Field>)
    decreases fs, 0
  {
    |fields| == |fs| && forall i :: 0 <= i < |fs| ==> fields[i].0 == fs[i].name && Means(c, t, fields[i].1, fs[i].ty)
  }

  // One variable per formal, group by group.
  ghost predicate MeansArgs(c: Chain, t: Tab, ids: seq<nat>, ds: seq<Decls>)
    decreases ds, 0
  {
    if ds == [] then ids == []
    else
      var d := ds[|ds| - 1];
      var n := |ids| - |d.names|;
      n >= 0 && MeansArgs(c, t, ids[..n], ds[..|ds| - 1]) && MeansFormals(c, t, ids[n..], d.names, d.ty)
  }

  // Variables of these names and this type, without a place in the frame.
  ghost predicate MeansFormals(c: Chain, t: Tab, ids: seq<nat>, names: seq<string>, ty: AstType)
    decreases ty, 2
  {
    |ids| == |names| && forall i :: 0 <= i < |ids| ==> MeansFormal(c, t, ids[i], names[i], ty)
  }

  ghost predicate MeansFormal(c: Chain, t: Tab, id: nat, name: string, ty: AstType)
    decreases ty, 1
  {
    id < |t.vars| && t.vars[id].name == name && t.vars[id].offset == -1 && Means(c, t, t.vars[id].ty, ty)
  }

  // ---- growing arenas keep meanings ----

  lemma {:induction false} MeansStill(c: Chain, t: Tab, u: Tab, id: int, ty: AstType)
    requires Means(c, t, id, ty) && t.vars <= u.vars && t.types <= u.types
    ensures Means(c, u, id, ty)
    decreases ty, 0
  {
    match ty
    case Pointer(a) => MeansStill(c, t, u, t.types[id].desc.target, a);
    case Record(fs) => MeansFieldsStill(c, t, u, t.types[id].desc.fields, fs);
    case Func(_, args, ret) =>
      MeansStill(c, t, u, t.types[id].desc.ret, ret);
      MeansArgsStill(c, t, u, t.types[id].desc.args, args);
    case _ =>
  }

  lemma {:induction false} MeansFieldsStill(c: Chain, t: Tab, u: Tab, fields: seq<(string, int)>, fs: seq<Field>)
    requires MeansFields(c, t, fields, fs) && t.vars <= u.vars && t.types <= u.types
    ensures MeansFields(c, u, fields, fs)
    decreases fs, 0
  {
    forall i | 0 <= i < |fs| ensures Means(c, u, fields[i].1, fs[i].ty) {
      MeansStill(c, t, u, fields[i].1, fs[i].ty);
    }
  }

  lemma {:induction false} MeansArgsStill(c: Chain, t: Tab, u: Tab, ids: seq<nat>, ds: seq<Decls>)
    requires MeansArgs(c, t, ids, ds) && t.vars <= u.vars && t.types <= u.types
    ensures MeansArgs(c, u, ids, ds)
    decreases ds, 0
  {
    if ds != [] {
      var d := ds[|ds| - 1];
      var n := |ids| - |d.names|;
      MeansArgsStill(c, t, u, ids[..n], ds[..|ds| - 1]);
      MeansFormalsStill(c, t, u, ids[n..], d.names, d.ty);
    }
  }

  lemma {:induction false} MeansFormalsStill(c: Chain, t: Tab, u: Tab, ids: seq<nat>, names: seq<string>, ty: AstType)
    requires MeansFormals(c, t, ids, names, ty) && t.vars <= u.vars && t.types <= u.types
    ensures MeansFormals(c, u, ids, names, ty)
    decreases ty, 1
  {
    forall i | 0 <= i < |ids| ensures MeansFormal(c, u, ids[i], names[i], ty) {
      assert MeansFormal(c, t, ids[i], names[i], ty);
      MeansStill(c, t, u, t.vars[ids[i]].ty, ty);
    }
  }

  // Only what type names resolve to matters.
  ghost predicate SameNames(c: Chain, c': Chain) {
    forall x :: Resolve(c', Types, x) == Resolve(c, Types, x)
  }

  lemma {:induction false} MeansThere(c: Chain, c': Chain, t: Tab, id: int, ty: AstType)
    requires SameNames(c, c') && Means(c, t, id, ty)
    ensures Means(c', t, id, ty)
    decreases ty, 0
  {
    match ty
    case Pointer(a) => MeansThere(c, c', t, t.types[id].desc.target, a);
    case Record(fs) =>
      var fields := t.types[id].desc.fields;
      forall i | 0 <= i < |fs| ensures Means(c', t, fields[i].1, fs[i].ty) {
        MeansThere(c, c', t, fields[i].1, fs[i].ty);
      }
    case Func(_, args, ret) =>
      MeansThere(c, c', t, t.types[id].desc.ret, ret);
      MeansArgsThere(c, c', t, t.types[id].desc.args, args);
    case _ =>
  }

  lemma {:induction false} MeansArgsThere(c: Chain, c': Chain, t: Tab, ids: seq<nat>, ds: seq<Decls>)
    requires SameNames(c, c') && MeansArgs(c, t, ids, ds)
    ensures MeansArgs(c', t, ids, ds)
    decreases ds, 0
  {
    if ds != [] {
      var d := ds[|ds| - 1];
      var n := |ids| - |d.names|;
      MeansArgsThere(c, c', t, ids[..n], ds[..|ds| - 1]);
      forall i | 0 <= i < |ids[n..]| ensures MeansFormal(c', t, ids[n..][i], d.names[i], d.ty) {
        assert MeansFormal(c, t, ids[n..][i], d.names[i], d.ty);
        MeansThere(c, c', t, t.vars[ids[n..][i]].ty, d.ty);
      }
    }
  }

  // ---- resolving a type yields an id that means it ----

  lemma {:induction false} ResolveMeans(t: Tab, name: string, ty: AstType)
    requires Good(t) && AllNamed(t, ty)
    ensures var p := ResolveType(t, name, ty); Means(t.Chain(), p.0, p.1, ty)
    decreases ty, 0
  {
    match ty
    case Plain(s) => assert t.types[SimpleIdx(s)] == Primitive(s);
    case Ref(x) =>
      TypeNamesExactly(t, x);
      ResolvedExists(t, Types, x);
    case Pointer(a) =>
      ResolveMeans(t, name, a);
      var p := ResolveType(t, name, a);
      MeansStill(t.Chain(), p.0, ResolveType(t, name, ty).0, p.1, a);
    case Record(fs) =>
      ResolveFieldsMeans(t, fs);
      var p := ResolveFields(t, fs);
      MeansFieldsStill(t.Chain(), p.0, ResolveType(t, name, ty).0, p.1, fs);
    case Array(_, _, s) =>
    case Func(kind, args, ret) => ResolveSignatureMeans(t, name, ty);
  }

  lemma {:induction false} ResolveSignatureMeans(t: Tab, name: string, ty: AstType)
    requires Good(t) && AllNamed(t, ty) && ty.Func?
    ensures var p := ResolveType(t, name, ty); Means(t.Chain(), p.0, p.1, ty)
    decreases ty, 0, 0
  {
    ResolveMeans(t, "<func ret>", ty.ret);
    ResolveInner(t, "<func ret>", ty.ret);
    var p := ResolveType(t, "<func ret>", ty.ret);
    ResolveTypeOnlyVars(t, "<func ret>", ty.ret);
    ChainKept(t, p.0, Formals(ty.ret));
    ResolveArgsMean(p.0, ty.args);
    var q := ResolveArgs(p.0, ty.args);
    var u := ResolveType(t, name, ty).0;
    MeansStill(t.Chain(), p.0, u, p.1, ty.ret);
    MeansArgsThere(p.0.Chain(), t.Chain(), q.0, q.1, ty.args);
    MeansArgsStill(t.Chain(), q.0, u, q.1, ty.args);
  }

  // One more field.
  lemma OneMoreField(c: Chain, p: Tab, q: Tab, fields: seq<(string, int)>, fs: seq<Field>, f: Field, id: int)
    requires MeansFields(c, p, fields, fs) && p.vars <= q.vars && p.types <= q.types && Means(c, q, id, f.ty)
    ensures MeansFields(c, q, fields + [(f.name, id)], fs + [f])
  {
    MeansFieldsStill(c, p, q, fields, fs);
    hide Means;
  }

  lemma AfterFields(t: Tab, fs: seq<Field>)
    requires Good(t) && NamedInFields(TypeNames(t), fs)
    ensures var p := ResolveFields(t, fs);
            Good(p.0) && TypeNames(p.0) == TypeNames(t) && SameNames(p.0.Chain(), t.Chain())
  {
    FieldsInner(t, fs);
    ResolveFieldsOnlyVars(t, fs);
    ChainKept(t, ResolveFields(t, fs).0, FormalsOfFields(fs));
  }

  lemma {:induction false} ResolveFieldsMeans(t: Tab, fs: seq<Field>)
    requires Good(t) && NamedInFields(TypeNames(t), fs)
    ensures var p := ResolveFields(t, fs); MeansFields(t.Chain(), p.0, p.1, fs)
    decreases fs, 0
  {
    if fs != [] {
      var rest, f := fs[..|fs| - 1], fs[|fs| - 1];
      hide Good, TypeNames, NamedIn, Means, SameNames, MeansFields;
      assert fs == rest + [f];
      ResolveFieldsMeans(t, rest);
      AfterFields(t, rest);
      var p := ResolveFields(t, rest);
      ResolveMeans(p.0, f.name, f.ty);
      var q := ResolveType(p.0, f.name, f.ty);
      MeansThere(p.0.Chain(), t.Chain(), q.0, q.1, f.ty);
      OneMoreField(t.Chain(), p.0, q.0, p.1, rest, f, q.1);
    } else {
      assert ResolveFields(t, fs).1 == [];
    }
  }

  lemma {:induction false} ResolveArgsMean(t: Tab, ds: seq<Decls>)
    requires Good(t) && NamedInDecls(TypeNames(t), ds)
    ensures var p := ResolveArgs(t, ds); MeansArgs(t.Chain(), p.0, p.1, ds)
    decreases ds, 0
  {
    if ds != [] {
      var rest, d := ds[..|ds| - 1], ds[|ds| - 1];
      ResolveArgsMean(t, rest);
      ArgsInner(t, rest);
      var p := ResolveArgs(t, rest);
      ResolveArgsOnlyVars(t, rest);
      ChainKept(t, p.0, FormalsOfArgs(rest));
      ResolveFormalsMean(p.0, d.names, d.ty);
      var q := ResolveFormals(p.0, d.names, d.ty);
      MeansFormalsThere(p.0.Chain(), t.Chain(), q.0, q.1, d.names, d.ty);
      MeansArgsStill(t.Chain(), p.0, q.0, p.1, rest);
      assert (p.1 + q.1)[..|p.1|] == p.1 && (p.1 + q.1)[|p.1|..] == q.1;
    }
  }

  lemma MeansFormalsThere(c: Chain, c': Chain, t: Tab, ids: seq<nat>, names: seq<string>, ty: AstType)
    requires SameNames(c, c') && MeansFormals(c, t, ids, names, ty)
    ensures MeansFormals(c', t, ids, names, ty)
  {
    forall i | 0 <= i < |ids| ensures MeansFormal(c', t, ids[i], names[i], ty) {
      assert MeansFormal(c, t, ids[i], names[i], ty);
      MeansThere(c, c', t, t.vars[ids[i]].ty, ty);
    }
  }

  // One more formal.
  lemma OneMoreFormal(c: Chain, p: Tab, q: Tab, ids: seq<nat>, names: seq<string>, x: string, id: int, ty: AstType)
    requires MeansFormals(c, p, ids, names, ty) && p.vars <= q.vars && p.types <= q.types && Means(c, q, id, ty)
    ensures var r := AddVar(q, x, id, None, false); MeansFormals(c, r.0, ids + [r.1], names + [x], ty)
  {
    var r := AddVar(q, x, id, None, false);
    MeansStill(c, q, r.0, id, ty);
    MeansFormalsStill(c, p, r.0, ids, names, ty);
    hide Means;
    forall i | 0 <= i <= |ids| ensures MeansFormal(c, r.0, (ids + [r.1])[i], (names + [x])[i], ty) {
      if i < |ids| { assert MeansFormal(c, r.0, ids[i], names[i], ty); }
    }
  }

  // Where the next formal is resolved, names mean what they meant.
  lemma AfterFormals(t: Tab, names: seq<string>, ty: AstType)
    requires Good(t) && AllNamed(t, ty)
    ensures var p := ResolveFormals(t, names, ty); Good(p.0) && AllNamed(p.0, ty) && SameNames(p.0.Chain(), t.Chain())
  {
    FormalsInner(t, names, ty);
    ResolveFormalsOnlyVars(t, names, ty);
    ChainKept(t, ResolveFormals(t, names, ty).0, FormalsOf(names, ty));
  }

  lemma {:induction false} ResolveFormalsMean(t: Tab, names: seq<string>, ty: AstType)
    requires Good(t) && AllNamed(t, ty)
    ensures var p := ResolveFormals(t, names, ty); MeansFormals(t.Chain(), p.0, p.1, names, ty)
    decreases ty, 1 + |names|
  {
    if names != [] {
      var rest, x := names[..|names| - 1], names[|names| - 1];
      hide Good, TypeNames, NamedIn, Means, MeansFormals, SameNames, AddVar;
      assert names == rest + [x];
      ResolveFormalsMean(t, rest, ty);
      AfterFormals(t, rest, ty);
      var p := ResolveFormals(t, rest, ty);
      ResolveMeans(p.0, x, ty);
      var q := ResolveType(p.0, x, ty);
      MeansThere(p.0.Chain(), t.Chain(), q.0, q.1, ty);
      OneMoreFormal(t.Chain(), p.0, q.0, p.1, rest, x, q.1, ty);
    }
  }

  // The entry of a pointer, record, array or signature is a new one, bears the name it is given and is no library
  // routine.
  lemma EntryNamed(t: Tab, name: string, ty: AstType)
    requires |t.types| > VOID_TYPE_IDX && KeepsName(ty)
    ensures var p := ResolveType(t, name, ty);
            && p.1 == |p.0.types| - 1 >= |t.types|
            && p.0.types[p.1].name == name && p.0.types[p.1].magic == 0
  {
  }

  // ---- what declared names stand for ----

  // The name of a function stands for an entry that describes its signature; no other function name changes.
  lemma FunctionStandsFor(t: Tab, name: string, sig: AstType)
    requires Good(t) && AllNamed(t, sig) && sig.Func? && AddFunc(t, name, sig).Some?
    ensures var u := AddFunc(t, name, sig).value;
            var id := Resolve(u.Chain(), Funcs, name);
            && id.Some? && Means(t.Chain(), u, id.value, sig) && u.types[id.value].magic == 0
            && forall f :: f != name ==> Resolve(u.Chain(), Funcs, f) == Resolve(t.Chain(), Funcs, f)
  {
    var p, u := ResolveType(t, name, sig), AddFunc(t, name, sig).value;
    ResolveMeans(t, name, sig);
    MeansStill(t.Chain(), p.0, u, p.1, sig);
    ResolveTypeOnlyVars(t, name, sig);
    BoundName(p.0, u, Funcs, name, p.1);
  }

  // The name of a type stands for an entry that describes it.
  lemma TypeStandsFor(t: Tab, name: string, ty: AstType)
    requires Good(t) && AllNamed(t, ty) && KeepsName(ty) && AddType(t, name, ty).Some?
    ensures var u := AddType(t, name, ty).value;
            var id := Resolve(u.Chain(), Types, name);
            && id.Some? && Means(t.Chain(), u, id.value, ty)
            && forall x :: x != name ==> Resolve(u.Chain(), Types, x) == Resolve(t.Chain(), Types, x)
  {
    var p, u := ResolveType(t, name, ty), AddType(t, name, ty).value;
    ResolveMeans(t, name, ty);
    MeansStill(t.Chain(), p.0, u, p.1, ty);
    ResolveTypeOnlyVars(t, name, ty);
    BoundName(p.0, u, Types, name, p.1);
  }

  // A binding changes the meaning of one name.
  lemma BoundName(p: Tab, u: Tab, sp: Space, name: string, id: int)
    requires TabOk(p) && p.Chain() != [] && 0 <= id && u.h == p.h + [Bind(sp, name, id)]
    ensures Resolve(u.Chain(), sp, name) == Some(id)
    ensures forall x :: x != name ==> Resolve(u.Chain(), sp, x) == Resolve(p.Chain(), sp, x)
  {
    var c, d := p.Chain(), u.Chain();
    assert u.h[..|u.h| - 1] == p.h && d == Happen(c, Bind(sp, name, id));
    assert d[..|d| - 1] == c[..|c| - 1];
  }

  // The variable x of the innermost scope has this type.
  ghost predicate VariableOf(c: Chain, u: Tab, x: string, ty: AstType) {
    var id := Resolve(u.Chain(), Vars, x);
    && Local(u.Chain(), Vars, x) && id.Some? && id.value < |u.vars|
    && u.vars[id.value].name == x && Means(c, u, u.vars[id.value].ty, ty)
  }

  // Each name of a declaration becomes a local variable of the declared type.
  lemma VariablesStandFor(t: Tab, d: Decls, off: int, locals: bool, x: string)
    requires Good(t) && AllNamed(t, d.ty) && x in d.names
    ensures var r := AddGroup(t, d, off, locals); r.Some? ==> VariableOf(t.Chain(), r.value.0, x, d.ty)
  {
    NamedIsKnown(t, d.ty);
    ResolveInner(t, "<decls>", d.ty);
    ResolveMeans(t, "<decls>", d.ty);
    var p := ResolveType(t, "<decls>", d.ty);
    if AddNames(p.0, d.names, p.1, off, locals).Some? {
      NamesStandFor(t.Chain(), p.0, d.names, p.1, off, locals, d.ty, x);
    }
  }

  lemma {:induction false} NamesStandFor(c: Chain, t: Tab, names: seq<string>, id: int, off: int, locals: bool,
                                         ty: AstType, x: string)
    requires Good(t) && 0 <= id < |t.types| && Means(c, t, id, ty) && x in names
    requires AddNames(t, names, id, off, locals).Some?
    ensures VariableOf(c, AddNames(t, names, id, off, locals).value.0, x, ty)
  {
    var rest, y := names[..|names| - 1], names[|names| - 1];
    assert names == rest + [y];
    AddNamesInner(t, rest, id, off, locals);
    var p := AddNames(t, rest, id, off, locals).value;
    var u := AddVar(p.0, y, id, Some(p.1), locals).0;
    AddVarOnlyVars(p.0, y, id, Some(p.1), locals);
    hide Means, Good;
    if x == y {
      MeansStill(c, t, u, id, ty);
    } else {
      NamesStandFor(c, t, rest, id, off, locals, ty, x);
      MeansStill(c, p.0, u, p.0.vars[Resolve(p.0.Chain(), Vars, x).value].ty, ty);
    }
  }

  // The slot for the result is a local variable of the declared result type.
  lemma ResultStandsFor(t: Tab, s: Subprogram, off: int)
    requires Good(t) && AllNamed(t, s.ret)
    ensures VariableOf(t.Chain(), WithResult(t, s, off), s.name, s.ret)
  {
    ResolveInner(t, "<retslot>", s.ret);
    ResolveMeans(t, "<retslot>", s.ret);
    var p := ResolveType(t, "<retslot>", s.ret);
    AddVarOnlyVars(p.0, s.name, p.1, Some(off), true);
    MeansStill(t.Chain(), p.0, WithResult(t, s, off), p.1, s.ret);
  }

  lemma NextIsPrepared(t: Tab, d: Display, s: Subprogram)
    requires Good(t) && WellNamed(TypeNames(t), s) && CheckNext(t, d, s).Some?
    ensures AddFunc(t, s.name, s.Head()).Some?
    ensures var f := AddFunc(t, s.name, s.Head()).value;
            Good(f) && Onward(t, f) && WellNamed(TypeNames(f), s) && Prepared(f, d, s).Some?
  {
    AddFuncInner(t, s);
    hide Good, Inner, WellNamed, Prepared, CheckBody, AddFunc;
  }

  // What the innermost scope does not declare, it sees as the scope around it.
  lemma SeenFromInside(f: Tab, u: Tab, sp: Space, x: string)
    requires Good(f) && Inner(Note(f, Scoping.Enter), u) && !Local(u.Chain(), sp, x)
    ensures Resolve(u.Chain(), sp, x) == Resolve(f.Chain(), sp, x)
  {
    EnterGood(f);
    assert u.Chain()[..|u.Chain()| - 1] == f.Chain();
  }

  // Inside its own body a nested subprogram can be called, unless it declares a subprogram of its own name: the
  // name stands for the signature.
  lemma RecursionPossible(t: Tab, d: Display, s: Subprogram)
    requires Good(t) && WellNamed(TypeNames(t), s) && CheckNext(t, d, s).Some?
    ensures var f := AddFunc(t, s.name, s.Head()).value;
            Good(f) && WellNamed(TypeNames(f), s) && Prepared(f, d, s).Some? &&
            var u := Prepared(f, d, s).value.0;
            var id := Resolve(u.Chain(), Funcs, s.name);
            !Local(u.Chain(), Funcs, s.name) ==> id.Some? && Means(t.Chain(), u, id.value, s.Head())
  {
    NextIsPrepared(t, d, s);
    assert AllNamed(t, s.Head());
    hide Good, WellNamed, Prepared, CheckNext, AddFunc, Means, AllNamed;
    var f := AddFunc(t, s.name, s.Head()).value;
    var u := Prepared(f, d, s).value.0;
    FunctionStandsFor(t, s.name, s.Head());
    EnterGood(f);
    if !Local(u.Chain(), Funcs, s.name) {
      SeenFromInside(f, u, Funcs, s.name);
      MeansStill(t.Chain(), f, u, Resolve(f.Chain(), Funcs, s.name).value, s.Head());
    }
  }

  // ---- types without names and records ----

  // Built-in types, arrays and pointers to them.
  predicate Structural(ty: AstType) {
    match ty
    case Plain(_) => true
    case Array(_, _, _) => true
    case Pointer(a) => Structural(a)
    case _ => false
  }

  function TreeOf(ty: AstType): Tree
    requires Structural(ty)
  {
    match ty
    case Plain(s) => TSimple(s)
    case Array(lo, hi, s) => TArray(lo, hi, SimpleIdx(s))
    case Pointer(a) => TPointer(TreeOf(a))
  }

  // For these types comparison is equality of their syntax.
  lemma {:induction false} MeansTree(c: Chain, t: Tab, id: int, ty: AstType)
    requires Good(t) && Structural(ty) && Means(c, t, id, ty)
    ensures Unfold(t, id) == TreeOf(ty)
    decreases ty
  {
    match ty
    case Plain(s) => assert t.types[SimpleIdx(s)] == Primitive(s);
    case Array(_, _, _) =>
    case Pointer(a) =>
      assert Below(t, t.types[id].desc, id);
      MeansTree(c, t, t.types[id].desc.target, a);
  }

  lemma {:induction false} TreesDiffer(a: AstType, b: AstType)
    requires Structural(a) && Structural(b) && TreeOf(a) == TreeOf(b)
    ensures a == b
    decreases a
  {
    if a.Pointer? { TreesDiffer(a.target, b.target); }
  }

  // Two such types compare equal exactly when they are written alike; equal types that end in void abort.
  lemma ComparedBySyntax(c: Chain, t: Tab, i: int, a: AstType, j: int, b: AstType)
    requires Good(t) && Structural(a) && Structural(b) && Means(c, t, i, a) && Means(c, t, j, b)
    ensures TypesEq(t, i, j) == if a == b && VoidAtEnd(TreeOf(a)) then None else Some(a == b)
  {
    MeansTree(c, t, i, a);
    MeansTree(c, t, j, b);
    TypesEqDecides(t, i, j);
    if TreeOf(a) == TreeOf(b) { TreesDiffer(a, b); }
  }

  // Records, signatures and pointers to them.
  predicate Nominal(ty: AstType) {
    match ty
    case Pointer(a) => Nominal(a)
    case Record(_) => true
    case Func(_, _, _) => true
    case _ => false
  }

  // What is left of a type when its pointers are followed.
  function Ground(x: Tree): Tree {
    if x.TPointer? then Ground(x.to) else x
  }

  lemma {:induction false} NewGround(t: Tab, name: string, ty: AstType, v: Tab)
    requires Good(t) && AllNamed(t, ty) && Nominal(ty)
    requires var p := ResolveType(t, name, ty).0; Good(v) && p.types <= v.types
    ensures var p := ResolveType(t, name, ty);
            0 <= p.1 < |v.types| && var g := Ground(Unfold(v, p.1));
            g.TNominal? && |t.types| <= g.id < |p.0.types| && !VoidAtEnd(Unfold(v, p.1))
    decreases ty
  {
    var p := ResolveType(t, name, ty);
    assert v.types[p.1] == p.0.types[p.1];
    assert Below(v, v.types[p.1].desc, p.1);
    if ty.Pointer? { NewGround(t, name, ty.target, v); }
  }

  // Records and signatures are compared by declaration: written twice, however alike, they are different types, and
  // so are the pointers to them; written once, they equal themselves.
  lemma WrittenTwiceDiffers(t: Tab, name: string, a: AstType, u: Tab, again: string, b: AstType)
    requires Good(t) && AllNamed(t, a) && Nominal(a)
    requires Good(u) && AllNamed(u, b) && Nominal(b) && ResolveType(t, name, a).0.types <= u.types
    ensures var i, q := ResolveType(t, name, a).1, ResolveType(u, again, b);
            Good(q.0) && 0 <= i < |q.0.types| && 0 <= q.1 < |q.0.types|
            && TypesEq(q.0, i, q.1) == Some(false) && TypesEq(q.0, i, i) == Some(true)
  {
    var i, q := ResolveType(t, name, a).1, ResolveType(u, again, b);
    ResolveInner(u, again, b);
    NewGround(t, name, a, q.0);
    NewGround(u, again, b, q.0);
    TypesEqDecides(q.0, i, q.1);
    TypesEqDecides(q.0, i, i);
  }
}
