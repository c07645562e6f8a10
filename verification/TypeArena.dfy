// The type arena is well founded, and type comparison decides equality of unfolded types.
module TypeArena {
  import opened Basics
  import opened Scoping
  import opened Symbols

  // Every type id stored in entry i is an earlier id.
  predicate Below(t: Tab, d: Desc, i: int) {
    match d
    case DSimple(_) => true
    case DPointer(a) => 0 <= a < i
    case DRecord(fs) => forall k :: 0 <= k < |fs| ==> 0 <= fs[k].1 < i
    case DArray(_, _, a) => 0 <= a < i
    case DFunc(_, args, r) =>
      0 <= r < i && forall k :: 0 <= k < |args| ==> args[k] < |t.vars| && 0 <= t.vars[args[k]].ty < i
  }

  ghost predicate WellFounded(t: Tab) {
    forall i :: 0 <= i < |t.types| ==> Below(t, t.types[i].desc, i)
  }

  // The visible type names.
  function TypeNames(t: Tab): set<string>
    requires TabOk(t)
  {
    set e | e in t.h && e.Bind? && e.sp.Types? && Resolve(t.Chain(), Types, e.name).Some? :: e.name
  }

  lemma TypeNamesExactly(t: Tab, x: string)
    requires TabOk(t)
    ensures x in TypeNames(t) <==> Resolve(t.Chain(), Types, x).Some?
  {
    ResolvedExists(t, Types, x);
    var r := Resolve(t.Chain(), Types, x);
    if r.Some? { assert Bind(Types, x, r.value) in t.h; }
  }

  // Every type name mentioned in ty is one of names.
  predicate NamedIn(names: set<string>, ty: AstType)
    decreases ty, 0
  {
    match ty
    case Ref(x) => x in names
    case Pointer(a) => NamedIn(names, a)
    case Record(fs) => NamedInFields(names, fs)
    case Func(_, args, ret) => NamedIn(names, ret) && NamedInDecls(names, args)
    case _ => true
  }

  predicate NamedInFields(names: set<string>, fs: seq<Field>)
    decreases fs, 0
  {
    fs == [] || (NamedInFields(names, fs[..|fs| - 1]) && NamedIn(names, fs[|fs| - 1].ty))
  }

  predicate NamedInDecls(names: set<string>, ds: seq<Decls>)
    decreases ds, 0
  {
    ds == [] || (NamedInDecls(names, ds[..|ds| - 1]) && NamedIn(names, ds[|ds| - 1].ty))
  }

  // Every type name mentioned in ty is declared.
  predicate AllNamed(t: Tab, ty: AstType)
    requires TabOk(t)
  {
    NamedIn(TypeNames(t), ty)
  }

  // Type names resolve alike.
  ghost predicate SameTypes(t: Tab, u: Tab) {
    forall x :: Resolve(u.Chain(), Types, x) == Resolve(t.Chain(), Types, x)
  }

  lemma SameTypeNames(t: Tab, u: Tab)
    requires TabOk(t) && TabOk(u) && SameTypes(t, u)
    ensures TypeNames(t) == TypeNames(u)
  {
    forall x ensures x in TypeNames(t) <==> x in TypeNames(u) {
      TypeNamesExactly(t, x);
      TypeNamesExactly(u, x);
    }
  }

  // Entries stay below their index when the arenas grow.
  lemma BelowStill(t: Tab, u: Tab, d: Desc, i: int)
    requires Below(t, d, i) && t.vars <= u.vars
    ensures Below(u, d, i)
  {
  }

  lemma PushKeeps(t: Tab, entry: TypeEntry)
    requires WellFounded(t) && Below(t, entry.desc, |t.types|)
    ensures WellFounded(Push(t, entry).0) && Push(t, entry).1 < |Push(t, entry).0.types|
  {
    var u := Push(t, entry).0;
    forall i | 0 <= i < |u.types| ensures Below(u, u.types[i].desc, i) {
      if i < |t.types| { BelowStill(t, u, t.types[i].desc, i); }
    }
  }

  // A table in which types can be resolved.
  ghost predicate Ready(t: Tab) {
    TabOk(t) && t.Chain() != [] && WellFounded(t)
  }

  lemma ChainKept(t: Tab, u: Tab, ns: set<string>)
    requires OnlyVars(t, u, ns)
    ensures SameTypes(t, u) && (t.Chain() != [] ==> u.Chain() != [])
  {
  }

  // Resolving a type all of whose names are declared keeps the arena well founded and yields an id in it.
  lemma {:induction false} ResolveKeepsWellFounded(t: Tab, name: string, ty: AstType)
    requires Ready(t) && AllNamed(t, ty)
    ensures var p := ResolveType(t, name, ty); Ready(p.0) && SameTypes(t, p.0) && 0 <= p.1 < |p.0.types|
    decreases ty, 0
  {
    ResolveTypeOnlyVars(t, name, ty);
    ChainKept(t, ResolveType(t, name, ty).0, Formals(ty));
    match ty
    case Plain(s) =>
    case Ref(x) =>
      TypeNamesExactly(t, x);
      ResolvedExists(t, Types, x);
    case Array(lo, hi, s) =>
      PushKeeps(t, ResolveType(t, name, ty).0.types[|t.types|]);
    case Pointer(a) =>
      ResolveKeepsWellFounded(t, name, a);
      var p := ResolveType(t, name, a);
      PushKeeps(p.0, TypeEntry(DPointer(p.1), name, 8, 0));
    case Record(fs) =>
      FieldsKeepWellFounded(t, fs);
      var p := ResolveFields(t, fs);
      PushKeeps(p.0, TypeEntry(DRecord(p.1), name, 0, 0));
    case Func(kind, args, ret) =>
      ResolveKeepsWellFounded(t, "<func ret>", ret);
      var p := ResolveType(t, "<func ret>", ret);
      SameTypeNames(t, p.0);
      ArgsKeepWellFounded(p.0, args);
      var q := ResolveArgs(p.0, args);
      PushKeeps(q.0, TypeEntry(DFunc(kind, q.1, p.1), name, 16, 0));
  }

  lemma {:induction false} FieldsKeepWellFounded(t: Tab, fs: seq<Field>)
    requires Ready(t) && NamedInFields(TypeNames(t), fs)
    ensures var p := ResolveFields(t, fs);
            Ready(p.0) && SameTypes(t, p.0) && forall k :: 0 <= k < |p.1| ==> 0 <= p.1[k].1 < |p.0.types|
    decreases fs, 0
  {
    if fs != [] {
      var rest, f := fs[..|fs| - 1], fs[|fs| - 1];
      FieldsKeepWellFounded(t, rest);
      var p := ResolveFields(t, rest);
      SameTypeNames(t, p.0);
      ResolveKeepsWellFounded(p.0, f.name, f.ty);
    }
  }

  // The ids of formals are variables whose types exist.
  ghost predicate FormalsOk(t: Tab, args: seq<nat>) {
    forall k :: 0 <= k < |args| ==> args[k] < |t.vars| && 0 <= t.vars[args[k]].ty < |t.types|
  }

  lemma FormalsOkStill(t: Tab, u: Tab, args: seq<nat>)
    requires FormalsOk(t, args) && t.vars <= u.vars && t.types <= u.types
    ensures FormalsOk(u, args)
  {
  }

  lemma {:induction false} ArgsKeepWellFounded(t: Tab, ds: seq<Decls>)
    requires Ready(t) && NamedInDecls(TypeNames(t), ds)
    ensures var p := ResolveArgs(t, ds); Ready(p.0) && SameTypes(t, p.0) && FormalsOk(p.0, p.1)
    decreases ds, 0
  {
    if ds != [] {
      var rest, d := ds[..|ds| - 1], ds[|ds| - 1];
      ArgsKeepWellFounded(t, rest);
      var p := ResolveArgs(t, rest);
      SameTypeNames(t, p.0);
      FormalsKeepWellFounded(p.0, d.names, d.ty);
      FormalsOkStill(p.0, ResolveFormals(p.0, d.names, d.ty).0, p.1);
    }
  }

  lemma {:induction false} FormalsKeepWellFounded(t: Tab, names: seq<string>, ty: AstType)
    requires Ready(t) && AllNamed(t, ty)
    ensures var p := ResolveFormals(t, names, ty); Ready(p.0) && SameTypes(t, p.0) && FormalsOk(p.0, p.1)
    decreases ty, 1 + |names|
  {
    if names != [] {
      var rest, x := names[..|names| - 1], names[|names| - 1];
      FormalsKeepWellFounded(t, rest, ty);
      var p := ResolveFormals(t, rest, ty);
      SameTypeNames(t, p.0);
      ResolveKeepsWellFounded(p.0, x, ty);
      var q := ResolveType(p.0, x, ty);
      AddVarKeepsReady(q.0, x, q.1, None, false);
      FormalsOkStill(p.0, AddVar(q.0, x, q.1, None, false).0, p.1);
    }
  }

  lemma AddVarKeepsReady(t: Tab, name: string, ty: int, off: Option<int>, locals: bool)
    requires Ready(t) && (off.Some? ==> 0 <= ty < |t.types|)
    ensures var u := AddVar(t, name, ty, off, locals).0; Ready(u) && SameTypes(t, u)
  {
    var u := AddVar(t, name, ty, off, locals).0;
    AddVarOnlyVars(t, name, ty, off, locals);
    ChainKept(t, u, {name});
    forall i | 0 <= i < |u.types| ensures Below(u, u.types[i].desc, i) {
      BelowStill(t, u, t.types[i].desc, i);
    }
  }

  // ---- comparing types ----

  // stab_types_eq.  None is the abort on comparing void with void.
  function TypesEq(t: Tab, a: nat, b: nat): Option<bool>
    requires WellFounded(t) && a < |t.types| && b < |t.types|
    decreases a
  {
    assert Below(t, t.types[a].desc, a) && Below(t, t.types[b].desc, b);
    match (t.types[a].desc, t.types[b].desc)
    case (DSimple(r), DSimple(s)) => if r != s then Some(false) else if r == Void then None else Some(true)
    case (DArray(lo, hi, e), DArray(lo', hi', e')) => Some(hi == hi' && lo == lo' && e == e')
    case (DFunc(_, _, _), DFunc(_, _, _)) => Some(a == b)
    case (DRecord(_), DRecord(_)) => Some(a == b)
    case (DPointer(x), DPointer(y)) => TypesEq(t, x, y)
    case (_, _) => Some(false)
  }

  // A type with its pointers unfolded; records and functions are identified by their id.
  datatype Tree = TSimple(s: Simple) | TPointer(to: Tree) | TArray(lower: int, upper: int, elt: int) | TNominal(id: nat)

  function Unfold(t: Tab, a: nat): Tree
    requires WellFounded(t) && a < |t.types|
    decreases a
  {
    assert Below(t, t.types[a].desc, a);
    match t.types[a].desc
    case DSimple(s) => TSimple(s)
    case DPointer(x) => TPointer(Unfold(t, x))
    case DArray(lo, hi, e) => TArray(lo, hi, e)
    case DRecord(_) => TNominal(a)
    case DFunc(_, _, _) => TNominal(a)
  }

  predicate VoidAtEnd(x: Tree) {
    match x
    case TPointer(to) => VoidAtEnd(to)
    case TSimple(s) => s == Void
    case _ => false
  }

  // Comparison terminates on every pair of ids and decides equality of the unfolded types; it aborts exactly
  // on two equal types that end in void.
  lemma {:induction false} TypesEqDecides(t: Tab, a: nat, b: nat)
    requires WellFounded(t) && a < |t.types| && b < |t.types|
    ensures TypesEq(t, a, b) ==
            if Unfold(t, a) == Unfold(t, b) && VoidAtEnd(Unfold(t, a)) then None
            else Some(Unfold(t, a) == Unfold(t, b))
    decreases a
  {
    assert Below(t, t.types[a].desc, a) && Below(t, t.types[b].desc, b);
    if t.types[a].desc.DPointer? && t.types[b].desc.DPointer? {
      TypesEqDecides(t, t.types[a].desc.target, t.types[b].desc.target);
    }
  }
}
