// Declarations: what stab_add_decls, stab_add_func and stab_add_type do to the table, and what follows for
// frames and for formal parameters.
module Declarations {
  import opened Basics
  import opened Words
  import opened Scoping
  import opened Symbols
  import opened TypeArena

  // None is the exit on a second declaration of a name in one scope.
  function AddNames(t: Tab, names: seq<string>, ty: int, off: int, locals: bool): Option<(Tab, int)>
    requires 0 <= ty < |t.types|
    ensures var r := AddNames(t, names, ty, off, locals); r.Some? ==> r.value.0.types == t.types
  {
    if names == [] then Some((t, off))
    else
      var r := AddNames(t, names[..|names| - 1], ty, off, locals);
      var x := names[|names| - 1];
      if r.None? || Local(r.value.0.Chain(), Vars, x) then None
      else
        var p := AddVar(r.value.0, x, ty, Some(r.value.1), locals);
        Some((p.0, p.2.value))
  }

  // stab_add_decls
  function AddDecls(t: Tab, d: Decls, off: int, locals: bool): Option<(Tab, int)>
    requires TabOk(t) && t.Chain() != [] && Known(t, d.ty)
  {
    var p := ResolveType(t, "<decls>", d.ty);
    KnownId(t, "<decls>", d.ty);
    AddNames(p.0, d.names, p.1, off, locals)
  }

  // stab_add_func
  function AddFunc(t: Tab, name: string, sig: AstType): Option<Tab>
    requires TabOk(t) && t.Chain() != [] && sig.Func?
  {
    if Local(t.Chain(), Funcs, name) then None
    else
      var p := ResolveType(t, name, sig);
      KnownId(t, name, sig);
      Some(Note(p.0, Bind(Funcs, name, p.1)))
  }

  // stab_resolve_type frees the name it is given unless it hands it on to a complex type.
  predicate KeepsName(ty: AstType) {
    !ty.Plain? && !ty.Ref?
  }

  // stab_add_type
  function AddType(t: Tab, name: string, ty: AstType): Option<Tab>
    requires TabOk(t) && t.Chain() != [] && KeepsName(ty)
  {
    if Local(t.Chain(), Types, name) then None
    else
      var p := ResolveType(t, name, ty);
      KnownId(t, name, ty);
      Some(Note(p.0, Bind(Types, name, p.1)))
  }

  // stab_add_magic_func
  function AddMagic(t: Tab, name: string, which: int): Tab {
    var p := Push(t, TypeEntry(DFunc(Function, [], 0), name, 0, which));
    Note(p.0, Bind(Funcs, name, |t.types|))
  }

  // A declared type has an id in the arena.
  lemma KnownId(t: Tab, name: string, ty: AstType)
    requires TabOk(t) && t.Chain() != [] && Known(t, ty)
    ensures var p := ResolveType(t, name, ty); 0 <= p.1 < |p.0.types|
  {
    match ty
    case Ref(x) => ResolvedExists(t, Types, x);
    case _ =>
  }

  // Once a name is rejected, so is the whole declaration.
  lemma {:induction false} RejectedPrefix(t: Tab, names: seq<string>, k: nat, ty: int, off: int, locals: bool)
    requires k <= |names| && 0 <= ty < |t.types|
    requires AddNames(t, names[..k], ty, off, locals).None?
    ensures AddNames(t, names, ty, off, locals).None?
  {
    if k == |names| {
      assert names[..k] == names;
    } else {
      assert names[..|names| - 1][..k] == names[..k];
      RejectedPrefix(t, names[..|names| - 1], k, ty, off, locals);
    }
  }

  predicate NewAndDistinct(c: Chain, names: seq<string>) {
    && (forall i :: 0 <= i < |names| ==> !Local(c, Vars, names[i]))
    && (forall i, j :: 0 <= i < j < |names| ==> names[i] != names[j])
  }

  lemma OneMoreName(c: Chain, names: seq<string>)
    requires names != []
    ensures var rest, x := names[..|names| - 1], names[|names| - 1];
            NewAndDistinct(c, names) <==> NewAndDistinct(c, rest) && !Local(c, Vars, x) && x !in rest
  {
    assert names == names[..|names| - 1] + [names[|names| - 1]];
  }

  // Rule 1.1: a declaration is accepted exactly when its names are new in the scope and distinct.
  lemma {:induction false} AcceptedExactly(t: Tab, names: seq<string>, ty: int, off: int, locals: bool)
    requires TabOk(t) && t.Chain() != [] && 0 <= ty < |t.types|
    ensures AddNames(t, names, ty, off, locals).Some? <==> NewAndDistinct(t.Chain(), names)
    ensures AddNames(t, names, ty, off, locals).Some? ==>
            forall x :: Local(AddNames(t, names, ty, off, locals).value.0.Chain(), Vars, x) <==>
                        Local(t.Chain(), Vars, x) || x in names
  {
    if names != [] {
      var rest, x := names[..|names| - 1], names[|names| - 1];
      AcceptedExactly(t, rest, ty, off, locals);
      OneMoreName(t.Chain(), names);
      hide NewAndDistinct;
      assert names == rest + [x];
      if AddNames(t, rest, ty, off, locals).Some? {
        AddNamesOk(t, rest, ty, off, locals);
        var p := AddNames(t, rest, ty, off, locals).value;
        AddVarLocal(p.0, x, ty, Some(p.1), locals);
      }
    }
  }

  // Declaring a variable makes its name local, and no other.
  lemma AddVarLocal(t: Tab, x: string, ty: int, off: Option<int>, locals: bool)
    requires TabOk(t) && t.Chain() != [] && 0 <= ty < |t.types|
    ensures forall y :: Local(AddVar(t, x, ty, off, locals).0.Chain(), Vars, y) <==> Local(t.Chain(), Vars, y) || y == x
  {
    AddVarOnlyVars(t, x, ty, off, locals);
  }

  // ---- the invariant is kept ----

  lemma {:induction false} AddNamesOk(t: Tab, names: seq<string>, ty: int, off: int, locals: bool)
    requires TabOk(t) && t.Chain() != [] && 0 <= ty < |t.types|
    requires AddNames(t, names, ty, off, locals).Some?
    ensures var u := AddNames(t, names, ty, off, locals).value.0; TabOk(u) && OnlyVars(t, u, set x | x in names)
    ensures WellFounded(t) ==> WellFounded(AddNames(t, names, ty, off, locals).value.0)
  {
    if names == [] {
      OnlyVarsSelf(t, t);
      assert (set x | x in names) == {};
    } else {
      var rest, x := names[..|names| - 1], names[|names| - 1];
      AddNamesOk(t, rest, ty, off, locals);
      var p := AddNames(t, rest, ty, off, locals).value;
      AddVarOnlyVars(p.0, x, ty, Some(p.1), locals);
      OnlyVarsTrans(t, p.0, AddVar(p.0, x, ty, Some(p.1), locals).0, set y | y in rest, {x});
      NamesBut(names);
      if WellFounded(t) { AddVarKeepsReady(p.0, x, ty, Some(p.1), locals); }
    }
  }

  lemma NamesBut(names: seq<string>)
    requires names != []
    ensures var rest := names[..|names| - 1]; (set x | x in names) == (set x | x in rest) + {names[|names| - 1]}
  {
    assert names == names[..|names| - 1] + [names[|names| - 1]];
  }

  lemma AddDeclsOk(t: Tab, d: Decls, off: int, locals: bool)
    requires TabOk(t) && t.Chain() != [] && Known(t, d.ty)
    requires AddDecls(t, d, off, locals).Some?
    ensures var u := AddDecls(t, d, off, locals).value.0;
            TabOk(u) && OnlyVars(t, u, Formals(d.ty) + set x | x in d.names)
  {
    var p := ResolveType(t, "<decls>", d.ty);
    ResolveTypeOnlyVars(t, "<decls>", d.ty);
    KnownId(t, "<decls>", d.ty);
    AddNamesOk(p.0, d.names, p.1, off, locals);
    OnlyVarsTrans(t, p.0, AddDecls(t, d, off, locals).value.0, Formals(d.ty), set x | x in d.names);
  }

  lemma AddMagicOk(t: Tab, name: string, which: int)
    requires TabOk(t) && t.Chain() != []
    ensures TabOk(AddMagic(t, name, which))
    ensures AddMagic(t, name, which).Chain() == Happen(t.Chain(), Bind(Funcs, name, |t.types|))
    ensures WellFounded(t) ==> WellFounded(AddMagic(t, name, which))
  {
    if WellFounded(t) {
      PushKeeps(t, TypeEntry(DFunc(Function, [], 0), name, 0, which));
      NoteKeepsBelow(Push(t, TypeEntry(DFunc(Function, [], 0), name, 0, which)).0, Bind(Funcs, name, |t.types|));
    }
    var p := Push(t, TypeEntry(DFunc(Function, [], 0), name, 0, which)).0;
    GrowOk(t, p);
    NoteOk(p, AddMagic(t, name, which), Bind(Funcs, name, |t.types|));
  }

  lemma NamedIsKnown(t: Tab, ty: AstType)
    requires TabOk(t) && AllNamed(t, ty)
    ensures Known(t, ty)
  {
    if ty.Ref? { TypeNamesExactly(t, ty.name); }
  }

  // Declaring variables, types and functions with declared type names keeps the type arena well founded.
  lemma DeclarationsKeepWellFounded(t: Tab, name: string, ty: AstType, d: Decls, off: int, locals: bool)
    requires Ready(t) && AllNamed(t, ty) && AllNamed(t, d.ty)
    ensures Known(t, d.ty) && Known(t, ty)
    ensures AddDecls(t, d, off, locals).Some? ==> WellFounded(AddDecls(t, d, off, locals).value.0)
    ensures KeepsName(ty) && AddType(t, name, ty).Some? ==> WellFounded(AddType(t, name, ty).value)
    ensures ty.Func? && AddFunc(t, name, ty).Some? ==> WellFounded(AddFunc(t, name, ty).value)
  {
    NamedIsKnown(t, ty);
    NamedIsKnown(t, d.ty);
    ResolveKeepsWellFounded(t, name, ty);
    var u := ResolveType(t, name, ty).0;
    NoteKeepsBelow(u, Bind(Types, name, ResolveType(t, name, ty).1));
    NoteKeepsBelow(u, Bind(Funcs, name, ResolveType(t, name, ty).1));
    if AddDecls(t, d, off, locals).Some? {
      ResolveKeepsWellFounded(t, "<decls>", d.ty);
      var p := ResolveType(t, "<decls>", d.ty);
      AddNamesOk(p.0, d.names, p.1, off, locals);
    }
  }

  lemma NoteKeepsBelow(t: Tab, e: Event)
    requires WellFounded(t)
    ensures WellFounded(Note(t, e))
  {
    forall i | 0 <= i < |t.types| ensures Below(Note(t, e), t.types[i].desc, i) { assert Below(t, t.types[i].desc, i); }
  }

  // ---- formals leak ----

  // Declaring a function binds its formals as variables of the enclosing scope.  A variable name means the
  // same after the declaration if and only if it is not the name of a formal.
  lemma FormalsLeakExactly(t: Tab, name: string, sig: AstType, x: string)
    requires TabOk(t) && t.Chain() != [] && sig.Func? && AddFunc(t, name, sig).Some?
    ensures Resolve(AddFunc(t, name, sig).value.Chain(), Vars, x) == Resolve(t.Chain(), Vars, x) <==> x !in Formals(sig)
  {
    var p := ResolveType(t, name, sig);
    ResolveTypeOnlyVars(t, name, sig);
    KnownId(t, name, sig);
    var u := Note(p.0, Bind(Funcs, name, p.1));
    NoteOk(p.0, u, Bind(Funcs, name, p.1));
    BindElsewhere(p.0.Chain(), Funcs, name, p.1, Vars, x);
    ResolvedExists(t, Vars, x);
  }

  lemma BindElsewhere(c: Chain, sp: Space, name: string, id: nat, sp': Space, x: string)
    requires sp != sp'
    ensures Resolve(Happen(c, Bind(sp, name, id)), sp', x) == Resolve(c, sp', x)
  {
    if c != [] {
      var d := Happen(c, Bind(sp, name, id));
      assert d[..|d| - 1] == c[..|c| - 1];
    }
  }

  // ---- frames ----

  // Locals follow each other upward, formals downward.
  function Shift(off: int, n: int, locals: bool): int {
    if locals then off + n else off - n
  }

  // The words of the variables with ids lo, lo + 1, ... tile the frame from off to end, as an int counts.
  ghost predicate Tiles(t: Tab, lo: nat, ty: int, off: int, end: int, locals: bool)
    requires lo <= |t.vars| && 0 <= ty < |t.types|
  {
    && end == Int32(Shift(off, (|t.vars| - lo) * t.types[ty].size, locals))
    && forall i :: lo <= i < |t.vars| ==>
         t.vars[i].ty == ty && t.vars[i].offset == Int32(Shift(off, (i - lo) * t.types[ty].size, locals))
  }

  lemma NextShift(off: int, n: nat, size: nat, locals: bool)
    ensures NextOffset(size, Int32(Shift(off, n * size, locals)), locals) == Int32(Shift(off, (n + 1) * size, locals))
  {
    assert (n + 1) * size == n * size + size;
    Int32Add(Shift(off, n * size, locals), Shift(0, size, locals));
  }

  // The names of one declaration get consecutive slots.
  lemma {:induction false} NamesTile(t: Tab, names: seq<string>, ty: int, off: int, locals: bool)
    requires 0 <= ty < |t.types| && Int32(off) == off
    requires AddNames(t, names, ty, off, locals).Some?
    ensures var p := AddNames(t, names, ty, off, locals).value;
            |p.0.vars| == |t.vars| + |names| && t.vars <= p.0.vars && Tiles(p.0, |t.vars|, ty, off, p.1, locals)
  {
    if names != [] {
      hide Int32, NextOffset;
      NamesTile(t, names[..|names| - 1], ty, off, locals);
      NextShift(off, |names| - 1, t.types[ty].size, locals);
    }
  }
}
