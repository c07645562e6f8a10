// The symbol table: scopes on the heap over append-only arenas, proved against the functions of Symbols and
// Declarations.
module SymbolTable {
  import opened Basics
  import opened Words
  import opened Vectors
  import opened Scoping
  import opened ScopeChains
  import opened Symbols
  import opened TypeArena
  import opened Declarations

  class Stab {
    const scopes: ScopeChain
    const vars: PtrVec<VarEntry>
    const types: PtrVec<TypeEntry>
    ghost var h: seq<Event>     // every scope entered or left and every name declared so far
    ghost var Repr: set<object>

    ghost predicate Valid()
      reads this, Repr
      ensures Valid() ==> this in Repr
    {
      Parts() && scopes.scopes == After(h) && TabOk(View())
    }

    // The parts of the table share no memory.
    ghost predicate Parts()
      reads this, Repr
    {
      && this in Repr
      && scopes in Repr && scopes.Repr <= Repr && this !in scopes.Repr && scopes.Valid()
      && vars in Repr && vars.data in Repr && vars.Valid() && vars !in scopes.Repr && vars.data !in scopes.Repr
      && types in Repr && types.data in Repr && types.Valid() && types !in scopes.Repr && types.data !in scopes.Repr
    }

    ghost function View(): Tab
      reads this, Repr
      requires Parts()
    {
      Tab(h, vars.contents, types.contents)
    }

    // stab_new: no scope is open yet.
    constructor ()
      ensures Valid() && fresh(Repr) && IsInitial(View())
    {
      var c := new ScopeChain();
      var v := new PtrVec<VarEntry>.WithCapacity(256);
      var t := FirstTypes();
      scopes := c;
      vars := v;
      types := t;
      h := [];
      Repr := {this, v, v.data, t, t.data} + c.Repr;
      new;
      assert Parts();
      InitialOk(View());
    }

    static method FirstTypes() returns (t: PtrVec<TypeEntry>)
      ensures t.Valid() && fresh(t) && fresh(t.data)
      ensures HasPrimitives(t.contents) && |t.contents| == VOID_TYPE_IDX + 1
    {
      t := BuiltinTypes();
      SixPrimitives(t.contents);
    }

    static method BuiltinTypes() returns (t: PtrVec<TypeEntry>)
      ensures t.Valid() && fresh(t) && fresh(t.data)
      ensures t.contents ==
              [TypeEntry(DSimple(Integer), "integer", 8, 0), TypeEntry(DSimple(Real), "real", 8, 0),
               TypeEntry(DSimple(String), "string", 8, 0), TypeEntry(DSimple(Boolean), "boolean", 1, 0),
               TypeEntry(DSimple(Char), "char", 1, 0), TypeEntry(DSimple(Void), "<void>", 4, 0)]
    {
      t := new PtrVec<TypeEntry>.WithCapacity(256);
      var id := t.Push(TypeEntry(DSimple(Integer), "integer", 8, 0));
      id := t.Push(TypeEntry(DSimple(Real), "real", 8, 0));
      id := t.Push(TypeEntry(DSimple(String), "string", 8, 0));
      id := t.Push(TypeEntry(DSimple(Boolean), "boolean", 1, 0));
      id := t.Push(TypeEntry(DSimple(Char), "char", 1, 0));
      id := t.Push(TypeEntry(DSimple(Void), "<void>", 4, 0));
    }

    // ---- scopes ----

    // stab_enter
    method EnterScope()
      requires Valid()
      modifies Repr
      ensures Valid() && fresh(Repr - old(Repr)) && old(Repr) <= Repr
      ensures View() == Note(old(View()), Enter)
    {
      scopes.Push();
      h := h + [Enter];
      Repr := Repr + scopes.Repr;
      NoteOk(old(View()), View(), Enter);
    }

    // stab_leave, which never removes the outermost scope.
    method LeaveScope()
      requires Valid() && |View().Chain()| >= 2
      modifies Repr
      ensures Valid() && Repr == old(Repr)
      ensures View() == Note(old(View()), Leave)
    {
      scopes.Pop();
      h := h + [Leave];
      NoteOk(old(View()), View(), Leave);
    }

    // ---- lookup ----

    // stab_resolve_var, stab_resolve_func and stab_resolve_type_name; None is RESOLVE_FAILURE.  The answer
    // is the last live declaration of the name.
    method ResolveId(sp: Space, x: string) returns (id: Option<nat>)
      requires Valid()
      ensures id == Resolve(View().Chain(), sp, x)
      ensures id == LastLive(h, sp, x, 0)
    {
      id := scopes.Find(sp, x);
      ResolveIsLastLive(h, sp, x, 0);
      var c := After(h);
      assert c[..|c| - 0] == c;
    }

    // stab_has_local_var, stab_has_local_func and stab_has_local_type
    method HasLocal(sp: Space, x: string) returns (found: bool)
      requires Valid() && View().Chain() != []
      ensures found == Local(View().Chain(), sp, x)
    {
      found := scopes.FindLocal(sp, x);
    }

    // ---- declaration ----

    // Recording a name in the innermost scope.
    method Declare(sp: Space, x: string, id: nat)
      requires Valid() && View().Chain() != [] && IdOk(View(), Bind(sp, x, id))
      modifies Repr
      ensures Valid() && fresh(Repr - old(Repr)) && old(Repr) <= Repr
      ensures View() == Note(old(View()), Bind(sp, x, id))
    {
      scopes.Bind(sp, x, id);
      h := h + [Bind(sp, x, id)];
      Repr := Repr + scopes.Repr;
      NoteOk(old(View()), View(), Bind(sp, x, id));
    }

    // ptrvec_push on the type arena
    method PushType(entry: TypeEntry) returns (id: nat)
      requires Valid()
      modifies Repr
      ensures Valid() && fresh(Repr - old(Repr)) && old(Repr) <= Repr
      ensures (View(), id) == Push(old(View()), entry)
    {
      id := types.Push(entry);
      Repr := Repr + {types.data};
      GrowOk(old(View()), View());
    }

    method PushVar(entry: VarEntry) returns (id: nat)
      requires Valid()
      modifies Repr
      ensures Valid() && fresh(Repr - old(Repr)) && old(Repr) <= Repr
      ensures View() == old(View()).(vars := old(View()).vars + [entry]) && id == |old(View()).vars|
    {
      id := vars.Push(entry);
      Repr := Repr + {vars.data};
      GrowOk(old(View()), View());
    }

    // stab_add_var
    method AddVariable(name: string, ty: int, off: Option<int>, locals: bool) returns (id: nat, next: Option<int>)
      requires Valid() && View().Chain() != []
      requires off.Some? ==> 0 <= ty < |View().types|
      modifies Repr
      ensures Valid() && fresh(Repr - old(Repr)) && old(Repr) <= Repr
      ensures (View(), id, next) == AddVar(old(View()), name, ty, off, locals)
    {
      next := None;
      if off.Some? {
        next := Some(NextOffset(types.At(ty).size, off.value, locals));
      }
      id := PushVar(VarEntry(ty, name, if off.Some? then off.value else -1));
      Declare(Vars, name, id);
    }

    // stab_resolve_type
    method ResolveTypeId(name: string, ty: AstType) returns (id: int)
      requires Valid() && View().Chain() != []
      modifies Repr
      ensures Valid() && fresh(Repr - old(Repr)) && old(Repr) <= Repr
      ensures (View(), id) == ResolveType(old(View()), name, ty) && View().Chain() != []
      decreases ty, 2
    {
      match ty {
        case Plain(s) =>
          id := SimpleIdx(s);
        case Ref(x) =>
          var r := ResolveId(Types, x);
          id := if r.Some? then r.value else UNRESOLVED;
        case _ =>
          id := ResolveComplexId(name, ty);
      }
    }

    // stab_resolve_complex_type
    method ResolveComplexId(name: string, ty: AstType) returns (id: int)
      requires Valid() && View().Chain() != [] && !ty.Plain? && !ty.Ref?
      modifies Repr
      ensures Valid() && fresh(Repr - old(Repr)) && old(Repr) <= Repr
      ensures (View(), id) == ResolveType(old(View()), name, ty) && View().Chain() != []
      decreases ty, 1
    {
      match ty {
        case Pointer(_) => id := ResolvePointer(name, ty);
        case Record(_) => id := ResolveRecord(name, ty);
        case Array(_, _, _) => id := ResolveArray(name, ty);
        case Func(_, _, _) => id := ResolveSignature(name, ty);
      }
    }

    method ResolvePointer(name: string, ty: AstType) returns (id: int)
      requires Valid() && View().Chain() != [] && ty.Pointer?
      modifies Repr
      ensures Valid() && fresh(Repr - old(Repr)) && old(Repr) <= Repr
      ensures (View(), id) == ResolveType(old(View()), name, ty) && View().Chain() != []
      decreases ty, 0
    {
      var target := ResolveTypeId(name, ty.target);
      id := PushType(TypeEntry(DPointer(target), name, 8, 0));
    }

    method ResolveRecord(name: string, ty: AstType) returns (id: int)
      requires Valid() && View().Chain() != [] && ty.Record?
      modifies Repr
      ensures Valid() && fresh(Repr - old(Repr)) && old(Repr) <= Repr
      ensures (View(), id) == ResolveType(old(View()), name, ty) && View().Chain() != []
      decreases ty, 0
    {
      var fields := ResolveFieldIds(ty.fields);
      id := PushType(TypeEntry(DRecord(fields), name, 0, 0));
    }

    method ResolveArray(name: string, ty: AstType) returns (id: int)
      requires Valid() && View().Chain() != [] && ty.Array?
      modifies Repr
      ensures Valid() && fresh(Repr - old(Repr)) && old(Repr) <= Repr
      ensures (View(), id) == ResolveType(old(View()), name, ty) && View().Chain() != []
      decreases ty, 0
    {
      var size := (types.At(SimpleIdx(ty.elt)).size * (ty.upper - ty.lower)) % TWO_64;
      id := PushType(TypeEntry(DArray(ty.lower, ty.upper, SimpleIdx(ty.elt)), name, size, 0));
    }

    method ResolveSignature(name: string, ty: AstType) returns (id: int)
      requires Valid() && View().Chain() != [] && ty.Func?
      modifies Repr
      ensures Valid() && fresh(Repr - old(Repr)) && old(Repr) <= Repr
      ensures (View(), id) == ResolveType(old(View()), name, ty) && View().Chain() != []
      decreases ty, 0
    {
      var retId := ResolveTypeId("<func ret>", ty.ret);
      var formals := ResolveArgIds(ty.args);
      id := PushType(TypeEntry(DFunc(ty.kind, formals, retId), name, 16, 0));
    }

    method ResolveFieldIds(fs: seq<Field>) returns (fields: seq<(string, int)>)
      requires Valid() && View().Chain() != []
      modifies Repr
      ensures Valid() && fresh(Repr - old(Repr)) && old(Repr) <= Repr
      ensures (View(), fields) == ResolveFields(old(View()), fs) && View().Chain() != []
      decreases fs, 0
    {
      fields := [];
      assert fs[..0] == [];
      for i := 0 to |fs|
        invariant Valid() && fresh(Repr - old(Repr)) && old(Repr) <= Repr && View().Chain() != []
        invariant (View(), fields) == ResolveFields(old(View()), fs[..i])
      {
        var id := ResolveTypeId(fs[i].name, fs[i].ty);
        fields := fields + [(fs[i].name, id)];
        assert fs[..i + 1][..i] == fs[..i];
      }
      assert fs[..|fs|] == fs;
    }

    method ResolveArgIds(ds: seq<Decls>) returns (formals: seq<nat>)
      requires Valid() && View().Chain() != []
      modifies Repr
      ensures Valid() && fresh(Repr - old(Repr)) && old(Repr) <= Repr
      ensures (View(), formals) == ResolveArgs(old(View()), ds) && View().Chain() != []
      decreases ds, 0
    {
      formals := [];
      assert ds[..0] == [];
      for i := 0 to |ds|
        invariant Valid() && fresh(Repr - old(Repr)) && old(Repr) <= Repr && View().Chain() != []
        invariant (View(), formals) == ResolveArgs(old(View()), ds[..i])
      {
        var more := ResolveFormalIds(ds[i].names, ds[i].ty);
        formals := formals + more;
        assert ds[..i + 1][..i] == ds[..i];
      }
      assert ds[..|ds|] == ds;
    }

    // The names of one formal declaration.  The type is resolved again for every name.
    method ResolveFormalIds(names: seq<string>, ty: AstType) returns (formals: seq<nat>)
      requires Valid() && View().Chain() != []
      modifies Repr
      ensures Valid() && fresh(Repr - old(Repr)) && old(Repr) <= Repr
      ensures (View(), formals) == ResolveFormals(old(View()), names, ty) && View().Chain() != []
      decreases ty, 4
    {
      formals := [];
      assert names[..0] == [];
      for i := 0 to |names|
        invariant Valid() && fresh(Repr - old(Repr)) && old(Repr) <= Repr && View().Chain() != []
        invariant (View(), formals) == ResolveFormals(old(View()), names[..i], ty)
      {
        var v := AddFormal(names[i], ty);
        formals := formals + [v];
        assert names[..i + 1][..i] == names[..i];
      }
      assert names[..|names|] == names;
    }

    method AddFormal(name: string, ty: AstType) returns (v: nat)
      requires Valid() && View().Chain() != []
      modifies Repr
      ensures Valid() && fresh(Repr - old(Repr)) && old(Repr) <= Repr && View().Chain() != []
      ensures var q := ResolveType(old(View()), name, ty);
              var r := AddVar(q.0, name, q.1, None, false);
              View() == r.0 && v == r.1
      decreases ty, 3
    {
      var id := ResolveTypeId(name, ty);
      AddVarOnlyVars(View(), name, id, None, false);
      var next: Option<int>;
      v, next := AddVariable(name, id, None, false);
    }

    // stab_add_decls; not ok is the exit on a name that is already declared in this scope.
    method AddDeclarations(d: Decls, off: int, locals: bool) returns (ok: bool, next: int)
      requires Valid() && View().Chain() != [] && Known(View(), d.ty)
      modifies Repr
      ensures Valid() && fresh(Repr - old(Repr)) && old(Repr) <= Repr && View().Chain() != []
      ensures ok <==> AddDecls(old(View()), d, off, locals).Some?
      ensures ok ==> Some((View(), next)) == AddDecls(old(View()), d, off, locals)
    {
      ghost var t := View();
      KnownId(t, "<decls>", d.ty);
      var ty := ResolveTypeId("<decls>", d.ty);
      ok, next := AddEach(d.names, ty, off, locals);
    }

    method AddEach(names: seq<string>, ty: int, off: int, locals: bool) returns (ok: bool, next: int)
      requires Valid() && View().Chain() != [] && 0 <= ty < |View().types|
      modifies Repr
      ensures Valid() && fresh(Repr - old(Repr)) && old(Repr) <= Repr && View().Chain() != []
      ensures ok <==> AddNames(old(View()), names, ty, off, locals).Some?
      ensures ok ==> Some((View(), next)) == AddNames(old(View()), names, ty, off, locals)
    {
      hide TabOk, AddVar;
      ghost var u := View();
      next := off;
      assert names[..0] == [];
      for i := 0 to |names|
        invariant Valid() && fresh(Repr - old(Repr)) && old(Repr) <= Repr && View().Chain() != []
        invariant Some((View(), next)) == AddNames(u, names[..i], ty, off, locals)
      {
        assert names[..i + 1][..i] == names[..i];
        var found := HasLocal(Vars, names[i]);
        if found {
          RejectedPrefix(u, names, i + 1, ty, off, locals);
          return false, next;
        }
        next := AddOne(names[i], ty, next, locals);
      }
      assert names[..|names|] == names;
      ok := true;
    }

    method AddOne(name: string, ty: int, off: int, locals: bool) returns (next: int)
      requires Valid() && View().Chain() != [] && 0 <= ty < |View().types|
      modifies Repr
      ensures Valid() && fresh(Repr - old(Repr)) && old(Repr) <= Repr && View().Chain() != []
      ensures var p := AddVar(old(View()), name, ty, Some(off), locals); View() == p.0 && next == p.2.value
    {
      AddVarOnlyVars(View(), name, ty, Some(off), locals);
      var id, after := AddVariable(name, ty, Some(off), locals);
      next := after.value;
    }

    // stab_add_func
    method AddFunction(name: string, sig: AstType) returns (ok: bool)
      requires Valid() && View().Chain() != [] && sig.Func?
      modifies Repr
      ensures Valid() && fresh(Repr - old(Repr)) && old(Repr) <= Repr
      ensures ok <==> AddFunc(old(View()), name, sig).Some?
      ensures ok ==> Some(View()) == AddFunc(old(View()), name, sig)
    {
      ghost var t := View();
      KnownId(t, name, sig);
      hide TabOk;
      var found := HasLocal(Funcs, name);
      if found {
        return false;
      }
      var id := ResolveTypeId(name, sig);
      assert IdOk(View(), Bind(Funcs, name, id));
      Declare(Funcs, name, id);
      ok := true;
    }

    // stab_add_magic_func: no check for an earlier declaration.
    method AddMagicFunction(name: string, which: int)
      requires Valid() && View().Chain() != []
      modifies Repr
      ensures Valid() && fresh(Repr - old(Repr)) && old(Repr) <= Repr
      ensures View() == AddMagic(old(View()), name, which)
    {
      var id := PushType(TypeEntry(DFunc(Function, [], 0), name, 0, which));
      Declare(Funcs, name, id);
    }

    // stab_add_type
    method AddTypeName(name: string, ty: AstType) returns (ok: bool)
      requires Valid() && View().Chain() != [] && KeepsName(ty)
      modifies Repr
      ensures Valid() && fresh(Repr - old(Repr)) && old(Repr) <= Repr
      ensures ok <==> AddType(old(View()), name, ty).Some?
      ensures ok ==> Some(View()) == AddType(old(View()), name, ty)
    {
      ghost var t := View();
      KnownId(t, name, ty);
      hide TabOk;
      var found := HasLocal(Types, name);
      if found {
        return false;
      }
      var id := ResolveTypeId(name, ty);
      assert IdOk(View(), Bind(Types, name, id));
      Declare(Types, name, id);
      ok := true;
    }

    // stab_types_eq; None is the abort on void.
    method SameType(a: nat, b: nat) returns (r: Option<bool>)
      requires Valid() && WellFounded(View()) && a < |View().types| && b < |View().types|
      ensures r == TypesEq(View(), a, b)
      decreases a
    {
      assert Below(View(), View().types[a].desc, a) && Below(View(), View().types[b].desc, b);
      match (types.At(a).desc, types.At(b).desc) {
        case (DSimple(s), DSimple(s')) =>
          r := if s != s' then Some(false) else if s == Void then None else Some(true);
        case (DArray(lo, hi, e), DArray(lo', hi', e')) =>
          r := Some(hi == hi' && lo == lo' && e == e');
        case (DFunc(_, _, _), DFunc(_, _, _)) =>
          r := Some(a == b);
        case (DRecord(_), DRecord(_)) =>
          r := Some(a == b);
        case (DPointer(x), DPointer(y)) =>
          r := SameType(x, y);
        case (_, _) =>
          r := Some(false);
      }
    }
  }
}
