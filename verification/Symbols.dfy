// What the symbol table does, as functions of its abstract value: the history of scopes and declarations
// and the two append-only arenas.
module Symbols {
  import opened Basics
  import opened Words
  import opened Scoping

  const INTEGER_TYPE_IDX: nat := 0
  const REAL_TYPE_IDX: nat := 1
  const STRING_TYPE_IDX: nat := 2
  const BOOLEAN_TYPE_IDX: nat := 3
  const CHAR_TYPE_IDX: nat := 4
  const VOID_TYPE_IDX: nat := 5
  const UNRESOLVED: int := -1
  const MAGIC_READ: int := -2
  const MAGIC_READLN: int := -3
  const MAGIC_WRITE: int := -4
  const MAGIC_WRITELN: int := -5

  predicate Writes(which: int) {
    which == MAGIC_WRITE || which == MAGIC_WRITELN
  }

  predicate Reads(which: int) {
    which == MAGIC_READ || which == MAGIC_READLN
  }

  datatype Simple = Integer | Real | String | Boolean | Char | Void
  datatype Sub = Function | Procedure

  // Type syntax.  A missing return type is Plain(Void).
  datatype AstType =
    | Plain(s: Simple)
    | Ref(name: string)
    | Pointer(target: AstType)
    | Record(fields: seq<Field>)
    | Array(lower: int, upper: int, elt: Simple)
    | Func(kind: Sub, args: seq<Decls>, ret: AstType)
  datatype Field = Field(name: string, ty: AstType)
  datatype Decls = Decls(names: seq<string>, ty: AstType)

  // Resolved types refer to each other by arena index; a reference to an undeclared type name is stored as
  // UNRESOLVED.
  datatype Desc =
    | DSimple(s: Simple)
    | DPointer(target: int)
    | DRecord(fields: seq<(string, int)>)
    | DArray(lower: int, upper: int, elt: int)
    | DFunc(kind: Sub, args: seq<nat>, ret: int)
  datatype TypeEntry = TypeEntry(desc: Desc, name: string, size: nat, magic: int)
  datatype VarEntry = VarEntry(ty: int, name: string, offset: int)

  datatype Tab = Tab(h: seq<Event>, vars: seq<VarEntry>, types: seq<TypeEntry>) {
    function Chain(): Chain { After(h) }
  }

  function SimpleIdx(s: Simple): nat {
    match s
    case Integer => INTEGER_TYPE_IDX
    case Real => REAL_TYPE_IDX
    case String => STRING_TYPE_IDX
    case Boolean => BOOLEAN_TYPE_IDX
    case Char => CHAR_TYPE_IDX
    case Void => VOID_TYPE_IDX
  }

  // The entry of a built-in type.
  function Primitive(s: Simple): TypeEntry {
    match s
    case Integer => TypeEntry(DSimple(s), "integer", 8, 0)
    case Real => TypeEntry(DSimple(s), "real", 8, 0)
    case String => TypeEntry(DSimple(s), "string", 8, 0)
    case Boolean => TypeEntry(DSimple(s), "boolean", 1, 0)
    case Char => TypeEntry(DSimple(s), "char", 1, 0)
    case Void => TypeEntry(DSimple(s), "<void>", 4, 0)
  }

  // The six built-in types have the first six ids.
  ghost predicate HasPrimitives(types: seq<TypeEntry>) {
    |types| > VOID_TYPE_IDX && forall s :: types[SimpleIdx(s)] == Primitive(s)
  }

  lemma SixPrimitives(types: seq<TypeEntry>)
    requires types == [Primitive(Integer), Primitive(Real), Primitive(String), Primitive(Boolean), Primitive(Char),
                       Primitive(Void)]
    ensures HasPrimitives(types)
  {
  }

  // What stab_new sets up.
  ghost predicate IsInitial(t: Tab) {
    t.h == [] && t.vars == [] && HasPrimitives(t.types) && |t.types| == VOID_TYPE_IDX + 1
  }

  function Note(t: Tab, e: Event): Tab {
    t.(h := t.h + [e])
  }

  // The running offset is an int: it wraps around at 32 bits.
  function NextOffset(size: nat, off: int, locals: bool): int {
    Int32(if locals then off + size else off - size)
  }

  // stab_add_var: off is the running frame offset, None for formals seen only as part of a signature.
  function AddVar(t: Tab, name: string, ty: int, off: Option<int>, locals: bool): (Tab, nat, Option<int>)
    requires off.Some? ==> 0 <= ty < |t.types|
  {
    var entry := VarEntry(ty, name, if off.Some? then off.value else -1);
    var next := if off.None? then None else Some(NextOffset(t.types[ty].size, off.value, locals));
    (Note(t.(vars := t.vars + [entry]), Bind(Vars, name, |t.vars|)), |t.vars|, next)
  }

  function ResolveName(t: Tab, name: string): int {
    var r := Resolve(t.Chain(), Types, name);
    if r.Some? then r.value else UNRESOLVED
  }

  function Push(t: Tab, entry: TypeEntry): (Tab, int) {
    (t.(types := t.types + [entry]), |t.types|)
  }

  // stab_resolve_type
  function ResolveType(t: Tab, name: string, ty: AstType): (Tab, int)
    requires |t.types| > VOID_TYPE_IDX
    ensures var p := ResolveType(t, name, ty); t.types <= p.0.types && t.vars <= p.0.vars
    decreases ty, 0
  {
    match ty
    case Plain(s) => (t, SimpleIdx(s))
    case Ref(x) => (t, ResolveName(t, x))
    case Pointer(a) =>
      var p := ResolveType(t, name, a);
      Push(p.0, TypeEntry(DPointer(p.1), name, 8, 0))
    case Record(fs) =>
      var p := ResolveFields(t, fs);
      Push(p.0, TypeEntry(DRecord(p.1), name, 0, 0))
    case Array(lo, hi, s) =>
      Push(t, TypeEntry(DArray(lo, hi, SimpleIdx(s)), name, (t.types[SimpleIdx(s)].size * (hi - lo)) % TWO_64, 0))
    case Func(kind, args, ret) =>
      var p := ResolveType(t, "<func ret>", ret);
      var q := ResolveArgs(p.0, args);
      Push(q.0, TypeEntry(DFunc(kind, q.1, p.1), name, 16, 0))
  }

  function ResolveFields(t: Tab, fs: seq<Field>): (Tab, seq<(string, int)>)
    requires |t.types| > VOID_TYPE_IDX
    ensures var p := ResolveFields(t, fs); t.types <= p.0.types && t.vars <= p.0.vars
    decreases fs, 0
  {
    if fs == [] then (t, [])
    else
      var p := ResolveFields(t, fs[..|fs| - 1]);
      var f := fs[|fs| - 1];
      var q := ResolveType(p.0, f.name, f.ty);
      (q.0, p.1 + [(f.name, q.1)])
  }

  // The formals of a signature.  Each is resolved on its own and becomes a variable of the current scope.
  function ResolveArgs(t: Tab, ds: seq<Decls>): (Tab, seq<nat>)
    requires |t.types| > VOID_TYPE_IDX
    ensures var p := ResolveArgs(t, ds); t.types <= p.0.types && t.vars <= p.0.vars
    decreases ds, 0
  {
    if ds == [] then (t, [])
    else
      var p := ResolveArgs(t, ds[..|ds| - 1]);
      var d := ds[|ds| - 1];
      var q := ResolveFormals(p.0, d.names, d.ty);
      (q.0, p.1 + q.1)
  }

  function ResolveFormals(t: Tab, names: seq<string>, ty: AstType): (Tab, seq<nat>)
    requires |t.types| > VOID_TYPE_IDX
    ensures var p := ResolveFormals(t, names, ty); t.types <= p.0.types && t.vars <= p.0.vars
    decreases ty, 1 + |names|
  {
    if names == [] then (t, [])
    else
      var p := ResolveFormals(t, names[..|names| - 1], ty);
      var x := names[|names| - 1];
      var q := ResolveType(p.0, x, ty);
      var r := AddVar(q.0, x, q.1, None, false);
      (r.0, p.1 + [r.1])
  }

  // A type whose id can be looked up at once: anything but an undeclared name.
  predicate Known(t: Tab, ty: AstType) {
    ty.Ref? ==> Resolve(t.Chain(), Types, ty.name).Some?
  }

  // ---- invariant of every table ----

  predicate IdOk(t: Tab, e: Event) {
    e.Bind? ==> e.id < if e.sp.Vars? then |t.vars| else |t.types|
  }

  // The history is well formed, declared ids exist, and the built-in types are in place.
  ghost predicate TabOk(t: Tab) {
    WellFormed(t.h) && HasPrimitives(t.types) && forall e :: e in t.h ==> IdOk(t, e)
  }

  lemma InitialOk(t: Tab)
    requires IsInitial(t)
    ensures TabOk(t)
  {
  }

  lemma {:induction false} LastLiveDeclared(h: seq<Event>, sp: Space, x: string, left: nat)
    ensures var r := LastLive(h, sp, x, left); r.Some? ==> Bind(sp, x, r.value) in h
  {
    if h != [] {
      LastLiveDeclared(h[..|h| - 1], sp, x, left);
      LastLiveDeclared(h[..|h| - 1], sp, x, left + 1);
      LastLiveDeclared(h[..|h| - 1], sp, x, if left == 0 then 0 else left - 1);
    }
  }

  // What a name resolves to exists.
  lemma ResolvedExists(t: Tab, sp: Space, x: string)
    requires TabOk(t)
    ensures var r := Resolve(t.Chain(), sp, x);
            r.Some? ==> Bind(sp, x, r.value) in t.h && r.value < if sp.Vars? then |t.vars| else |t.types|
  {
    ResolveIsLastLive(t.h, sp, x, 0);
    var c := t.Chain();
    assert c[..|c| - 0] == c;
    LastLiveDeclared(t.h, sp, x, 0);
    var r := Resolve(c, sp, x);
    if r.Some? { assert IdOk(t, Bind(sp, x, r.value)); }
  }

  lemma NoteOk(t: Tab, u: Tab, e: Event)
    requires TabOk(t) && t.vars <= u.vars && t.types <= u.types && u.h == t.h + [e]
    requires IdOk(u, e) && (e.Enter? || t.Chain() != [])
    ensures TabOk(u) && u.Chain() == Happen(t.Chain(), e)
  {
    WellFormedAppend(t.h, e);
    forall d | d in u.h ensures IdOk(u, d) {
      if d in t.h { assert IdOk(t, d); }
    }
  }

  lemma GrowOk(t: Tab, u: Tab)
    requires TabOk(t) && t.vars <= u.vars && t.types <= u.types && u.h == t.h
    ensures TabOk(u)
  {
    forall e | e in u.h ensures IdOk(u, e) { assert IdOk(t, e); }
  }

  // ---- what resolving a type does to the rest of the table ----

  // Only variables of the innermost scope are declared, and only with the given names.
  ghost predicate OnlyVars(t: Tab, u: Tab, names: set<string>) {
    && |u.Chain()| == |t.Chain()|
    && t.h <= u.h && t.vars <= u.vars && t.types <= u.types
    && (forall sp: Space, x: string :: !(sp.Vars? && x in names) ==> Resolve(u.Chain(), sp, x) == Resolve(t.Chain(), sp, x))
    && (forall sp: Space, x: string :: !(sp.Vars? && x in names) ==> (Local(u.Chain(), sp, x) <==> Local(t.Chain(), sp, x)))
    && (forall x :: x in names ==> exists id :: id >= |t.vars| && Resolve(u.Chain(), Vars, x) == Some(id))
  }

  lemma OnlyVarsTrans(t: Tab, u: Tab, v: Tab, ns: set<string>, ms: set<string>)
    requires OnlyVars(t, u, ns) && OnlyVars(u, v, ms)
    ensures OnlyVars(t, v, ns + ms)
  {
    forall x | x in ns + ms ensures exists id :: id >= |t.vars| && Resolve(v.Chain(), Vars, x) == Some(id) {
      if x in ms {
        var id :| id >= |u.vars| && Resolve(v.Chain(), Vars, x) == Some(id);
      } else {
        var id :| id >= |t.vars| && Resolve(u.Chain(), Vars, x) == Some(id);
        assert Resolve(v.Chain(), Vars, x) == Some(id);
      }
    }
  }

  lemma AddVarOnlyVars(t: Tab, name: string, ty: int, off: Option<int>, locals: bool)
    requires TabOk(t) && t.Chain() != []
    requires off.Some? ==> 0 <= ty < |t.types|
    ensures var u := AddVar(t, name, ty, off, locals).0;
            TabOk(u) && OnlyVars(t, u, {name}) && u.types == t.types
            && Resolve(u.Chain(), Vars, name) == Some(|t.vars|) && Local(u.Chain(), Vars, name)
  {
    var u := AddVar(t, name, ty, off, locals).0;
    NoteOk(t, u, Bind(Vars, name, |t.vars|));
    var c, d := t.Chain(), u.Chain();
    assert d[..|d| - 1] == c[..|c| - 1];
    assert Resolve(d, Vars, name) == Some(|t.vars|);
  }

  // The names of the formals of function types anywhere in a type.
  function Formals(ty: AstType): set<string>
    decreases ty, 0
  {
    match ty
    case Pointer(a) => Formals(a)
    case Record(fs) => FormalsOfFields(fs)
    case Func(_, args, ret) => Formals(ret) + FormalsOfArgs(args)
    case _ => {}
  }

  function FormalsOfFields(fs: seq<Field>): set<string>
    decreases fs, 0
  {
    if fs == [] then {} else FormalsOfFields(fs[..|fs| - 1]) + Formals(fs[|fs| - 1].ty)
  }

  function FormalsOfArgs(ds: seq<Decls>): set<string>
    decreases ds, 0
  {
    if ds == [] then {} else FormalsOfArgs(ds[..|ds| - 1]) + FormalsOf(ds[|ds| - 1].names, ds[|ds| - 1].ty)
  }

  function FormalsOf(names: seq<string>, ty: AstType): set<string>
    decreases ty, 1 + |names|
  {
    if names == [] then {} else FormalsOf(names[..|names| - 1], ty) + Formals(ty) + {names[|names| - 1]}
  }

  lemma OnlyVarsSelf(t: Tab, u: Tab)
    requires u.h == t.h && t.vars <= u.vars && t.types <= u.types
    ensures OnlyVars(t, u, {})
  {
  }

  lemma {:induction false} ResolveTypeOnlyVars(t: Tab, name: string, ty: AstType)
    requires TabOk(t) && t.Chain() != []
    ensures var p := ResolveType(t, name, ty); TabOk(p.0) && OnlyVars(t, p.0, Formals(ty))
    decreases ty, 0
  {
    var u := ResolveType(t, name, ty).0;
    match ty
    case Plain(_) => OnlyVarsSelf(t, t);
    case Ref(_) => OnlyVarsSelf(t, t);
    case Array(_, _, _) =>
      OnlyVarsSelf(t, t);
      PushOnlyVars(t, t, u, {});
    case Pointer(a) =>
      ResolveTypeOnlyVars(t, name, a);
      PushOnlyVars(t, ResolveType(t, name, a).0, u, Formals(a));
    case Record(fs) =>
      ResolveFieldsOnlyVars(t, fs);
      PushOnlyVars(t, ResolveFields(t, fs).0, u, FormalsOfFields(fs));
    case Func(_, args, ret) =>
      ResolveTypeOnlyVars(t, "<func ret>", ret);
      var p := ResolveType(t, "<func ret>", ret).0;
      ResolveArgsOnlyVars(p, args);
      var q := ResolveArgs(p, args).0;
      OnlyVarsTrans(t, p, q, Formals(ret), FormalsOfArgs(args));
      PushOnlyVars(t, q, u, Formals(ret) + FormalsOfArgs(args));
  }

  lemma PushOnlyVars(t: Tab, p: Tab, u: Tab, ns: set<string>)
    requires TabOk(p) && OnlyVars(t, p, ns)
    requires exists entry :: u == p.(types := p.types + [entry])
    ensures TabOk(u) && OnlyVars(t, u, ns)
  {
    GrowOk(p, u);
    OnlyVarsSelf(p, u);
    OnlyVarsTrans(t, p, u, ns, {});
    assert ns + {} == ns;
  }

  lemma {:induction false} ResolveFieldsOnlyVars(t: Tab, fs: seq<Field>)
    requires TabOk(t) && t.Chain() != []
    ensures var p := ResolveFields(t, fs); TabOk(p.0) && OnlyVars(t, p.0, FormalsOfFields(fs))
    decreases fs, 0
  {
    if fs == [] {
      OnlyVarsSelf(t, t);
    } else {
      var rest, f := fs[..|fs| - 1], fs[|fs| - 1];
      ResolveFieldsOnlyVars(t, rest);
      var p := ResolveFields(t, rest).0;
      ResolveTypeOnlyVars(p, f.name, f.ty);
      OnlyVarsTrans(t, p, ResolveType(p, f.name, f.ty).0, FormalsOfFields(rest), Formals(f.ty));
    }
  }

  lemma {:induction false} ResolveArgsOnlyVars(t: Tab, ds: seq<Decls>)
    requires TabOk(t) && t.Chain() != []
    ensures var p := ResolveArgs(t, ds); TabOk(p.0) && OnlyVars(t, p.0, FormalsOfArgs(ds))
    decreases ds, 0
  {
    if ds == [] {
      OnlyVarsSelf(t, t);
    } else {
      var rest, d := ds[..|ds| - 1], ds[|ds| - 1];
      ResolveArgsOnlyVars(t, rest);
      var p := ResolveArgs(t, rest).0;
      ResolveFormalsOnlyVars(p, d.names, d.ty);
      OnlyVarsTrans(t, p, ResolveFormals(p, d.names, d.ty).0, FormalsOfArgs(rest), FormalsOf(d.names, d.ty));
    }
  }

  lemma {:induction false} ResolveFormalsOnlyVars(t: Tab, names: seq<string>, ty: AstType)
    requires TabOk(t) && t.Chain() != []
    ensures var p := ResolveFormals(t, names, ty); TabOk(p.0) && OnlyVars(t, p.0, FormalsOf(names, ty))
    decreases ty, 1 + |names|
  {
    if names == [] {
      OnlyVarsSelf(t, t);
    } else {
      var rest, x := names[..|names| - 1], names[|names| - 1];
      ResolveFormalsOnlyVars(t, rest, ty);
      var p := ResolveFormals(t, rest, ty).0;
      ResolveTypeOnlyVars(p, x, ty);
      var q := ResolveType(p, x, ty);
      OnlyVarsTrans(t, p, q.0, FormalsOf(rest, ty), Formals(ty));
      AddVarOnlyVars(q.0, x, q.1, None, false);
      OnlyVarsTrans(t, q.0, AddVar(q.0, x, q.1, None, false).0, FormalsOf(rest, ty) + Formals(ty), {x});
    }
  }
}
