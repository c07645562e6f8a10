// The frame of a subprogram: its locals, whatever their types, tile the frame.
module LocalFrames {
  import opened Basics
  import opened Words
  import opened Scoping
  import opened Symbols
  import opened TypeArena
  import opened Declarations
  import opened Bodies
  import opened Subprograms

  // ---- types without signatures declare no variables ----

  lemma {:induction false} NoFormalsNoVars(t: Tab, name: string, ty: AstType)
    requires |t.types| > VOID_TYPE_IDX && Formals(ty) == {}
    ensures ResolveType(t, name, ty).0.vars == t.vars
    decreases ty, 0
  {
    match ty
    case Pointer(a) => NoFormalsNoVars(t, name, a);
    case Record(fs) => NoFormalsInFields(t, fs);
    case Func(_, args, ret) =>
      NoFormalsNoVars(t, "<func ret>", ret);
      NoFormalsInArgs(ResolveType(t, "<func ret>", ret).0, args);
    case _ =>
  }

  lemma {:induction false} NoFormalsInFields(t: Tab, fs: seq<Field>)
    requires |t.types| > VOID_TYPE_IDX && FormalsOfFields(fs) == {}
    ensures ResolveFields(t, fs).0.vars == t.vars
    decreases fs, 0
  {
    if fs != [] {
      var rest, f := fs[..|fs| - 1], fs[|fs| - 1];
      assert FormalsOfFields(rest) <= FormalsOfFields(fs) && Formals(f.ty) <= FormalsOfFields(fs);
      NoFormalsInFields(t, rest);
      NoFormalsNoVars(ResolveFields(t, rest).0, f.name, f.ty);
    }
  }

  lemma {:induction false} NoFormalsInArgs(t: Tab, ds: seq<Decls>)
    requires |t.types| > VOID_TYPE_IDX && FormalsOfArgs(ds) == {}
    ensures ResolveArgs(t, ds).0.vars == t.vars
    decreases ds, 0
  {
    if ds != [] {
      var rest, d := ds[..|ds| - 1], ds[|ds| - 1];
      assert FormalsOfArgs(rest) <= FormalsOfArgs(ds) && FormalsOf(d.names, d.ty) <= FormalsOfArgs(ds);
      NoFormalsInArgs(t, rest);
      NameIsFormal(d.names, d.ty);
    }
  }

  lemma NameIsFormal(names: seq<string>, ty: AstType)
    ensures names != [] ==> FormalsOf(names, ty) != {}
  {
    if names != [] { assert names[|names| - 1] in FormalsOf(names, ty); }
  }

  // ---- sizes ----

  function SizeOf(t: Tab, i: nat): nat
    requires i < |t.vars| && 0 <= t.vars[i].ty < |t.types|
  {
    t.types[t.vars[i].ty].size
  }

  // The size of a declared type.  Arrays count upper - lower elements, in 64 bits; records count nothing.
  function SizeOfType(t: Tab, ty: AstType): nat
    requires TabOk(t) && AllNamed(t, ty)
  {
    match ty
    case Plain(s) => Primitive(s).size
    case Ref(x) =>
      TypeNamesExactly(t, x);
      ResolvedExists(t, Types, x);
      t.types[ResolveName(t, x)].size
    case Pointer(_) => 8
    case Record(_) => 0
    case Array(lo, hi, s) => (Primitive(s).size * (hi - lo)) % TWO_64
    case Func(_, _, _) => 16
  }

  lemma ResolvedSize(t: Tab, name: string, ty: AstType)
    requires Good(t) && AllNamed(t, ty)
    ensures var p := ResolveType(t, name, ty); 0 <= p.1 < |p.0.types| && p.0.types[p.1].size == SizeOfType(t, ty)
  {
    ResolveInner(t, name, ty);
    match ty
    case Plain(s) => assert t.types[SimpleIdx(s)] == Primitive(s);
    case Array(_, _, s) => assert t.types[SimpleIdx(s)] == Primitive(s);
    case _ =>
  }

  // A later table sees the same sizes.
  lemma SizeStill(t: Tab, u: Tab, ty: AstType)
    requires Good(t) && Onward(t, u) && SameTypes(t, u) && AllNamed(t, ty)
    ensures SizeOfType(u, ty) == SizeOfType(t, ty)
  {
    if ty.Ref? {
      TypeNamesExactly(t, ty.name);
      ResolvedExists(t, Types, ty.name);
    }
  }

  // What one declaration adds to a frame.
  function GroupSize(t: Tab, d: Decls): nat
    requires TabOk(t) && AllNamed(t, d.ty)
  {
    |d.names| * SizeOfType(t, d.ty)
  }

  // What a list of declarations adds to a frame.
  function FrameSize(t: Tab, ds: seq<Decls>): nat
    requires TabOk(t) && NamedInDecls(TypeNames(t), ds)
  {
    if ds == [] then 0
    else FrameSize(t, ds[..|ds| - 1]) + GroupSize(t, ds[|ds| - 1])
  }

  // ---- the tiling ----

  // Where the variable with id i would start, if the running offset were unbounded.
  function Start(t: Tab, lo: nat, off: int, i: nat, locals: bool): int
    requires lo <= i <= |t.vars| && VarsTyped(t)
  {
    if i == lo then off else Shift(Start(t, lo, off, i - 1, locals), SizeOf(t, i - 1), locals)
  }

  // The variables from lo on lie one after the other, from off to end, as an int counts.
  ghost predicate TilesFrom(t: Tab, lo: nat, off: int, end: int, locals: bool) {
    && VarsTyped(t) && lo <= |t.vars|
    && (forall i {:trigger t.vars[i]} :: lo <= i < |t.vars| ==> t.vars[i].offset == Int32(Start(t, lo, off, i, locals)))
    && end == Int32(Start(t, lo, off, |t.vars|, locals))
  }

  // Growing arenas leave the starts where they are.
  lemma {:induction false} StartStill(t: Tab, u: Tab, lo: nat, off: int, i: nat, locals: bool)
    requires lo <= i <= |t.vars| && VarsTyped(t) && VarsTyped(u) && t.vars <= u.vars && t.types <= u.types
    ensures Start(u, lo, off, i, locals) == Start(t, lo, off, i, locals)
  {
    if i > lo { StartStill(t, u, lo, off, i - 1, locals); }
  }

  // Starting from a later variable, at 0.
  lemma {:induction false} StartFrom(t: Tab, lo: nat, mid: nat, off: int, i: nat, locals: bool)
    requires lo <= mid <= i <= |t.vars| && VarsTyped(t)
    ensures Start(t, lo, off, i, locals) == Start(t, lo, off, mid, locals) + Start(t, mid, 0, i, locals)
  {
    if i > mid { StartFrom(t, lo, mid, off, i - 1, locals); }
  }

  lemma {:induction false} EqualSizes(t: Tab, lo: nat, size: nat, off: int, i: nat, locals: bool)
    requires lo <= i <= |t.vars| && VarsTyped(t)
    requires forall k {:trigger t.vars[k]} :: lo <= k < i ==> t.types[t.vars[k].ty].size == size
    ensures Start(t, lo, off, i, locals) == Shift(off, (i - lo) * size, locals)
  {
    if i > lo {
      EqualSizes(t, lo, size, off, i - 1, locals);
      assert (i - lo) * size == (i - 1 - lo) * size + size;
    }
  }

  // The locals of a list of declarations tile the frame, and its size is known beforehand.
  ghost predicate FrameTiled(t: Tab, ds: seq<Decls>, off: int, u: Tab, end: int, locals: bool)
    requires TabOk(t) && NamedInDecls(TypeNames(t), ds)
  {
    && Onward(t, u) && SameTypes(t, u) && TilesFrom(u, |t.vars|, off, end, locals)
    && Start(u, |t.vars|, off, |u.vars|, locals) == Shift(off, FrameSize(t, ds), locals)
  }

  lemma GroupTiles(t: Tab, lo: nat, ty: int, off: int, end: int, locals: bool)
    requires VarsTyped(t) && lo <= |t.vars| && 0 <= ty < |t.types| && Tiles(t, lo, ty, off, end, locals)
    ensures TilesFrom(t, lo, off, end, locals)
    ensures Start(t, lo, 0, |t.vars|, locals) == Shift(0, (|t.vars| - lo) * t.types[ty].size, locals)
  {
    hide Int32, Start;
    forall i | lo <= i <= |t.vars| ensures Start(t, lo, off, i, locals) == Shift(off, (i - lo) * t.types[ty].size, locals) {
      EqualSizes(t, lo, t.types[ty].size, off, i, locals);
    }
    EqualSizes(t, lo, t.types[ty].size, 0, |t.vars|, locals);
  }

  lemma OneGroupTiles(t: Tab, d: Decls, off: int, locals: bool)
    requires Good(t) && AllNamed(t, d.ty) && Formals(d.ty) == {} && Int32(off) == off
    ensures var r := AddGroup(t, d, off, locals);
            r.Some? ==> SameTypes(t, r.value.0) && TilesFrom(r.value.0, |t.vars|, off, r.value.1, locals)
                        && Start(r.value.0, |t.vars|, 0, |r.value.0.vars|, locals) == Shift(0, GroupSize(t, d), locals)
  {
    hide Int32, Start;
    NamedIsKnown(t, d.ty);
    NoFormalsNoVars(t, "<decls>", d.ty);
    ResolvedSize(t, "<decls>", d.ty);
    ResolveInner(t, "<decls>", d.ty);
    var p := ResolveType(t, "<decls>", d.ty);
    var r := AddNames(p.0, d.names, p.1, off, locals);
    if r.Some? {
      AddDeclsOk(t, d, off, locals);
      ChainKept(t, r.value.0, Formals(d.ty) + set x | x in d.names);
      NamesTile(p.0, d.names, p.1, off, locals);
      AddNamesInner(p.0, d.names, p.1, off, locals);
      GroupTiles(r.value.0, |t.vars|, p.1, off, r.value.1, locals);
    }
  }

  // A later group starts where the earlier one ends.
  lemma StartOn(t: Tab, u: Tab, lo: nat, off: int, i: nat, locals: bool)
    requires VarsTyped(t) && VarsTyped(u) && t.vars <= u.vars && t.types <= u.types && lo <= |t.vars| <= i <= |u.vars|
    ensures Start(u, lo, off, i, locals) == Start(t, lo, off, |t.vars|, locals) + Start(u, |t.vars|, 0, i, locals)
    ensures forall mid :: mid == Int32(Start(t, lo, off, |t.vars|, locals)) ==>
                          Int32(Start(u, lo, off, i, locals)) == Int32(Start(u, |t.vars|, mid, i, locals))
  {
    hide Int32;
    StartStill(t, u, lo, off, |t.vars|, locals);
    StartFrom(u, lo, |t.vars|, off, i, locals);
    var mid := Int32(Start(t, lo, off, |t.vars|, locals));
    StartFrom(u, |t.vars|, |t.vars|, mid, i, locals);
    Int32Add(Start(t, lo, off, |t.vars|, locals), Start(u, |t.vars|, 0, i, locals));
  }

  lemma TilesOn(t: Tab, u: Tab, lo: nat, off: int, mid: int, end: int, locals: bool)
    requires TilesFrom(t, lo, off, mid, locals) && TilesFrom(u, |t.vars|, mid, end, locals)
    requires t.vars <= u.vars && t.types <= u.types
    ensures TilesFrom(u, lo, off, end, locals)
    ensures Start(u, lo, off, |u.vars|, locals) == Start(t, lo, off, |t.vars|, locals) + Start(u, |t.vars|, 0, |u.vars|, locals)
  {
    hide Int32, Start;
    forall i | lo <= i < |u.vars| ensures u.vars[i].offset == Int32(Start(u, lo, off, i, locals)) {
      if i < |t.vars| {
        StartStill(t, u, lo, off, i, locals);
        assert u.vars[i] == t.vars[i];
      } else {
        StartOn(t, u, lo, off, i, locals);
      }
    }
    StartOn(t, u, lo, off, |u.vars|, locals);
  }

  // Several declarations of locals, of any types without signatures, tile the frame from the old offset to
  // the new one.
  lemma {:induction false} GroupsTile(t: Tab, ds: seq<Decls>, off: int, locals: bool)
    requires Good(t) && NamedInDecls(TypeNames(t), ds) && Int32(off) == off
    requires forall i :: 0 <= i < |ds| ==> Formals(ds[i].ty) == {}
    ensures var r := AddGroups(t, ds, off, locals); r.Some? ==> FrameTiled(t, ds, off, r.value.0, r.value.1, locals)
  {
    if ds == [] {
      OnwardSelf(t);
    } else {
      hide FrameTiled, Int32, AddGroup, Good, Inner;
      var rest, d := ds[..|ds| - 1], ds[|ds| - 1];
      GroupsTile(t, rest, off, locals);
      var p := AddGroups(t, rest, off, locals);
      if p.Some? { OneMoreTiles(t, ds, off, p.value.0, p.value.1, locals); }
    }
  }

  lemma TiledThen(t: Tab, u: Tab, v: Tab, off: int, mid: int, end: int, n: nat, m: nat, locals: bool)
    requires Good(t) && Onward(t, u) && Onward(u, v) && SameTypes(t, u) && SameTypes(u, v)
    requires TilesFrom(u, |t.vars|, off, mid, locals) && Start(u, |t.vars|, off, |u.vars|, locals) == Shift(off, n, locals)
    requires TilesFrom(v, |u.vars|, mid, end, locals) && Start(v, |u.vars|, 0, |v.vars|, locals) == Shift(0, m, locals)
    ensures Onward(t, v) && SameTypes(t, v) && TilesFrom(v, |t.vars|, off, end, locals)
    ensures Start(v, |t.vars|, off, |v.vars|, locals) == Shift(off, n + m, locals)
  {
    OnwardTrans(t, u, v);
    hide Int32, Good, Start;
    TilesOn(u, v, |t.vars|, off, mid, end, locals);
  }

  lemma OneMoreTiles(t: Tab, ds: seq<Decls>, off: int, u: Tab, mid: int, locals: bool)
    requires Good(t) && NamedInDecls(TypeNames(t), ds) && ds != []
    requires Formals(ds[|ds| - 1].ty) == {} && FrameTiled(t, ds[..|ds| - 1], off, u, mid, locals)
    ensures var r := AddGroup(u, ds[|ds| - 1], mid, locals);
            r.Some? ==> FrameTiled(t, ds, off, r.value.0, r.value.1, locals)
  {
    var rest, d := ds[..|ds| - 1], ds[|ds| - 1];
    SizeStill(t, u, d.ty);
    Int32Idem(Start(u, |t.vars|, off, |u.vars|, locals));
    hide Int32, AddGroup, Good, Inner, Start, TilesFrom, SizeOfType, SameTypes;
    OneGroupTiles(u, d, mid, locals);
    var r := AddGroup(u, d, mid, locals);
    if r.Some? {
      TiledThen(t, u, r.value.0, off, mid, r.value.1, FrameSize(t, rest), GroupSize(t, d), locals);
    }
  }

  // The variables from lo on lie between off and end.
  ghost predicate Within(t: Tab, lo: nat, off: int, end: int)
    requires VarsTyped(t)
  {
    forall i {:trigger t.vars[i]} :: lo <= i < |t.vars| ==>
      off <= t.vars[i].offset && t.vars[i].offset + SizeOf(t, i) <= end
  }

  // No two of them overlap.
  ghost predicate Apart(t: Tab, lo: nat)
    requires VarsTyped(t)
  {
    forall i, j {:trigger t.vars[i], t.vars[j]} :: lo <= i < j < |t.vars| ==>
      t.vars[i].offset + SizeOf(t, i) <= t.vars[j].offset
  }

  lemma {:induction false} StartGrows(t: Tab, lo: nat, off: int, i: nat, j: nat)
    requires VarsTyped(t) && lo <= i <= j <= |t.vars|
    ensures Start(t, lo, off, i, true) <= Start(t, lo, off, j, true)
    decreases j
  {
    if i < j { StartGrows(t, lo, off, i, j - 1); }
  }

  // Below 2^31 nothing wraps around.
  lemma SmallStart(t: Tab, lo: nat, off: int, i: nat)
    requires VarsTyped(t) && lo <= i <= |t.vars| && Int32(off) == off && Start(t, lo, off, |t.vars|, true) < TWO_31
    ensures off <= Start(t, lo, off, i, true) == Int32(Start(t, lo, off, i, true))
  {
    hide Int32;
    Int32Exactly(off);
    StartGrows(t, lo, off, lo, i);
    StartGrows(t, lo, off, i, |t.vars|);
    Int32Exactly(Start(t, lo, off, i, true));
  }

  lemma SmallApart(t: Tab, lo: nat, off: int, end: int)
    requires TilesFrom(t, lo, off, end, true) && Int32(off) == off && Start(t, lo, off, |t.vars|, true) < TWO_31
    ensures Within(t, lo, off, end) && Apart(t, lo)
  {
    forall i | lo <= i < |t.vars| ensures off <= t.vars[i].offset && t.vars[i].offset + SizeOf(t, i) <= end {
      SmallBefore(t, lo, off, end, i, |t.vars|);
    }
    forall i, j | lo <= i < j < |t.vars| ensures t.vars[i].offset + SizeOf(t, i) <= t.vars[j].offset {
      SmallBefore(t, lo, off, end, i, j);
    }
  }

  lemma SmallBefore(t: Tab, lo: nat, off: int, end: int, i: nat, j: nat)
    requires TilesFrom(t, lo, off, end, true) && Int32(off) == off && Start(t, lo, off, |t.vars|, true) < TWO_31
    requires lo <= i < j <= |t.vars|
    ensures off <= t.vars[i].offset
    ensures t.vars[i].offset + SizeOf(t, i) <= if j < |t.vars| then t.vars[j].offset else end
  {
    SmallStart(t, lo, off, i);
    SmallStart(t, lo, off, j);
    StartGrows(t, lo, off, i + 1, j);
    hide Int32;
    assert t.vars[i].offset == Start(t, lo, off, i, true);
  }

  // Tiles that stay between off and end have not wrapped around.
  lemma {:induction false} WithinExact(t: Tab, lo: nat, off: int, end: int, i: nat)
    requires TilesFrom(t, lo, off, end, true) && Int32(off) == off && Within(t, lo, off, end) && lo <= i <= |t.vars|
    ensures Start(t, lo, off, i, true) == Int32(Start(t, lo, off, i, true))
  {
    hide Int32;
    if i > lo {
      WithinExact(t, lo, off, end, i - 1);
      StartGrows(t, lo, off, lo, i);
      assert t.vars[i - 1].offset == Start(t, lo, off, i - 1, true);
      Int32Exactly(off);
      Int32Exactly(Start(t, lo, off, i, true));
    }
  }

  // The locals of a subprogram lie between the old offset and the new one if and only if old offset and frame
  // size add up to less than 2^31, and then no two of them overlap.
  lemma LocalsWithinExactly(t: Tab, ds: seq<Decls>, off: int)
    requires Good(t) && NamedInDecls(TypeNames(t), ds) && Int32(off) == off
    requires forall i :: 0 <= i < |ds| ==> Formals(ds[i].ty) == {}
    ensures var r := AddGroups(t, ds, off, true);
            r.Some? ==> (Within(r.value.0, |t.vars|, off, r.value.1) <==> off + FrameSize(t, ds) < TWO_31)
                        && (off + FrameSize(t, ds) < TWO_31 ==> Apart(r.value.0, |t.vars|))
  {
    hide Int32;
    var r := AddGroups(t, ds, off, true);
    GroupsTile(t, ds, off, true);
    if r.Some? {
      var u, end := r.value.0, r.value.1;
      if Within(u, |t.vars|, off, end) {
        WithinExact(u, |t.vars|, off, end, |u.vars|);
        Int32Exactly(off + FrameSize(t, ds));
      }
      if off + FrameSize(t, ds) < TWO_31 { SmallApart(u, |t.vars|, off, end); }
    }
  }

  // ---- which lists of declarations are accepted ----

  function AllNames(ds: seq<Decls>): seq<string> {
    if ds == [] then [] else AllNames(ds[..|ds| - 1]) + ds[|ds| - 1].names
  }

  lemma NewAppend(c: Chain, c': Chain, a: seq<string>, b: seq<string>)
    requires forall x :: Local(c', Vars, x) <==> Local(c, Vars, x) || x in a
    ensures NewAndDistinct(c, a + b) <==> NewAndDistinct(c, a) && NewAndDistinct(c', b)
  {
    var n := a + b;
    assert forall i :: 0 <= i < |a| ==> n[i] == a[i];
    assert forall i :: 0 <= i < |b| ==> n[|a| + i] == b[i];
    if NewAndDistinct(c, n) {
      forall i | 0 <= i < |b| ensures !Local(c', Vars, b[i]) { assert n[|a| + i] == b[i]; }
      forall i, j | 0 <= i < j < |b| ensures b[i] != b[j] { assert n[|a| + i] == b[i] && n[|a| + j] == b[j]; }
    }
  }

  // Declaring names makes exactly them local.
  ghost predicate Names(t: Tab, u: Tab, names: seq<string>) {
    forall x :: Local(u.Chain(), Vars, x) <==> Local(t.Chain(), Vars, x) || x in names
  }

  lemma OneGroupAccepted(t: Tab, d: Decls, off: int, locals: bool)
    requires Good(t) && AllNamed(t, d.ty) && Formals(d.ty) == {}
    ensures var r := AddGroup(t, d, off, locals);
            (r.Some? <==> NewAndDistinct(t.Chain(), d.names)) && (r.Some? ==> Names(t, r.value.0, d.names))
  {
    NamedIsKnown(t, d.ty);
    ResolveTypeOnlyVars(t, "<decls>", d.ty);
    var p := ResolveType(t, "<decls>", d.ty);
    KnownId(t, "<decls>", d.ty);
    AcceptedExactly(p.0, d.names, p.1, off, locals);
  }

  // Rule 1.1 for several declarations: they are accepted exactly when all their names together are new in the
  // scope and distinct.
  lemma {:induction false} GroupsAcceptedExactly(t: Tab, ds: seq<Decls>, off: int, locals: bool)
    requires Good(t) && NamedInDecls(TypeNames(t), ds)
    requires forall i :: 0 <= i < |ds| ==> Formals(ds[i].ty) == {}
    ensures var r := AddGroups(t, ds, off, locals);
            (r.Some? <==> NewAndDistinct(t.Chain(), AllNames(ds))) && (r.Some? ==> Names(t, r.value.0, AllNames(ds)))
  {
    if ds != [] {
      hide AddGroup, Good, Onward, NewAndDistinct;
      var rest, d := ds[..|ds| - 1], ds[|ds| - 1];
      GroupsAcceptedExactly(t, rest, off, locals);
      var p := AddGroups(t, rest, off, locals);
      if p.Some? {
        OneGroupAccepted(p.value.0, d, p.value.1, locals);
        NewAppend(t.Chain(), p.value.0.Chain(), AllNames(rest), d.names);
      } else {
        NewPrefix(t.Chain(), AllNames(rest), d.names);
      }
    }
  }

  lemma NewPrefix(c: Chain, a: seq<string>, b: seq<string>)
    ensures NewAndDistinct(c, a + b) ==> NewAndDistinct(c, a)
  {
    assert forall i :: 0 <= i < |a| ==> (a + b)[i] == a[i];
  }

  // ---- an array with reversed bounds ----

  // Eleven integers, an array [12..1] of integer, and one more integer.
  function Reversed(names: seq<string>, a: string, z: string): seq<Decls> {
    [Decls(names, Plain(Integer)), Decls([a], Array(12, 1, Integer)), Decls([z], Plain(Integer))]
  }

  // The first name of a declaration gets the running offset.
  lemma {:induction false} FirstEntry(t: Tab, names: seq<string>, ty: int, off: int)
    requires 0 <= ty < |t.types| && names != [] && AddNames(t, names, ty, off, true).Some?
    ensures var u := AddNames(t, names, ty, off, true).value.0;
            |u.vars| == |t.vars| + |names| && t.vars <= u.vars && u.vars[|t.vars|] == VarEntry(ty, names[0], off)
  {
    if |names| > 1 { FirstEntry(t, names[..|names| - 1], ty, off); }
  }

  lemma FirstOfGroup(t: Tab, d: Decls, off: int)
    requires Good(t) && AllNamed(t, d.ty) && Formals(d.ty) == {} && d.names != []
    ensures var r := AddGroup(t, d, off, true);
            r.Some? ==> |r.value.0.vars| == |t.vars| + |d.names| && t.vars <= r.value.0.vars
                        && r.value.0.vars[|t.vars|] == VarEntry(ResolveType(t, "<decls>", d.ty).1, d.names[0], off)
  {
    NamedIsKnown(t, d.ty);
    KnownId(t, "<decls>", d.ty);
    NoFormalsNoVars(t, "<decls>", d.ty);
    var p := ResolveType(t, "<decls>", d.ty);
    if AddNames(p.0, d.names, p.1, off, true).Some? { FirstEntry(p.0, d.names, p.1, off); }
  }

  // Two and three declarations, one after the other.
  lemma TwoGroups(t: Tab, g: Decls, h: Decls)
    requires Good(t) && AllNamed(t, g.ty) && AllNamed(t, h.ty)
    ensures NamedInDecls(TypeNames(t), [g, h]) && AllNames([g, h]) == g.names + h.names
    ensures FrameSize(t, [g, h]) == |g.names| * SizeOfType(t, g.ty) + |h.names| * SizeOfType(t, h.ty)
    ensures AddGroups(t, [g, h], 0, true) ==
            (var p := AddGroup(t, g, 0, true); if p.None? then None else AddGroup(p.value.0, h, p.value.1, true))
  {
    hide AddGroup, Onward, SizeOfType;
    assert [g, h][..1] == [g] && [g][..0] == [];
    assert NamedInDecls(TypeNames(t), []) && NamedInDecls(TypeNames(t), [g]);
    assert FrameSize(t, [g]) == FrameSize(t, [g][..0]) + |g.names| * SizeOfType(t, g.ty);
    assert AllNames([g]) == AllNames([g][..0]) + g.names;
    assert AddGroups(t, [g][..0], 0, true) == Some((t, 0));
    assert AddGroups(t, [g], 0, true) == AddGroup(t, g, 0, true);
  }

  lemma OneMoreGroup(t: Tab, g: Decls, h: Decls, i: Decls)
    requires Good(t) && NamedInDecls(TypeNames(t), [g, h]) && AllNamed(t, i.ty)
    ensures NamedInDecls(TypeNames(t), [g, h, i]) && AllNames([g, h, i]) == AllNames([g, h]) + i.names
    ensures AddGroups(t, [g, h, i], 0, true) ==
            (var p := AddGroups(t, [g, h], 0, true); if p.None? then None else AddGroup(p.value.0, i, p.value.1, true))
  {
    hide AddGroup, Onward;
    assert [g, h, i][..2] == [g, h];
  }

  // Such an array has size 2^64 - 88.
  lemma BackAtZero(t: Tab, g: Decls, h: Decls)
    requires Good(t) && g.ty == Plain(Integer) && |g.names| == 11 && h.ty == Array(12, 1, Integer) && |h.names| == 1
    ensures NamedInDecls(TypeNames(t), [g, h])
    ensures var p := AddGroups(t, [g, h], 0, true); p.Some? ==> p.value.1 == 0
  {
    TwoGroups(t, g, h);
    GroupsTile(t, [g, h], 0, true);
    assert FrameSize(t, [g, h]) == TWO_64;
  }

  lemma EntriesOfThree(t: Tab, g: Decls, h: Decls, i: Decls)
    requires Good(t) && AllNamed(t, g.ty) && AllNamed(t, h.ty) && AllNamed(t, i.ty)
    requires Formals(g.ty) == Formals(h.ty) == Formals(i.ty) == {}
    requires g.names != [] && h.names != [] && i.names != []
    ensures NamedInDecls(TypeNames(t), [g, h]) && NamedInDecls(TypeNames(t), [g, h, i])
    ensures var r := AddGroups(t, [g, h, i], 0, true);
            r.Some? ==> var p, u := AddGroups(t, [g, h], 0, true), r.value.0;
            p.Some? && |p.value.0.vars| == |t.vars| + |g.names| + |h.names| < |u.vars|
            && u.vars[|t.vars|] == VarEntry(ResolveType(t, "<decls>", g.ty).1, g.names[0], 0)
            && u.vars[|p.value.0.vars|] == VarEntry(ResolveType(p.value.0, "<decls>", i.ty).1, i.names[0], p.value.1)
  {
    TwoGroups(t, g, h);
    OneMoreGroup(t, g, h, i);
    hide Good, Inner, AddGroup, AddGroups, ResolveType, NamedInDecls;
    var q, r := AddGroup(t, g, 0, true), AddGroups(t, [g, h, i], 0, true);
    if r.Some? {
      var p := AddGroup(q.value.0, h, q.value.1, true);
      FirstOfGroup(t, g, 0);
      FirstOfGroup(q.value.0, h, q.value.1);
      FirstOfGroup(p.value.0, i, p.value.1);
    }
  }

  // The running offset is back at 0 behind it: the declarations are accepted, and the last integer shares its
  // word with the first one.
  lemma ReversedShares(t: Tab, names: seq<string>, a: string, z: string)
    requires Good(t) && |names| == 11 && NewAndDistinct(t.Chain(), names + [a] + [z])
    ensures NamedInDecls(TypeNames(t), Reversed(names, a, z))
    ensures var r := AddGroups(t, Reversed(names, a, z), 0, true);
            r.Some? && var u := r.value.0;
            |u.vars| > |t.vars| + 12 && u.vars[|t.vars|] == VarEntry(INTEGER_TYPE_IDX, names[0], 0)
            && u.vars[|t.vars| + 12] == VarEntry(INTEGER_TYPE_IDX, z, 0)
  {
    var g, h, i := Decls(names, Plain(Integer)), Decls([a], Array(12, 1, Integer)), Decls([z], Plain(Integer));
    TwoGroups(t, g, h);
    OneMoreGroup(t, g, h, i);
    GroupsAcceptedExactly(t, [g, h, i], 0, true);
    hide Good, Inner, AddGroups, NewAndDistinct, NamedInDecls, AllNames;
    BackAtZero(t, g, h);
    EntriesOfThree(t, g, h, i);
  }

  // ---- an array's last element ----

  // Where element k of an array lies whose first element, with index lo, lies at the given offset.
  function ElementAt(first: int, size: nat, lo: int, k: int): int {
    Int32(first + size * (k - lo))
  }

  lemma SizeWraps(first: int, size: nat, n: int)
    ensures Int32(first + (size * n) % TWO_64) == Int32(first + size * n)
  {
    var x := size * n;
    assert x == TWO_64 * (x / TWO_64) + x % TWO_64 && TWO_64 == TWO_32 * TWO_32;
    assert first + x == first + x % TWO_64 + TWO_32 * (TWO_32 * (x / TWO_64));
    SameRest(first + x % TWO_64, TWO_32 * (x / TWO_64));
  }

  lemma SameRest(x: int, k: int)
    ensures Int32(x + TWO_32 * k) == Int32(x)
  {
    assert (x + TWO_32 * k) % TWO_32 == x % TWO_32;
  }

  // Behind n arrays is where element k of the last one lies, if each is k - lo elements long.
  lemma BehindIsElement(off: int, n: int, elt: nat, lo: int, k: int)
    ensures var size := (elt * (k - lo)) % TWO_64;
            Int32(off + n * size) == ElementAt(Int32(off + (n - 1) * size), elt, lo, k)
  {
    hide Int32;
    var size := (elt * (k - lo)) % TWO_64;
    Int32Add(off + (n - 1) * size, elt * (k - lo));
    SizeWraps(off + (n - 1) * size, elt, k - lo);
    assert off + n * size == off + (n - 1) * size + size;
  }

  // An array has room for upper - lower elements, one too few: what is declared next begins where its last element
  // lies.
  lemma LastElementShared(t: Tab, names: seq<string>, lo: int, hi: int, s: Simple, off: int)
    requires Good(t) && names != [] && Int32(off) == off
    ensures var r := AddGroup(t, Decls(names, Array(lo, hi, s)), off, true);
            r.Some? ==> var u := r.value.0;
            u.vars != [] && u.vars[|u.vars| - 1].name == names[|names| - 1]
            && r.value.1 == ElementAt(u.vars[|u.vars| - 1].offset, Primitive(s).size, lo, hi)
  {
    hide Int32, ElementAt;
    var ty := Array(lo, hi, s);
    ResolvedSize(t, "<decls>", ty);
    NamedIsKnown(t, ty);
    hide Good;
    var p := ResolveType(t, "<decls>", ty);
    if AddNames(p.0, names, p.1, off, true).Some? {
      NamesTile(p.0, names, p.1, off, true);
      BehindIsElement(off, |names|, Primitive(s).size, lo, hi);
    }
  }
}
