// Where a subprogram finds its formals, its locals and its result: formals downward, locals upward.
module FormalFrames {
  import opened Basics
  import opened Words
  import opened Scoping
  import opened Symbols
  import opened TypeArena
  import opened Declarations
  import opened Bodies
  import opened Subprograms
  import opened LocalFrames
  import opened Units

  // No declaration mentions a signature, whose formals would become variables.
  predicate Plainly(ds: seq<Decls>) {
    forall i :: 0 <= i < |ds| ==> Formals(ds[i].ty) == {}
  }

  // ---- one variable per name ----

  lemma {:induction false} NamesEntered(t: Tab, names: seq<string>, ty: int, off: int, locals: bool)
    requires 0 <= ty < |t.types| && AddNames(t, names, ty, off, locals).Some?
    ensures var u := AddNames(t, names, ty, off, locals).value.0;
            && |u.vars| == |t.vars| + |names| && t.vars <= u.vars
            && forall k {:trigger u.vars[k]} :: |t.vars| <= k < |u.vars| ==>
                 u.vars[k].name == names[k - |t.vars|] && u.vars[k].ty == ty
  {
    if names != [] { NamesEntered(t, names[..|names| - 1], ty, off, locals); }
  }

  // From u to v one declaration has been added.
  ghost predicate Entered(u: Tab, v: Tab, names: seq<string>, size: nat) {
    && |v.vars| == |u.vars| + |names| && u.vars <= v.vars && u.types <= v.types && VarsTyped(u) && VarsTyped(v)
    && forall k {:trigger v.vars[k]} :: |u.vars| <= k < |v.vars| ==>
         v.vars[k].name == names[k - |u.vars|] && SizeOf(v, k) == size
  }

  lemma NamesSized(t: Tab, names: seq<string>, ty: int, off: int, locals: bool)
    requires Good(t) && 0 <= ty < |t.types| && AddNames(t, names, ty, off, locals).Some?
    ensures Entered(t, AddNames(t, names, ty, off, locals).value.0, names, t.types[ty].size)
  {
    NamesEntered(t, names, ty, off, locals);
    AddNamesInner(t, names, ty, off, locals);
    var v := AddNames(t, names, ty, off, locals).value.0;
    forall k | |t.vars| <= k < |v.vars| ensures v.vars[k].name == names[k - |t.vars|] && SizeOf(v, k) == t.types[ty].size {
      assert v.vars[k].ty == ty;
    }
  }

  // Entries of types alone make no difference.
  lemma EnteredFrom(t: Tab, u: Tab, v: Tab, names: seq<string>, size: nat)
    requires Entered(u, v, names, size) && u.vars == t.vars && t.types <= u.types && VarsTyped(t)
    ensures Entered(t, v, names, size)
  {
  }

  lemma GroupEntered(t: Tab, d: Decls, off: int, locals: bool)
    requires Good(t) && AllNamed(t, d.ty) && Formals(d.ty) == {}
    ensures var r := AddGroup(t, d, off, locals); r.Some? ==> Entered(t, r.value.0, d.names, SizeOfType(t, d.ty))
  {
    NamedIsKnown(t, d.ty);
    NoFormalsNoVars(t, "<decls>", d.ty);
    ResolvedSize(t, "<decls>", d.ty);
    ResolveInner(t, "<decls>", d.ty);
    var p := ResolveType(t, "<decls>", d.ty);
    hide Entered, SizeOfType, TabOk, WellFounded;
    if AddNames(p.0, d.names, p.1, off, locals).Some? {
      NamesSized(p.0, d.names, p.1, off, locals);
      EnteredFrom(t, p.0, AddNames(p.0, d.names, p.1, off, locals).value.0, d.names, SizeOfType(t, d.ty));
    }
  }

  // The variables from lo on have these names.
  ghost predicate Bearing(u: Tab, lo: nat, names: seq<string>) {
    |u.vars| == lo + |names| && forall k {:trigger u.vars[k]} :: lo <= k < |u.vars| ==> u.vars[k].name == names[k - lo]
  }

  lemma NamedOn(u: Tab, v: Tab, lo: nat, names: seq<string>, more: seq<string>, size: nat)
    requires Bearing(u, lo, names) && Entered(u, v, more, size)
    ensures Bearing(v, lo, names + more)
  {
    forall k | lo <= k < |v.vars| ensures v.vars[k].name == (names + more)[k - lo] {
      if k < |u.vars| { assert v.vars[k] == u.vars[k]; }
    }
  }

  // Several declarations enter all their names in order.
  lemma {:induction false} GroupsEntered(t: Tab, ds: seq<Decls>, off: int, locals: bool)
    requires Good(t) && NamedInDecls(TypeNames(t), ds) && Plainly(ds)
    ensures var r := AddGroups(t, ds, off, locals); r.Some? ==> Bearing(r.value.0, |t.vars|, AllNames(ds))
  {
    if ds != [] {
      hide AddGroup, Good, Inner;
      var rest, d := ds[..|ds| - 1], ds[|ds| - 1];
      GroupsEntered(t, rest, off, locals);
      var p := AddGroups(t, rest, off, locals);
      if p.Some? {
        GroupEntered(p.value.0, d, p.value.1, locals);
        var r := AddGroup(p.value.0, d, p.value.1, locals);
        if r.Some? {
          NamedOn(p.value.0, r.value.0, |t.vars|, AllNames(rest), d.names, SizeOfType(p.value.0, d.ty));
        }
      }
    }
  }

  // ---- formals of one word ----

  // Every declared type takes one word.
  predicate OneWord(t: Tab, ds: seq<Decls>)
    requires TabOk(t)
  {
    forall i :: 0 <= i < |ds| ==> AllNamed(t, ds[i].ty) && SizeOfType(t, ds[i].ty) == 8
  }

  // The variables from lo on take one word each.
  ghost predicate WordSized(u: Tab, lo: nat) {
    VarsTyped(u) && lo <= |u.vars| && forall k {:trigger u.vars[k]} :: lo <= k < |u.vars| ==> SizeOf(u, k) == 8
  }

  lemma WordsOn(u: Tab, v: Tab, lo: nat, more: seq<string>)
    requires WordSized(u, lo) && Entered(u, v, more, 8)
    ensures WordSized(v, lo)
  {
    forall k | lo <= k < |v.vars| ensures SizeOf(v, k) == 8 {
      if k < |u.vars| { assert v.vars[k] == u.vars[k]; }
    }
  }

  lemma {:induction false} WordsEntered(t: Tab, ds: seq<Decls>, off: int, locals: bool)
    requires Good(t) && NamedInDecls(TypeNames(t), ds) && Plainly(ds) && OneWord(t, ds) && Int32(off) == off
    ensures var r := AddGroups(t, ds, off, locals); r.Some? ==> WordSized(r.value.0, |t.vars|)
  {
    if ds != [] {
      hide AddGroup, Good, Inner, FrameTiled;
      var rest, d := ds[..|ds| - 1], ds[|ds| - 1];
      WordsEntered(t, rest, off, locals);
      GroupsTile(t, rest, off, locals);
      var p := AddGroups(t, rest, off, locals);
      if p.Some? { OneMoreWord(t, p.value.0, d, off, p.value.1, rest, locals); }
    }
  }

  lemma OneMoreWord(t: Tab, u: Tab, d: Decls, off: int, mid: int, rest: seq<Decls>, locals: bool)
    requires Good(t) && NamedInDecls(TypeNames(t), rest) && FrameTiled(t, rest, off, u, mid, locals)
    requires AllNamed(t, d.ty) && SizeOfType(t, d.ty) == 8 && Formals(d.ty) == {} && WordSized(u, |t.vars|)
    ensures var r := AddGroup(u, d, mid, locals); r.Some? ==> WordSized(r.value.0, |t.vars|)
  {
    SizeStill(t, u, d.ty);
    GroupEntered(u, d, mid, locals);
    hide Good, Inner, AddGroup, SizeOfType, Entered, WordSized;
    var r := AddGroup(u, d, mid, locals);
    if r.Some? { WordsOn(u, r.value.0, |t.vars|, d.names); }
  }

  // The offset of the first formal: one word above as many words as there are declarations.
  function FirstFormal(ds: seq<Decls>): int {
    8 * (|ds| + 1)
  }

  lemma WordOffset(u: Tab, lo: nat, off: int, end: int, k: nat)
    requires TilesFrom(u, lo, off, end, false) && WordSized(u, lo) && lo <= k < |u.vars|
    ensures u.vars[k].offset == Int32(off - 8 * (k - lo))
  {
    EqualSizes(u, lo, 8, off, k, false);
  }

  lemma FormalsTiled(t: Tab, ds: seq<Decls>, first: int)
    requires Good(t) && NamedInDecls(TypeNames(t), ds) && Plainly(ds) && OneWord(t, ds) && Int32(first) == first
    ensures var r := AddGroups(t, ds, first, false);
            r.Some? ==> WordSized(r.value.0, |t.vars|) && TilesFrom(r.value.0, |t.vars|, first, r.value.1, false)
  {
    WordsEntered(t, ds, first, false);
    GroupsTile(t, ds, first, false);
  }

  // Formals of one word lie downward, word by word, in the order of declaration, so no two of them share a word.
  lemma FormalsDescend(t: Tab, ds: seq<Decls>, i: nat)
    requires Good(t) && NamedInDecls(TypeNames(t), ds) && Plainly(ds) && OneWord(t, ds)
    requires FirstFormal(ds) < TWO_31 && 8 * |AllNames(ds)| <= TWO_31 && i < |AllNames(ds)|
    ensures var r := AddGroups(t, ds, FirstFormal(ds), false);
            r.Some? ==> |r.value.0.vars| == |t.vars| + |AllNames(ds)|
                        && r.value.0.vars[|t.vars| + i].name == AllNames(ds)[i]
                        && r.value.0.vars[|t.vars| + i].offset == 8 * (|ds| + 1) - 8 * i
  {
    var first := FirstFormal(ds);
    Int32Exactly(first);
    Int32Exactly(first - 8 * i);
    hide Good, Onward, Int32, WordSized, TilesFrom, OneWord, Plainly, NamedInDecls, AddGroups, AllNames;
    GroupsEntered(t, ds, first, false);
    FormalsTiled(t, ds, first);
    var r := AddGroups(t, ds, first, false);
    if r.Some? { WordOffset(r.value.0, |t.vars|, first, r.value.1, |t.vars| + i); }
  }

  // No declaration is empty.
  predicate AllNonempty(ds: seq<Decls>) {
    forall i :: 0 <= i < |ds| ==> ds[i].names != []
  }

  lemma {:induction false} NamesAtLeast(ds: seq<Decls>)
    requires AllNonempty(ds)
    ensures |AllNames(ds)| >= |ds|
    ensures |AllNames(ds)| == |ds| <==> forall i :: 0 <= i < |ds| ==> |ds[i].names| == 1
  {
    if ds != [] {
      var rest, d := ds[..|ds| - 1], ds[|ds| - 1];
      NamesAtLeast(rest);
      assert ds == rest + [d];
    }
  }

  // The last formal lies above the words at 0 and 8 if and only if every declaration has a single name: the
  // first offset counts declarations, not names.
  lemma LastFormalAboveExactly(t: Tab, ds: seq<Decls>)
    requires Good(t) && NamedInDecls(TypeNames(t), ds) && Plainly(ds) && OneWord(t, ds)
    requires FirstFormal(ds) < TWO_31 && 8 * |AllNames(ds)| <= TWO_31 && ds != [] && AllNonempty(ds)
    ensures var r := AddGroups(t, ds, FirstFormal(ds), false);
            r.Some? ==> t.vars < r.value.0.vars
                        && (r.value.0.vars[|r.value.0.vars| - 1].offset >= 16 <==>
                            forall i :: 0 <= i < |ds| ==> |ds[i].names| == 1)
  {
    NamesAtLeast(ds);
    FormalsDescend(t, ds, |AllNames(ds)| - 1);
    GroupsEntered(t, ds, FirstFormal(ds), false);
  }

  // ---- the whole frame ----

  // From lo on u has variables of these names, one after the other from off on, as an int counts.
  ghost predicate Placed(u: Tab, lo: nat, names: seq<string>, off: int, locals: bool) {
    && VarsTyped(u) && lo + |names| <= |u.vars|
    && forall k {:trigger u.vars[k]} :: lo <= k < lo + |names| ==>
         u.vars[k].name == names[k - lo] && u.vars[k].offset == Int32(Start(u, lo, off, k, locals))
  }

  lemma PlacedStill(t: Tab, u: Tab, lo: nat, names: seq<string>, off: int, locals: bool)
    requires Placed(t, lo, names, off, locals) && VarsTyped(u) && t.vars <= u.vars && t.types <= u.types
    ensures Placed(u, lo, names, off, locals)
  {
    hide Int32, Start;
    forall k | lo <= k < lo + |names|
      ensures u.vars[k].name == names[k - lo] && u.vars[k].offset == Int32(Start(u, lo, off, k, locals))
    {
      StartStill(t, u, lo, off, k, locals);
      assert u.vars[k] == t.vars[k];
    }
  }

  lemma GroupsPlaced(t: Tab, ds: seq<Decls>, off: int, locals: bool)
    requires Good(t) && NamedInDecls(TypeNames(t), ds) && Plainly(ds) && Int32(off) == off
    ensures var r := AddGroups(t, ds, off, locals);
            r.Some? ==> Onward(t, r.value.0) && Placed(r.value.0, |t.vars|, AllNames(ds), off, locals)
                        && |r.value.0.vars| == |t.vars| + |AllNames(ds)|
                        && r.value.1 == Int32(Start(r.value.0, |t.vars|, off, |r.value.0.vars|, locals))
  {
    GroupsEntered(t, ds, off, locals);
    GroupsTile(t, ds, off, locals);
  }

  // The table after the local types of a subprogram.
  function Typed(t: Tab, s: Subprogram): Option<Tab>
    requires Good(t) && WellNamed(TypeNames(t), s)
  {
    EnterGood(t);
    AddTypes(Note(t, Enter), s.types)
  }

  // The variables of u from lo on are the formals, the locals and the slot for the result.
  ghost predicate LaidOut(u: Tab, lo: nat, s: Subprogram) {
    var mid := lo + |AllNames(s.formals)|;
    var top := mid + |AllNames(s.locals)|;
    && |u.vars| == top + 1
    && Placed(u, lo, AllNames(s.formals), 8 * (|s.formals| + 1), false)
    && Placed(u, mid, AllNames(s.locals), 0, true)
    && u.vars[top].name == s.name && u.vars[top].offset == Int32(Start(u, mid, 0, top, true))
  }

  // The table after the formals and the locals.
  ghost predicate BothPlaced(u: Tab, lo: nat, s: Subprogram, off: int) {
    var mid := lo + |AllNames(s.formals)|;
    && |u.vars| == mid + |AllNames(s.locals)|
    && Placed(u, lo, AllNames(s.formals), FirstFormal(s.formals), false)
    && Placed(u, mid, AllNames(s.locals), 0, true)
    && off == Int32(Start(u, mid, 0, |u.vars|, true))
  }

  lemma LocalsAfter(p: Tab, q: Tab, lo: nat, s: Subprogram, off: int)
    requires Placed(p, lo, AllNames(s.formals), FirstFormal(s.formals), false) && |p.vars| == lo + |AllNames(s.formals)|
    requires p.vars <= q.vars && p.types <= q.types && |q.vars| == |p.vars| + |AllNames(s.locals)|
    requires Placed(q, |p.vars|, AllNames(s.locals), 0, true) && off == Int32(Start(q, |p.vars|, 0, |q.vars|, true))
    ensures BothPlaced(q, lo, s, off)
  {
    hide Start, Int32, AllNames;
    PlacedStill(p, q, lo, AllNames(s.formals), FirstFormal(s.formals), false);
  }

  lemma GroupsLaidOut(t: Tab, s: Subprogram)
    requires Good(t) && NamedInDecls(TypeNames(t), s.formals) && NamedInDecls(TypeNames(t), s.locals)
    requires Plainly(s.formals) && Plainly(s.locals) && FirstFormal(s.formals) < TWO_31
    ensures var p := AddGroups(t, s.formals, FirstFormal(s.formals), false);
            p.Some? ==>
            var q := AddGroups(p.value.0, s.locals, 0, true);
            q.Some? ==> Good(q.value.0) && BothPlaced(q.value.0, |t.vars|, s, q.value.1)
  {
    var first := FirstFormal(s.formals);
    Int32Exactly(first);
    Int32Exactly(0);
    GroupsPlaced(t, s.formals, first, false);
    var p := AddGroups(t, s.formals, first, false);
    if p.Some? {
      hide Placed, BothPlaced, Start, Int32, AddGroups, Plainly, NamedInDecls;
      GroupsPlaced(p.value.0, s.locals, 0, true);
      var q := AddGroups(p.value.0, s.locals, 0, true);
      if q.Some? { LocalsAfter(p.value.0, q.value.0, |t.vars|, s, q.value.1); }
    }
  }

  lemma ResultPlaced(t: Tab, s: Subprogram, off: int)
    requires Good(t) && AllNamed(t, s.ret) && Formals(s.ret) == {}
    ensures var u := WithResult(t, s, off);
            && |u.vars| == |t.vars| + 1 && t.vars <= u.vars && t.types <= u.types && VarsTyped(u)
            && u.vars[|t.vars|].name == s.name && u.vars[|t.vars|].offset == off
  {
    NoFormalsNoVars(t, "<retslot>", s.ret);
    ResolveInner(t, "<retslot>", s.ret);
  }

  lemma OneMoreKeeps(t: Tab, u: Tab, lo: nat, mid: nat, fs: seq<string>, ls: seq<string>, first: int)
    requires Placed(t, lo, fs, first, false) && Placed(t, mid, ls, 0, true) && mid <= |t.vars|
    requires t.vars <= u.vars && t.types <= u.types && VarsTyped(t) && VarsTyped(u)
    ensures Placed(u, lo, fs, first, false) && Placed(u, mid, ls, 0, true)
    ensures Start(u, mid, 0, |t.vars|, true) == Start(t, mid, 0, |t.vars|, true)
  {
    hide Placed, Start, Int32;
    PlacedStill(t, u, lo, fs, first, false);
    PlacedStill(t, u, mid, ls, 0, true);
    StartStill(t, u, mid, 0, |t.vars|, true);
  }

  lemma ResultAfter(t: Tab, u: Tab, lo: nat, s: Subprogram, off: int)
    requires BothPlaced(t, lo, s, off) && VarsTyped(t) && |u.vars| == |t.vars| + 1
    requires t.vars <= u.vars && t.types <= u.types && VarsTyped(u)
    requires u.vars[|t.vars|].name == s.name && u.vars[|t.vars|].offset == off
    ensures LaidOut(u, lo, s)
  {
    hide Placed, Start, Int32, AllNames, VarsTyped;
    var mid := lo + |AllNames(s.formals)|;
    OneMoreKeeps(t, u, lo, mid, AllNames(s.formals), AllNames(s.locals), FirstFormal(s.formals));
  }

  lemma ResultLaidOut(t: Tab, lo: nat, s: Subprogram, off: int)
    requires Good(t) && AllNamed(t, s.ret) && Formals(s.ret) == {} && BothPlaced(t, lo, s, off)
    ensures LaidOut(WithResult(t, s, off), lo, s)
  {
    ResultPlaced(t, s, off);
    hide Good, WithResult, BothPlaced, LaidOut;
    ResultAfter(t, WithResult(t, s, off), lo, s, off);
  }

  // A subprogram's formals lie downward from one word above as many words as there are declarations of them, its
  // locals upward from 0, and the slot for the result, which bears the subprogram's name, behind the locals.
  lemma FrameLaidOut(t: Tab, s: Subprogram)
    requires Good(t) && WellNamed(TypeNames(t), s) && FirstFormal(s.formals) < TWO_31
    requires Plainly(s.formals) && Plainly(s.locals) && Formals(s.ret) == {}
    ensures Opened(t, s).Some? ==> Typed(t, s).Some? && LaidOut(Opened(t, s).value, |Typed(t, s).value.vars|, s)
  {
    if Opened(t, s).Some? {
      EnterGood(t);
      hide Good, Inner, LaidOut, BothPlaced, Plainly, NamedInDecls, TypesNamed, AddGroups;
      var q := WithNames(Note(t, Enter), s).value;
      GroupsLaidOut(Typed(t, s).value, s);
      ResultLaidOut(q.0, |Typed(t, s).value.vars|, s, q.1);
    }
  }

  // The global variables lie upward from 0 in the order of declaration.
  lemma GlobalsLaidOut(u: Unit)
    requires UnitNamed(u) && Plainly(u.decls)
    ensures Globals(u).Some? ==> GlobalTypes(u).Some?
    ensures Globals(u).Some? ==> Placed(Globals(u).value, |GlobalTypes(u).value.vars|, AllNames(u.decls), 0, true)
  {
    Int32Exactly(0);
    if Globals(u).Some? { GroupsPlaced(GlobalTypes(u).value, u.decls, 0, true); }
  }
}
