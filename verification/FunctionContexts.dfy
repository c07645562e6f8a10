// The analysis of functions and procedures: the per-function part of the context and the walk that saves and
// restores it.
module FunctionContexts {
  import opened Basics
  import opened Machine
  import opened Scoping
  import opened Symbols
  import opened TypeArena
  import opened Declarations
  import opened Bodies
  import opened Subprograms
  import opened CodeGen

  // ---- the register pool ----

  // How many temporaries are live after a call as a statement, from k live ones: a declared subprogram's
  // arguments keep their registers, and a library routine frees the first register, whoever owns it.  None
  // when the registers in use are no prefix of the table any more.
  function LiveAfterCall(t: Tab, k: nat, f: string, args: seq<Term>): Option<nat>
    requires Good(t)
  {
    if !NoCallsIn(args) then None
    else if !IsLibrary(t, f) then Some(k + |args|)
    else if k <= 1 then Some(0)
    else None
  }

  // The same for a command, whose terms must not contain calls.
  function LiveAfter(t: Tab, k: nat, c: Cmd): Option<nat>
    requires Good(t)
    decreases c, 1
  {
    match c
    case Skip => Some(k)
    case Set(_, e) => if NoCalls(e) then Some(k) else None
    case If(e, a, b) =>
      var n := LiveAfter(t, k, a);
      if !NoCalls(e) || n.None? then None else LiveAfter(t, n.value, b)
    case While(e, b) => if NoCalls(e) then LiveAfter(t, k, b) else None
    case Block(cs) => LiveAfterAll(t, k, cs)
    case Call(f, args) => LiveAfterCall(t, k, f, args)
  }

  function LiveAfterAll(t: Tab, k: nat, cs: seq<Cmd>): Option<nat>
    requires Good(t)
    decreases cs, 0
  {
    if cs == [] then Some(k)
    else
      var n := LiveAfterAll(t, k, cs[..|cs| - 1]);
      if n.None? then None else LiveAfter(t, n.value, cs[|cs| - 1])
  }

  // A command that calls library routines only returns the empty pool to where it was.
  lemma {:induction false} BalancedAfter(t: Tab, c: Cmd)
    requires Good(t) && Balanced(t, c)
    ensures LiveAfter(t, 0, c) == Some(0)
    decreases c, 1
  {
    match c
    case If(_, a, b) =>
      BalancedAfter(t, a);
      BalancedAfter(t, b);
    case While(_, b) => BalancedAfter(t, b);
    case Block(cs) => BalancedAfterAll(t, cs);
    case _ =>
  }

  lemma {:induction false} BalancedAfterAll(t: Tab, cs: seq<Cmd>)
    requires Good(t) && forall i :: 0 <= i < |cs| ==> Balanced(t, cs[i])
    ensures LiveAfterAll(t, 0, cs) == Some(0)
    decreases cs, 0
  {
    if cs != [] {
      BalancedAfterAll(t, cs[..|cs| - 1]);
      BalancedAfter(t, cs[|cs| - 1]);
    }
  }

  // ---- a rejected beginning ----

  lemma OneMoreCmd(t: Tab, kind: Sub, d: Display, cs: seq<Cmd>, i: nat, name: string)
    requires Good(t) && i < |cs|
    ensures CheckBlock(t, kind, d, cs[..i + 1]) ==
            (var p := CheckBlock(t, kind, d, cs[..i]); if p.None? then None else CheckCmd(t, kind, p.value, cs[i]))
    ensures Assigns(Block(cs[..i + 1]), name) <==> Assigns(Block(cs[..i]), name) || Assigns(cs[i], name)
    ensures LabelsInAll(cs[..i + 1]) == LabelsInAll(cs[..i]) + LabelsIn(cs[i])
    ensures forall k :: LiveAfterAll(t, k, cs[..i + 1]) ==
                        (var n := LiveAfterAll(t, k, cs[..i]); if n.None? then None else LiveAfter(t, n.value, cs[i]))
  {
    var more, less := cs[..i + 1], cs[..i];
    assert more[..i] == less && more[i] == cs[i] && forall j :: 0 <= j < i ==> more[j] == less[j];
  }

  lemma {:induction false} RejectedCmds(t: Tab, kind: Sub, d: Display, cs: seq<Cmd>, i: nat)
    requires Good(t) && i <= |cs| && CheckBlock(t, kind, d, cs[..i]).None?
    ensures CheckBlock(t, kind, d, cs).None?
  {
    if i == |cs| {
      assert cs[..i] == cs;
    } else {
      assert cs[..|cs| - 1][..i] == cs[..i];
      RejectedCmds(t, kind, d, cs[..|cs| - 1], i);
    }
  }

  lemma {:induction false} RejectedMagic(t: Tab, d: Display, which: int, args: seq<Term>, i: nat)
    requires Good(t) && i <= |args| && CheckMagicArgs(t, d, which, args[..i]).None?
    ensures CheckMagicArgs(t, d, which, args).None?
  {
    if i == |args| {
      assert args[..i] == args;
    } else {
      assert args[..|args| - 1][..i] == args[..i];
      RejectedMagic(t, d, which, args[..|args| - 1], i);
    }
  }

  lemma {:induction false} RejectedArgs(t: Tab, d: Display, args: seq<Term>, formals: seq<nat>, i: nat)
    requires Good(t) && |args| == |formals| && FormalsOk(t, formals) && i <= |args|
    requires CheckArgs(t, d, args[..i], formals[..i]).None?
    ensures CheckArgs(t, d, args, formals).None?
  {
    if i == |args| {
      assert args[..i] == args && formals[..i] == formals;
    } else {
      assert args[..|args| - 1][..i] == args[..i] && formals[..|args| - 1][..i] == formals[..i];
      RejectedArgs(t, d, args[..|args| - 1], formals[..|args| - 1], i);
    }
  }

  lemma {:induction false} RejectedGroups(t: Tab, ds: seq<Decls>, i: nat, off: int, locals: bool)
    requires Good(t) && i <= |ds| && NamedInDecls(TypeNames(t), ds) && NamedInDecls(TypeNames(t), ds[..i])
    requires AddGroups(t, ds[..i], off, locals).None?
    ensures AddGroups(t, ds, off, locals).None?
  {
    if i == |ds| {
      assert ds[..i] == ds;
    } else {
      assert ds[..|ds| - 1][..i] == ds[..i];
      RejectedGroups(t, ds[..|ds| - 1], i, off, locals);
    }
  }

  lemma {:induction false} NamedPrefix(names: set<string>, ds: seq<Decls>, i: nat)
    requires i <= |ds| && NamedInDecls(names, ds)
    ensures NamedInDecls(names, ds[..i]) && forall j :: 0 <= j < i ==> NamedIn(names, ds[j].ty)
  {
    if ds == [] {
      assert ds[..i] == ds;
    } else if i == |ds| {
      assert ds[..i] == ds;
      NamedPrefix(names, ds[..|ds| - 1], |ds| - 1);
    } else {
      NamedPrefix(names, ds[..|ds| - 1], i);
      assert ds[..|ds| - 1][..i] == ds[..i];
    }
  }

  lemma {:induction false} RejectedTypes(t: Tab, ts: seq<TypeDecl>, i: nat)
    requires Good(t) && i <= |ts| && TypesNamed(TypeNames(t), ts) && TypesNamed(TypeNames(t), ts[..i])
    requires AddTypes(t, ts[..i]).None?
    ensures AddTypes(t, ts).None?
  {
    if i == |ts| {
      assert ts[..i] == ts;
    } else {
      assert ts[..|ts| - 1][..i] == ts[..i];
      RejectedTypes(t, ts[..|ts| - 1], i);
    }
  }

  lemma {:induction false} TypesPrefix(names: set<string>, ts: seq<TypeDecl>, i: nat)
    requires i <= |ts| && TypesNamed(names, ts)
    ensures TypesNamed(names, ts[..i])
    ensures i < |ts| ==> KeepsName(ts[i].ty) && NamedIn(names + NamesOf(ts[..i]), ts[i].ty)
  {
    if i == |ts| {
      assert ts[..i] == ts;
    } else if i < |ts| - 1 {
      TypesPrefix(names, ts[..|ts| - 1], i);
      assert ts[..|ts| - 1][..i] == ts[..i];
    }
  }

  lemma NoTypes(t: Tab)
    requires Good(t)
    ensures TabOk(t) && TypesNamed(TypeNames(t), []) && AddTypes(t, []) == Some(t)
  {
  }

  lemma OneMoreType(t: Tab, ts: seq<TypeDecl>, i: nat)
    requires Good(t) && TypesNamed(TypeNames(t), ts) && i < |ts|
    ensures TypesNamed(TypeNames(t), ts[..i]) && TypesNamed(TypeNames(t), ts[..i + 1]) && KeepsName(ts[i].ty)
    ensures AddTypes(t, ts[..i]).Some? ==> Good(AddTypes(t, ts[..i]).value)
    ensures AddTypes(t, ts[..i + 1]) ==
            (var p := AddTypes(t, ts[..i]);
             if p.None? then None else Declarations.AddType(p.value, ts[i].name, ts[i].ty))
  {
    TypesPrefix(TypeNames(t), ts, i);
    TypesPrefix(TypeNames(t), ts, i + 1);
    assert ts[..i + 1][..i] == ts[..i];
  }

  lemma {:induction false} WellNamedPrefix(names: set<string>, ss: seq<Subprogram>, i: nat)
    requires i <= |ss| && AllWellNamed(names, ss)
    ensures AllWellNamed(names, ss[..i]) && forall j :: 0 <= j < i ==> WellNamed(names, ss[j])
  {
    if ss == [] {
      assert ss[..i] == ss;
    } else if i == |ss| {
      assert ss[..i] == ss;
      WellNamedPrefix(names, ss[..|ss| - 1], |ss| - 1);
    } else {
      WellNamedPrefix(names, ss[..|ss| - 1], i);
      assert ss[..|ss| - 1][..i] == ss[..i];
    }
  }

  lemma OneMoreSub(t: Tab, d: Display, ss: seq<Subprogram>, i: nat)
    requires Good(t) && AllWellNamed(TypeNames(t), ss) && i < |ss|
    ensures AllWellNamed(TypeNames(t), ss[..i]) && AllWellNamed(TypeNames(t), ss[..i + 1])
    ensures WellNamed(TypeNames(t), ss[i])
    ensures CheckSubs(t, d, ss[..i + 1]) ==
            (var p := CheckSubs(t, d, ss[..i]); if p.None? then None else CheckNext(p.value.0, p.value.1, ss[i]))
  {
    WellNamedPrefix(TypeNames(t), ss, i);
    WellNamedPrefix(TypeNames(t), ss, i + 1);
    assert ss[..i + 1][..i] == ss[..i];
  }

  lemma SubsGood(t: Tab, d: Display, ss: seq<Subprogram>)
    requires Good(t) && AllWellNamed(TypeNames(t), ss) && CheckSubs(t, d, ss).Some?
    ensures var u := CheckSubs(t, d, ss).value.0; Good(u) && TypeNames(u) == TypeNames(t)
  {
    assert TabOk(t);
    hide Good, CheckSubs;
    assert Onward(t, CheckSubs(t, d, ss).value.0);
  }

  lemma NextNamed(t: Tab, s: Subprogram)
    requires Good(t) && WellNamed(TypeNames(t), s)
    ensures var f := AddFunc(t, s.name, s.Head());
            f.Some? ==> Good(f.value) && WellNamed(TypeNames(f.value), s) && Onward(t, f.value)
  {
    AddFuncInner(t, s);
  }

  lemma {:induction false} RejectedSubs(t: Tab, d: Display, ss: seq<Subprogram>, i: nat)
    requires Good(t) && AllWellNamed(TypeNames(t), ss) && i <= |ss| && AllWellNamed(TypeNames(t), ss[..i])
    requires CheckSubs(t, d, ss[..i]).None?
    ensures CheckSubs(t, d, ss).None?
  {
    if i == |ss| {
      assert ss[..i] == ss;
    } else {
      assert ss[..|ss| - 1][..i] == ss[..i];
      RejectedSubs(t, d, ss[..|ss| - 1], i);
    }
  }

  class Fcx {
    const acx: Acx
    var toplevel: bool
    var name: string
    var kind: Sub
    var retAssigned: bool
    var dispOffset: nat
    var slots: map<nat, nat>   // the captured variables with their display offsets

    // The context that analyze starts from.
    constructor (acx: Acx)
      ensures this.acx == acx && !toplevel && !retAssigned && kind == Procedure && Disp() == Display(map[], 0)
    {
      this.acx := acx;
      toplevel := false;
      name := "@~unassignable~@";
      kind := Procedure;
      retAssigned := false;
      dispOffset := 0;
      slots := map[];
    }

    function Disp(): Display
      reads `slots, `dispOffset
    {
      Display(slots, dispOffset)
    }

    // The symbol table holds t, and the rest of the context is not part of it.
    ghost predicate Over(t: Tab)
      reads acx.st, acx.st.Repr
    {
      && acx.regsUsed.Length == NUM_REGS
      && this !in acx.st.Repr && acx !in acx.st.Repr && acx.regsUsed !in acx.st.Repr
      && Holds(t)
    }

    ghost predicate Holds(t: Tab)
      reads acx.st, acx.st.Repr
    {
      acx.st.Valid() && acx.st.View() == t
    }

    // A register was taken and has not been given back.
    predicate Owns(r: Handle, before: nat)
      reads acx`overflow
    {
      r.which < NUM_REGS && acx.overflow >= before + if r.needRestore then 1 else 0
    }

    // type_of_path of one component: a register, and a display slot on the first mention of an outer variable.
    method TypeOfPath(x: string, ghost t: Tab, ghost k: nat) returns (ok: bool, ty: int, r: Handle)
      requires Good(t) && Over(t) && acx.Pool()
      modifies `slots, `dispOffset, acx`overflow, acx`ofd, acx.regsUsed
      ensures ok <==> Named(t, x).Some?
      ensures acx.Pool() && (ok ==> Owns(r, old(acx.overflow)))
      ensures ok && old(acx.Live(k)) ==> acx.Live(k + 1) && r == HandleOf(acx.sch, k)
      ensures ok ==> Disp() == Touch(t, old(Disp()), x) && ty == t.vars[Named(t, x).value].ty
    {
      hide Holds;
      var id;
      id, ty := Find(x, t);
      ok := id.Some?;
      r := Handle(0, 0, false);
      if !ok { return; }
      r := acx.RegGimme(k);
      var isLocal := IsLocal(x, t);
      if !isLocal {
        if id.value !in slots {
          slots := slots[id.value := dispOffset];
          dispOffset := dispOffset + 1;
        }
      }
    }

    method Find(x: string, ghost t: Tab) returns (id: Option<nat>, ty: int)
      requires Good(t) && Over(t)
      ensures id == Named(t, x)
      ensures id.Some? ==> ty == t.vars[id.value].ty
    {
      id := acx.st.ResolveId(Vars, x);
      ty := UNRESOLVED;
      if id.Some? {
        assert id == Named(t, x) && |acx.st.vars.contents| == |t.vars|;
        var v := acx.st.vars.At(id.value);
        ty := v.ty;
      }
    }

    method FindRoutine(f: string, ghost t: Tab) returns (entry: Option<TypeEntry>)
      requires Good(t) && Over(t)
      ensures entry == Routine(t, f)
    {
      var id := acx.st.ResolveId(Funcs, f);
      entry := None;
      if id.Some? {
        ResolvedExists(t, Funcs, f);
        assert |acx.st.types.contents| == |t.types|;
        var e := acx.st.types.At(id.value);
        entry := Some(e);
      }
    }

    method TypeOfVar(id: nat, ghost t: Tab) returns (ty: int)
      requires Over(t) && id < |t.vars|
      ensures ty == t.vars[id].ty
    {
      assert |acx.st.vars.contents| == |t.vars|;
      var v := acx.st.vars.At(id);
      ty := v.ty;
    }

    method IsLocal(x: string, ghost t: Tab) returns (b: bool)
      requires Good(t) && Over(t)
      ensures b == Local(t.Chain(), Vars, x)
    {
      b := acx.st.HasLocal(Vars, x);
    }

    method SameType(a: int, b: int, ghost t: Tab) returns (r: Option<bool>)
      requires Good(t) && Over(t) && 0 <= a < |t.types| && 0 <= b < |t.types|
      ensures r == TypesEq(t, a, b)
    {
      r := acx.st.SameType(a, b);
    }

    // analyze_expr
    method AnalyzeTerm(e: Term, ghost t: Tab, ghost k: nat) returns (ok: bool, ty: int, r: Handle)
      requires Good(t) && Over(t) && acx.Pool()
      modifies `slots, `dispOffset, acx`overflow, acx`ofd, acx.regsUsed
      ensures ok <==> CheckTerm(t, old(Disp()), e).Some?
      ensures acx.Pool() && (ok ==> Owns(r, old(acx.overflow)))
      ensures ok ==> CheckTerm(t, old(Disp()), e) == Some((ty, Disp()))
      ensures ok && NoCalls(e) && old(acx.Live(k)) ==> acx.Live(k + 1) && r == HandleOf(acx.sch, k)
      decreases e, 0
    {
      hide Holds, Good;
      match e {
        case Number(_) =>
          r := acx.RegGimme(k);
          ok, ty := true, INTEGER_TYPE_IDX;
        case Name(x) =>
          ok, ty, r := TypeOfPath(x, t, k);
        case Binary(op, left, right) =>
          ok, ty, r := AnalyzeTerm(left, t, k);
          if !ok { return; }
          var tyr, rr;
          ok, tyr, rr := AnalyzeTerm(right, t, k + 1);
          if !ok { return; }
          if ty != tyr { return false, ty, r; }
          acx.RegTakeItBack(rr, k + 1);
          if op.Comparison? {
            ty := BOOLEAN_TYPE_IDX;
          }
        case Apply(f, args) =>
          ok, ty, r := AnalyzeCall(f, args, t, k);
      }
    }

    // analyze_call: the registers of a declared subprogram's arguments stay in use.
    method AnalyzeCall(f: string, args: seq<Term>, ghost t: Tab, ghost k: nat) returns (ok: bool, ty: int, r: Handle)
      requires Good(t) && Over(t) && acx.Pool()
      modifies `slots, `dispOffset, acx`overflow, acx`ofd, acx.regsUsed
      ensures ok <==> CheckCall(t, old(Disp()), f, args).Some?
      ensures acx.Pool() && (ok ==> Owns(r, old(acx.overflow)))
      ensures ok ==> CheckCall(t, old(Disp()), f, args) == Some((ty, Disp()))
      ensures ok && NoCallsIn(args) && old(acx.Live(k)) ==>
              if IsLibrary(t, f) then acx.Live(k) && r == Handle(0, 0, false)
              else acx.Live(k + |args| + 1) && r == HandleOf(acx.sch, k + |args|)
      decreases args, 2
    {
      hide Holds, Good;
      ty, r := VOID_TYPE_IDX, Handle(0, 0, false);
      var entry := FindRoutine(f, t);
      if entry.None? { return false, ty, r; }
      if entry.value.magic != 0 {
        ok := AnalyzeMagic(entry.value.magic, args, t, k);
      } else if !entry.value.desc.DFunc? || |args| != |entry.value.desc.args| {
        ok := false;
      } else {
        ok := AnalyzeArgs(args, entry.value.desc.args, t, k);
        ty := entry.value.desc.ret;
        if ok {
          r := acx.RegGimme(k + |args|);
        }
      }
    }

    // The arguments of a declared subprogram, whose registers are not given back.
    method AnalyzeArgs(args: seq<Term>, formals: seq<nat>, ghost t: Tab, ghost k: nat) returns (ok: bool)
      requires Good(t) && Over(t) && acx.Pool() && |args| == |formals| && FormalsOk(t, formals)
      modifies `slots, `dispOffset, acx`overflow, acx`ofd, acx.regsUsed
      ensures ok <==> CheckArgs(t, old(Disp()), args, formals).Some?
      ensures acx.Pool() && (ok ==> acx.overflow >= old(acx.overflow))
      ensures ok ==> CheckArgs(t, old(Disp()), args, formals) == Some(Disp())
      ensures ok && NoCallsIn(args) && old(acx.Live(k)) ==> acx.Live(k + |args|)
      decreases args, 1
    {
      hide Holds, Good;
      ghost var d := Disp();
      assert args[..0] == [] && formals[..0] == [];
      for i := 0 to |args|
        invariant Over(t) && acx.Pool() && acx.overflow >= old(acx.overflow)
        invariant CheckArgs(t, d, args[..i], formals[..i]) == Some(Disp())
        invariant NoCallsIn(args) && old(acx.Live(k)) ==> acx.Live(k + i)
      {
        assert args[..i + 1][..i] == args[..i] && formals[..i + 1][..i] == formals[..i];
        ok := AnalyzeArg(args[i], formals[i], t, k + i);
        if !ok {
          RejectedArgs(t, d, args, formals, i + 1);
          return;
        }
      }
      assert args[..|args|] == args && formals[..|args|] == formals;
      ok := true;
    }

    // A type that differs from the formal's is only reported.
    method AnalyzeArg(e: Term, formal: nat, ghost t: Tab, ghost k: nat) returns (ok: bool)
      requires Good(t) && Over(t) && acx.Pool() && formal < |t.vars| && 0 <= t.vars[formal].ty < |t.types|
      modifies `slots, `dispOffset, acx`overflow, acx`ofd, acx.regsUsed
      ensures var q := CheckTerm(t, old(Disp()), e);
              && (ok <==> q.Some? && TypesEq(t, q.value.0, t.vars[formal].ty).Some?)
              && (ok ==> q.value.1 == Disp())
      ensures acx.Pool() && (ok ==> acx.overflow >= old(acx.overflow))
      ensures ok && NoCalls(e) && old(acx.Live(k)) ==> acx.Live(k + 1)
      decreases e, 1
    {
      hide Holds, Good;
      var ty, r;
      ok, ty, r := AnalyzeTerm(e, t, k);
      if !ok { return; }
      var want := TypeOfVar(formal, t);
      var same := SameType(ty, want, t);
      ok := same.Some?;
    }

    // analyze_magic: the register of each argument is given back.
    method AnalyzeMagic(which: int, args: seq<Term>, ghost t: Tab, ghost k: nat) returns (ok: bool)
      requires Good(t) && Over(t) && acx.Pool()
      modifies `slots, `dispOffset, acx`overflow, acx`ofd, acx.regsUsed
      ensures ok <==> CheckMagic(t, old(Disp()), which, args).Some?
      ensures acx.Pool() && (ok ==> acx.overflow >= old(acx.overflow))
      ensures ok ==> CheckMagic(t, old(Disp()), which, args) == Some(Disp())
      ensures ok && NoCallsIn(args) && old(acx.Live(k)) ==> acx.Live(k)
      decreases args, 1
    {
      hide Holds, Good;
      ghost var d := Disp();
      if !Writes(which) && !Reads(which) { return false; }
      assert args[..0] == [];
      for i := 0 to |args|
        invariant Over(t) && acx.Pool() && acx.overflow >= old(acx.overflow)
        invariant CheckMagicArgs(t, d, which, args[..i]) == Some(Disp())
        invariant NoCallsIn(args) && old(acx.Live(k)) ==> acx.Live(k)
      {
        assert args[..i + 1][..i] == args[..i];
        ok := AnalyzeMagicArg(which, args[i], t, k);
        if !ok {
          RejectedMagic(t, d, which, args, i + 1);
          return;
        }
      }
      assert args[..|args|] == args;
      ok := true;
    }

    method AnalyzeMagicArg(which: int, e: Term, ghost t: Tab, ghost k: nat) returns (ok: bool)
      requires Good(t) && Over(t) && acx.Pool()
      modifies `slots, `dispOffset, acx`overflow, acx`ofd, acx.regsUsed
      ensures var q := CheckTerm(t, old(Disp()), e);
              && (ok <==> q.Some? && TakesArgument(which, e, q.value.0))
              && (ok ==> q.value.1 == Disp())
      ensures acx.Pool() && (ok ==> acx.overflow >= old(acx.overflow))
      ensures ok && NoCalls(e) && old(acx.Live(k)) ==> acx.Live(k)
      decreases e, 1
    {
      hide Holds, Good;
      if !Writes(which) && !e.Name? { return false; }
      var ty, r;
      ok, ty, r := AnalyzeTerm(e, t, k);
      if !ok { return; }
      if ty > VOID_TYPE_IDX { return false; }
      acx.RegTakeItBack(r, k);
    }

    // A condition with its two labels.
    method AnalyzeTest(e: Term, ghost t: Tab, ghost k: nat) returns (ok: bool)
      requires Good(t) && Over(t) && acx.Pool()
      modifies `slots, `dispOffset, acx`overflow, acx`ofd, acx`label_, acx.regsUsed
      ensures ok <==> CheckTest(t, old(Disp()), e).Some?
      ensures acx.Pool() && (ok ==> CheckTest(t, old(Disp()), e) == Some(Disp()))
      ensures ok ==> acx.label_ == old(acx.label_) + 2
      ensures ok && NoCalls(e) && old(acx.Live(k)) ==> acx.Live(k)
    {
      hide Holds, Good;
      var ty, r;
      ok, ty, r := AnalyzeTerm(e, t, k);
      if !ok { return; }
      if ty != BOOLEAN_TYPE_IDX { return false; }
      acx.label_ := acx.label_ + 2;
      acx.RegTakeItBack(r, k);
    }

    // check_assignability of a one-component path, with its note of an assignment to the result.
    method CheckAssignability(x: string, ghost t: Tab) returns (ok: bool)
      requires Good(t) && Over(t) && (toplevel ==> kind == Procedure)
      modifies `retAssigned
      ensures ok <==> Assignable(t, kind, x)
      ensures ok ==> retAssigned == (old(retAssigned) || (!toplevel && name == x))
    {
      if toplevel { return true; }
      if kind == Function {
        var isLocal := IsLocal(x, t);
        if !isLocal { return false; }
      }
      if name == x {
        retAssigned := true;
      }
      ok := true;
    }

    // The left side of an assignment.
    method AnalyzeTarget(x: string, ghost t: Tab, ghost k: nat) returns (ok: bool, ty: int, l: Handle)
      requires Good(t) && Over(t) && acx.Pool() && (toplevel ==> kind == Procedure)
      modifies `slots, `dispOffset, `retAssigned, acx`overflow, acx`ofd, acx.regsUsed
      ensures ok <==> Named(t, x).Some? && Assignable(t, kind, x)
      ensures acx.Pool() && (ok ==> Owns(l, old(acx.overflow)))
      ensures ok && old(acx.Live(k)) ==> acx.Live(k + 1) && l == HandleOf(acx.sch, k)
      ensures ok ==> retAssigned == (old(retAssigned) || (!toplevel && name == x))
      ensures ok ==> Disp() == Touch(t, old(Disp()), x) && 0 <= ty < |t.types| && ty == t.vars[Named(t, x).value].ty
    {
      hide Holds;
      ok, ty, l := TypeOfPath(x, t, k);
      if !ok { return; }
      ok := CheckAssignability(x, t);
    }

    // STMT_ASSIGN
    method AnalyzeSet(x: string, e: Term, ghost t: Tab, ghost k: nat) returns (ok: bool)
      requires Good(t) && Over(t) && acx.Pool() && (toplevel ==> kind == Procedure)
      modifies `slots, `dispOffset, `retAssigned, acx`overflow, acx`ofd, acx.regsUsed
      ensures ok <==> CheckSet(t, kind, old(Disp()), x, e).Some?
      ensures acx.Pool() && (ok ==> CheckSet(t, kind, old(Disp()), x, e) == Some(Disp()))
      ensures ok ==> retAssigned == (old(retAssigned) || (!toplevel && name == x))
      ensures ok && NoCalls(e) && old(acx.Live(k)) ==> acx.Live(k)
    {
      hide Holds, Good, CheckTerm, TypesEq;
      var tyl, l;
      ok, tyl, l := AnalyzeTarget(x, t, k);
      if !ok { return; }
      var tyr, r;
      ok, tyr, r := AnalyzeTerm(e, t, k + 1);
      if !ok { return; }
      var same := SameType(tyr, tyl, t);
      ok := same == Some(true);
      acx.RegTakeItBack(r, k + 1);
      acx.RegTakeItBack(l, k);
    }

    // The pool of k live temporaries without the first register.
    ghost predicate FirstFreed(k: nat)
      reads acx`overflow, acx.regsUsed
    {
      && acx.regsUsed.Length == NUM_REGS
      && (forall i :: 0 <= i < NUM_REGS ==> (acx.regsUsed[i] <==> 0 < i < k))
      && acx.overflow == 6 + if k < NUM_REGS then 0 else k - NUM_REGS
    }

    // It is as before only if no temporary was live, and a prefix of the table only up to one.
    lemma FirstFreedLive(k: nat)
      requires FirstFreed(k)
      ensures acx.Live(k) <==> k == 0
      ensures k <= 1 ==> acx.Live(0)
      ensures k > 1 ==> forall n :: !acx.Live(n)
    {
      assert !acx.regsUsed[0] && (acx.regsUsed[1] <==> k > 1);
    }

    // STMT_PROC: the register of a declared subprogram's result is given back, and those of its arguments are
    // not; for a library routine register 0 is.
    method AnalyzeProc(f: string, args: seq<Term>, ghost t: Tab, ghost k: nat) returns (ok: bool)
      requires Good(t) && Over(t) && acx.Pool()
      modifies `slots, `dispOffset, acx`overflow, acx`ofd, acx.regsUsed
      ensures ok <==> CheckCall(t, old(Disp()), f, args).Some?
      ensures acx.Pool() && (ok ==> Slots(CheckCall(t, old(Disp()), f, args)) == Some(Disp()))
      ensures ok && NoCallsIn(args) && old(acx.Live(k)) ==>
              if IsLibrary(t, f) then FirstFreed(k) else acx.Live(k + |args|)
      ensures ok && old(acx.Live(k)) && LiveAfterCall(t, k, f, args).Some? ==> acx.Live(LiveAfterCall(t, k, f, args).value)
    {
      hide Holds, Good;
      var ty, r;
      ok, ty, r := AnalyzeCall(f, args, t, k);
      if ok {
        acx.RegTakeItBack(r, k + |args|);
        if old(acx.Live(k)) && NoCallsIn(args) && IsLibrary(t, f) { FirstFreedLive(k); }
      }
    }

    // analyze_stmt
    method AnalyzeCmd(c: Cmd, ghost t: Tab, ghost k: nat) returns (ok: bool)
      requires Good(t) && Over(t) && acx.Pool() && (toplevel ==> kind == Procedure)
      modifies `slots, `dispOffset, `retAssigned, acx`overflow, acx`ofd, acx`label_, acx.regsUsed
      ensures ok <==> CheckCmd(t, kind, old(Disp()), c).Some?
      ensures acx.Pool() && (ok ==> CheckCmd(t, kind, old(Disp()), c) == Some(Disp()))
      ensures ok ==> retAssigned == (old(retAssigned) || (!toplevel && Assigns(c, name)))
      ensures ok ==> acx.label_ == old(acx.label_) + LabelsIn(c)
      ensures ok && old(acx.Live(k)) && LiveAfter(t, k, c).Some? ==> acx.Live(LiveAfter(t, k, c).value)
      decreases c, 1
    {
      hide Holds, Good;
      match c {
        case Skip => ok := true;
        case Set(x, e) => ok := AnalyzeSet(x, e, t, k);
        case If(e, thn, els) =>
          ok := AnalyzeTest(e, t, k);
          if !ok { return; }
          ok := AnalyzeCmd(thn, t, k);
          if !ok { return; }
          ok := AnalyzeCmd(els, t, if LiveAfter(t, k, thn).Some? then LiveAfter(t, k, thn).value else 0);
        case While(e, body) =>
          ok := AnalyzeTest(e, t, k);
          if !ok { return; }
          ok := AnalyzeCmd(body, t, k);
        case Block(cs) => ok := AnalyzeBlock(cs, t, k);
        case Call(f, args) => ok := AnalyzeProc(f, args, t, k);
      }
    }

    // STMT_STMTS
    method AnalyzeBlock(cs: seq<Cmd>, ghost t: Tab, ghost k: nat) returns (ok: bool)
      requires Good(t) && Over(t) && acx.Pool() && (toplevel ==> kind == Procedure)
      modifies `slots, `dispOffset, `retAssigned, acx`overflow, acx`ofd, acx`label_, acx.regsUsed
      ensures ok <==> CheckBlock(t, kind, old(Disp()), cs).Some?
      ensures acx.Pool() && (ok ==> CheckBlock(t, kind, old(Disp()), cs) == Some(Disp()))
      ensures ok ==> retAssigned == (old(retAssigned) || (!toplevel && Assigns(Block(cs), name)))
      ensures ok ==> acx.label_ == old(acx.label_) + LabelsInAll(cs)
      ensures ok && old(acx.Live(k)) && LiveAfterAll(t, k, cs).Some? ==> acx.Live(LiveAfterAll(t, k, cs).value)
      decreases cs, 0
    {
      hide Holds, Good;
      ghost var d, was, lbl := Disp(), retAssigned, acx.label_;
      assert cs[..0] == [];
      for i := 0 to |cs|
        invariant Over(t) && acx.Pool()
        invariant CheckBlock(t, kind, d, cs[..i]) == Some(Disp())
        invariant retAssigned == (was || (!toplevel && Assigns(Block(cs[..i]), name)))
        invariant acx.label_ == lbl + LabelsInAll(cs[..i])
        invariant old(acx.Live(k)) && LiveAfterAll(t, k, cs[..i]).Some? ==> acx.Live(LiveAfterAll(t, k, cs[..i]).value)
      {
        OneMoreCmd(t, kind, d, cs, i, name);
        hide CheckBlock, CheckCmd, Assigns, LabelsIn, LabelsInAll, LiveAfter, LiveAfterAll;
        ghost var n := LiveAfterAll(t, k, cs[..i]);
        ok := AnalyzeCmd(cs[i], t, if n.Some? then n.value else 0);
        if !ok {
          RejectedCmds(t, kind, d, cs, i + 1);
          return;
        }
      }
      assert cs[..|cs|] == cs;
      ok := true;
    }

    // ---- a whole subprogram ----

    // Local types.
    method AddTypes(ts: seq<TypeDecl>, ghost t: Tab) returns (ok: bool, ghost u: Tab)
      requires Good(t) && Over(t) && TypesNamed(TypeNames(t), ts)
      modifies acx.st.Repr
      ensures fresh(acx.st.Repr - old(acx.st.Repr))
      ensures ok <==> Subprograms.AddTypes(t, ts).Some?
      ensures ok ==> Over(u) && Subprograms.AddTypes(t, ts) == Some(u)
    {
      hide Holds, Good, TabOk, Inner, TypeNames, TypesNamed, Subprograms.AddTypes, Declarations.AddType;
      u := t;
      assert ts[..0] == [] && ts[..|ts|] == ts;
      NoTypes(t);
      for i := 0 to |ts|
        invariant Over(u) && fresh(acx.st.Repr - old(acx.st.Repr))
        invariant TypesNamed(TypeNames(t), ts[..i]) && Subprograms.AddTypes(t, ts[..i]) == Some(u)
      {
        OneMoreType(t, ts, i);
        ok, u := AddType(ts[i], u);
        if !ok {
          RejectedTypes(t, ts, i + 1);
          return;
        }
      }
      ok := true;
    }

    method AddType(d: TypeDecl, ghost t: Tab) returns (ok: bool, ghost u: Tab)
      requires Good(t) && Over(t) && KeepsName(d.ty)
      modifies acx.st.Repr
      ensures fresh(acx.st.Repr - old(acx.st.Repr))
      ensures ok <==> Declarations.AddType(t, d.name, d.ty).Some?
      ensures ok ==> Over(u) && Declarations.AddType(t, d.name, d.ty) == Some(u)
    {
      ok := acx.st.AddTypeName(d.name, d.ty);
      u := if ok then acx.st.View() else t;
    }

    // The formals or locals of a subprogram.
    method AddGroups(ds: seq<Decls>, off: int, locals: bool, ghost t: Tab) returns (ok: bool, next: int, ghost u: Tab)
      requires Good(t) && Over(t) && NamedInDecls(TypeNames(t), ds)
      modifies acx.st.Repr
      ensures fresh(acx.st.Repr - old(acx.st.Repr))
      ensures ok <==> Subprograms.AddGroups(t, ds, off, locals).Some?
      ensures ok ==> Over(u) && Subprograms.AddGroups(t, ds, off, locals) == Some((u, next))
    {
      hide Holds, TabOk, WellFounded, VarsTyped, Inner;
      next, u := off, t;
      assert ds[..0] == [];
      for i := 0 to |ds|
        invariant Over(u) && fresh(acx.st.Repr - old(acx.st.Repr))
        invariant NamedInDecls(TypeNames(t), ds[..i])
        invariant Subprograms.AddGroups(t, ds[..i], off, locals) == Some((u, next))
      {
        NamedPrefix(TypeNames(t), ds, i + 1);
        assert ds[..i + 1][..i] == ds[..i];
        ok, next, u := AddGroup(ds[i], next, locals, u);
        if !ok {
          RejectedGroups(t, ds, i + 1, off, locals);
          return;
        }
      }
      assert ds[..|ds|] == ds;
      ok := true;
    }

    method AddGroup(d: Decls, off: int, locals: bool, ghost t: Tab) returns (ok: bool, next: int, ghost u: Tab)
      requires Good(t) && Over(t) && AllNamed(t, d.ty)
      modifies acx.st.Repr
      ensures fresh(acx.st.Repr - old(acx.st.Repr))
      ensures ok <==> Subprograms.AddGroup(t, d, off, locals).Some?
      ensures ok ==> Over(u) && Subprograms.AddGroup(t, d, off, locals) == Some((u, next))
    {
      NamedIsKnown(t, d.ty);
      ok, next := acx.st.AddDeclarations(d, off, locals);
      u := if ok then acx.st.View() else t;
    }

    // A new scope.
    method Enter(ghost t: Tab)
      requires Good(t) && Over(t)
      modifies acx.st.Repr
      ensures Over(Note(t, Scoping.Enter)) && fresh(acx.st.Repr - old(acx.st.Repr))
    {
      acx.st.EnterScope();
    }

    // Types, formals and locals.
    method AddNames(s: Subprogram, ghost t: Tab) returns (ok: bool, off: int, ghost u: Tab)
      requires Good(t) && Over(t) && TypesNamed(TypeNames(t), s.types)
      requires NamedInDecls(TypeNames(t) + NamesOf(s.types), s.formals)
      requires NamedInDecls(TypeNames(t) + NamesOf(s.types), s.locals)
      modifies acx.st.Repr
      ensures fresh(acx.st.Repr - old(acx.st.Repr))
      ensures ok <==> WithNames(t, s).Some?
      ensures ok ==> Over(u) && WithNames(t, s) == Some((u, off))
    {
      hide Holds, TabOk, WellFounded, VarsTyped, Inner, TypeNames;
      off := 0;
      ok, u := AddTypes(s.types, t);
      if !ok { return; }
      ok, off, u := AddGroups(s.formals, 8 * (|s.formals| + 1), false, u);
      if !ok { return; }
      ok, off, u := AddGroups(s.locals, 0, true, u);
    }

    // The slot for the result.
    method AddResult(s: Subprogram, off: int, ghost t: Tab) returns (ghost u: Tab)
      requires Good(t) && Over(t) && AllNamed(t, s.ret)
      modifies acx.st.Repr
      ensures fresh(acx.st.Repr - old(acx.st.Repr)) && u == WithResult(t, s, off) && Over(u)
    {
      ResolveInner(t, "<retslot>", s.ret);
      u := WithResult(t, s, off);
      var ty := acx.st.ResolveTypeId("<retslot>", s.ret);
      var id, next := acx.st.AddVariable(s.name, ty, Some(off), true);
    }

    method Open(s: Subprogram, ghost t: Tab) returns (ok: bool, ghost u: Tab)
      requires Good(t) && Over(t) && WellNamed(TypeNames(t), s)
      modifies acx.st.Repr
      ensures fresh(acx.st.Repr - old(acx.st.Repr))
      ensures ok <==> Opened(t, s).Some?
      ensures ok ==> Over(u) && Opened(t, s) == Some(u)
    {
      hide Holds, Good, Inner, WithNames, NamedIn, NamedInDecls;
      EnterGood(t);
      Enter(t);
      var off;
      ok, off, u := AddNames(s, Note(t, Scoping.Enter));
      if ok {
        u := AddResult(s, off, u);
      }
    }

    method LeaveScope(ghost t: Tab, ghost u: Tab)
      requires Good(t) && Good(u) && Over(u) && Inner(Note(t, Scoping.Enter), u)
      modifies acx.st.Repr
      ensures Over(Note(u, Leave)) && acx.st.Repr == old(acx.st.Repr)
    {
      LeaveRestores(t, u);
      EnterGood(t);
      acx.st.LeaveScope();
    }

    method AddFunction(s: Subprogram, ghost t: Tab) returns (ok: bool, ghost u: Tab)
      requires Good(t) && Over(t)
      modifies acx.st.Repr
      ensures fresh(acx.st.Repr - old(acx.st.Repr))
      ensures ok <==> AddFunc(t, s.name, s.Head()).Some?
      ensures ok ==> Over(u) && AddFunc(t, s.name, s.Head()) == Some(u)
    {
      ok := acx.st.AddFunction(s.name, s.Head());
      u := if ok then acx.st.View() else t;
    }

    // The body, and the check that a function assigns its result.
    method AnalyzeBody(s: Subprogram, ghost t: Tab) returns (ok: bool)
      requires Good(t) && Over(t) && acx.Pool() && !toplevel
      requires name == s.name && kind == s.kind && !retAssigned
      modifies `slots, `dispOffset, `retAssigned, acx`overflow, acx`ofd, acx`label_, acx.regsUsed
      ensures acx.Pool()
      ensures ok <==> CheckCmd(t, s.kind, old(Disp()), s.body).Some? && (s.kind.Function? ==> Assigns(s.body, s.name))
      ensures ok ==> CheckCmd(t, s.kind, old(Disp()), s.body) == Some(Disp())
      ensures ok ==> acx.label_ == old(acx.label_) + LabelsIn(s.body)
      ensures ok && old(acx.Live(0)) && LiveAfter(t, 0, s.body).Some? ==> acx.Live(LiveAfter(t, 0, s.body).value)
    {
      hide Holds;
      ok := AnalyzeCmd(s.body, t, 0);
      if ok && !retAssigned && kind == Function {
        return false;
      }
    }

    method TakeAndReturn(ghost k: nat)
      requires acx.Pool()
      modifies acx`overflow, acx`ofd, acx.regsUsed
      ensures acx.Pool() && (old(acx.Live(k)) ==> acx.Live(k))
    {
      var r := acx.RegGimme(k);
      acx.RegTakeItBack(r, k);
    }

    // What a body leaves behind when it starts with label 0 and an empty pool.
    ghost predicate LeftBy(t: Tab, c: Cmd)
      requires Good(t)
      reads acx`label_, acx`overflow, acx.regsUsed
    {
      acx.label_ == LabelsIn(c) && (LiveAfter(t, 0, c).Some? ==> acx.Live(LiveAfter(t, 0, c).value))
    }

    // The body and the end of the scope: a register restores the display, another copies the result of a
    // function.
    method Finish(s: Subprogram, ghost t: Tab, ghost u: Tab) returns (ok: bool, ghost v: Tab)
      requires Good(t) && Good(u) && Over(u) && Inner(Note(t, Scoping.Enter), u)
      requires acx.label_ == 0 && acx.Live(0) && !toplevel && name == s.name && kind == s.kind && !retAssigned
      modifies `slots, `dispOffset, `retAssigned, acx`overflow, acx`ofd, acx`label_, acx.regsUsed, acx.st.Repr
      ensures acx.st.Repr == old(acx.st.Repr) && (ok ==> LeftBy(u, s.body))
      ensures ok <==> CheckBody(u, old(Disp()), s).Some?
      ensures ok ==> Over(v) && CheckBody(u, old(Disp()), s) == Some((v, Disp()))
    {
      hide Holds, Good, Inner, CheckCmd;
      v := Note(u, Leave);
      ok := AnalyzeBody(s, u);
      if !ok { return; }
      ghost var n := if LiveAfter(u, 0, s.body).Some? then LiveAfter(u, 0, s.body).value else 0;
      TakeAndReturn(n);
      if kind == Function {
        TakeAndReturn(n);
      }
      LeaveScope(t, u);
    }

    // The part of analyze_subprog that runs in the new context.
    method AnalyzeInside(s: Subprogram, ghost t: Tab) returns (ok: bool, ghost v: Tab)
      requires Good(t) && Over(t) && acx.label_ == 0 && acx.Live(0) && !toplevel && WellNamed(TypeNames(t), s)
      requires name == s.name && kind == s.kind && !retAssigned
      modifies this, acx`overflow, acx`ofd, acx`label_, acx.regsUsed, acx.st.Repr
      ensures fresh(acx.st.Repr - old(acx.st.Repr)) && toplevel == old(toplevel)
      ensures ok <==> CheckSub(t, old(Disp()), s).Some?
      ensures ok ==> LeftBy(Prepared(t, old(Disp()), s).value.0, s.body)
      ensures ok ==> Over(v) && CheckSub(t, old(Disp()), s) == Some((v, Disp()))
      decreases s, 1
    {
      hide Holds, Good, CheckBody, Prepared;
      ok, v := Prepare(s, t);
      if ok {
        ok, v := Finish(s, t, v);
      }
    }

    method Prepare(s: Subprogram, ghost t: Tab) returns (ok: bool, ghost u: Tab)
      requires Good(t) && Over(t) && acx.label_ == 0 && acx.Live(0) && !toplevel && WellNamed(TypeNames(t), s)
      modifies this, acx`overflow, acx`ofd, acx`label_, acx.regsUsed, acx.st.Repr
      ensures fresh(acx.st.Repr - old(acx.st.Repr)) && toplevel == old(toplevel)
      ensures ok <==> Prepared(t, old(Disp()), s).Some?
      ensures ok ==> Over(u) && Prepared(t, old(Disp()), s) == Some((u, Disp()))
      ensures ok ==> Restored() && acx.label_ == 0 && acx.Live(0)
      decreases s, 0
    {
      hide Holds, Good, Opened, CheckSubs;
      ok, u := Open(s, t);
      if ok {
        ok, u := AnalyzeSubs(s.subs, u);
      }
    }

    // The caller's function name, kind, return flag, label counter and register set are back.
    twostate predicate Restored()
      reads this, acx, acx.regsUsed
    {
      && name == old(name) && kind == old(kind) && retAssigned == old(retAssigned)
      && acx.label_ == old(acx.label_) && acx.overflow == old(acx.overflow)
      && acx.regsUsed[..] == old(acx.regsUsed[..])
    }

    // Each nested subprogram is declared and then analysed.
    method AnalyzeSubs(ss: seq<Subprogram>, ghost t: Tab) returns (ok: bool, ghost u: Tab)
      requires Good(t) && Over(t) && !toplevel && AllWellNamed(TypeNames(t), ss)
      modifies this, acx`overflow, acx`ofd, acx`label_, acx.regsUsed, acx.st.Repr
      ensures fresh(acx.st.Repr - old(acx.st.Repr)) && toplevel == old(toplevel)
      ensures ok <==> CheckSubs(t, old(Disp()), ss).Some?
      ensures ok ==> Over(u) && CheckSubs(t, old(Disp()), ss) == Some((u, Disp()))
      ensures ok ==> Restored()
      decreases ss, 2
    {
      ghost var d := Disp();
      u := t;
      assert ss[..0] == [] && ss[..|ss|] == ss && TabOk(t);
      WellNamedPrefix(TypeNames(t), ss, 0);
      assert CheckSubs(t, d, ss[..0]) == Some((u, d));
      hide Holds, Good, TabOk, CheckSubs, AllWellNamed;
      for i := 0 to |ss|
        invariant Over(u) && fresh(acx.st.Repr - old(acx.st.Repr)) && toplevel == old(toplevel)
        invariant AllWellNamed(TypeNames(t), ss[..i]) && CheckSubs(t, d, ss[..i]) == Some((u, Disp()))
        invariant Restored()
      {
        ok, u := AnalyzeSub(ss, i, t, d, u);
        if !ok { return; }
      }
      ok := true;
    }

    method AnalyzeSub(ss: seq<Subprogram>, i: nat, ghost t: Tab, ghost d: Display, ghost u: Tab)
        returns (ok: bool, ghost v: Tab)
      requires Good(t) && AllWellNamed(TypeNames(t), ss) && i < |ss| && AllWellNamed(TypeNames(t), ss[..i])
      requires Over(u) && !toplevel && CheckSubs(t, d, ss[..i]) == Some((u, Disp()))
      modifies this, acx`overflow, acx`ofd, acx`label_, acx.regsUsed, acx.st.Repr
      ensures fresh(acx.st.Repr - old(acx.st.Repr)) && toplevel == old(toplevel)
      ensures !ok ==> CheckSubs(t, d, ss).None?
      ensures ok ==> Over(v) && AllWellNamed(TypeNames(t), ss[..i + 1])
      ensures ok ==> CheckSubs(t, d, ss[..i + 1]) == Some((v, Disp())) && Restored()
      decreases ss, 1
    {
      OneMoreSub(t, d, ss, i);
      SubsGood(t, d, ss[..i]);
      assert TabOk(t);
      hide Holds, Good, TabOk, TypeNames, CheckSubs, CheckNext, AllWellNamed, WellNamed;
      ok, v := AddAndAnalyze(ss[i], u);
      if !ok { RejectedSubs(t, d, ss, i + 1); }
    }

    method AddAndAnalyze(s: Subprogram, ghost t: Tab) returns (ok: bool, ghost u: Tab)
      requires Good(t) && Over(t) && !toplevel && WellNamed(TypeNames(t), s)
      modifies this, acx`overflow, acx`ofd, acx`label_, acx.regsUsed, acx.st.Repr
      ensures fresh(acx.st.Repr - old(acx.st.Repr)) && toplevel == old(toplevel)
      ensures ok <==> CheckNext(t, old(Disp()), s).Some?
      ensures ok ==> Over(u) && CheckNext(t, old(Disp()), s) == Some((u, Disp()))
      ensures ok ==> Restored()
      decreases s, 4
    {
      hide Holds, Good, CheckSub, AddFunc, Inner, WellNamed, AllWellNamed;
      NextNamed(t, s);
      ok, u := AddFunction(s, t);
      if ok {
        ok, u := AnalyzeSubprog(s, u);
      }
    }

    // The body's labels are numbered from 0 and its registers taken from an empty pool.
    method InNewContext(s: Subprogram, ghost t: Tab) returns (ok: bool, ghost u: Tab)
      requires Good(t) && Over(t) && !toplevel && WellNamed(TypeNames(t), s)
      modifies this, acx`overflow, acx`ofd, acx`label_, acx.regsUsed, acx.st.Repr
      ensures fresh(acx.st.Repr - old(acx.st.Repr)) && toplevel == old(toplevel)
      ensures ok <==> CheckSub(t, old(Disp()), s).Some?
      ensures ok ==> Over(u) && CheckSub(t, old(Disp()), s) == Some((u, Disp()))
      ensures ok ==> LeftBy(Prepared(t, old(Disp()), s).value.0, s.body)
      decreases s, 2
    {
      hide Holds, Good, CheckSub;
      name, retAssigned, kind := s.name, false, s.kind;
      acx.label_ := 0;
      acx.RegInit();
      ok, u := AnalyzeInside(s, t);
    }

    // The saved context, register set and all.
    method Resume(oldName: string, oldLabel: int, noted: bool, oldKind: Sub, used: seq<bool>, overflow: nat,
                  ghost t: Tab)
      requires Over(t) && acx.regsUsed.Length == |used|
      modifies `name, `retAssigned, `kind, acx`label_, acx`overflow, acx.regsUsed
      ensures Over(t)
      ensures name == oldName && acx.label_ == oldLabel && retAssigned == noted && kind == oldKind
      ensures acx.regsUsed[..] == used && acx.overflow == overflow
    {
      name, retAssigned, kind := oldName, noted, oldKind;
      acx.label_ := oldLabel;
      acx.overflow := overflow;
      forall i | 0 <= i < |used| {
        acx.regsUsed[i] := used[i];
      }
    }

    // analyze_subprog: accepted exactly as specified, and the caller's context comes back whole, scopes
    // included, whatever registers and labels the body has used up.
    method AnalyzeSubprog(s: Subprogram, ghost t: Tab) returns (ok: bool, ghost u: Tab)
      requires Good(t) && Over(t) && !toplevel && WellNamed(TypeNames(t), s)
      modifies this, acx`overflow, acx`ofd, acx`label_, acx.regsUsed, acx.st.Repr
      ensures fresh(acx.st.Repr - old(acx.st.Repr)) && toplevel == old(toplevel)
      ensures ok <==> CheckSub(t, old(Disp()), s).Some?
      ensures ok ==> Over(u) && CheckSub(t, old(Disp()), s) == Some((u, Disp()))
      ensures ok ==> Restored() && u.Chain() == t.Chain()
      decreases s, 3
    {
      ghost var d := Disp();
      hide Holds, Good, CheckSub;
      var oldName, oldLabel, oldRetAssigned, oldKind := name, acx.label_, retAssigned, kind;
      var savedUsed, savedOverflow := acx.regsUsed[..], acx.overflow;
      ok, u := InNewContext(s, t);
      if !ok { return; }
      Resume(oldName, oldLabel, oldRetAssigned, oldKind, savedUsed, savedOverflow, u);
      ChainRestored(t, d, s);
    }
  }
}
