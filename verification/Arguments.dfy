// The arguments of declared subprograms: their number is checked, their types are not.
module Arguments {
  import opened Basics
  import opened Source
  import opened Symbols
  import opened TypeArena
  import opened Bodies

  // Where it is accepted, the argument has the type of the formal, pointers unfolded.
  ghost predicate Agrees(t: Tab, e: Term, formal: nat)
    requires Good(t) && formal < |t.vars| && 0 <= t.vars[formal].ty < |t.types|
  {
    forall d :: CheckTerm(t, d, e).Some? ==>
      Unfold(t, CheckTerm(t, d, e).value.0) == Unfold(t, t.vars[formal].ty)
  }

  // Rules 5.3 and 6.2 for one call: as many arguments as formals, of the formals' types.
  ghost predicate Matching(t: Tab, args: seq<Term>, formals: seq<nat>)
    requires Good(t) && FormalsOk(t, formals)
  {
    |args| == |formals| && forall i :: 0 <= i < |args| ==> Agrees(t, args[i], formals[i])
  }

  // A declared function or procedure, which is not one of the library's.
  ghost predicate IsDeclared(t: Tab, f: string)
    requires Good(t)
  {
    Routine(t, f).Some? && Routine(t, f).value.magic == 0 && Routine(t, f).value.desc.DFunc?
  }

  // An argument of another type than the formal's: 0, or 0 = 0 for an integer.
  function Other(t: Tab, formal: nat): Term
    requires formal < |t.vars| && 0 <= t.vars[formal].ty < |t.types|
  {
    if t.types[t.vars[formal].ty].desc == DSimple(Integer) then Binary(Comparison(Eq), Number(0), Number(0)) else Number(0)
  }

  function Others(t: Tab, formals: seq<nat>): (args: seq<Term>)
    requires FormalsOk(t, formals)
    ensures |args| == |formals|
  {
    seq(|formals|, i requires 0 <= i < |formals| => Other(t, formals[i]))
  }

  lemma OtherAccepted(t: Tab, d: Display, formal: nat)
    requires Good(t) && formal < |t.vars| && 0 <= t.vars[formal].ty < |t.types|
    ensures var q, ty := CheckTerm(t, d, Other(t, formal)), t.vars[formal].ty;
            q.Some? && q.value.1 == d && TypesEq(t, q.value.0, ty) == Some(false)
            && Unfold(t, q.value.0) != Unfold(t, ty)
  {
    assert t.types[SimpleIdx(Integer)] == Primitive(Integer) && t.types[SimpleIdx(Boolean)] == Primitive(Boolean);
    var ty := t.vars[formal].ty;
    TypesEqDecides(t, INTEGER_TYPE_IDX, ty);
    TypesEqDecides(t, BOOLEAN_TYPE_IDX, ty);
  }

  lemma {:induction false} OthersAccepted(t: Tab, d: Display, formals: seq<nat>)
    requires Good(t) && FormalsOk(t, formals)
    ensures CheckArgs(t, d, Others(t, formals), formals) == Some(d)
    decreases formals
  {
    if formals != [] {
      var n := |formals| - 1;
      assert Others(t, formals)[..n] == Others(t, formals[..n]);
      OthersAccepted(t, d, formals[..n]);
      OtherAccepted(t, d, formals[n]);
    }
  }

  // Whatever the formals of a declared subprogram are, it can be called with every single argument of the
  // wrong type.
  lemma WrongTypesAccepted(t: Tab, d: Display, f: string)
    requires Good(t) && IsDeclared(t, f)
    ensures var formals := Routine(t, f).value.desc.args;
            CheckCall(t, d, f, Others(t, formals)).Some?
            && forall i :: 0 <= i < |formals| ==> !Agrees(t, Others(t, formals)[i], formals[i])
  {
    var formals := Routine(t, f).value.desc.args;
    OthersAccepted(t, d, formals);
    forall i | 0 <= i < |formals| ensures !Agrees(t, Others(t, formals)[i], formals[i]) {
      OtherAccepted(t, d, formals[i]);
    }
  }

  // The number of arguments is right in every accepted call, but rules 5.3 and 6.2 hold for all accepted calls of a
  // declared subprogram if and only if it has no formals.
  lemma TypesCheckedExactly(t: Tab, f: string)
    requires Good(t) && IsDeclared(t, f)
    ensures (forall d, args :: CheckCall(t, d, f, args).Some? ==> Matching(t, args, Routine(t, f).value.desc.args))
            <==> Routine(t, f).value.desc.args == []
    ensures forall d, args :: CheckCall(t, d, f, args).Some? ==> |args| == |Routine(t, f).value.desc.args|
  {
    var formals := Routine(t, f).value.desc.args;
    if formals == [] {
      forall d, args | CheckCall(t, d, f, args).Some? ensures Matching(t, args, formals) { }
    } else {
      var d := Display(map[], 0);
      WrongTypesAccepted(t, d, f);
      assert !Agrees(t, Others(t, formals)[0], formals[0]);
      assert !Matching(t, Others(t, formals), formals);
    }
  }

  // ---- what is reported ----

  // The type of a term does not depend on the display.
  ghost predicate SameAnswer(p: Option<(int, Display)>, q: Option<(int, Display)>) {
    p.Some? == q.Some? && (p.Some? ==> p.value.0 == q.value.0)
  }

  lemma {:induction false} TypeAnywhere(t: Tab, d: Display, d': Display, e: Term)
    requires Good(t)
    ensures SameAnswer(CheckTerm(t, d, e), CheckTerm(t, d', e))
    decreases e, 0
  {
    match e
    case Number(_) =>
    case Name(_) =>
    case Binary(_, a, b) =>
      TypeAnywhere(t, d, d', a);
      var p, q := CheckTerm(t, d, a), CheckTerm(t, d', a);
      if p.Some? { TypeAnywhere(t, p.value.1, q.value.1, b); }
    case Apply(f, args) => CallAnywhere(t, d, d', f, args);
  }

  lemma {:induction false} CallAnywhere(t: Tab, d: Display, d': Display, f: string, args: seq<Term>)
    requires Good(t)
    ensures SameAnswer(CheckCall(t, d, f, args), CheckCall(t, d', f, args))
    decreases args, 2
  {
    var entry := Routine(t, f);
    if entry.Some? {
      MagicAnywhere(t, d, d', entry.value.magic, args);
      if entry.value.desc.DFunc? && |args| == |entry.value.desc.args| {
        ArgsAnywhere(t, d, d', args, entry.value.desc.args);
      }
    }
  }

  lemma {:induction false} ArgsAnywhere(t: Tab, d: Display, d': Display, args: seq<Term>, formals: seq<nat>)
    requires Good(t) && |args| == |formals| && FormalsOk(t, formals)
    ensures CheckArgs(t, d, args, formals).Some? == CheckArgs(t, d', args, formals).Some?
    decreases args, 1
  {
    if args != [] {
      var n := |args| - 1;
      ArgsAnywhere(t, d, d', args[..n], formals[..n]);
      var p, q := CheckArgs(t, d, args[..n], formals[..n]), CheckArgs(t, d', args[..n], formals[..n]);
      if p.Some? { TypeAnywhere(t, p.value, q.value, args[n]); }
    }
  }

  lemma {:induction false} MagicAnywhere(t: Tab, d: Display, d': Display, which: int, args: seq<Term>)
    requires Good(t)
    ensures CheckMagicArgs(t, d, which, args).Some? == CheckMagicArgs(t, d', which, args).Some?
    decreases args, 1
  {
    if args != [] {
      var n := |args| - 1;
      MagicAnywhere(t, d, d', which, args[..n]);
      var p, q := CheckMagicArgs(t, d, which, args[..n]), CheckMagicArgs(t, d', which, args[..n]);
      if p.Some? { TypeAnywhere(t, p.value, q.value, args[n]); }
    }
  }

  // The diagnostics of an accepted list of arguments: whether some comparison with a formal's type fails.
  predicate Reported(t: Tab, d: Display, args: seq<Term>, formals: seq<nat>)
    requires Good(t) && |args| == |formals| && FormalsOk(t, formals) && CheckArgs(t, d, args, formals).Some?
    decreases args
  {
    args != [] &&
    var n := |args| - 1;
    var p := CheckArgs(t, d, args[..n], formals[..n]).value;
    Reported(t, d, args[..n], formals[..n])
    || TypesEq(t, CheckTerm(t, p, args[n]).value.0, t.vars[formals[n]].ty) != Some(true)
  }

  lemma OneMoreReported(t: Tab, d: Display, args: seq<Term>, formals: seq<nat>) returns (p: Display)
    requires Good(t) && |args| == |formals| > 0 && FormalsOk(t, formals) && CheckArgs(t, d, args, formals).Some?
    ensures var n := |args| - 1;
            && FormalsOk(t, formals[..n]) && CheckArgs(t, d, args[..n], formals[..n]) == Some(p)
            && CheckTerm(t, p, args[n]).Some?
            && TypesEq(t, CheckTerm(t, p, args[n]).value.0, t.vars[formals[n]].ty).Some?
            && (Reported(t, d, args, formals) <==>
                Reported(t, d, args[..n], formals[..n])
                || TypesEq(t, CheckTerm(t, p, args[n]).value.0, t.vars[formals[n]].ty) != Some(true))
  {
    p := CheckArgs(t, d, args[..|args| - 1], formals[..|args| - 1]).value;
  }

  // Accepted arguments are reported exactly when they do not match the formals.
  lemma {:induction false} ReportedExactly(t: Tab, d: Display, args: seq<Term>, formals: seq<nat>)
    requires Good(t) && |args| == |formals| && FormalsOk(t, formals) && CheckArgs(t, d, args, formals).Some?
    ensures Reported(t, d, args, formals) <==> !Matching(t, args, formals)
    decreases args
  {
    if args != [] {
      var n := |args| - 1;
      var p := OneMoreReported(t, d, args, formals);
      hide Matching, Agrees, Good;
      ReportedExactly(t, d, args[..n], formals[..n]);
      ArgumentAgrees(t, p, args[n], formals[n]);
      OneMoreMatching(t, args, formals);
    }
  }

  lemma OneMoreMatching(t: Tab, args: seq<Term>, formals: seq<nat>)
    requires Good(t) && |args| == |formals| > 0 && FormalsOk(t, formals)
    ensures var n := |args| - 1;
            Matching(t, args, formals) <==> Matching(t, args[..n], formals[..n]) && Agrees(t, args[n], formals[n])
  {
    hide Agrees, Good;
    var n := |args| - 1;
    forall i | 0 <= i < |args|
      ensures args[i] == if i < n then args[..n][i] else args[n]
      ensures formals[i] == if i < n then formals[..n][i] else formals[n]
    { }
  }

  lemma ArgumentAgrees(t: Tab, d: Display, e: Term, formal: nat)
    requires Good(t) && formal < |t.vars| && 0 <= t.vars[formal].ty < |t.types|
    requires CheckTerm(t, d, e).Some? && TypesEq(t, CheckTerm(t, d, e).value.0, t.vars[formal].ty).Some?
    ensures Agrees(t, e, formal) <==> TypesEq(t, CheckTerm(t, d, e).value.0, t.vars[formal].ty) == Some(true)
  {
    TypesEqDecides(t, CheckTerm(t, d, e).value.0, t.vars[formal].ty);
    forall d' | CheckTerm(t, d', e).Some? ensures CheckTerm(t, d', e).value.0 == CheckTerm(t, d, e).value.0 {
      TypeAnywhere(t, d, d', e);
    }
  }
}
