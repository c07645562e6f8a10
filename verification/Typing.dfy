// The rules about types, as a relation that knows nothing of the walk: the analysis accepts exactly what they
// allow.
module Typing {
  import opened Basics
  import opened Scoping
  import opened Symbols
  import opened TypeArena
  import opened Bodies
  import opened Subprograms

  // Comparing these two types does not abort.
  ghost predicate Comparable(t: Tab, a: int, b: int)
    requires Good(t) && 0 <= a < |t.types| && 0 <= b < |t.types|
  {
    !(Unfold(t, a) == Unfold(t, b) && VoidAtEnd(Unfold(t, a)))
  }

  // The term has this type.  Rule 2.3: both operands of an operator have the same type.
  ghost predicate HasType(t: Tab, e: Term, ty: int)
    requires Good(t)
    decreases e, 0
  {
    && 0 <= ty < |t.types|
    && match e
       case Number(_) => ty == INTEGER_TYPE_IDX
       case Name(x) => exists id: nat :: id < |t.vars| && Resolve(t.Chain(), Vars, x) == Some(id) && t.vars[id].ty == ty
       case Binary(op, a, b) =>
         exists u :: HasType(t, a, u) && HasType(t, b, u) && ty == if op.Comparison? then BOOLEAN_TYPE_IDX else u
       case Apply(f, args) => CallHasType(t, f, args, ty)
  }

  // A library routine takes values of the built-in types, or variables of them, and has no result; a declared
  // subprogram takes as many arguments as it has formals.
  ghost predicate CallHasType(t: Tab, f: string, args: seq<Term>, ty: int)
    requires Good(t)
    decreases args, 1
  {
    exists id: nat :: id < |t.types| && Resolve(t.Chain(), Funcs, f) == Some(id) &&
      var entry := t.types[id];
      if entry.magic != 0 then
        && ty == VOID_TYPE_IDX
        && entry.magic in {MAGIC_WRITE, MAGIC_WRITELN, MAGIC_READ, MAGIC_READLN}
        && forall i :: 0 <= i < |args| ==>
             TakesValue(t, args[i]) && (entry.magic in {MAGIC_READ, MAGIC_READLN} ==> args[i].Name?)
      else
        && entry.desc.DFunc? && ty == entry.desc.ret && |args| == |entry.desc.args|
        && forall i :: 0 <= i < |args| ==> TakesFormal(t, args[i], entry.desc.args[i])
  }

  ghost predicate TakesValue(t: Tab, e: Term)
    requires Good(t)
    decreases e, 1
  {
    exists u :: HasType(t, e, u) && u <= VOID_TYPE_IDX
  }

  // Any type will do for which the comparison with the formal's does not abort.
  ghost predicate TakesFormal(t: Tab, e: Term, formal: nat)
    requires Good(t)
    decreases e, 1
  {
    && formal < |t.vars| && 0 <= t.vars[formal].ty < |t.types|
    && exists u :: HasType(t, e, u) && Comparable(t, u, t.vars[formal].ty)
  }

  // The command obeys the rules.  Both sides of an assignment have the same type, pointers unfolded, and that
  // is not void; tests are boolean (rule 3.2); a function assigns to local variables only (rule 5.4).
  ghost predicate Obeys(t: Tab, kind: Sub, c: Cmd)
    requires Good(t)
  {
    match c
    case Skip => true
    case Set(x, e) =>
      && (kind == Function ==> Local(t.Chain(), Vars, x))
      && exists l, r :: HasType(t, Name(x), l) && HasType(t, e, r) && Unfold(t, l) == Unfold(t, r) && !VoidAtEnd(Unfold(t, l))
    case If(e, a, b) => HasType(t, e, BOOLEAN_TYPE_IDX) && Obeys(t, kind, a) && Obeys(t, kind, b)
    case While(e, b) => HasType(t, e, BOOLEAN_TYPE_IDX) && Obeys(t, kind, b)
    case Block(cs) => forall i :: 0 <= i < |cs| ==> Obeys(t, kind, cs[i])
    case Call(f, args) => exists u :: CallHasType(t, f, args, u)
  }

  // ---- a term has one type ----

  lemma {:induction false} OneType(t: Tab, e: Term, u: int, v: int)
    requires Good(t) && HasType(t, e, u) && HasType(t, e, v)
    ensures u == v
    decreases e
  {
    match e
    case Binary(op, a, b) =>
      var i :| HasType(t, a, i) && HasType(t, b, i) && u == if op.Comparison? then BOOLEAN_TYPE_IDX else i;
      var j :| HasType(t, a, j) && HasType(t, b, j) && v == if op.Comparison? then BOOLEAN_TYPE_IDX else j;
      OneType(t, a, i, j);
    case _ =>
  }

  // ---- the analysis finds the type ----

  // The answer of the analysis is the type, and there is none if there is no answer.
  ghost predicate Finds(t: Tab, e: Term, r: Option<(int, Display)>)
    requires Good(t)
  {
    if r.Some? then HasType(t, e, r.value.0) else forall u :: !HasType(t, e, u)
  }

  lemma {:induction false} TermTyped(t: Tab, d: Display, e: Term)
    requires Good(t)
    ensures Finds(t, e, CheckTerm(t, d, e))
    decreases e, 0
  {
    match e
    case Number(_) =>
    case Name(x) => ResolvedExists(t, Vars, x);
    case Binary(op, a, b) =>
      TermTyped(t, d, a);
      var p := CheckTerm(t, d, a);
      if p.Some? {
        TermTyped(t, p.value.1, b);
        OperandsTyped(t, e, p.value.0, CheckTerm(t, p.value.1, b));
      }
    case Apply(f, args) => CallTyped(t, d, f, args);
  }

  lemma OperandType(t: Tab, e: Term, v: int) returns (u: int)
    requires Good(t) && e.Binary? && HasType(t, e, v)
    ensures HasType(t, e.left, u) && HasType(t, e.right, u) && v == if e.op.Comparison? then BOOLEAN_TYPE_IDX else u
  {
    match e
    case Binary(op, a, b) => u :| HasType(t, a, u) && HasType(t, b, u) && v == if op.Comparison? then BOOLEAN_TYPE_IDX else u;
  }

  lemma OperandsTyped(t: Tab, e: Term, u: int, q: Option<(int, Display)>)
    requires Good(t) && e.Binary? && HasType(t, e.left, u) && Finds(t, e.right, q)
    ensures if q.Some? && q.value.0 == u then HasType(t, e, if e.op.Comparison? then BOOLEAN_TYPE_IDX else u)
            else forall v :: !HasType(t, e, v)
  {
    forall v | HasType(t, e, v) ensures q.Some? && q.value.0 == u {
      var i := OperandType(t, e, v);
      OneType(t, e.left, i, u);
      if q.Some? { OneType(t, e.right, i, q.value.0); }
    }
  }

  lemma {:induction false} CallTyped(t: Tab, d: Display, f: string, args: seq<Term>)
    requires Good(t)
    ensures var r := CheckCall(t, d, f, args);
            if r.Some? then CallHasType(t, f, args, r.value.0) else forall u :: !CallHasType(t, f, args, u)
    decreases args, 3
  {
    ResolvedExists(t, Funcs, f);
    var entry := Routine(t, f);
    if entry.Some? {
      if entry.value.magic != 0 {
        MagicTyped(t, d, entry.value.magic, args);
      } else if entry.value.desc.DFunc? && |args| == |entry.value.desc.args| {
        ArgsTyped(t, d, args, entry.value.desc.args);
      }
    }
  }

  ghost predicate TakesValues(t: Tab, which: int, args: seq<Term>)
    requires Good(t)
  {
    forall i :: 0 <= i < |args| ==> TakesValue(t, args[i]) && (which in {MAGIC_READ, MAGIC_READLN} ==> args[i].Name?)
  }

  lemma OneMoreValue(t: Tab, which: int, args: seq<Term>)
    requires Good(t) && args != []
    ensures var n := |args| - 1;
            TakesValues(t, which, args) <==>
            TakesValues(t, which, args[..n]) && TakesValue(t, args[n]) && (which in {MAGIC_READ, MAGIC_READLN} ==> args[n].Name?)
  {
    hide TakesValue, Good;
    assert args == args[..|args| - 1] + [args[|args| - 1]];
  }

  lemma {:induction false} MagicTyped(t: Tab, d: Display, which: int, args: seq<Term>)
    requires Good(t)
    ensures Writes(which) || Reads(which) ==> (CheckMagicArgs(t, d, which, args).Some? <==> TakesValues(t, which, args))
    decreases args, 1
  {
    if args != [] {
      var n := |args| - 1;
      OneMoreValue(t, which, args);
      MagicTyped(t, d, which, args[..n]);
      var p := CheckMagicArgs(t, d, which, args[..n]);
      if p.Some? {
        hide TakesValues, Good;
        TermTyped(t, p.value, args[n]);
        var q := CheckTerm(t, p.value, args[n]);
        forall u | q.Some? && HasType(t, args[n], u) ensures u == q.value.0 { OneType(t, args[n], u, q.value.0); }
      }
    }
  }

  ghost predicate TakesFormals(t: Tab, args: seq<Term>, formals: seq<nat>)
    requires Good(t) && |args| == |formals|
  {
    forall i :: 0 <= i < |args| ==> TakesFormal(t, args[i], formals[i])
  }

  lemma OneMoreFormal(t: Tab, args: seq<Term>, formals: seq<nat>)
    requires Good(t) && |args| == |formals| > 0
    ensures var n := |args| - 1;
            TakesFormals(t, args, formals) <==> TakesFormals(t, args[..n], formals[..n]) && TakesFormal(t, args[n], formals[n])
  {
    hide TakesFormal, Good;
    var n := |args| - 1;
    assert args == args[..n] + [args[n]] && formals == formals[..n] + [formals[n]];
  }

  lemma {:induction false} ArgsTyped(t: Tab, d: Display, args: seq<Term>, formals: seq<nat>)
    requires Good(t) && |args| == |formals| && FormalsOk(t, formals)
    ensures CheckArgs(t, d, args, formals).Some? <==> TakesFormals(t, args, formals)
    decreases args, 1
  {
    if args != [] {
      var n := |args| - 1;
      OneMoreFormal(t, args, formals);
      ArgsTyped(t, d, args[..n], formals[..n]);
      var p := CheckArgs(t, d, args[..n], formals[..n]);
      if p.Some? {
        hide TakesFormals, Good;
        TermTyped(t, p.value, args[n]);
        var q := CheckTerm(t, p.value, args[n]);
        forall u | q.Some? && HasType(t, args[n], u) ensures u == q.value.0 { OneType(t, args[n], u, q.value.0); }
        if q.Some? { TypesEqDecides(t, q.value.0, t.vars[formals[n]].ty); }
      }
    }
  }

  // ---- the analysis accepts exactly what obeys the rules ----

  lemma TestTyped(t: Tab, d: Display, e: Term)
    requires Good(t)
    ensures CheckTest(t, d, e).Some? <==> HasType(t, e, BOOLEAN_TYPE_IDX)
  {
    TermTyped(t, d, e);
    var p := CheckTerm(t, d, e);
    if p.Some? && HasType(t, e, BOOLEAN_TYPE_IDX) { OneType(t, e, p.value.0, BOOLEAN_TYPE_IDX); }
  }

  // An assignment is accepted exactly when its sides have the same type and its target may be assigned to.
  lemma SetTyped(t: Tab, kind: Sub, d: Display, x: string, e: Term)
    requires Good(t)
    ensures CheckSet(t, kind, d, x, e).Some? <==> Obeys(t, kind, Set(x, e))
  {
    ResolvedExists(t, Vars, x);
    var id := Named(t, x);
    if id.Some? {
      var l := t.vars[id.value].ty;
      assert HasType(t, Name(x), l);
      TermTyped(t, Touch(t, d, x), e);
      var p := CheckTerm(t, Touch(t, d, x), e);
      forall u | HasType(t, Name(x), u) ensures u == l { OneType(t, Name(x), u, l); }
      if p.Some? {
        forall u | HasType(t, e, u) ensures u == p.value.0 { OneType(t, e, u, p.value.0); }
        TypesEqDecides(t, p.value.0, l);
      }
    }
  }

  // A body is accepted exactly when it obeys the rules.
  lemma {:induction false} AcceptedExactlyTyped(t: Tab, kind: Sub, d: Display, c: Cmd)
    requires Good(t)
    ensures CheckCmd(t, kind, d, c).Some? <==> Obeys(t, kind, c)
    decreases c, 1
  {
    match c
    case Skip =>
    case Set(x, e) => SetTyped(t, kind, d, x, e);
    case If(e, a, b) =>
      TestTyped(t, d, e);
      var p := CheckTest(t, d, e);
      if p.Some? {
        AcceptedExactlyTyped(t, kind, p.value, a);
        var q := CheckCmd(t, kind, p.value, a);
        if q.Some? { AcceptedExactlyTyped(t, kind, q.value, b); }
      }
    case While(e, b) =>
      TestTyped(t, d, e);
      var p := CheckTest(t, d, e);
      if p.Some? { AcceptedExactlyTyped(t, kind, p.value, b); }
    case Block(cs) => BlockTyped(t, kind, d, cs);
    case Call(f, args) => CallTyped(t, d, f, args);
  }

  lemma {:induction false} BlockTyped(t: Tab, kind: Sub, d: Display, cs: seq<Cmd>)
    requires Good(t)
    ensures CheckBlock(t, kind, d, cs).Some? <==> forall i :: 0 <= i < |cs| ==> Obeys(t, kind, cs[i])
    decreases cs, 0
  {
    if cs != [] {
      var n := |cs| - 1;
      BlockTyped(t, kind, d, cs[..n]);
      assert cs == cs[..n] + [cs[n]];
      var p := CheckBlock(t, kind, d, cs[..n]);
      if p.Some? { AcceptedExactlyTyped(t, kind, p.value, cs[n]); }
    }
  }

  // Rule 5.2: once its declarations and nested subprograms are accepted, a subprogram is accepted exactly when
  // its body obeys the rules and, if it is a function, assigns to the function's name; what is nested in it does
  // not count.
  lemma SubprogramAcceptedExactly(t: Tab, d: Display, s: Subprogram)
    requires Good(t) && WellNamed(TypeNames(t), s) && Prepared(t, d, s).Some?
    ensures CheckSub(t, d, s).Some? <==>
            Obeys(Prepared(t, d, s).value.0, s.kind, s.body) && (s.kind == Function ==> Assigns(s.body, s.name))
  {
    var p := Prepared(t, d, s).value;
    AcceptedExactlyTyped(p.0, s.kind, p.1, s.body);
  }
}
