// Which variables get a display slot: exactly those of outer scopes that are mentioned.
module Captures {
  import opened Basics
  import opened Scoping
  import opened Symbols
  import opened TypeArena
  import opened Declarations
  import opened Bodies
  import opened Subprograms
  import opened Units

  // ---- where names occur ----

  predicate Occurs(x: string, e: Term) {
    match e
    case Number(_) => false
    case Name(y) => x == y
    case Binary(_, a, b) => Occurs(x, a) || Occurs(x, b)
    case Apply(_, args) => exists i :: 0 <= i < |args| && Occurs(x, args[i])
  }

  predicate OccursAny(x: string, args: seq<Term>) {
    exists i :: 0 <= i < |args| && Occurs(x, args[i])
  }

  // Targets of assignments occur, too; the names of subprograms do not.
  predicate OccursIn(x: string, c: Cmd) {
    match c
    case Skip => false
    case Set(y, e) => x == y || Occurs(x, e)
    case If(e, a, b) => Occurs(x, e) || OccursIn(x, a) || OccursIn(x, b)
    case While(e, b) => Occurs(x, e) || OccursIn(x, b)
    case Block(cs) => exists i :: 0 <= i < |cs| && OccursIn(x, cs[i])
    case Call(_, args) => OccursAny(x, args)
  }

  // The name x denotes the variable id of an outer scope.
  ghost predicate Outer(t: Tab, x: string, id: nat) {
    !Local(t.Chain(), Vars, x) && Resolve(t.Chain(), Vars, x) == Some(id)
  }

  ghost predicate TermMentions(t: Tab, e: Term, id: nat) {
    exists x :: Occurs(x, e) && Outer(t, x, id)
  }

  ghost predicate TermsMention(t: Tab, args: seq<Term>, id: nat) {
    exists x :: OccursAny(x, args) && Outer(t, x, id)
  }

  ghost predicate CmdMentions(t: Tab, c: Cmd, id: nat) {
    exists x :: OccursIn(x, c) && Outer(t, x, id)
  }


  // ---- one mention ----

  // A variable of an outer scope has a slot after its first mention, and nothing else gets one.
  lemma TouchCaptures(t: Tab, d: Display, x: string, id: nat)
    requires Resolve(t.Chain(), Vars, x).Some?
    ensures id in Touch(t, d, x).slots <==> id in d.slots || Outer(t, x, id)
  {
  }

  lemma OneMoreTerm(t: Tab, args: seq<Term>, id: nat)
    requires args != []
    ensures TermsMention(t, args, id) <==> TermsMention(t, args[..|args| - 1], id) || TermMentions(t, args[|args| - 1], id)
  {
    var rest, e := args[..|args| - 1], args[|args| - 1];
    assert args == rest + [e];
    forall x ensures OccursAny(x, args) <==> OccursAny(x, rest) || Occurs(x, e) {
      if OccursAny(x, rest) {
        var i :| 0 <= i < |rest| && Occurs(x, rest[i]);
        assert Occurs(x, args[i]);
      }
      if Occurs(x, e) { assert Occurs(x, args[|rest|]); }
    }
  }

  // ---- terms and commands ----

  lemma {:induction false} TermCaptures(t: Tab, d: Display, e: Term, id: nat)
    requires Good(t)
    ensures var p := CheckTerm(t, d, e);
            p.Some? ==> (id in p.value.1.slots <==> id in d.slots || TermMentions(t, e, id))
    decreases e, 0
  {
    match e
    case Number(_) =>
    case Name(x) =>
      if Named(t, x).Some? {
        TouchCaptures(t, d, x, id);
        assert Outer(t, x, id) ==> Occurs(x, e);
      }
    case Binary(_, a, b) =>
      TermCaptures(t, d, a, id);
      var p := CheckTerm(t, d, a);
      if p.Some? { TermCaptures(t, p.value.1, b, id); }
      assert forall x :: Occurs(x, e) <==> Occurs(x, a) || Occurs(x, b);
    case Apply(f, args) =>
      CallCaptures(t, d, f, args, id);
      assert forall x :: Occurs(x, e) <==> OccursAny(x, args);
  }

  lemma {:induction false} CallCaptures(t: Tab, d: Display, f: string, args: seq<Term>, id: nat)
    requires Good(t)
    ensures var p := CheckCall(t, d, f, args);
            p.Some? ==> (id in p.value.1.slots <==> id in d.slots || TermsMention(t, args, id))
    decreases args, 2
  {
    var entry := Routine(t, f);
    if entry.Some? {
      MagicCaptures(t, d, entry.value.magic, args, id);
      if entry.value.desc.DFunc? && |args| == |entry.value.desc.args| {
        ArgsCapture(t, d, args, entry.value.desc.args, id);
      }
    }
  }

  lemma {:induction false} MagicCaptures(t: Tab, d: Display, which: int, args: seq<Term>, id: nat)
    requires Good(t)
    ensures var p := CheckMagicArgs(t, d, which, args);
            p.Some? ==> (id in p.value.slots <==> id in d.slots || TermsMention(t, args, id))
    decreases args, 1
  {
    if args != [] {
      var n := |args| - 1;
      MagicCaptures(t, d, which, args[..n], id);
      var p := CheckMagicArgs(t, d, which, args[..n]);
      if p.Some? { TermCaptures(t, p.value, args[n], id); }
      OneMoreTerm(t, args, id);
    }
  }

  lemma {:induction false} ArgsCapture(t: Tab, d: Display, args: seq<Term>, formals: seq<nat>, id: nat)
    requires Good(t) && |args| == |formals| && FormalsOk(t, formals)
    ensures var p := CheckArgs(t, d, args, formals);
            p.Some? ==> (id in p.value.slots <==> id in d.slots || TermsMention(t, args, id))
    decreases args, 1
  {
    if args != [] {
      var n := |args| - 1;
      ArgsCapture(t, d, args[..n], formals[..n], id);
      var p := CheckArgs(t, d, args[..n], formals[..n]);
      if p.Some? { TermCaptures(t, p.value, args[n], id); }
      OneMoreTerm(t, args, id);
    }
  }

  // After an accepted command the variables captured are those of before and the outer ones that it mentions.
  lemma {:induction false} CmdCaptures(t: Tab, kind: Sub, d: Display, c: Cmd, id: nat)
    requires Good(t)
    ensures var r := CheckCmd(t, kind, d, c);
            r.Some? ==> (id in r.value.slots <==> id in d.slots || CmdMentions(t, c, id))
    decreases c, 1
  {
    match c
    case Skip =>
    case Set(x, e) =>
      if Named(t, x).Some? {
        TouchCaptures(t, d, x, id);
        TermCaptures(t, Touch(t, d, x), e, id);
      }
      assert OccursIn(x, c) && forall y :: OccursIn(y, c) <==> y == x || Occurs(y, e);
    case If(e, a, b) =>
      TermCaptures(t, d, e, id);
      var p := CheckTest(t, d, e);
      if p.Some? {
        CmdCaptures(t, kind, p.value, a, id);
        var q := CheckCmd(t, kind, p.value, a);
        if q.Some? { CmdCaptures(t, kind, q.value, b, id); }
      }
      assert forall y :: OccursIn(y, c) <==> Occurs(y, e) || OccursIn(y, a) || OccursIn(y, b);
    case While(e, b) =>
      TermCaptures(t, d, e, id);
      var p := CheckTest(t, d, e);
      if p.Some? { CmdCaptures(t, kind, p.value, b, id); }
      assert forall y :: OccursIn(y, c) <==> Occurs(y, e) || OccursIn(y, b);
    case Block(cs) => BlockCaptures(t, kind, d, cs, id);
    case Call(f, args) =>
      CallCaptures(t, d, f, args, id);
      assert forall y :: OccursIn(y, c) <==> OccursAny(y, args);
  }

  lemma {:induction false} BlockCaptures(t: Tab, kind: Sub, d: Display, cs: seq<Cmd>, id: nat)
    requires Good(t)
    ensures var r := CheckBlock(t, kind, d, cs);
            r.Some? ==> (id in r.value.slots <==> id in d.slots || CmdMentions(t, Block(cs), id))
    decreases cs, 0
  {
    if cs != [] {
      var n := |cs| - 1;
      BlockCaptures(t, kind, d, cs[..n], id);
      var p := CheckBlock(t, kind, d, cs[..n]);
      if p.Some? { CmdCaptures(t, kind, p.value, cs[n], id); }
      OneMoreMention(t, cs, id);
    }
  }

  lemma OneMoreMention(t: Tab, cs: seq<Cmd>, id: nat)
    requires cs != []
    ensures CmdMentions(t, Block(cs), id) <==>
            CmdMentions(t, Block(cs[..|cs| - 1]), id) || CmdMentions(t, cs[|cs| - 1], id)
  {
    var rest, c := cs[..|cs| - 1], cs[|cs| - 1];
    assert cs == rest + [c];
    forall x ensures OccursIn(x, Block(cs)) <==> OccursIn(x, Block(rest)) || OccursIn(x, c) {
      if OccursIn(x, Block(rest)) {
        var i :| 0 <= i < |rest| && OccursIn(x, rest[i]);
        assert OccursIn(x, cs[i]);
      }
      if OccursIn(x, c) { assert OccursIn(x, cs[|rest|]); }
    }
  }

  // ---- subprograms ----

  lemma OpenedFirst(t: Tab, d: Display, s: Subprogram)
    requires Good(t) && WellNamed(TypeNames(t), s) && CheckSub(t, d, s).Some?
    ensures Opened(t, s).Some? && Prepared(t, d, s).Some?
    ensures AllWellNamed(TypeNames(Opened(t, s).value), s.subs)
    ensures CheckSubs(Opened(t, s).value, d, s.subs) == Prepared(t, d, s)
  {
  }

  // The subprogram, or one nested in it, mentions the variable where it is not local.
  ghost predicate SubMentions(t: Tab, d: Display, s: Subprogram, id: nat)
    requires Good(t) && WellNamed(TypeNames(t), s) && CheckSub(t, d, s).Some?
    decreases s, 1
  {
    OpenedFirst(t, d, s);
    SubsMention(Opened(t, s).value, d, s.subs, id) || CmdMentions(Prepared(t, d, s).value.0, s.body, id)
  }

  ghost predicate SubsMention(t: Tab, d: Display, ss: seq<Subprogram>, id: nat)
    requires Good(t) && AllWellNamed(TypeNames(t), ss) && CheckSubs(t, d, ss).Some?
    decreases ss, 3
  {
    ss != [] &&
    var p := CheckSubs(t, d, ss[..|ss| - 1]).value;
    SubsMention(t, d, ss[..|ss| - 1], id) || NextMentions(p.0, p.1, ss[|ss| - 1], id)
  }

  ghost predicate NextMentions(t: Tab, d: Display, s: Subprogram, id: nat)
    requires Good(t) && WellNamed(TypeNames(t), s) && CheckNext(t, d, s).Some?
    decreases s, 2
  {
    AddFuncInner(t, s);
    SubMentions(AddFunc(t, s.name, s.Head()).value, d, s, id)
  }

  // After an accepted subprogram the variables captured are those of before and the ones mentioned in it, at
  // any depth, where they are not local.
  lemma {:induction false} SubCaptures(t: Tab, d: Display, s: Subprogram, id: nat)
    requires Good(t) && WellNamed(TypeNames(t), s) && CheckSub(t, d, s).Some?
    ensures id in CheckSub(t, d, s).value.1.slots <==> id in d.slots || SubMentions(t, d, s, id)
    decreases s, 1
  {
    var p := Prepared(t, d, s).value;
    SubsCapture(Opened(t, s).value, d, s.subs, id);
    CmdCaptures(p.0, s.kind, p.1, s.body, id);
  }

  lemma {:induction false} SubsCapture(t: Tab, d: Display, ss: seq<Subprogram>, id: nat)
    requires Good(t) && AllWellNamed(TypeNames(t), ss) && CheckSubs(t, d, ss).Some?
    ensures id in CheckSubs(t, d, ss).value.1.slots <==> id in d.slots || SubsMention(t, d, ss, id)
    decreases ss, 3
  {
    if ss != [] {
      SubsCapture(t, d, ss[..|ss| - 1], id);
      var p := CheckSubs(t, d, ss[..|ss| - 1]).value;
      NextCaptures(p.0, p.1, ss[|ss| - 1], id);
    }
  }

  lemma {:induction false} NextCaptures(t: Tab, d: Display, s: Subprogram, id: nat)
    requires Good(t) && WellNamed(TypeNames(t), s) && CheckNext(t, d, s).Some?
    ensures id in CheckNext(t, d, s).value.1.slots <==> id in d.slots || NextMentions(t, d, s, id)
    decreases s, 2
  {
    AddFuncInner(t, s);
    SubCaptures(AddFunc(t, s.name, s.Head()).value, d, s, id);
  }

  // ---- programs ----

  // A subprogram or the main body mentions the variable where it is not local.
  ghost predicate UnitMentions(u: Unit, id: nat)
    requires UnitNamed(u) && CheckUnit(u).Some?
  {
    var g := Globals(u).value;
    || SubsMention(g, Display(map[], 0), u.subs, id)
    || CmdMentions(CheckSubs(g, Display(map[], 0), u.subs).value.0, u.body, id)
  }

  // At the end of a program exactly the variables mentioned outside their scope have a slot, and the slots are
  // those below the counter, one for each.
  lemma UnitCapturesExactly(u: Unit, id: nat)
    requires UnitNamed(u) && CheckUnit(u).Some?
    ensures id in CheckUnit(u).value.slots <==> UnitMentions(u, id)
    ensures Dense(CheckUnit(u).value)
  {
    var g, none := Globals(u).value, Display(map[], 0);
    UnitSlotsDense(u);
    SubsCapture(g, none, u.subs, id);
    var r := CheckSubs(g, none, u.subs).value;
    CmdCaptures(r.0, Procedure, r.1, u.body, id);
  }
}
