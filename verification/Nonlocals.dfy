// Functions do not change nonlocal variables: what accepted bodies do to the variables of every scope.
module Nonlocals {
  import opened Basics
  import opened Source
  import opened Scoping
  import opened Symbols
  import opened TypeArena
  import opened Bodies
  import opened Subprograms

  // ---- bodies run on one cell per declared variable, hidden ones included ----

  // What a term is worth on given cells; None if computing it faults.  What follows holds for every meaning.
  type Meaning = (Term, seq<int>) -> Option<int>

  // One cell per declared variable, the input that has not been read yet, and the output.
  datatype World = World(cells: seq<int>, input: seq<int>, out: seq<Source.Event>)

  // The variables that can be named.
  function Visible(t: Tab): set<string>
    requires TabOk(t)
  {
    set e | e in t.h && e.Bind? && e.sp.Vars? && Resolve(t.Chain(), Vars, e.name).Some? :: e.name
  }

  lemma VisibleExactly(t: Tab, x: string)
    requires TabOk(t)
    ensures x in Visible(t) <==> Named(t, x).Some?
  {
    ResolvedExists(t, Vars, x);
    if Named(t, x).Some? { assert Bind(Vars, x, Named(t, x).value) in t.h; }
  }

  // Every variable of a term is one of names.
  predicate TermIn(names: set<string>, e: Term) {
    match e
    case Number(_) => true
    case Name(x) => x in names
    case Binary(_, a, b) => TermIn(names, a) && TermIn(names, b)
    case Apply(_, args) => forall i :: 0 <= i < |args| ==> TermIn(names, args[i])
  }

  predicate TermsIn(names: set<string>, args: seq<Term>) {
    forall i :: 0 <= i < |args| ==> TermIn(names, args[i])
  }

  // Every variable of a command is one of names.
  predicate CmdIn(names: set<string>, c: Cmd) {
    match c
    case Skip => true
    case Set(x, e) => x in names && TermIn(names, e)
    case If(e, a, b) => TermIn(names, e) && CmdIn(names, a) && CmdIn(names, b)
    case While(e, b) => TermIn(names, e) && CmdIn(names, b)
    case Block(cs) => forall i :: 0 <= i < |cs| ==> CmdIn(names, cs[i])
    case Call(_, args) => TermsIn(names, args)
  }

  // A command with a meaning: its variables are visible, and it calls library routines only.
  predicate Runnable(t: Tab, c: Cmd)
    requires Good(t)
  {
    CmdIn(Visible(t), c) && Balanced(t, c)
  }

  // The world when the command ends, or when it is stopped by a fault, by the end of the input or of the fuel.
  function RunCmd(t: Tab, m: Meaning, c: Cmd, w: World, fuel: nat): (r: (World, bool))
    requires Good(t) && |w.cells| == |t.vars| && Runnable(t, c)
    ensures |r.0.cells| == |w.cells|
    decreases fuel, c, 1
  {
    match c
    case Skip => (w, true)
    case Set(x, e) =>
      VisibleExactly(t, x);
      var v := m(e, w.cells);
      if v.None? then (w, false) else (w.(cells := w.cells[Named(t, x).value := v.value]), true)
    case If(e, a, b) =>
      var v := m(e, w.cells);
      if v.None? then (w, false) else RunCmd(t, m, if v.value == 1 then a else b, w, fuel)
    case While(e, b) =>
      var v := m(e, w.cells);
      if v.None? then (w, false)
      else if v.value != 1 then (w, true)
      else if fuel == 0 then (w, false)
      else
        var r := RunCmd(t, m, b, w, fuel - 1);
        if !r.1 then r else RunCmd(t, m, c, r.0, fuel - 1)
    case Block(cs) => RunBlock(t, m, cs, w, fuel)
    case Call(f, args) =>
      var which := Routine(t, f).value.magic;
      if Writes(which) then WriteTerms(m, which, args, w)
      else if Reads(which) then ReadTerms(t, args, w)
      else (w, false)
  }

  function RunBlock(t: Tab, m: Meaning, cs: seq<Cmd>, w: World, fuel: nat): (r: (World, bool))
    requires Good(t) && |w.cells| == |t.vars| && Runnable(t, Block(cs))
    ensures |r.0.cells| == |w.cells|
    decreases fuel, cs, 0
  {
    if cs == [] then (w, true)
    else
      var r := RunCmd(t, m, cs[0], w, fuel);
      if !r.1 then r else RunBlock(t, m, cs[1..], r.0, fuel)
  }

  // Each argument is computed and printed before the next one.
  function WriteTerms(m: Meaning, which: int, args: seq<Term>, w: World): (r: (World, bool))
    ensures r.0.cells == w.cells
  {
    if args == [] then (if which == MAGIC_WRITELN then w.(out := w.out + [Newline]) else w, true)
    else
      var v := m(args[0], w.cells);
      if v.None? then (w, false) else WriteTerms(m, which, args[1..], w.(out := w.out + [Printed(v.value)]))
  }

  // Each argument takes the next number of the input.
  function ReadTerms(t: Tab, args: seq<Term>, w: World): (r: (World, bool))
    requires TabOk(t) && |w.cells| == |t.vars| && TermsIn(Visible(t), args)
    ensures |r.0.cells| == |w.cells|
  {
    if args == [] then (w, true)
    else if !args[0].Name? || w.input == [] then (w, false)
    else
      VisibleExactly(t, args[0].x);
      ReadTerms(t, args[1..], w.(cells := w.cells[Named(t, args[0].x).value := w.input[0]], input := w.input[1..]))
  }

  // ---- accepted bodies name declared variables only ----

  lemma {:induction false} CheckedTermIn(t: Tab, d: Display, e: Term)
    requires Good(t) && CheckTerm(t, d, e).Some?
    ensures TermIn(Visible(t), e)
    decreases e, 0
  {
    match e
    case Number(_) =>
    case Name(x) => VisibleExactly(t, x);
    case Binary(_, a, b) =>
      CheckedTermIn(t, d, a);
      CheckedTermIn(t, CheckTerm(t, d, a).value.1, b);
    case Apply(f, args) => CheckedCallIn(t, d, f, args);
  }

  lemma {:induction false} CheckedCallIn(t: Tab, d: Display, f: string, args: seq<Term>)
    requires Good(t) && CheckCall(t, d, f, args).Some?
    ensures TermsIn(Visible(t), args)
    decreases args, 2
  {
    var entry := Routine(t, f).value;
    if entry.magic != 0 {
      CheckedMagicIn(t, d, entry.magic, args);
    } else {
      CheckedArgsIn(t, d, args, entry.desc.args);
    }
  }

  lemma {:induction false} CheckedMagicIn(t: Tab, d: Display, which: int, args: seq<Term>)
    requires Good(t) && CheckMagicArgs(t, d, which, args).Some?
    ensures TermsIn(Visible(t), args)
    decreases args, 1
  {
    if args != [] {
      var n := |args| - 1;
      CheckedMagicIn(t, d, which, args[..n]);
      CheckedTermIn(t, CheckMagicArgs(t, d, which, args[..n]).value, args[n]);
      OneMoreTermIn(Visible(t), args);
    }
  }

  lemma {:induction false} CheckedArgsIn(t: Tab, d: Display, args: seq<Term>, formals: seq<nat>)
    requires Good(t) && |args| == |formals| && FormalsOk(t, formals) && CheckArgs(t, d, args, formals).Some?
    ensures TermsIn(Visible(t), args)
    decreases args, 1
  {
    if args != [] {
      var n := |args| - 1;
      CheckedArgsIn(t, d, args[..n], formals[..n]);
      CheckedTermIn(t, CheckArgs(t, d, args[..n], formals[..n]).value, args[n]);
      OneMoreTermIn(Visible(t), args);
    }
  }

  lemma OneMoreTermIn(names: set<string>, args: seq<Term>)
    requires args != [] && TermsIn(names, args[..|args| - 1]) && TermIn(names, args[|args| - 1])
    ensures TermsIn(names, args)
  {
    forall i | 0 <= i < |args| ensures TermIn(names, args[i]) {
      if i < |args| - 1 { assert args[i] == args[..|args| - 1][i]; }
    }
  }

  // Rule 2.2: an accepted body, whatever it calls, names declared variables only.
  lemma {:induction false} CheckedReadable(t: Tab, kind: Sub, d: Display, c: Cmd)
    requires Good(t) && CheckCmd(t, kind, d, c).Some?
    ensures CmdIn(Visible(t), c)
    decreases c, 1
  {
    match c
    case Skip =>
    case Set(x, e) =>
      VisibleExactly(t, x);
      CheckedTermIn(t, Touch(t, d, x), e);
    case If(e, a, b) =>
      CheckedTermIn(t, d, e);
      var p := CheckTest(t, d, e).value;
      CheckedReadable(t, kind, p, a);
      CheckedReadable(t, kind, CheckCmd(t, kind, p, a).value, b);
    case While(e, b) =>
      CheckedTermIn(t, d, e);
      CheckedReadable(t, kind, CheckTest(t, d, e).value, b);
    case Block(cs) => CheckedReadableAll(t, kind, d, cs);
    case Call(f, args) => CheckedCallIn(t, d, f, args);
  }

  lemma {:induction false} CheckedReadableAll(t: Tab, kind: Sub, d: Display, cs: seq<Cmd>)
    requires Good(t) && CheckBlock(t, kind, d, cs).Some?
    ensures forall i :: 0 <= i < |cs| ==> CmdIn(Visible(t), cs[i])
    decreases cs, 0
  {
    if cs != [] {
      var n := |cs| - 1;
      CheckedReadableAll(t, kind, d, cs[..n]);
      CheckedReadable(t, kind, CheckBlock(t, kind, d, cs[..n]).value, cs[n]);
      forall i | 0 <= i < |cs| ensures CmdIn(Visible(t), cs[i]) {
        if i < n { assert cs[i] == cs[..n][i]; }
      }
    }
  }

  // ---- targets of functions are local ----

  ghost predicate LocalTargets(t: Tab, c: Cmd) {
    forall x :: Assigns(c, x) ==> Local(t.Chain(), Vars, x)
  }

  // A function body is accepted exactly when it would be accepted in a procedure and all its targets are
  // local.
  lemma {:induction false} FunctionAcceptedExactly(t: Tab, d: Display, c: Cmd)
    requires Good(t)
    ensures CheckCmd(t, Function, d, c) == if LocalTargets(t, c) then CheckCmd(t, Procedure, d, c) else None
    decreases c, 1
  {
    match c
    case Skip =>
    case Set(x, e) => assert Assigns(c, x);
    case If(e, a, b) =>
      TargetsOfIf(t, c);
      var p := CheckTest(t, d, e);
      if p.Some? {
        FunctionAcceptedExactly(t, p.value, a);
        var q := CheckCmd(t, Procedure, p.value, a);
        if q.Some? { FunctionAcceptedExactly(t, q.value, b); }
      }
    case While(e, b) =>
      TargetsOfWhile(t, c);
      var p := CheckTest(t, d, e);
      if p.Some? { FunctionAcceptedExactly(t, p.value, b); }
    case Block(cs) => FunctionAcceptedExactlyAll(t, d, cs);
    case Call(_, _) =>
  }

  lemma {:induction false} FunctionAcceptedExactlyAll(t: Tab, d: Display, cs: seq<Cmd>)
    requires Good(t)
    ensures CheckBlock(t, Function, d, cs) == if LocalTargets(t, Block(cs)) then CheckBlock(t, Procedure, d, cs) else None
    decreases cs, 0
  {
    if cs != [] {
      var rest, c := cs[..|cs| - 1], cs[|cs| - 1];
      TargetsOfBlock(t, cs);
      FunctionAcceptedExactlyAll(t, d, rest);
      var p := CheckBlock(t, Procedure, d, rest);
      if p.Some? { FunctionAcceptedExactly(t, p.value, c); }
    }
  }

  lemma TargetsOfIf(t: Tab, c: Cmd)
    requires c.If?
    ensures LocalTargets(t, c) <==> LocalTargets(t, c.thn) && LocalTargets(t, c.els)
  {
    assert forall x :: Assigns(c, x) <==> Assigns(c.thn, x) || Assigns(c.els, x);
  }

  lemma TargetsOfWhile(t: Tab, c: Cmd)
    requires c.While?
    ensures LocalTargets(t, c) <==> LocalTargets(t, c.body)
  {
    assert forall x :: Assigns(c, x) <==> Assigns(c.body, x);
  }

  lemma TargetsOfBlock(t: Tab, cs: seq<Cmd>)
    requires cs != []
    ensures LocalTargets(t, Block(cs)) <==> LocalTargets(t, Block(cs[..|cs| - 1])) && LocalTargets(t, cs[|cs| - 1])
  {
    var rest, c := cs[..|cs| - 1], cs[|cs| - 1];
    forall x ensures Assigns(Block(cs), x) <==> Assigns(Block(rest), x) || Assigns(c, x) {
      if Assigns(Block(rest), x) {
        var i :| 0 <= i < |rest| && Assigns(rest[i], x);
        assert cs[i] == rest[i];
      }
      if Assigns(Block(cs), x) {
        var i :| 0 <= i < |cs| && Assigns(cs[i], x);
        if i < |rest| { assert rest[i] == cs[i]; }
      }
    }
  }

  // ---- what a run can change ----

  // A read or readln in c has the variable x as an argument.
  predicate ReadsInto(t: Tab, c: Cmd, x: string)
    requires Good(t)
  {
    match c
    case If(_, a, b) => ReadsInto(t, a, x) || ReadsInto(t, b, x)
    case While(_, b) => ReadsInto(t, b, x)
    case Block(cs) => exists i :: 0 <= i < |cs| && ReadsInto(t, cs[i], x)
    case Call(f, args) => Routine(t, f).Some? && Reads(Routine(t, f).value.magic) && Name(x) in args
    case _ => false
  }

  // No target and no variable read denotes the variable with this id.
  ghost predicate Spares(t: Tab, c: Cmd, id: nat)
    requires Good(t)
  {
    forall x :: Assigns(c, x) || ReadsInto(t, c, x) ==> Named(t, x) != Some(id)
  }

  lemma SparesParts(t: Tab, c: Cmd, id: nat)
    requires Good(t) && Spares(t, c, id)
    ensures c.If? ==> Spares(t, c.thn, id) && Spares(t, c.els, id)
    ensures c.While? ==> Spares(t, c.body, id)
    ensures c.Block? ==> forall i :: 0 <= i < |c.cs| ==> Spares(t, c.cs[i], id)
    ensures c.Block? && c.cs != [] ==> Spares(t, Block(c.cs[1..]), id)
  {
    match c
    case If(_, a, b) =>
      assert forall x :: Assigns(a, x) || Assigns(b, x) ==> Assigns(c, x);
      assert forall x :: ReadsInto(t, a, x) || ReadsInto(t, b, x) ==> ReadsInto(t, c, x);
    case While(_, b) =>
      assert forall x :: Assigns(b, x) ==> Assigns(c, x);
      assert forall x :: ReadsInto(t, b, x) ==> ReadsInto(t, c, x);
    case Block(cs) =>
      forall i, x | 0 <= i < |cs| && (Assigns(cs[i], x) || ReadsInto(t, cs[i], x)) ensures Named(t, x) != Some(id) {
        assert Assigns(c, x) || ReadsInto(t, c, x);
      }
    case _ =>
  }

  // A run changes no cell that no target denotes and that is not read into, not even when it is cut short.
  lemma {:induction false} OnlyTargetsChange(t: Tab, m: Meaning, c: Cmd, w: World, fuel: nat, id: nat)
    requires Good(t) && |w.cells| == |t.vars| && Runnable(t, c) && id < |w.cells| && Spares(t, c, id)
    ensures RunCmd(t, m, c, w, fuel).0.cells[id] == w.cells[id]
    decreases fuel, c, 1
  {
    SparesParts(t, c, id);
    hide Good;
    match c
    case Skip =>
    case Set(x, e) =>
      VisibleExactly(t, x);
      assert Assigns(c, x);
    case If(e, a, b) =>
      var v := m(e, w.cells);
      if v.Some? { OnlyTargetsChange(t, m, if v.value == 1 then a else b, w, fuel, id); }
    case While(e, b) =>
      if m(e, w.cells) == Some(1) && fuel > 0 {
        OnlyTargetsChange(t, m, b, w, fuel - 1, id);
        var r := RunCmd(t, m, b, w, fuel - 1);
        if r.1 { OnlyTargetsChange(t, m, c, r.0, fuel - 1, id); }
      }
    case Block(cs) => OnlyTargetsChangeAll(t, m, cs, w, fuel, id);
    case Call(f, args) =>
      if Reads(Routine(t, f).value.magic) {
        forall x | Name(x) in args ensures Named(t, x) != Some(id) { assert ReadsInto(t, c, x); }
        OnlyReadChange(t, args, w, id);
      }
  }

  lemma {:induction false} OnlyTargetsChangeAll(t: Tab, m: Meaning, cs: seq<Cmd>, w: World, fuel: nat, id: nat)
    requires Good(t) && |w.cells| == |t.vars| && Runnable(t, Block(cs)) && id < |w.cells| && Spares(t, Block(cs), id)
    ensures RunBlock(t, m, cs, w, fuel).0.cells[id] == w.cells[id]
    decreases fuel, cs, 0
  {
    if cs != [] {
      SparesParts(t, Block(cs), id);
      OnlyTargetsChange(t, m, cs[0], w, fuel, id);
      var r := RunCmd(t, m, cs[0], w, fuel);
      if r.1 { OnlyTargetsChangeAll(t, m, cs[1..], r.0, fuel, id); }
    }
  }

  lemma {:induction false} OnlyReadChange(t: Tab, args: seq<Term>, w: World, id: nat)
    requires TabOk(t) && |w.cells| == |t.vars| && TermsIn(Visible(t), args) && id < |w.cells|
    requires forall x :: Name(x) in args ==> Named(t, x) != Some(id)
    ensures ReadTerms(t, args, w).0.cells[id] == w.cells[id]
    decreases args
  {
    if args != [] && args[0].Name? && w.input != [] {
      var x := args[0].x;
      VisibleExactly(t, x);
      assert Name(x) in args;
      OnlyReadChange(t, args[1..], w.(cells := w.cells[Named(t, x).value := w.input[0]], input := w.input[1..]), id);
    }
  }

  // ---- rule 5.4 ----

  lemma LocalIsNew(t: Tab, u: Tab, x: string, id: nat)
    requires Good(t) && Good(u) && Inner(Note(t, Enter), u) && Local(u.Chain(), Vars, x) && id < |t.vars|
    ensures Named(u, x) != Some(id)
  {
    EnterGood(t);
    assert Declared(Note(t, Enter), u, x);
  }

  // Rule 5.4: whatever an accepted function body that calls library routines only does, with whatever meaning
  // of its terms and for however long, every variable that was declared before the function was entered keeps
  // its value, unless the body reads into it.
  lemma FunctionKeepsNonlocals(t: Tab, d: Display, s: Subprogram, m: Meaning, w: World, fuel: nat, id: nat)
    requires Good(t) && WellNamed(TypeNames(t), s) && s.kind.Function? && id < |t.vars|
    requires CheckSub(t, d, s).Some? && Balanced(Prepared(t, d, s).value.0, s.body)
    ensures var u := Prepared(t, d, s).value.0;
            Runnable(u, s.body) &&
            (|w.cells| == |u.vars| && (forall x :: ReadsInto(u, s.body, x) ==> Named(u, x) != Some(id)) ==>
             RunCmd(u, m, s.body, w, fuel).0.cells[id] == w.cells[id])
  {
    var p := Prepared(t, d, s).value;
    CheckedReadable(p.0, s.kind, p.1, s.body);
    FunctionAcceptedExactly(p.0, p.1, s.body);
    if |w.cells| == |p.0.vars| && forall x :: ReadsInto(p.0, s.body, x) ==> Named(p.0, x) != Some(id) {
      forall x | Assigns(s.body, x) ensures Named(p.0, x) != Some(id) { LocalIsNew(t, p.0, x, id); }
      OnlyTargetsChange(p.0, m, s.body, w, fuel, id);
    }
  }

  // Reading does change variables of outer scopes: the check accepts read(x) in a function for every variable
  // x of a built-in type, and any number can end up in it.
  lemma ReadingEscapes(t: Tab, d: Display, m: Meaning, f: string, x: string, w: World, v: int)
    requires Good(t) && |w.cells| == |t.vars| && w.input != [] && w.input[0] == v
    requires Named(t, x).Some? && t.vars[Named(t, x).value].ty <= VOID_TYPE_IDX
    requires Routine(t, f).Some? && Reads(Routine(t, f).value.magic)
    ensures CheckCmd(t, Function, d, Call(f, [Name(x)])).Some? && Runnable(t, Call(f, [Name(x)]))
    ensures RunCmd(t, m, Call(f, [Name(x)]), w, 0).0.cells == w.cells[Named(t, x).value := v]
  {
    var args, which := [Name(x)], Routine(t, f).value.magic;
    VisibleExactly(t, x);
    assert args[..0] == [] && args[1..] == [];
    assert CheckMagicArgs(t, d, which, args[..0]) == Some(d);
    assert CheckMagicArgs(t, d, which, args) == Some(Touch(t, d, x));
    var w' := w.(cells := w.cells[Named(t, x).value := v], input := w.input[1..]);
    assert ReadTerms(t, args[1..], w') == (w', true);
    assert ReadTerms(t, args, w) == (w', true);
    assert CheckCall(t, d, f, args) == Some((VOID_TYPE_IDX, Touch(t, d, x)));
    assert Balanced(t, Call(f, args));
    assert TermIn(Visible(t), Name(x));
  }
}
