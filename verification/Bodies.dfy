// Bodies of functions and procedures with everything that the analysis checks in them: all binary operators,
// calls of declared subprograms and the library routines.
module Bodies {
  import opened Basics
  import opened Words
  import opened Source
  import opened Scoping
  import opened Symbols
  import opened TypeArena

  datatype Operator = Arithmetic(a: ArithOp) | Comparison(r: RelOp) | And | Or | Div | Slash | Mod

  datatype Term =
    | Number(n: Word)
    | Name(x: string)
    | Binary(op: Operator, left: Term, right: Term)
    | Apply(f: string, args: seq<Term>)

  datatype Cmd =
    | Skip
    | Set(x: string, rhs: Term)
    | If(test: Term, thn: Cmd, els: Cmd)
    | While(test: Term, body: Cmd)
    | Block(cs: seq<Cmd>)
    | Call(f: string, args: seq<Term>)

  // ---- tables in which bodies can be checked ----

  ghost predicate VarsTyped(t: Tab) {
    forall i :: 0 <= i < |t.vars| ==> 0 <= t.vars[i].ty < |t.types|
  }

  // An id is declared under the name that its entry bears.
  ghost predicate OwnName(t: Tab, e: Scoping.Event) {
    e.Bind? && e.sp.Vars? ==> e.id < |t.vars| && t.vars[e.id].name == e.name
  }

  // Some scope is open and every id in the table is good.
  ghost predicate Good(t: Tab) {
    Ready(t) && VarsTyped(t) && forall e :: e in t.h ==> OwnName(t, e)
  }

  // The id of a visible variable.
  function Named(t: Tab, x: string): (id: Option<nat>)
    requires TabOk(t)
    ensures id.Some? ==> id.value < |t.vars|
  {
    ResolvedExists(t, Vars, x);
    Resolve(t.Chain(), Vars, x)
  }

  // The type entry of a visible subprogram.
  function Routine(t: Tab, f: string): (r: Option<TypeEntry>)
    requires Good(t)
    ensures r.Some? && r.value.desc.DFunc? ==> FormalsOk(t, r.value.desc.args) && 0 <= r.value.desc.ret < |t.types|
  {
    ResolvedExists(t, Funcs, f);
    var id := Resolve(t.Chain(), Funcs, f);
    if id.None? then None
    else
      assert Below(t, t.types[id.value].desc, id.value);
      Some(t.types[id.value])
  }

  // ---- display slots ----

  // The slots of captured variables by variable id, and how many slots are handed out.
  datatype Display = Display(slots: map<nat, nat>, next: nat)

  // type_of_path gives a variable of an outer scope a slot when it is first mentioned.
  function Touch(t: Tab, d: Display, x: string): Display
    requires Resolve(t.Chain(), Vars, x).Some?
  {
    var id := Resolve(t.Chain(), Vars, x).value;
    if Local(t.Chain(), Vars, x) || id in d.slots then d else Display(d.slots[id := d.next], d.next + 1)
  }

  // Captured variables and slots below next correspond one to one.
  ghost predicate Dense(d: Display) {
    && (forall id :: id in d.slots ==> d.slots[id] < d.next)
    && (forall i, j :: i in d.slots && j in d.slots && d.slots[i] == d.slots[j] ==> i == j)
    && (forall k: nat :: k < d.next ==> Used(d, k))
  }

  ghost predicate Used(d: Display, k: nat) {
    exists id :: id in d.slots && d.slots[id] == k
  }

  // No slot is changed or taken back.
  ghost predicate Grows(d: Display, e: Display) {
    d.next <= e.next && forall id :: id in d.slots ==> id in e.slots && e.slots[id] == d.slots[id]
  }

  lemma TouchDense(t: Tab, d: Display, x: string)
    requires Dense(d) && Resolve(t.Chain(), Vars, x).Some?
    ensures Dense(Touch(t, d, x)) && Grows(d, Touch(t, d, x))
  {
    var id, e := Resolve(t.Chain(), Vars, x).value, Touch(t, d, x);
    if e != d {
      forall k: nat | k < e.next ensures Used(e, k) {
        if k < d.next {
          assert Used(d, k);
          var i :| i in d.slots && d.slots[i] == k;
          assert e.slots[i] == k;
        } else {
          assert e.slots[id] == k;
        }
      }
    }
  }

  // ---- checking terms and calls ----

  // The type of a term; None is an exit: an undeclared name, operands of different types, or a bad call.
  function CheckTerm(t: Tab, d: Display, e: Term): (r: Option<(int, Display)>)
    requires Good(t)
    ensures r.Some? ==> 0 <= r.value.0 < |t.types|
    decreases e, 0
  {
    match e
    case Number(_) => Some((INTEGER_TYPE_IDX, d))
    case Name(x) =>
      var id := Named(t, x);
      if id.None? then None else Some((t.vars[id.value].ty, Touch(t, d, x)))
    case Binary(op, a, b) =>
      var p := CheckTerm(t, d, a);
      if p.None? then None
      else
        var q := CheckTerm(t, p.value.1, b);
        if q.None? || q.value.0 != p.value.0 then None
        else Some((if op.Comparison? then BOOLEAN_TYPE_IDX else p.value.0, q.value.1))
    case Apply(f, args) => CheckCall(t, d, f, args)
  }

  // analyze_call: a library routine has no result; a declared subprogram must get as many arguments as it has
  // formals.
  function CheckCall(t: Tab, d: Display, f: string, args: seq<Term>): (r: Option<(int, Display)>)
    requires Good(t)
    ensures r.Some? ==> 0 <= r.value.0 < |t.types|
    decreases args, 2
  {
    var entry := Routine(t, f);
    if entry.None? then None
    else if entry.value.magic != 0 then
      var p := CheckMagic(t, d, entry.value.magic, args);
      if p.None? then None else Some((VOID_TYPE_IDX, p.value))
    else if !entry.value.desc.DFunc? || |args| != |entry.value.desc.args| then None
    else
      var p := CheckArgs(t, d, args, entry.value.desc.args);
      if p.None? then None else Some((entry.value.desc.ret, p.value))
  }

  // The arguments of a declared subprogram.  A type that differs from the formal's is reported and accepted;
  // only the comparison of void with void is an exit.
  function CheckArgs(t: Tab, d: Display, args: seq<Term>, formals: seq<nat>): Option<Display>
    requires Good(t) && |args| == |formals| && FormalsOk(t, formals)
    decreases args, 1
  {
    if args == [] then Some(d)
    else
      var n := |args| - 1;
      var p := CheckArgs(t, d, args[..n], formals[..n]);
      if p.None? then None
      else
        var q := CheckTerm(t, p.value, args[n]);
        if q.None? || TypesEq(t, q.value.0, t.vars[formals[n]].ty).None? then None else Some(q.value.1)
  }

  // Library routines take arguments of the six built-in types; read and readln take variables.
  predicate TakesArgument(which: int, e: Term, ty: int) {
    (Writes(which) || e.Name?) && ty <= VOID_TYPE_IDX
  }

  function CheckMagic(t: Tab, d: Display, which: int, args: seq<Term>): Option<Display>
    requires Good(t)
    decreases args, 1
  {
    if !Writes(which) && !Reads(which) then None else CheckMagicArgs(t, d, which, args)
  }

  function CheckMagicArgs(t: Tab, d: Display, which: int, args: seq<Term>): Option<Display>
    requires Good(t)
    decreases args, 0
  {
    if args == [] then Some(d)
    else
      var n := |args| - 1;
      var p := CheckMagicArgs(t, d, which, args[..n]);
      if p.None? then None
      else
        var q := CheckTerm(t, p.value, args[n]);
        if q.None? || !TakesArgument(which, args[n], q.value.0) then None else Some(q.value.1)
  }

  // ---- checking commands ----

  function CheckTest(t: Tab, d: Display, e: Term): Option<Display>
    requires Good(t)
  {
    var p := CheckTerm(t, d, e);
    if p.None? || p.value.0 != BOOLEAN_TYPE_IDX then None else Some(p.value.1)
  }

  // check_assignability: a function assigns to its own variables only.
  predicate Assignable(t: Tab, kind: Sub, x: string) {
    kind.Procedure? || Local(t.Chain(), Vars, x)
  }

  function CheckSet(t: Tab, kind: Sub, d: Display, x: string, e: Term): Option<Display>
    requires Good(t)
  {
    var id := Named(t, x);
    if id.None? || !Assignable(t, kind, x) then None
    else
      var p := CheckTerm(t, Touch(t, d, x), e);
      if p.None? || TypesEq(t, p.value.0, t.vars[id.value].ty) != Some(true) then None else Some(p.value.1)
  }

  // analyze_stmt in a subprogram of the given kind; None is an exit.
  function CheckCmd(t: Tab, kind: Sub, d: Display, c: Cmd): Option<Display>
    requires Good(t)
    decreases c, 1
  {
    match c
    case Skip => Some(d)
    case Set(x, e) => CheckSet(t, kind, d, x, e)
    case If(e, a, b) =>
      var p := CheckTest(t, d, e);
      if p.None? then None
      else
        var q := CheckCmd(t, kind, p.value, a);
        if q.None? then None else CheckCmd(t, kind, q.value, b)
    case While(e, b) =>
      var p := CheckTest(t, d, e);
      if p.None? then None else CheckCmd(t, kind, p.value, b)
    case Block(cs) => CheckBlock(t, kind, d, cs)
    case Call(f, args) =>
      var p := CheckCall(t, d, f, args);
      if p.None? then None else Some(p.value.1)
  }

  function CheckBlock(t: Tab, kind: Sub, d: Display, cs: seq<Cmd>): Option<Display>
    requires Good(t)
    decreases cs, 0
  {
    if cs == [] then Some(d)
    else
      var p := CheckBlock(t, kind, d, cs[..|cs| - 1]);
      if p.None? then None else CheckCmd(t, kind, p.value, cs[|cs| - 1])
  }

  // The command contains an assignment to x.
  predicate Assigns(c: Cmd, x: string) {
    match c
    case Set(y, _) => y == x
    case If(_, a, b) => Assigns(a, x) || Assigns(b, x)
    case While(_, b) => Assigns(b, x)
    case Block(cs) => exists i :: 0 <= i < |cs| && Assigns(cs[i], x)
    case _ => false
  }

  // How many labels a command uses.
  function LabelsIn(c: Cmd): nat {
    match c
    case If(_, a, b) => 2 + LabelsIn(a) + LabelsIn(b)
    case While(_, b) => 2 + LabelsIn(b)
    case Block(cs) => LabelsInAll(cs)
    case _ => 0
  }

  function LabelsInAll(cs: seq<Cmd>): nat {
    if cs == [] then 0 else LabelsInAll(cs[..|cs| - 1]) + LabelsIn(cs[|cs| - 1])
  }

  // ---- commands that call library routines only ----

  // No call in a term.
  predicate NoCalls(e: Term) {
    match e
    case Binary(_, a, b) => NoCalls(a) && NoCalls(b)
    case Apply(_, _) => false
    case _ => true
  }

  predicate NoCallsIn(es: seq<Term>) {
    forall i :: 0 <= i < |es| ==> NoCalls(es[i])
  }

  predicate IsLibrary(t: Tab, f: string)
    requires Good(t)
  {
    Routine(t, f).Some? && Routine(t, f).value.magic != 0
  }

  // Only library routines are called, and only as statements.
  predicate Balanced(t: Tab, c: Cmd)
    requires Good(t)
  {
    match c
    case Skip => true
    case Set(_, e) => NoCalls(e)
    case If(e, a, b) => NoCalls(e) && Balanced(t, a) && Balanced(t, b)
    case While(e, b) => NoCalls(e) && Balanced(t, b)
    case Block(cs) => forall i :: 0 <= i < |cs| ==> Balanced(t, cs[i])
    case Call(f, args) => IsLibrary(t, f) && NoCallsIn(args)
  }

  // ---- every run keeps the display slots one to one ----

  ghost predicate StillDense(d: Display, r: Option<Display>) {
    r.Some? ==> Dense(r.value) && Grows(d, r.value)
  }

  function Slots(r: Option<(int, Display)>): Option<Display> {
    if r.None? then None else Some(r.value.1)
  }

  lemma GrowsTrans(d: Display, e: Display, r: Option<Display>)
    requires Grows(d, e) && StillDense(e, r)
    ensures StillDense(d, r)
  {
  }

  lemma {:induction false} TermDense(t: Tab, d: Display, e: Term)
    requires Good(t) && Dense(d)
    ensures StillDense(d, Slots(CheckTerm(t, d, e)))
    decreases e, 0
  {
    match e
    case Number(_) =>
    case Name(x) => if Named(t, x).Some? { TouchDense(t, d, x); }
    case Binary(_, a, b) =>
      TermDense(t, d, a);
      var p := CheckTerm(t, d, a);
      if p.Some? {
        TermDense(t, p.value.1, b);
        GrowsTrans(d, p.value.1, Slots(CheckTerm(t, p.value.1, b)));
      }
    case Apply(f, args) => CallDense(t, d, f, args);
  }

  lemma {:induction false} CallDense(t: Tab, d: Display, f: string, args: seq<Term>)
    requires Good(t) && Dense(d)
    ensures StillDense(d, Slots(CheckCall(t, d, f, args)))
    decreases args, 2
  {
    var entry := Routine(t, f);
    if entry.Some? {
      MagicDense(t, d, entry.value.magic, args);
      if entry.value.desc.DFunc? && |args| == |entry.value.desc.args| {
        ArgsDense(t, d, args, entry.value.desc.args);
      }
    }
  }

  lemma {:induction false} ArgsDense(t: Tab, d: Display, args: seq<Term>, formals: seq<nat>)
    requires Good(t) && Dense(d) && |args| == |formals| && FormalsOk(t, formals)
    ensures StillDense(d, CheckArgs(t, d, args, formals))
    decreases args, 1
  {
    if args != [] {
      var n := |args| - 1;
      ArgsDense(t, d, args[..n], formals[..n]);
      var p := CheckArgs(t, d, args[..n], formals[..n]);
      if p.Some? {
        TermDense(t, p.value, args[n]);
        GrowsTrans(d, p.value, Slots(CheckTerm(t, p.value, args[n])));
      }
    }
  }

  lemma {:induction false} MagicDense(t: Tab, d: Display, which: int, args: seq<Term>)
    requires Good(t) && Dense(d)
    ensures StillDense(d, CheckMagicArgs(t, d, which, args))
    decreases args, 1
  {
    if args != [] {
      var n := |args| - 1;
      MagicDense(t, d, which, args[..n]);
      var p := CheckMagicArgs(t, d, which, args[..n]);
      if p.Some? {
        TermDense(t, p.value, args[n]);
        GrowsTrans(d, p.value, Slots(CheckTerm(t, p.value, args[n])));
      }
    }
  }

  lemma {:induction false} CmdDense(t: Tab, kind: Sub, d: Display, c: Cmd)
    requires Good(t) && Dense(d)
    ensures StillDense(d, CheckCmd(t, kind, d, c))
    decreases c, 1
  {
    match c
    case Skip =>
    case Set(x, e) =>
      if Named(t, x).Some? {
        TouchDense(t, d, x);
        TermDense(t, Touch(t, d, x), e);
        GrowsTrans(d, Touch(t, d, x), Slots(CheckTerm(t, Touch(t, d, x), e)));
      }
    case If(e, a, b) =>
      TermDense(t, d, e);
      var p := CheckTest(t, d, e);
      if p.Some? {
        CmdDense(t, kind, p.value, a);
        var q := CheckCmd(t, kind, p.value, a);
        GrowsTrans(d, p.value, q);
        if q.Some? {
          CmdDense(t, kind, q.value, b);
          GrowsTrans(d, q.value, CheckCmd(t, kind, q.value, b));
        }
      }
    case While(e, b) =>
      TermDense(t, d, e);
      var p := CheckTest(t, d, e);
      if p.Some? {
        CmdDense(t, kind, p.value, b);
        GrowsTrans(d, p.value, CheckCmd(t, kind, p.value, b));
      }
    case Block(cs) => BlockDense(t, kind, d, cs);
    case Call(f, args) => CallDense(t, d, f, args);
  }

  lemma {:induction false} BlockDense(t: Tab, kind: Sub, d: Display, cs: seq<Cmd>)
    requires Good(t) && Dense(d)
    ensures StillDense(d, CheckBlock(t, kind, d, cs))
    decreases cs, 0
  {
    if cs != [] {
      BlockDense(t, kind, d, cs[..|cs| - 1]);
      var p := CheckBlock(t, kind, d, cs[..|cs| - 1]);
      if p.Some? {
        CmdDense(t, kind, p.value, cs[|cs| - 1]);
        GrowsTrans(d, p.value, CheckCmd(t, kind, p.value, cs[|cs| - 1]));
      }
    }
  }
}
