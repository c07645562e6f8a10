// Whole programs: what the emitted main does, started with any memory.
module Program {
  import opened Words
  import opened Source
  import opened Machine
  import opened Code
  import opened StmtCorrect
  import opened Labels
  import opened Spill

  // A frame of word variables from rbp upward.
  ghost predicate FrameOk(lay: Layout, reserved: int) {
    && reserved >= 0 && reserved % 8 == 0
    && Injective(lay)
    && forall x :: x in lay ==> 0 <= lay[x] && lay[x] % 8 == 0
  }

  // The machine before the program starts: the stack is aligned, and memory holds words.
  ghost predicate CanStart(m: State) {
    m.rsp % 8 == 0 && forall a :: a in m.mem ==> IsWord(m.mem[a])
  }

  // The store that main finds in memory: its variables are not initialised.
  function Found(lay: Layout, m: State): Store {
    map x | x in lay :: Read(m.mem, m.rsp + lay[x])
  }

  // The state in which the body starts.
  function Entered(m: State, reserved: int): State {
    m.(rbp := m.rsp, rsp := m.rsp - reserved, flags := Undefined)
  }

  // The machine ended normally with r in memory and on the output.  The stack is as it was when the body
  // started, and so is the memory above it apart from the variables.
  ghost predicate EndsWith(lay: Layout, reserved: int, code: seq<Instr>, m: State, r: Run, c: Config) {
    && Exited(code, c)
    && c.s.out == r.out
    && Kept(lay, Entered(m, reserved), c.s)
    && r.store.Keys == lay.Keys
    && (forall x :: x in lay ==> Read(c.s.mem, m.rsp + lay[x]) == r.store[x])
  }

  ghost predicate Yields(env: Env, lay: Layout, reserved: int, code: seq<Instr>, m: State, r: Run) {
    exists n, c :: Reaches(env, code, Config(0, m), n, c) && EndsWith(lay, reserved, code, m, r, c)
  }

  lemma PrologueRuns(env: Env, reserved: int, code: seq<Instr>, m: State) returns (t: State)
    requires At(code, 0, [MovRbpRsp, SubRsp(reserved)])
    ensures Reaches(env, code, Config(0, m), 2, Config(2, t))
    ensures t == m.(rbp := m.rsp, rsp := m.rsp - reserved, flags := Undefined)
  {
    var i, j := MovRbpRsp, SubRsp(reserved);
    var u := m.(rbp := m.rsp);
    t := u.(rsp := u.rsp - reserved, flags := Undefined);
    RunsTwo(env, i, j, m, u, t);
    RunEmbedded(env, code, 0, [i, j], m, t);
  }

  lemma EpilogueRuns(env: Env, code: seq<Instr>, a: int, m: State) returns (t: State)
    requires At(code, a, [MovImm(RAX, 60), XorSelf(RDI), Syscall])
    ensures Reaches(env, code, Config(a, m), 2, Config(a + 2, t))
    ensures t.rsp == m.rsp && t.rbp == m.rbp && t.mem == m.mem && t.out == m.out
    ensures Exited(code, Config(a + 2, t))
  {
    var i, j, k := MovImm(RAX, 60), XorSelf(RDI), Syscall;
    assert [i, j, k] == [i, j] + [k];
    AtSplit(code, a, [i, j], [k]);
    AtIndex(code, a + 2, [k], 0);
    var u := m.(regs := m.regs[RAX := 60]);
    t := u.(regs := u.regs[RDI := 0], flags := Undefined);
    RunsTwo(env, i, j, m, u, t);
    RunEmbedded(env, code, a, [i, j], m, t);
  }

  lemma MainAt(sch: Scheme, lay: Layout, reserved: int, s: Stmt) returns (z: int)
    requires Accepted(lay.Keys, s)
    ensures z == 2 + |StmtCode(sch, lay, 0, s)|
    ensures At(MainCode(sch, lay, reserved, s), 0, [MovRbpRsp, SubRsp(reserved)])
    ensures At(MainCode(sch, lay, reserved, s), 2, StmtCode(sch, lay, 0, s))
    ensures At(MainCode(sch, lay, reserved, s), z, [MovImm(RAX, 60), XorSelf(RDI), Syscall])
  {
    var code := MainCode(sch, lay, reserved, s);
    var p, b, e := [MovRbpRsp, SubRsp(reserved)], StmtCode(sch, lay, 0, s), [MovImm(RAX, 60), XorSelf(RDI), Syscall];
    AtWhole(code);
    z := 2 + |b|;
    AtSplit(code, 0, p + b, e);
    AtSplit(code, 0, p, b);
  }

  lemma AtWhole(code: seq<Instr>)
    ensures At(code, 0, code)
  {
    forall i | 0 <= i < |code| ensures Placed(code, 0, code, i) { }
  }

  lemma StartsRelated(lay: Layout, reserved: int, m: State)
    requires FrameOk(lay, reserved) && CanStart(m)
    ensures Related(lay, Run(Found(lay, m), m.out), Entered(m, reserved))
  {
  }

  lemma BodyThenExit(env: Env, lay: Layout, reserved: int, code: seq<Instr>, z: int, m: State, r: Run, n: nat, c: Config)
    returns (d: Config)
    requires At(code, z, [MovImm(RAX, 60), XorSelf(RDI), Syscall])
    requires FrameOk(lay, reserved)
    requires Reaches(env, code, Config(0, m), n, c) && c.pc == z
    requires Related(lay, r, c.s) && Kept(lay, Entered(m, reserved), c.s)
    ensures Reaches(env, code, Config(0, m), n + 2, d) && EndsWith(lay, reserved, code, m, r, d)
  {
    var t := EpilogueRuns(env, code, z, c.s);
    d := Config(z + 2, t);
    Chain(env, code, Config(0, m), c, d, n, 2);
    KeptIfSame(lay, c.s, t);
    KeptTrans(lay, Entered(m, reserved), c.s, t);
  }

  // With this much fuel, main either ends as the source does, or is still running after as many steps with
  // the source's output so far.
  ghost predicate MainOutcome(lay: Layout, reserved: int, code: seq<Instr>, m: State, x: Outcome,
                              fuel: nat, n: nat, c: Config) {
    match x
    case Ended(r) => EndsWith(lay, reserved, code, m, r, c)
    case OutOfFuel(r) => n >= fuel && c.s.out == r.out
  }

  // From the start through prologue and body.
  lemma BodySteps(env: Env, sch: Scheme, lay: Layout, reserved: int, s: Stmt, m: State, fuel: nat, z: int)
    returns (n: nat, c: Config)
    requires Accepted(lay.Keys, s) && FrameOk(lay, reserved) && CanStart(m) && z == 2 + |StmtCode(sch, lay, 0, s)|
    ensures Accepted(Found(lay, m).Keys, SeenStmt(sch, s))
    ensures Reaches(env, MainCode(sch, lay, reserved, s), Config(0, m), n, c)
    ensures Simulates(lay, z, Exec(SeenStmt(sch, s), Run(Found(lay, m), m.out), fuel), Entered(m, reserved), fuel, n, c)
  {
    var code := MainCode(sch, lay, reserved, s);
    var at := MainAt(sch, lay, reserved, s);
    MainLabels(sch, lay, reserved, s);
    var m1 := PrologueRuns(env, reserved, code, m);
    StartsRelated(lay, reserved, m);
    hide FrameOk, CanStart, At, UniqueLabels, StmtCode, MainCode, Exec, SeenStmt;
    n, c := StmtSteps(env, sch, lay, code, 2, 0, s, Run(Found(lay, m), m.out), m1, fuel);
    Chain(env, code, Config(0, m), Config(2, m1), c, 2, n);
    n := 2 + n;
  }

  lemma MainSteps(env: Env, sch: Scheme, lay: Layout, reserved: int, s: Stmt, m: State, fuel: nat)
    returns (n: nat, c: Config)
    requires Accepted(lay.Keys, s) && FrameOk(lay, reserved) && CanStart(m)
    ensures Accepted(Found(lay, m).Keys, SeenStmt(sch, s))
    ensures Reaches(env, MainCode(sch, lay, reserved, s), Config(0, m), n, c)
    ensures MainOutcome(lay, reserved, MainCode(sch, lay, reserved, s), m,
                        Exec(SeenStmt(sch, s), Run(Found(lay, m), m.out), fuel), fuel, n, c)
  {
    var z := MainAt(sch, lay, reserved, s);
    n, c := BodySteps(env, sch, lay, reserved, s, m, fuel, z);
    hide CanStart, At, StmtCode, MainCode, Exec, SeenStmt;
    var x := Exec(SeenStmt(sch, s), Run(Found(lay, m), m.out), fuel);
    if x.Ended? {
      c := BodyThenExit(env, lay, reserved, MainCode(sch, lay, reserved, s), z, m, x.run, n, c);
      n := n + 2;
    }
  }

  // If main ends, it ends as some run of the source does.
  lemma EndComesFromSource(env: Env, sch: Scheme, lay: Layout, reserved: int, s: Stmt, m: State, r: Run)
    requires Accepted(lay.Keys, s) && FrameOk(lay, reserved) && CanStart(m)
    requires Yields(env, lay, reserved, MainCode(sch, lay, reserved, s), m, r)
    ensures Accepted(Found(lay, m).Keys, SeenStmt(sch, s))
    ensures Terminates(SeenStmt(sch, s), Run(Found(lay, m), m.out), r)
  {
    var code := MainCode(sch, lay, reserved, s);
    var n: nat, c :| Reaches(env, code, Config(0, m), n, c) && EndsWith(lay, reserved, code, m, r, c);
    var n', c' := MainSteps(env, sch, lay, reserved, s, m, n + 1);
    ExitIsFinal(env, code, Config(0, m), n, c, n', c');
    var x := Exec(SeenStmt(sch, s), Run(Found(lay, m), m.out), n + 1);
    SameEnd(env, lay, reserved, code, m, r, x.run, n, c, n', c');
  }

  lemma SameEnd(env: Env, lay: Layout, reserved: int, code: seq<Instr>, m: State, r: Run, q: Run,
                n: nat, c: Config, n': nat, c': Config)
    requires Reaches(env, code, Config(0, m), n, c) && EndsWith(lay, reserved, code, m, r, c)
    requires Reaches(env, code, Config(0, m), n', c') && EndsWith(lay, reserved, code, m, q, c')
    ensures r == q
  {
    ExitIsFinal(env, code, Config(0, m), n, c, n', c');
    ExitIsFinal(env, code, Config(0, m), n', c', n, c);
    Deterministic(env, code, Config(0, m), n, c, c');
    EndDetermines(lay, reserved, code, m, r, q, c);
  }

  // The emitted main yields r if and only if the (possibly truncated) source program terminates with r.
  // In particular it terminates exactly when the source does.
  lemma MainMeansSeen(env: Env, sch: Scheme, lay: Layout, reserved: int, s: Stmt, m: State, r: Run)
    requires Accepted(lay.Keys, s) && FrameOk(lay, reserved) && CanStart(m)
    ensures Accepted(Found(lay, m).Keys, SeenStmt(sch, s))
    ensures Yields(env, lay, reserved, MainCode(sch, lay, reserved, s), m, r)
            <==> Terminates(SeenStmt(sch, s), Run(Found(lay, m), m.out), r)
  {
    var st := Run(Found(lay, m), m.out);
    assert st.store.Keys == lay.Keys;
    SeenAccepted(sch, s, lay.Keys);
    if Yields(env, lay, reserved, MainCode(sch, lay, reserved, s), m, r) {
      EndComesFromSource(env, sch, lay, reserved, s, m, r);
    }
    if Terminates(SeenStmt(sch, s), st, r) {
      var fuel: nat :| Exec(SeenStmt(sch, s), st, fuel) == Ended(r);
      var n, c := MainSteps(env, sch, lay, reserved, s, m, fuel);
    }
  }

  lemma EndDetermines(lay: Layout, reserved: int, code: seq<Instr>, m: State, r: Run, q: Run, c: Config)
    requires EndsWith(lay, reserved, code, m, r, c) && EndsWith(lay, reserved, code, m, q, c)
    ensures r == q
  {
    assert r.store == q.store;
  }

  // ---- output, also of programs that never end ----

  // Whatever the source has printed when its fuel runs out or it ends, main prints.
  lemma SourceOutputAppears(env: Env, sch: Scheme, lay: Layout, reserved: int, s: Stmt, m: State, fuel: nat)
    returns (n: nat, c: Config)
    requires Accepted(lay.Keys, s) && FrameOk(lay, reserved) && CanStart(m)
    ensures Accepted(Found(lay, m).Keys, SeenStmt(sch, s))
    ensures Reaches(env, MainCode(sch, lay, reserved, s), Config(0, m), n, c)
    ensures c.s.out == Exec(SeenStmt(sch, s), Run(Found(lay, m), m.out), fuel).run.out
  {
    n, c := MainSteps(env, sch, lay, reserved, s, m, fuel);
  }

  // Whatever main has printed after n steps, the source prints with n units of fuel.
  lemma NoOtherOutput(env: Env, sch: Scheme, lay: Layout, reserved: int, s: Stmt, m: State, n: nat, c: Config)
    requires Accepted(lay.Keys, s) && FrameOk(lay, reserved) && CanStart(m)
    requires Reaches(env, MainCode(sch, lay, reserved, s), Config(0, m), n, c)
    ensures Accepted(Found(lay, m).Keys, SeenStmt(sch, s))
    ensures c.s.out <= Exec(SeenStmt(sch, s), Run(Found(lay, m), m.out), n).run.out
  {
    var code := MainCode(sch, lay, reserved, s);
    var k, d := MainSteps(env, sch, lay, reserved, s, m, n);
    if Exited(code, d) { ExitIsFinal(env, code, Config(0, m), k, d, n, c); }
    OutputGrows(env, code, Config(0, m), n, c, k, d);
  }

  // ---- the two readings ----

  // With the evident register named in the spill, every accepted program is compiled correctly.
  lemma IntendedCompilerCorrect(env: Env, lay: Layout, reserved: int, s: Stmt, m: State, r: Run)
    requires Accepted(lay.Keys, s) && FrameOk(lay, reserved) && CanStart(m)
    ensures Accepted(Found(lay, m).Keys, s)
    ensures Yields(env, lay, reserved, MainCode(Intended, lay, reserved, s), m, r)
            <==> Terminates(s, Run(Found(lay, m), m.out), r)
  {
    IntendedSeesAll(s);
    MainMeansSeen(env, Intended, lay, reserved, s, m, r);
  }

  // As the code is written, so is every accepted program whose expressions fit.
  lemma WrittenCompilerCorrect(env: Env, lay: Layout, reserved: int, s: Stmt, m: State, r: Run)
    requires Accepted(lay.Keys, s) && FrameOk(lay, reserved) && CanStart(m)
    requires FitsStmt(s)
    ensures Accepted(Found(lay, m).Keys, s)
    ensures Yields(env, lay, reserved, MainCode(Written, lay, reserved, s), m, r)
            <==> Terminates(s, Run(Found(lay, m), m.out), r)
  {
    StmtWhenFits(s);
    MainMeansSeen(env, Written, lay, reserved, s, m, r);
  }
}
