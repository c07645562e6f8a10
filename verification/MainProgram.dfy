// A program of the fragment as a whole: which ones are accepted, what is emitted, and what that does.
module MainProgram {
  import opened Words
  import opened Source
  import opened Machine
  import opened Code
  import opened CodeLists
  import opened Spill
  import opened Program
  import opened Symbols
  import opened Frames

  // The libraries named in the program header, the lists of integer variables declared, and the body.
  datatype Prog = Prog(imports: seq<string>, decls: seq<seq<string>>, body: Stmt) {
    function Variables(): seq<string> { Flatten(decls) }
  }

  function Flatten(ds: seq<seq<string>>): seq<string> {
    if ds == [] then [] else Flatten(ds[..|ds| - 1]) + ds[|ds| - 1]
  }

  lemma FreshAppend(a: seq<string>, b: seq<string>)
    ensures Fresh([], a + b) <==> Fresh([], a) && Fresh(a, b)
  {
    var c := a + b;
    assert forall i :: 0 <= i < |a| ==> c[i] == a[i];
    assert forall i :: 0 <= i < |b| ==> c[|a| + i] == b[i];
    if Fresh([], c) {
      forall i | 0 <= i < |b| ensures b[i] !in a {
        assert c[|a| + i] == b[i];
      }
      forall i, j | 0 <= i < j < |b| ensures b[i] != b[j] {
        assert c[|a| + i] == b[i] && c[|a| + j] == b[j];
      }
    }
  }

  // A rejected declaration list stays rejected.
  lemma {:induction false} FreshPrefix(ds: seq<seq<string>>, k: nat)
    requires k <= |ds| && !Fresh([], Flatten(ds[..k]))
    ensures !Fresh([], Flatten(ds))
  {
    if k == |ds| {
      assert ds[..k] == ds;
    } else {
      assert ds[..|ds| - 1][..k] == ds[..k];
      FreshPrefix(ds[..|ds| - 1], k);
      FreshAppend(Flatten(ds[..|ds| - 1]), ds[|ds| - 1]);
    }
  }

  // The variables lie at 0, 8, 16, ... in the order of declaration, as far as an int can count.
  function Offsets(names: seq<string>): Layout {
    if names == [] then map[] else Offsets(names[..|names| - 1])[names[|names| - 1] := Int32(8 * (|names| - 1))]
  }

  lemma {:induction false} OffsetsAt(names: seq<string>)
    ensures Offsets(names).Keys == set x | x in names
    ensures Fresh([], names) ==> forall i :: 0 <= i < |names| ==> Offsets(names)[names[i]] == Int32(8 * i)
  {
    if names != [] {
      var rest := names[..|names| - 1];
      OffsetsAt(rest);
      assert names == rest + [names[|names| - 1]];
      if Fresh([], names) { FreshAppend(rest, [names[|names| - 1]]); }
    }
  }

  lemma OffsetsAreLayout(t: Tab, names: seq<string>)
    requires MainFrame(t, names) && Fresh([], names)
    ensures LayoutOf(t) == Offsets(names)
  {
    HoldsLayout(t, names);
    OffsetsAt(names);
    forall x | x in LayoutOf(t) ensures LayoutOf(t)[x] == Offsets(names)[x] {
      var i :| 0 <= i < |names| && names[i] == x;
    }
  }

  // The semantic rules a program has to obey: known libraries, no variable declared twice, every name
  // declared before use, boolean conditions, and printing only with the output library.
  predicate Legal(p: Prog) {
    && (forall i :: 0 <= i < |p.imports| ==> Library(p.imports[i]))
    && Fresh([], p.Variables())
    && Allowed(Offsets(p.Variables()).Keys, "output" in p.imports, p.body)
  }

  // What the prologue reserves.
  function Reserved(p: Prog): int {
    Int32(8 * |p.Variables()|)
  }

  function Emitted(sch: Scheme, p: Prog): seq<Instr>
    requires Legal(p)
  {
    MainCode(sch, Offsets(p.Variables()), Reserved(p), p.body)
  }

  // Different variables have different words at nonnegative offsets exactly when an int can hold the size of
  // the frame.
  lemma LegalFrame(p: Prog)
    requires Legal(p)
    ensures FrameOk(Offsets(p.Variables()), Reserved(p)) <==> FitsInt(|p.Variables()|)
  {
    OffsetsAt(p.Variables());
    WordFrame(Offsets(p.Variables()), p.Variables());
  }

  // The store from which main starts: whatever is in memory.
  function Start(p: Prog, m: State): Run {
    Run(Found(Offsets(p.Variables()), m), m.out)
  }

  // What the emitted program ends with when started in m.
  ghost predicate EndsIn(env: Env, sch: Scheme, p: Prog, m: State, r: Run)
    requires Legal(p)
  {
    Yields(env, Offsets(p.Variables()), Reserved(p), Emitted(sch, p), m, r)
  }

  // With the intended spill register, every legal program is compiled correctly: whatever the memory, the
  // emitted code ends with a store and an output if and only if the source program does.
  lemma IntendedProgramCorrect(env: Env, p: Prog, m: State, r: Run)
    requires Legal(p) && FitsInt(|p.Variables()|) && CanStart(m)
    ensures Accepted(Start(p, m).store.Keys, p.body)
    ensures EndsIn(env, Intended, p, m, r) <==> Terminates(p.body, Start(p, m), r)
  {
    LegalFrame(p);
    IntendedCompilerCorrect(env, Offsets(p.Variables()), Reserved(p), p.body, m, r);
  }

  // Started with any memory, the code ends with a store and an output exactly when the program does.
  ghost predicate Implements(code: seq<Instr>, p: Prog)
    requires Legal(p)
  {
    forall env: Env, m: State, r: Run :: CanStart(m) ==> ImplementsFrom(code, p, env, m, r)
  }

  ghost predicate ImplementsFrom(code: seq<Instr>, p: Prog, env: Env, m: State, r: Run)
    requires Legal(p)
  {
    && Accepted(Start(p, m).store.Keys, p.body)
    && (Yields(env, Offsets(p.Variables()), Reserved(p), code, m, r) <==> Terminates(p.body, Start(p, m), r))
  }

  lemma IntendedImplements(p: Prog)
    requires Legal(p) && FitsInt(|p.Variables()|)
    ensures Implements(Emitted(Intended, p), p)
  {
    forall env: Env, m: State, r: Run | CanStart(m) ensures ImplementsFrom(Emitted(Intended, p), p, env, m, r) {
      IntendedProgramCorrect(env, p, m, r);
    }
  }

  // A program that never ends prints the same as its source, too: what one has printed at some point, the
  // other has printed at some point.
  lemma IntendedProgramPrints(env: Env, p: Prog, m: State, n: nat, c: Config, fuel: nat) returns (k: nat, d: Config)
    requires Legal(p) && FitsInt(|p.Variables()|) && CanStart(m) && Reaches(env, Emitted(Intended, p), Config(0, m), n, c)
    ensures Accepted(Start(p, m).store.Keys, p.body)
    ensures c.s.out <= Exec(p.body, Start(p, m), n).run.out
    ensures Reaches(env, Emitted(Intended, p), Config(0, m), k, d)
    ensures d.s.out == Exec(p.body, Start(p, m), fuel).run.out
  {
    LegalFrame(p);
    IntendedSeesAll(p.body);
    NoOtherOutput(env, Intended, Offsets(p.Variables()), Reserved(p), p.body, m, n, c);
    k, d := SourceOutputAppears(env, Intended, Offsets(p.Variables()), Reserved(p), p.body, m, fuel);
  }

  // An emitted program has one result at most.
  lemma OneResult(env: Env, p: Prog, m: State, r: Run, q: Run)
    requires Legal(p) && FitsInt(|p.Variables()|) && CanStart(m)
    requires EndsIn(env, Intended, p, m, r) && EndsIn(env, Intended, p, m, q)
    ensures r == q
  {
    IntendedProgramCorrect(env, p, m, r);
    IntendedProgramCorrect(env, p, m, q);
    TerminatesOnce(p.body, Start(p, m), r, q);
  }

  // As the code stands, every legal program is compiled to what its truncation means; the truncation is the
  // program itself exactly when every expression fits.
  lemma WrittenProgramMeans(env: Env, p: Prog, m: State, r: Run)
    requires Legal(p) && FitsInt(|p.Variables()|) && CanStart(m)
    ensures Accepted(Start(p, m).store.Keys, SeenStmt(Written, p.body))
    ensures EndsIn(env, Written, p, m, r) <==> Terminates(SeenStmt(Written, p.body), Start(p, m), r)
    ensures FitsStmt(p.body) <==> SeenStmt(Written, p.body) == p.body
  {
    LegalFrame(p);
    StmtWhenFits(p.body);
    MainMeansSeen(env, Written, Offsets(p.Variables()), Reserved(p), p.body, m, r);
  }
}
