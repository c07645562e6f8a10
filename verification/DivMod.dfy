// div and mod: eight instructions around idiv, with a 32-bit sign extension in front of a 64-bit division.
module DivMod {
  import opened Basics
  import opened Words
  import opened Source
  import opened Machine
  import opened Code
  import opened Spill

  datatype DivOp = Div | Mod

  function DivHead(l: Reg): seq<Instr> {
    [Push(RDX), Push(RAX), MovReg(RAX, l), Cdq]
  }

  function DivTail(op: DivOp, l: Reg, r: Reg): seq<Instr> {
    [Idiv(r), MovReg(l, if op.Div? then RAX else RDX), Pop(RAX), Pop(RDX)]
  }

  function DivBlock(op: DivOp, l: Reg, r: Reg): seq<Instr> {
    DivHead(l) + DivTail(op, l, r)
  }

  // The registers that survive the block's own use of rax and rdx.
  predicate Clear(l: Reg, r: Reg) {
    l != r && l != RAX && l != RDX && r != RAX && r != RDX
  }

  // A dividend is extended correctly when it is nonnegative and its bit 31 is clear.
  predicate Extends(x: int) {
    x >= 0 && x % TWO_32 < TWO_31
  }

  function Extended(x: int): int {
    Dividend(if x % TWO_32 < TWO_31 then 0 else TWO_32 - 1, x)
  }

  function Answer(op: DivOp, x: int, d: int): int
    requires d != 0
  {
    if op.Div? then Quot(x, d) else Rem(x, d)
  }

  lemma ExtendedWhen(x: int)
    requires -TWO_63 <= x < TWO_63
    ensures Extended(x) == x <==> Extends(x)
    ensures !Extends(x) && x % TWO_32 < TWO_31 ==> Extended(x) == x + TWO_64 && x < 0
    ensures x % TWO_32 >= TWO_31 ==> Extended(x) >= (TWO_32 - 1) * TWO_64
  {
    WrapUnique(0, 0, 0);
    WrapUnique(TWO_32 - 1, TWO_32 - 1, 0);
  }

  lemma HeadRuns(env: Env, l: Reg, s: State) returns (t: State)
    requires s.rsp % 8 == 0 && l != RAX && l != RDX
    ensures Runs(env, DivHead(l), s, t)
    ensures t.regs == s.regs[RAX := s.regs[l]][RDX := if s.regs[l] % TWO_32 < TWO_31 then 0 else TWO_32 - 1]
    ensures t.rsp == s.rsp - 16 && t.rbp == s.rbp && t.out == s.out
    ensures Read(t.mem, s.rsp - 8) == s.regs[RDX] && Read(t.mem, s.rsp - 16) == s.regs[RAX]
    ensures forall a :: a >= s.rsp ==> Read(t.mem, a) == Read(s.mem, a)
  {
    var u1 := Step(env, Push(RDX), s).value;
    var u2 := Step(env, Push(RAX), u1).value;
    var u3 := Step(env, MovReg(RAX, l), u2).value;
    t := Step(env, Cdq, u3).value;
    RunsTwo(env, Push(RDX), Push(RAX), s, u1, u2);
    RunsTwo(env, MovReg(RAX, l), Cdq, u2, u3, t);
    RunsAppend(env, [Push(RDX), Push(RAX)], [MovReg(RAX, l), Cdq], s, u2, t);
    assert [Push(RDX), Push(RAX)] + [MovReg(RAX, l), Cdq] == DivHead(l);
  }

  lemma TailRuns(env: Env, op: DivOp, l: Reg, r: Reg, s: State) returns (t: State)
    requires s.rsp % 8 == 0 && Clear(l, r) && s.regs[r] != 0
    requires -TWO_63 <= Quot(Dividend(s.regs[RDX], s.regs[RAX]), s.regs[r]) < TWO_63
    ensures Runs(env, DivTail(op, l, r), s, t)
    ensures t.regs[l] == Answer(op, Dividend(s.regs[RDX], s.regs[RAX]), s.regs[r])
    ensures t.regs[RAX] == Read(s.mem, s.rsp) && t.regs[RDX] == Read(s.mem, s.rsp + 8)
    ensures forall j: Reg :: j != l && j != RAX && j != RDX ==> t.regs[j] == s.regs[j]
    ensures t.rsp == s.rsp + 16 && t.rbp == s.rbp && t.out == s.out && t.mem == s.mem
  {
    var m := MovReg(l, if op.Div? then RAX else RDX);
    var u1 := Step(env, Idiv(r), s).value;
    var u2 := Step(env, m, u1).value;
    var u3 := Step(env, Pop(RAX), u2).value;
    t := Step(env, Pop(RDX), u3).value;
    RunsTwo(env, Idiv(r), m, s, u1, u2);
    RunsTwo(env, Pop(RAX), Pop(RDX), u2, u3, t);
    RunsAppend(env, [Idiv(r), m], [Pop(RAX), Pop(RDX)], s, u2, t);
    assert [Idiv(r), m] + [Pop(RAX), Pop(RDX)] == DivTail(op, l, r);
  }

  // Everything but the result register is restored.
  ghost predicate OnlyResult(l: Reg, s: State, t: State) {
    && (forall j: Reg :: j != l ==> t.regs[j] == s.regs[j])
    && t.rsp == s.rsp && t.rbp == s.rbp && t.out == s.out
    && forall a :: a >= s.rsp ==> Read(t.mem, a) == Read(s.mem, a)
  }

  // What the block computes when it does not fault: division of the extended dividend.
  lemma BlockRuns(env: Env, op: DivOp, l: Reg, r: Reg, s: State) returns (t: State)
    requires s.rsp % 8 == 0 && Clear(l, r) && s.regs[r] != 0
    requires -TWO_63 <= Quot(Extended(s.regs[l]), s.regs[r]) < TWO_63
    ensures Runs(env, DivBlock(op, l, r), s, t)
    ensures t.regs[l] == Answer(op, Extended(s.regs[l]), s.regs[r]) && OnlyResult(l, s, t)
  {
    var u := HeadRuns(env, l, s);
    t := TailRuns(env, op, l, r, u);
    RunsAppend(env, DivHead(l), DivTail(op, l, r), s, u, t);
  }

  // The block never gets past a division that does not fit.
  lemma BlockFaults(env: Env, op: DivOp, l: Reg, r: Reg, s: State, t: State)
    requires s.rsp % 8 == 0 && Clear(l, r) && s.regs[r] != 0
    requires !(-TWO_63 <= Quot(Extended(s.regs[l]), s.regs[r]) < TWO_63)
    ensures !Runs(env, DivBlock(op, l, r), s, t)
  {
    if Runs(env, DivBlock(op, l, r), s, t) {
      var c := DivBlock(op, l, r);
      var tr: seq<State> :| |tr| == |c| + 1 && tr[0] == s && tr[|c|] == t && RunTrace(env, c, tr);
      var u := HeadRuns(env, l, s);
      assert RunTrace(env, DivHead(l), tr[..5]) by {
        forall i | 0 <= i < 4 ensures Stepped(env, DivHead(l), tr[..5], i) {
          assert Stepped(env, c, tr, i);
        }
      }
      assert Runs(env, DivHead(l), s, tr[4]);
      RunsDeterministic(env, DivHead(l), s, u, tr[4]);
      assert Stepped(env, c, tr, 4);
      IdivFaults(env, r, tr[4]);
    }
  }

  lemma IdivFaults(env: Env, r: Reg, s: State)
    requires s.regs[r] != 0
    requires !(-TWO_63 <= Quot(Dividend(s.regs[RDX], s.regs[RAX]), s.regs[r]) < TWO_63)
    ensures Step(env, Idiv(r), s) == None
  {
  }

  lemma QuotFits(x: int, d: int)
    requires 0 <= x < TWO_63 && d != 0
    ensures -TWO_63 <= Quot(x, d) < TWO_63
  {
    var e := if d < 0 then -d else d;
    DivSmaller(x, e);
  }

  lemma DivSmaller(x: nat, e: int)
    requires e > 0
    ensures 0 <= x / e <= x
  {
    var q := x / e;
    assert x == q * e + x % e;
    MulAtLeast(q, e);
  }

  lemma MulAtLeast(q: nat, e: int)
    requires e > 0
    ensures q * e >= q
  {
    if q > 0 { MulAtLeast(q - 1, e); }
  }

  lemma DivGap(a: nat, b: nat, d: int)
    requires d > 0 && a >= b + d
    ensures a / d >= b / d + 1
  {
    var p, q := a / d, b / d;
    assert a == p * d + a % d && b == q * d + b % d;
    assert (p - q) * d == p * d - q * d > 0;
    PositiveFactor(p - q, d);
  }

  lemma PositiveFactor(x: int, d: int)
    requires d > 0
    ensures x * d > 0 ==> x > 0
    decreases -x
  {
    if x < 0 { PositiveFactor(x + 1, d); }
  }

  function Abs(x: int): nat { if x < 0 then -x else x }

  // Two dividends of different sign, or far enough apart in magnitude, have different quotients.
  lemma QuotientsDiffer(y: int, x: int, d: int)
    requires d != 0 && y >= Abs(d)
    requires x < 0 || y >= Abs(x) + Abs(d)
    ensures Quot(y, d) != Quot(x, d)
  {
    var e := Abs(d);
    DivGap(y, 0, e);
    SmallDiv(0, e);
    if y >= Abs(x) + e {
      DivGap(y, Abs(x), e);
    }
  }

  lemma SmallDiv(x: nat, e: int)
    requires x < e
    ensures x / e == 0
  {
  }

  // A wrongly extended dividend never gives the right quotient.
  lemma WrongExtensionWrongQuotient(x: int, d: int)
    requires -TWO_63 <= x < TWO_63 && -TWO_63 <= d < TWO_63 && d != 0 && !Extends(x)
    ensures Quot(Extended(x), d) != Quot(x, d)
  {
    ExtendedWhen(x);
    QuotientsDiffer(Extended(x), x, d);
  }

  // The quotient comes out right exactly for dividends that are nonnegative with bit 31 clear.
  lemma DivRightExactlyWhenExtends(env: Env, l: Reg, r: Reg, s: State)
    requires s.rsp % 8 == 0 && Clear(l, r)
    requires -TWO_63 <= s.regs[l] < TWO_63 && -TWO_63 <= s.regs[r] < TWO_63 && s.regs[r] != 0
    ensures (exists t :: Runs(env, DivBlock(Div, l, r), s, t) && t.regs[l] == Quot(s.regs[l], s.regs[r]))
            <==> Extends(s.regs[l])
  {
    var x, d := s.regs[l], s.regs[r];
    ExtendedWhen(x);
    if Extends(x) {
      QuotFits(x, d);
      var t := BlockRuns(env, Div, l, r, s);
    } else if exists t :: Runs(env, DivBlock(Div, l, r), s, t) && t.regs[l] == Quot(x, d) {
      var t :| Runs(env, DivBlock(Div, l, r), s, t) && t.regs[l] == Quot(x, d);
      WrongExtensionWrongQuotient(x, d);
      if -TWO_63 <= Quot(Extended(x), d) < TWO_63 {
        var u := BlockRuns(env, Div, l, r, s);
        RunsDeterministic(env, DivBlock(Div, l, r), s, t, u);
      } else {
        BlockFaults(env, Div, l, r, s, t);
      }
    }
  }

  // ---- remainders ----

  predicate QuotientFits(x: int, d: int)
    requires d != 0
  {
    -TWO_63 <= Quot(x, d) < TWO_63
  }

  // The error of the extension is invisible in the remainder.
  predicate SameRemainder(x: int, d: int)
    requires d != 0
  {
    if x >= 0 then (Extended(x) - x) % Abs(d) == 0 else x % Abs(d) == 0 && Extended(x) % Abs(d) == 0
  }

  // The remainder comes out right exactly when the division does not fault and the divisor divides the error
  // of the extension; a negative dividend must also be divisible itself.
  lemma ModRightExactlyWhen(env: Env, l: Reg, r: Reg, s: State)
    requires s.rsp % 8 == 0 && Clear(l, r)
    requires -TWO_63 <= s.regs[l] < TWO_63 && s.regs[r] != 0
    ensures (exists t :: Runs(env, DivBlock(Mod, l, r), s, t) && t.regs[l] == Rem(s.regs[l], s.regs[r]))
            <==> QuotientFits(Extended(s.regs[l]), s.regs[r]) && SameRemainder(s.regs[l], s.regs[r])
  {
    var x, d := s.regs[l], s.regs[r];
    RemainderAgrees(x, d);
    if QuotientFits(Extended(x), d) {
      var u := BlockRuns(env, Mod, l, r, s);
      forall t | Runs(env, DivBlock(Mod, l, r), s, t) ensures t == u {
        RunsDeterministic(env, DivBlock(Mod, l, r), s, t, u);
      }
    } else {
      forall t ensures !Runs(env, DivBlock(Mod, l, r), s, t) { BlockFaults(env, Mod, l, r, s, t); }
    }
  }

  lemma RemainderAgrees(x: int, d: int)
    requires -TWO_63 <= x < TWO_63 && d != 0
    ensures Rem(Extended(x), d) == Rem(x, d) <==> SameRemainder(x, d)
  {
    ExtendedNatural(x);
    RemOf(Extended(x), d);
    RemOf(x, d);
    var e := Abs(d);
    if x >= 0 {
      SameMod(Extended(x), x, e);
    } else {
      NegatedMod(x, e);
    }
  }

  lemma ExtendedNatural(x: int)
    requires -TWO_63 <= x < TWO_63
    ensures Extended(x) >= 0
  {
    ExtendedWhen(x);
  }

  lemma RemOf(x: int, d: int)
    requires d != 0
    ensures Rem(x, d) == if x >= 0 then x % Abs(d) else -((-x) % Abs(d))
  {
    var n, e := if x < 0 then -x else x, Abs(d);
    assert n == (n / e) * e + n % e;
    assert (n / e) * d == if d < 0 then -((n / e) * e) else (n / e) * e;
    assert (-(n / e)) * d == -((n / e) * d);
  }

  // What fixes quotient and remainder: they put the dividend together again, and the remainder is smaller than
  // the divisor and never of the sign opposite to the dividend's.
  lemma DivisionLaws(x: int, d: int)
    requires d != 0
    ensures Quot(x, d) * d + Rem(x, d) == x && Abs(Rem(x, d)) < Abs(d)
    ensures if x >= 0 then Rem(x, d) >= 0 else Rem(x, d) <= 0
  {
    RemOf(x, d);
  }

  lemma SameMod(y: int, x: int, e: int)
    requires e > 0
    ensures y % e == x % e <==> (y - x) % e == 0
  {
    var p, q := y / e - x / e, y % e - x % e;
    assert y - x == p * e + q by { assert y == (y / e) * e + y % e && x == (x / e) * e + x % e; }
    MultipleOnly(p, q, e);
  }

  // Adding a multiple of e changes divisibility by e only if the rest is divisible.
  lemma MultipleOnly(p: int, q: int, e: int)
    requires e > 0 && -e < q < e
    ensures (p * e + q) % e == 0 <==> q == 0
  {
    var v := p * e + q;
    var k := v / e;
    assert v == k * e + v % e;
    if v % e == 0 {
      assert (k - p) * e == q by { assert (k - p) * e == k * e - p * e; }
      NoSmallMultiple(k - p, e);
    }
    if q == 0 { MultipleIsZero(p, e); }
  }

  lemma NoSmallMultiple(x: int, e: int)
    requires e > 0 && -e < x * e < e
    ensures x == 0
  {
    assert (-x) * e == -(x * e);
    if x >= 1 { AtLeastFactor(x, e); }
    if x <= -1 { AtLeastFactor(-x, e); }
  }

  lemma AtLeastFactor(x: int, e: int)
    requires e > 0 && x >= 1
    ensures x * e >= e
    decreases x
  {
    if x > 1 { AtLeastFactor(x - 1, e); }
  }

  lemma MultipleIsZero(p: int, e: int)
    requires e > 0
    ensures (p * e) % e == 0
  {
    var k, r := (p * e) / e, (p * e) % e;
    assert p * e == k * e + r;
    assert (p - k) * e == r by { assert (p - k) * e == p * e - k * e; }
    NoSmallMultiple(p - k, e);
  }

  lemma NegatedMod(x: int, e: int)
    requires e > 0
    ensures x % e == 0 <==> (-x) % e == 0
  {
    SameMod(0, x, e);
    SameMod(x, 0, e);
  }

  // ---- which registers ----

  // From s, where the operands are words, the dividend is extended correctly and the divisor is not zero,
  // the block ends with the right answer.
  ghost predicate RightFrom(env: Env, op: DivOp, l: Reg, r: Reg, s: State) {
    s.rsp % 8 == 0 && IsWord(s.regs[l]) && IsWord(s.regs[r]) && Extends(s.regs[l]) && s.regs[r] != 0 ==>
      exists t :: Runs(env, DivBlock(op, l, r), s, t) && t.regs[l] == Answer(op, s.regs[l], s.regs[r])
  }

  ghost predicate AlwaysRight(op: DivOp, l: Reg, r: Reg) {
    forall env: Env, s: State :: RightFrom(env, op, l, r, s)
  }

  // For two different registers, the answer is right for every such pair of operands if and only if neither
  // of them is rax or rdx.
  lemma AlwaysRightExactlyWhenClear(op: DivOp, l: Reg, r: Reg)
    requires l != r
    ensures AlwaysRight(op, l, r) <==> Clear(l, r)
  {
    if Clear(l, r) {
      forall env: Env, s: State ensures RightFrom(env, op, l, r, s) {
        if s.rsp % 8 == 0 && IsWord(s.regs[l]) && Extends(s.regs[l]) && s.regs[r] != 0 {
          ExtendedWhen(s.regs[l]);
          QuotFits(s.regs[l], s.regs[r]);
          var t := BlockRuns(env, op, l, r, s);
        }
      }
    } else {
      var env := Env((h: seq<Event>) => map[], (h: seq<Event>) => (0, 0));
      var s := SevenAndTwo(l, r);
      forall t | Runs(env, DivBlock(op, l, r), s, t) ensures t.regs[l] != Answer(op, 7, 2) {
        WrongOutsideClear(env, op, l, r, s, t);
      }
      assert !RightFrom(env, op, l, r, s);
    }
  }

  // 7 in one register and 2 in another.
  function SevenAndTwo(l: Reg, r: Reg): State {
    State(seq(NUM_REGS, i requires 0 <= i < NUM_REGS => if i == l then 7 else if i == r then 2 else 0), 0, 0, map[],
          Undefined, [])
  }

  // A divisor in rdx has become zero, one in rax has become the dividend, and an answer in rdx or rax is
  // overwritten by the pop.
  lemma WrongOutsideClear(env: Env, op: DivOp, l: Reg, r: Reg, s: State, t: State)
    requires l != r && !Clear(l, r) && s == SevenAndTwo(l, r) && Runs(env, DivBlock(op, l, r), s, t)
    ensures t.regs[l] != Answer(op, 7, 2)
  {
    var c := DivBlock(op, l, r);
    var tr: seq<State> :| |tr| == |c| + 1 && tr[0] == s && tr[|c|] == t && RunTrace(env, c, tr);
    assert Stepped(env, c, tr, 0) && Stepped(env, c, tr, 1) && Stepped(env, c, tr, 2) && Stepped(env, c, tr, 3);
    assert tr[4].regs == s.regs[RAX := 7][RDX := 0] && tr[4].rsp == -16;
    assert Read(tr[4].mem, -8) == s.regs[RDX] && Read(tr[4].mem, -16) == s.regs[RAX];
    assert Stepped(env, c, tr, 4);
    WrapUnique(0, 0, 0);
    assert Dividend(0, 7) == 7;
    AfterDivision(env, op, l, r, s, tr);
  }

  lemma AfterDivision(env: Env, op: DivOp, l: Reg, r: Reg, s: State, tr: seq<State>)
    requires l != r && !Clear(l, r) && s == SevenAndTwo(l, r)
    requires var c := DivBlock(op, l, r); |tr| == |c| + 1 && RunTrace(env, c, tr)
    requires tr[4].regs == s.regs[RAX := 7][RDX := 0] && tr[4].rsp == -16
    requires Read(tr[4].mem, -8) == s.regs[RDX] && Read(tr[4].mem, -16) == s.regs[RAX]
    requires Dividend(0, 7) == 7
    ensures tr[8].regs[l] != Answer(op, 7, 2)
  {
    var c := DivBlock(op, l, r);
    assert c[4] == Idiv(r) && c[5] == MovReg(l, if op.Div? then RAX else RDX) && c[6] == Pop(RAX) && c[7] == Pop(RDX);
    assert Stepped(env, c, tr, 4) && Stepped(env, c, tr, 5) && Stepped(env, c, tr, 6) && Stepped(env, c, tr, 7);
    if l == RAX || l == RDX {
      assert tr[8].regs[l] == 7;
    } else {
      assert r == RAX;
    }
  }

  // The registers that the k-th and the next temporary occupy are clear up to the ninth temporary and in the
  // middle of each later turn of the rotation; as written, spilled temporaries share one register.
  lemma ClearExactly(sch: Scheme, k: nat)
    ensures Clear(Owner(sch, k), Owner(sch, k + 1)) <==>
            k <= 8 || k == 13 || (sch.Intended? && k > 13 && !(9 <= (k - 8) % NUM_REGS <= 12))
  {
    if k > 13 {
      var i := 6 + (k - NUM_REGS);
      assert (i + 1) % NUM_REGS == if i % NUM_REGS == NUM_REGS - 1 then 0 else i % NUM_REGS + 1;
    }
  }
}
