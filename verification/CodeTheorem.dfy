/** Compiler correctness for expressions: the code emitted for an expression leaves its value. */
module CodeTheorem {
  import opened CodeMachine
  import opened CodeSpec
  import opened CodeRuns
  import opened CodeMeaning
  import opened CodeLater
  import opened CodeCorrect

  /** The registers with which a run stops. */
  function At(o: Out): Regs { if o.Stuck? then map[] else o.r }

  /** An expression reads no register above the active variables. */
  lemma {:induction false} EvalSame(m: Machine, x: Expr, r1: Regs, r2: Regs, n: int, base: int)
    requires Scoped(x, n) && Same(r1, r2, base, -1) && n <= base
    ensures Eval(m, x, r1) == Eval(m, x, r2)
  {
    match x
    case EParen(e) => EvalSame(m, e, r1, r2, n, base);
    case ENot(e) => EvalSame(m, e, r1, r2, n, base);
    case EAnd(a, b) => EvalSame(m, a, r1, r2, n, base); EvalSame(m, b, r1, r2, n, base);
    case EOr(a, b) => EvalSame(m, a, r1, r2, n, base); EvalSame(m, b, r1, r2, n, base);
    case ERel(_, a, b) => EvalSame(m, a, r1, r2, n, base); EvalSame(m, b, r1, r2, n, base);
    case _ =>
  }

  /** The list of the left operand joins that of the right one. */
  function Joined(e: Exp, out: seq<int>, cond: bool): Exp {
    if cond then e.(t := e.t + out) else e.(f := e.f + out)
  }

  lemma JoinTracks(m: Machine, st: St, st': St, e: Exp, out: seq<int>, s0: nat, r0: Regs, o: Out,
                   v1: Value, v2: Value, base: int, cond: bool)
    requires Branched(m, st, out, s0, r0, o, v1, base, cond)
    requires Tracks(m, st', e, s0, r0, Run(m, st, s0, r0), v2, base, -1)
    requires TestsKept(st.code, st'.code, out)
    ensures Tracks(m, st', Joined(e, out, cond), s0, r0, o, if Truthy(v1) == cond then v1 else v2, base, -1)
  {
    hide Exec;
  }

  lemma JoinSim(m: Machine, st: St, st': St, e: Exp, out: seq<int>, s0: nat, r0: Regs, o: Out,
                v1: Value, v2: Value, base: int, cond: bool, list: seq<int>)
    requires Branched(m, st, out, s0, r0, o, v1, base, cond)
    requires Sim(m, st', e, s0, r0, Run(m, st, s0, r0), v2, base)
    requires Spares(st, st', e, list + out) && Disjoint(list, out)
    ensures Sim(m, st', Joined(e, out, cond), s0, r0, o, if Truthy(v1) == cond then v1 else v2, base)
    ensures Spares(st, st', Joined(e, out, cond), list)
  {
    hide Exec, Branched, Tracks, Inv;
    forall j | j in list || j in out ensures j in list + out {}
    JoinTracks(m, st, st', e, out, s0, r0, o, v1, v2, base, cond);
  }

  /** An expression is compiled in a state between expressions, with lists pending around it. */
  ghost predicate Start(m: Machine, st: St, s0: nat, r0: Regs, list: seq<int>) {
    && Between(st, s0, r0, st.freereg) && !Run(m, st, s0, r0).Stuck?
    && ValueJumps(st.code, list) && Disjoint(list, st.jpc)
  }

  ghost predicate Compiled(m: Machine, st: St, st': St, e: Exp, s0: nat, r0: Regs, o: Out, v: Value, list: seq<int>) {
    && Sim(m, st', e, s0, r0, o, v, st.freereg) && Spares(st, st', e, list) && Grows(st, st') && TrueConst(st', e)
  }

  lemma LeafOk(m: Machine, st: St, e: Exp, v: Value, s0: nat, r0: Regs, list: seq<int>)
    requires Start(m, st, s0, r0, list)
    requires e.t == [] && e.f == [] && InvE(st, e) && !e.kind.VJmp? && !e.kind.VReloc? && !e.kind.VNonReloc? && TrueConst(st, e)
    requires var o := Run(m, st, s0, r0); FallValue(m, st.code, st.k, e.kind, At(o), v)
    ensures Compiled(m, st, st, e, s0, r0, Run(m, st, s0, r0), v, list)
  {
    hide Exec, Labelled, TestsPaired, Pending;
  }

  lemma StartMore(m: Machine, st: St, k: seq<Value>, s0: nat, r0: Regs, list: seq<int>)
    requires Start(m, st, s0, r0, list) && st.k <= k
    ensures Start(m, st.(k := k), s0, r0, list) && Run(m, st.(k := k), s0, r0) == Run(m, st, s0, r0)
  {
    hide Exec, Labelled, TestsPaired, Pending;
  }

  lemma CompiledMore(m: Machine, st: St, k: seq<Value>, st': St, e: Exp, s0: nat, r0: Regs, o: Out, v: Value, list: seq<int>)
    requires st.k <= k && Compiled(m, st.(k := k), st', e, s0, r0, o, v, list)
    ensures Compiled(m, st, st', e, s0, r0, o, v, list)
  {
    hide Sim, Safe;
  }

  /** A string constant, or a global named by one. */
  lemma NamedOk(m: Machine, st: St, s: string, isGlobal: bool, s0: nat, r0: Regs, list: seq<int>)
    requires Start(m, st, s0, r0, list) && AddK(st, Str(s)).0.k <= m.k
    ensures var (st1, i) := AddK(st, Str(s));
      var e := Exp(if isGlobal then VGlobal(i) else VK(i), [], []);
      Compiled(m, st, st1, e, s0, r0, Run(m, st, s0, r0), if isGlobal then Global(m, Str(s)) else Str(s), list)
  {
    hide Exec, Inv, ValueJumps, AddK, Compiled, Start, StartsAt;
    var (st1, i) := AddK(st, Str(s));
    AddKGrows(st, Str(s));
    StartMore(m, st, st1.k, s0, r0, list);
    var e := Exp(if isGlobal then VGlobal(i) else VK(i), [], []);
    LeafInv(st1, e);
    LeafOk(m, st1, e, if isGlobal then Global(m, Str(s)) else Str(s), s0, r0, list);
    CompiledMore(m, st, st1.k, st1, e, s0, r0, Run(m, st, s0, r0), if isGlobal then Global(m, Str(s)) else Str(s), list);
  }

  lemma LeafInv(st: St, e: Exp)
    requires e.t == [] && e.f == [] && ((e.kind.VK? || e.kind.VGlobal?) ==> 0 <= e.kind.info < |st.k|)
    requires e.kind.VLocal? ==> 0 <= e.kind.info < st.nactvar
    requires !e.kind.VJmp? && !e.kind.VReloc? && !e.kind.VNonReloc?
    ensures InvE(st, e)
  {
  }

  lemma BetweenStart(m: Machine, st: St, out: seq<int>, s0: nat, r0: Regs, o: Out, v: Value, base: int, cond: bool, list: seq<int>)
    requires Between(st, s0, r0, base) && Apart(st, out, list) && Branched(m, st, out, s0, r0, o, v, base, cond)
    ensures Start(m, st, s0, r0, list + out) && Disjoint(list, out)
  {
    hide Exec, Labelled, TestsPaired, Inv;
    forall j | j in list + out ensures j in list || j in out {}
  }

  lemma PlainOk(m: Machine, st: St, x: Expr, s0: nat, r0: Regs, list: seq<int>)
    requires Start(m, st, s0, r0, list) && Scoped(x, st.nactvar)
    requires x.ENil? || x.ETrue? || x.EFalse? || x.ENum? || x.ELocal?
    ensures var (st', e) := Compile(st, x);
      var o := Run(m, st, s0, r0);
      Compiled(m, st, st', e, s0, r0, o, Eval(m, x, At(o)), list)
  {
    hide Exec, Labelled, TestsPaired, Pending, Inv, Compiled;
    var e := Compile(st, x).1;
    LeafInv(st, e);
    LeafOk(m, st, e, Eval(m, x, At(Run(m, st, s0, r0))), s0, r0, list);
  }

  /** The expression is compiled correctly wherever compilation starts. */
  lemma {:induction false} CompileOk(m: Machine, st: St, x: Expr, s0: nat, r0: Regs, list: seq<int>)
    requires Start(m, st, s0, r0, list) && Scoped(x, st.nactvar)
    requires var st' := Compile(st, x).0; !st'.err && st'.k <= m.k
    ensures var (st', e) := Compile(st, x);
      var o := Run(m, st, s0, r0);
      Compiled(m, st, st', e, s0, r0, o, Eval(m, x, At(o)), list)
    decreases x, 1
  {
    hide Exec, Inv, ValueJumps, AddK, Compiled, DischargeVars, CodeNot, GoIfTrue, GoIfFalse, Exp2RK, CodeComp, Start;
    match x
    case EStr(s) => NamedOk(m, st, s, false, s0, r0, list);
    case EGlobal(s) => NamedOk(m, st, s, true, s0, r0, list);
    case EParen(_) => ParenOk(m, st, x, s0, r0, list);
    case ENot(_) => NotOk(m, st, x, s0, r0, list);
    case EAnd(_, _) => AndOk(m, st, x, s0, r0, list);
    case EOr(_, _) => OrOk(m, st, x, s0, r0, list);
    case ERel(_, _, _) => RelOk(m, st, x, s0, r0, list);
    case _ => PlainOk(m, st, x, s0, r0, list);
  }

  lemma {:induction false} ParenOk(m: Machine, st: St, x: Expr, s0: nat, r0: Regs, list: seq<int>)
    requires x.EParen? && Start(m, st, s0, r0, list) && Scoped(x, st.nactvar)
    requires var st' := Compile(st, x).0; !st'.err && st'.k <= m.k
    ensures var (st', e) := Compile(st, x);
      var o := Run(m, st, s0, r0);
      Compiled(m, st, st', e, s0, r0, o, Eval(m, x, At(o)), list)
    decreases x, 0
  {
    hide Exec, Inv, InvE, ValueJumps, DischargeVars, Start, Tracks, StartsAt, TestsKept;
    var (st1, e1) := Compile(st, x.e);
    DischargeVarsLater(st1, e1);
    CompileOk(m, st, x.e, s0, r0, list);
    var o := Run(m, st, s0, r0);
    DischargeVarsInv(st1, e1);
    DischargeVarsSim(m, st1, e1, s0, r0, o, Eval(m, x, At(o)), st.freereg, list);
    SparesTrans(st, st1, DischargeVars(st1, e1).0, e1, DischargeVars(st1, e1).1, list);
  }

  lemma {:induction false} NotOk(m: Machine, st: St, x: Expr, s0: nat, r0: Regs, list: seq<int>)
    requires x.ENot? && Start(m, st, s0, r0, list) && Scoped(x, st.nactvar)
    requires var st' := Compile(st, x).0; !st'.err && st'.k <= m.k
    ensures var (st', e) := Compile(st, x);
      var o := Run(m, st, s0, r0);
      Compiled(m, st, st', e, s0, r0, o, Eval(m, x, At(o)), list)
    decreases x, 0
  {
    hide Exec, Inv, InvE, ValueJumps, CodeNot, Start, Tracks, StartsAt, TestsKept;
    var (st1, e1) := Compile(st, x.e);
    CodeNotLater(st1, e1);
    CompileOk(m, st, x.e, s0, r0, list);
    var o := Run(m, st, s0, r0);
    CodeNotSim(m, st1, e1, s0, r0, o, Eval(m, x.e, At(o)), st.freereg, list);
    var (st', e') := CodeNot(st1, e1);
    SparesTrans(st, st1, st', e1, e', list);
    CodeNotKind(st1, e1);
  }

  lemma CodeNotKind(st: St, e: Exp)
    ensures !CodeNot(st, e).1.kind.VK?
  {
  }

  lemma DischargeVarsKind(st: St, e: Exp)
    ensures DischargeVars(st, e).1.kind.VK? ==> DischargeVars(st, e) == (st, e)
  {
  }

  /** The second half of `and` and `or`: out is the list of the left operand. */
  lemma RightOk(m: Machine, st: St, st2: St, out: seq<int>, st3: St, e3: Exp, s0: nat, r0: Regs, o: Out,
                v1: Value, v2: Value, base: int, cond: bool, list: seq<int>)
    requires Went(m, st, st2, out, s0, r0, o, v1, base, cond, list) && st2.freereg == base == st.freereg && st3.k <= m.k
    requires Compiled(m, st2, st3, e3, s0, r0, Run(m, st2, s0, r0), v2, list + out)
    ensures var (st4, e4) := DischargeVars(st3, e3);
      Compiled(m, st, st4, Joined(e4, out, cond), s0, r0, o, if Truthy(v1) == cond then v1 else v2, list)
  {
    hide Exec, Inv, InvE, ValueJumps, DischargeVars, Tracks, StartsAt, TestsKept, Branched, Run, Disjoint;
    var (st4, e4) := DischargeVars(st3, e3);
    DischargeVarsSim(m, st3, e3, s0, r0, Run(m, st2, s0, r0), v2, base, list + out);
    SparesTrans(st2, st3, st4, e3, e4, list + out);
    ApartDisjoint(st2, out, list);
    JoinSim(m, st2, st4, e4, out, s0, r0, o, v1, v2, base, cond, list);
    KeptTrans(st.code, st2.code, st4.code, list);
    DischargeVarsKind(st3, e3);
  }

  lemma ApartDisjoint(st: St, out: seq<int>, list: seq<int>)
    requires Apart(st, out, list)
    ensures Disjoint(list, out)
  {
  }

  lemma {:induction false} AndOk(m: Machine, st: St, x: Expr, s0: nat, r0: Regs, list: seq<int>)
    requires x.EAnd? && Start(m, st, s0, r0, list) && Scoped(x, st.nactvar)
    requires var st' := Compile(st, x).0; !st'.err && st'.k <= m.k
    ensures var (st', e) := Compile(st, x);
      var o := Run(m, st, s0, r0);
      Compiled(m, st, st', e, s0, r0, o, Eval(m, x, At(o)), list)
    decreases x, 0
  {
    hide Exec, Inv, InvE, ValueJumps, DischargeVars, GoIfTrue, Start, Tracks, TestsKept, StartsAt, Apart, Safe, Compiled;
    var o, base := Run(m, st, s0, r0), st.freereg;
    var (st1, e1) := Compile(st, x.l);
    var (st2, e2) := GoIfTrue(st1, e1);
    var (st3, e3) := Compile(st2, x.r);
    GoIfLater(st1, e1);
    CompileLater(st2, x.r);
    DischargeVarsLater(st3, e3);
    CompileOk(m, st, x.l, s0, r0, list);
    var v1 := Eval(m, x.l, At(o));
    WentTrue(m, st, st1, e1, s0, r0, o, v1, list);
    BetweenStart(m, st2, e2.f, s0, r0, o, v1, base, false, list);
    CompileOk(m, st2, x.r, s0, r0, list + e2.f);
    var o2 := Run(m, st2, s0, r0);
    RightOk(m, st, st2, e2.f, st3, e3, s0, r0, o, v1, Eval(m, x.r, At(o2)), base, false, list);
    if Truthy(v1) { RightSame(m, st2, e2.f, x.r, s0, r0, o, v1, base, false); }
  }

  /** The right operand sees the same locals. */
  lemma RightSame(m: Machine, st: St, out: seq<int>, x: Expr, s0: nat, r0: Regs, o: Out, v: Value, base: int, cond: bool)
    requires Branched(m, st, out, s0, r0, o, v, base, cond) && Scoped(x, st.nactvar) && st.nactvar <= base
    ensures Eval(m, x, At(Run(m, st, s0, r0))) == Eval(m, x, At(o))
  {
    hide Exec;
    EvalSame(m, x, o.r, Run(m, st, s0, r0).r, st.nactvar, base);
  }

  lemma WentTrue(m: Machine, st: St, st1: St, e1: Exp, s0: nat, r0: Regs, o: Out, v: Value, list: seq<int>)
    requires Compiled(m, st, st1, e1, s0, r0, o, v, list) && st1.k <= m.k
    requires var st2 := GoIfTrue(st1, e1).0; !st2.err && st2.k <= m.k
    ensures var (st2, e2) := GoIfTrue(st1, e1);
      Went(m, st, st2, e2.f, s0, r0, o, v, st.freereg, false, list) && e2.t == []
  {
    hide Exec, Inv, InvE, ValueJumps, GoIfTrue, Tracks, TestsKept, Between, Branched, Apart;
    GoIfTrueSim(m, st1, e1, s0, r0, o, v, st.freereg, list);
    WentFrom(m, st, st1, e1, GoIfTrue(st1, e1).0, GoIfTrue(st1, e1).1.f, s0, r0, o, v, st.freereg, false, list);
  }

  lemma WentFalse(m: Machine, st: St, st1: St, e1: Exp, s0: nat, r0: Regs, o: Out, v: Value, list: seq<int>)
    requires Compiled(m, st, st1, e1, s0, r0, o, v, list) && st1.k <= m.k
    requires var st2 := GoIfFalse(st1, e1).0; !st2.err && st2.k <= m.k
    ensures var (st2, e2) := GoIfFalse(st1, e1);
      Went(m, st, st2, e2.t, s0, r0, o, v, st.freereg, true, list) && e2.f == []
  {
    hide Exec, Inv, InvE, ValueJumps, GoIfFalse, Tracks, TestsKept, Between, Branched, Apart;
    GoIfFalseSim(m, st1, e1, s0, r0, o, v, st.freereg, list);
    WentFrom(m, st, st1, e1, GoIfFalse(st1, e1).0, GoIfFalse(st1, e1).1.t, s0, r0, o, v, st.freereg, true, list);
  }

  lemma {:induction false} OrOk(m: Machine, st: St, x: Expr, s0: nat, r0: Regs, list: seq<int>)
    requires x.EOr? && Start(m, st, s0, r0, list) && Scoped(x, st.nactvar)
    requires var st' := Compile(st, x).0; !st'.err && st'.k <= m.k
    ensures var (st', e) := Compile(st, x);
      var o := Run(m, st, s0, r0);
      Compiled(m, st, st', e, s0, r0, o, Eval(m, x, At(o)), list)
    decreases x, 0
  {
    hide Exec, Inv, InvE, ValueJumps, DischargeVars, GoIfFalse, Start, Tracks, TestsKept, StartsAt, Apart, Safe, Compiled;
    var o, base := Run(m, st, s0, r0), st.freereg;
    var (st1, e1) := Compile(st, x.l);
    var (st2, e2) := GoIfFalse(st1, e1);
    var (st3, e3) := Compile(st2, x.r);
    GoIfLater(st1, e1);
    CompileLater(st2, x.r);
    DischargeVarsLater(st3, e3);
    CompileOk(m, st, x.l, s0, r0, list);
    var v1 := Eval(m, x.l, At(o));
    WentFalse(m, st, st1, e1, s0, r0, o, v1, list);
    BetweenStart(m, st2, e2.t, s0, r0, o, v1, base, true, list);
    CompileOk(m, st2, x.r, s0, r0, list + e2.t);
    var o2 := Run(m, st2, s0, r0);
    RightOk(m, st, st2, e2.t, st3, e3, s0, r0, o, v1, Eval(m, x.r, At(o2)), base, true, list);
    if !Truthy(v1) { RightSame(m, st2, e2.t, x.r, s0, r0, o, v1, base, true); }
  }

  lemma LeftOperand(m: Machine, st: St, st1: St, e1: Exp, s0: nat, r0: Regs, o: Out, v: Value, list: seq<int>)
    requires Compiled(m, st, st1, e1, s0, r0, o, v, list)
    requires var st2 := Exp2RK(st1, e1).0; !st2.err && st2.k <= m.k
    ensures var (st2, e2, operand) := Exp2RK(st1, e1);
      && Sim(m, st2, e2, s0, r0, o, v, st.freereg) && Spares(st, st2, e2, list) && Grows(st, st2)
      && IsOperand(m, st2, e2, operand) && Start(m, st2, s0, r0, list)
  {
    hide Exec, InvE, ValueJumps, Exp2RK, Tracks, TestsKept, IsOperand, Labelled, TestsPaired, Pending;
    Exp2RKSim(m, st1, e1, s0, r0, o, v, st.freereg, list);
    var (st2, e2, operand) := Exp2RK(st1, e1);
    SparesTrans(st, st1, st2, e1, e2, list);
    OperandValue(m, st2, e2, operand, s0, r0, o, v, st.freereg);
    FreeBelow(st2, e2);
  }

  lemma FreeBelow(st: St, e: Exp)
    ensures FreeExp(st, e).freereg <= st.freereg
  {
  }

  /** The two operands seen from the end of the code. */
  lemma BothOperands(m: Machine, st2: St, e2: Exp, o1: int, st4: St, e4: Exp, o2: int, s0: nat, r0: Regs, o: Out,
                     v1: Value, v2: Value, base: int)
    requires Sim(m, st2, e2, s0, r0, o, v1, base) && IsOperand(m, st2, e2, o1) && st2.k <= m.k && st4.k <= m.k
    requires Sim(m, st4, e4, s0, r0, Run(m, st2, s0, r0), v2, st2.freereg) && IsOperand(m, st4, e4, o2)
    ensures var o' := Run(m, st4, s0, r0);
      && !o.Stuck?
      && (o.Exit? ==> o' == o)
      && (o.Fall? ==> o'.Fall? && Same(o.r, o'.r, base, -1) && RK(m, o'.r, o1) == v1 && RK(m, o'.r, o2) == v2)
  {
    hide Exec, Inv, InvE, IsOperand, ValueRun, Carries;
    OperandValue(m, st2, e2, o1, s0, r0, o, v1, base);
    OperandValue(m, st4, e4, o2, s0, r0, Run(m, st2, s0, r0), v2, st2.freereg);
    FreeBelow(st2, e2);
  }

  lemma CodeCompShape(st: St, op: RelOp, e1: Exp, o1: int, e2: Exp, m: Machine)
    requires IsOperand(m, st, e1, o1)
    ensures var (st1, e2', o2) := Exp2RK(st, e2);
      var st2 := BothFreed(st1, e1, e2');
      CodeComp(st, OpOf(op).0, OpOf(op).1, e1, e2)
      == (CondJump(st2, CompTest(op, o1, o2)), Exp(VJmp(|st2.code| + 1), [], []))
  {
    hide Exp2RK, CondJump;
    OperandAgain(m, st, e1, o1);
  }

  lemma CompOk(m: Machine, st: St, op: RelOp, st2: St, e2: Exp, o1: int, st3: St, e3: Exp, b: Expr,
               s0: nat, r0: Regs, o: Out, v1: Value, list: seq<int>)
    requires Sim(m, st2, e2, s0, r0, o, v1, st.freereg) && Spares(st, st2, e2, list) && Grows(st, st2)
    requires IsOperand(m, st2, e2, o1) && st2.k <= m.k && Scoped(b, st2.nactvar)
    requires Compiled(m, st2, st3, e3, s0, r0, Run(m, st2, s0, r0), Eval(m, b, At(Run(m, st2, s0, r0))), list)
    requires var st' := CodeComp(st3, OpOf(op).0, OpOf(op).1, e2, e3).0; !st'.err && st'.k <= m.k
    ensures var (st', e') := CodeComp(st3, OpOf(op).0, OpOf(op).1, e2, e3);
      Compiled(m, st, st', e', s0, r0, o, Bool(Relate(m, op, v1, Eval(m, b, At(o)))), list)
  {
    hide Exec, Inv, InvE, ValueJumps, Exp2RK, CodeComp, Tracks, TestsKept, Disjoint, IsOperand, CondJump, StartsAt, FreeExp;
    var o2run, base, base2 := Run(m, st2, s0, r0), st.freereg, st2.freereg;
    var v2 := Eval(m, b, At(o2run));
    OperandKeeps(m, st2, st3, e2, o1);
    CodeCompShape(st3, op, e2, o1, e3, m);
    var (st4, e4, o2) := Exp2RK(st3, e3);
    var st5 := BothFreed(st4, e2, e4);
    BothFreedFields(st4, e2, e4);
    CondJumpFields(st5, CompTest(op, o1, o2));
    Exp2RKSim(m, st3, e3, s0, r0, o2run, v2, base2, list);
    SparesTrans(st2, st3, st4, e3, e4, list);
    BothOperands(m, st2, e2, o1, st4, e4, o2, s0, r0, o, v1, v2, base);
    FreeAgain(st2, st4, e2);
    BothFreedInv(st4, e2, e4, s0, r0, base, base2);
    CompareOk(m, st5, op, o1, o2, s0, r0, base, v1, v2, o);
    KeptTrans(st.code, st2.code, st5.code, list);
    CompareKeeps(st, st5, CompTest(op, o1, o2), list);
    OperandValue(m, st2, e2, o1, s0, r0, o, v1, base);
    if o.Fall? { EvalSame(m, b, o.r, o2run.r, st2.nactvar, base); }
  }

  lemma OperandKeeps(m: Machine, st: St, st': St, e: Exp, operand: int)
    requires IsOperand(m, st, e, operand)
    ensures IsOperand(m, st', e, operand)
  {
  }

  lemma BothFreedFields(st: St, e1: Exp, e2: Exp)
    ensures var st' := BothFreed(st, e1, e2); st'.k == st.k && st'.err == st.err && st'.code == st.code && st'.jpc == st.jpc
  {
  }

  lemma FreeAgain(st: St, st': St, e: Exp)
    requires st'.nactvar == st.nactvar
    ensures FreeExp(st'.(freereg := st.freereg), e).freereg == FreeExp(st, e).freereg
  {
  }

  lemma {:induction false} RelOk(m: Machine, st: St, x: Expr, s0: nat, r0: Regs, list: seq<int>)
    requires x.ERel? && Start(m, st, s0, r0, list) && Scoped(x, st.nactvar)
    requires var st' := Compile(st, x).0; !st'.err && st'.k <= m.k
    ensures var (st', e) := Compile(st, x);
      var o := Run(m, st, s0, r0);
      Compiled(m, st, st', e, s0, r0, o, Eval(m, x, At(o)), list)
    decreases x, 0
  {
    hide Exec, Inv, InvE, ValueJumps, Exp2RK, CodeComp, Start, Tracks, TestsKept, StartsAt, Safe, Compiled, IsOperand;
    var o, base := Run(m, st, s0, r0), st.freereg;
    var (st1, e1) := Compile(st, x.l);
    var (st2, e2, o1) := Exp2RK(st1, e1);
    var (st3, e3) := Compile(st2, x.r);
    var (cmp, cond) := OpOf(x.op);
    Exp2RKLater(st1, e1);
    CompileLater(st2, x.r);
    CodeCompLater(st3, cmp, cond, e2, e3);
    CompileOk(m, st, x.l, s0, r0, list);
    var v1 := Eval(m, x.l, At(o));
    LeftOperand(m, st, st1, e1, s0, r0, o, v1, list);
    CompileOk(m, st2, x.r, s0, r0, list);
    CompOk(m, st, x.op, st2, e2, o1, st3, e3, x.r, s0, r0, o, v1, list);
  }

  // ---------------------------------------------------------------- statements

  lemma Exp2AnySim(m: Machine, st: St, st1: St, e1: Exp, s0: nat, r0: Regs, o: Out, v: Value)
    requires Compiled(m, st, st1, e1, s0, r0, o, v, [])
    requires var st2 := Exp2AnyReg(st1, e1).0; !st2.err && st2.k <= m.k
    ensures var (st2, e2) := Exp2AnyReg(st1, e1);
      && Inv(st2) && StartsAt(st2, s0, r0) && e2.kind.VNonReloc?
      && !o.Stuck?
      && (o.Fall? ==> var o2 := Run(m, st2, s0, r0);
            o2.Fall? && Same(o.r, o2.r, st.freereg, -1) && Get(o2.r, e2.kind.info) == v)
  {
    hide Exec, Labelled, TestsPaired, Pending, Exp2AnyReg, ValueJumps;
    Exp2AnyRegSim(m, st1, e1, s0, r0, o, v, st.freereg, []);
  }

  lemma EmitLater(st: St, i: Instr)
    ensures Later(st, Emit(st, i)) && Emit(st, i).k == st.k && Emit(st, i).err == st.err
  {
  }

  /** Code compiled for `return x` makes the machine, wherever it enters the function, arrive at
      the final OP_RETURN, which hands back the value of x and nothing else, with the registers in
      use before it unchanged. */
  lemma ReturnsValue(m: Machine, st: St, x: Expr, s0: nat, r0: Regs) returns (n: nat, r: Regs)
    requires Start(m, st, s0, r0, []) && Scoped(x, st.nactvar) && Run(m, st, s0, r0).Fall?
    requires var st' := CompileReturn(st, x); !st'.err && st'.k <= m.k
    ensures var code := CompileReturn(st, x).code;
      && |code| > 0 && code[|code| - 1].Return?
      && Steps(code, m, s0, r0, n) == (|code| - 1, r) && n <= |code| && TestsPaired(code)
      && HandsBack(code[|code| - 1], r, [Eval(m, x, Run(m, st, s0, r0).r)])
      && Same(Run(m, st, s0, r0).r, r, st.freereg, -1)
  {
    hide Exec, Inv, Exp2AnyReg, Compiled, Start, StartsAt;
    var (st1, e1) := Compile(st, x);
    var (st2, e2) := Exp2AnyReg(st1, e1);
    var o := Run(m, st, s0, r0);
    var i := Return(if e2.kind.VNonReloc? then e2.kind.info else 0, 2);
    Exp2AnyRegLater(st1, e1);
    EmitLater(st2, i);
    CompileOk(m, st, x, s0, r0, []);
    Exp2AnySim(m, st, st1, e1, s0, r0, o, Eval(m, x, At(o)));
    r := Run(m, st2, s0, r0).r;
    n := ReturnRun(m, st2, i, s0, r0);
    HandsOne(i, r);
  }

  lemma HandsOne(i: Instr, r: Regs)
    requires i.Return? && i.b == 2
    ensures HandsBack(i, r, [Get(r, i.a)])
  {
  }

  lemma ReturnRun(m: Machine, st: St, i: Instr, s0: nat, r0: Regs) returns (n: nat)
    requires Inv(st) && StartsAt(st, s0, r0) && i.Return? && Run(m, st, s0, r0).Fall?
    ensures var code := Emit(st, i).code;
      && |code| == |st.code| + 1 && code[|code| - 1] == i
      && Steps(code, m, s0, r0, n) == (|code| - 1, Run(m, st, s0, r0).r) && n <= |code| && TestsPaired(code)
  {
    hide Labelled, Pending;
    EmitInv(st, i);
    RunEmit(m, st, [i], s0, r0);
    n := ExecIsVm(Emit(st, i).code, m, s0, |st.code|, r0);
  }

  /** A function whose body is `return x` returns the value of x, its parameters being in the
      first registers and every other register nil. */
  lemma FunctionReturns(m: Machine, nparams: int, x: Expr, r0: Regs) returns (n: nat, r: Regs)
    requires 0 <= nparams < MAXSTACK && Scoped(x, nparams)
    requires forall i :: i >= nparams ==> Get(r0, i) == Nil
    requires var st' := CompileReturn(NewFunction(nparams), x); !st'.err && st'.k == m.k
    ensures var code := CompileReturn(NewFunction(nparams), x).code;
      && |code| > 0 && code[|code| - 1].Return?
      && Steps(code, m, 0, r0, n) == (|code| - 1, r) && n <= |code| && TestsPaired(code)
      && HandsBack(code[|code| - 1], r, [Eval(m, x, r0)])
      && Same(r0, r, nparams, -1)
  {
    hide CompileReturn;
    n, r := ReturnsValue(m, NewFunction(nparams), x, 0, r0);
  }

  /** The descriptor of a compiled expression names no temporary register. */
  lemma {:induction false} NoTemporary(st: St, x: Expr, n: int)
    requires Scoped(x, n)
    ensures var kind := Compile(st, x).1.kind; kind.VNonReloc? || kind.VLocal? ==> 0 <= kind.info < n
    decreases x
  {
    hide CodeNot, GoIfTrue, GoIfFalse, Exp2RK, AddK, Emit;
    match x
    case EParen(a) => NoTemporary(st, a, n);
    case ENot(a) => CodeNotNoReg(Compile(st, a).0, Compile(st, a).1);
    case EAnd(a, b) => NoTemporary(GoIfTrue(Compile(st, a).0, Compile(st, a).1).0, b, n);
    case EOr(a, b) => NoTemporary(GoIfFalse(Compile(st, a).0, Compile(st, a).1).0, b, n);
    case _ =>
  }

  lemma CodeNotNoReg(st: St, e: Exp)
    ensures !CodeNot(st, e).1.kind.VLocal? && !CodeNot(st, e).1.kind.VNonReloc?
  {
  }

  /** Code compiled for an assignment to a local leaves the value of x in it, and every other
      register in use as it was. */
  lemma AssignsValue(m: Machine, st: St, x: Expr, reg: int, s0: nat, r0: Regs)
    requires Start(m, st, s0, r0, []) && Scoped(x, st.nactvar) && 0 <= reg < st.nactvar < NO_REG
    requires var st' := CompileAssign(st, x, reg); !st'.err && st'.k <= m.k
    ensures var o, st' := Run(m, st, s0, r0), CompileAssign(st, x, reg);
      Inv(st') && Delivers(m, st', s0, r0, o, Eval(m, x, At(o)), st.freereg, reg)
  {
    hide Exec, Labelled, TestsPaired, Pending, Compiled, Start, Exp2Reg, ValueJumps, Disjoint, Delivers, Tracks;
    var (st1, e1) := Compile(st, x);
    Exp2RegLater(FreeExp(st1, e1), e1, reg);
    CompileOk(m, st, x, s0, r0, []);
    NoTemporary(st, x, st.nactvar);
    CompiledFrame(m, st, st1, e1, s0, r0, Run(m, st, s0, r0), Eval(m, x, At(Run(m, st, s0, r0))));
    AssignRun(m, st, st1, e1, reg, s0, r0, Run(m, st, s0, r0), Eval(m, x, At(Run(m, st, s0, r0))));
  }

  lemma CompiledFrame(m: Machine, st: St, st1: St, e1: Exp, s0: nat, r0: Regs, o: Out, v: Value)
    requires Compiled(m, st, st1, e1, s0, r0, o, v, [])
    ensures st1.nactvar == st.nactvar
  {
  }

  lemma AssignRun(m: Machine, st: St, st1: St, e1: Exp, reg: int, s0: nat, r0: Regs, o: Out, v: Value)
    requires Compiled(m, st, st1, e1, s0, r0, o, v, []) && 0 <= reg < st.nactvar < NO_REG
    requires Exp2Reg(st1, e1, reg).0.k <= m.k
    ensures var st' := Exp2Reg(st1, e1, reg).0; Inv(st') && Delivers(m, st', s0, r0, o, v, st.freereg, reg)
  {
    hide Exec, Labelled, TestsPaired, Pending, Exp2Reg, ValueJumps, Disjoint, Delivers, Tracks;
    Exp2RegInv(st1, e1, reg, []);
    Exp2RegOk(m, st1, e1, reg, s0, r0, o, v, st.freereg);
  }
}
