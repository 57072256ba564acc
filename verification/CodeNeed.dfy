/** How many registers the code for an expression needs, read off the expression. */
module CodeNeed {
  import opened CodeMachine
  import opened CodeSpec

  /** What kind of descriptor an expression compiles to; a load is of a global, a negation of OP_NOT. */
  datatype Form = FNil | FTrue | FFalse | FNum(n: int) | FConst(i: int) | FLocal | FGlobal | FJump | FNegation | FLoad

  /** With whether its lists of jumps taken on true and on false are used. */
  datatype Shape = Shape(form: Form, t: bool, f: bool)

  /** The constants after some code, the registers it needs beyond those in use, and its result. */
  datatype Cost = Cost(k: seq<Value>, need: nat, s: Shape)

  function Max(a: int, b: int): int { if a < b then b else a }

  function Added(k: seq<Value>, v: Value): seq<Value> { if IndexOf(k, v) < |k| then k else k + [v] }

  /** The constants after a value is brought into a register. */
  function Stored(k: seq<Value>, form: Form): seq<Value> { if form.FNum? then Added(k, Num(form.n)) else k }

  function Vars(s: Shape): Shape { if s.form.FGlobal? then s.(form := FLoad) else s }

  /** A test needs a register for what is neither in one nor a negation. */
  function Tested(k: seq<Value>, s: Shape): Cost {
    if s.form.FNegation? || s.form.FLocal? then Cost(k, 0, s) else Cost(Stored(k, s.form), 1, s)
  }

  function IfTrue(k: seq<Value>, s: Shape): Cost {
    var s1 := Vars(s);
    if s1.form.FConst? || s1.form.FNum? || s1.form.FTrue? then Cost(k, 0, s1.(t := false))
    else if s1.form.FJump? then Cost(k, 0, s1.(t := false, f := true))
    else Tested(k, s1).(s := s1.(t := false, f := true))
  }

  function IfFalse(k: seq<Value>, s: Shape): Cost {
    var s1 := Vars(s);
    if s1.form.FNil? || s1.form.FFalse? then Cost(k, 0, s1.(f := false))
    else if s1.form.FJump? then Cost(k, 0, s1.(f := false, t := true))
    else Tested(k, s1).(s := s1.(f := false, t := true))
  }

  function Negated(k: seq<Value>, s: Shape): Cost {
    var s1 := Vars(s);
    match s1.form
    case FNil => Cost(k, 0, Shape(FTrue, s1.f, s1.t))
    case FFalse => Cost(k, 0, Shape(FTrue, s1.f, s1.t))
    case FTrue => Cost(k, 0, Shape(FFalse, s1.f, s1.t))
    case FConst(_) => Cost(k, 0, Shape(FFalse, s1.f, s1.t))
    case FNum(_) => Cost(k, 0, Shape(FFalse, s1.f, s1.t))
    case FJump => Cost(k, 0, Shape(FJump, s1.f, s1.t))
    case form => Cost(k, if form.FLocal? then 0 else 1, Shape(FNegation, s1.f, s1.t))
  }

  predicate InRegister(s: Shape) { s.form.FLocal? && !s.t && !s.f }

  function ConstantOf(form: Form): Value {
    match form
    case FTrue => Bool(true)
    case FFalse => Bool(false)
    case FNum(n) => Num(n)
    case _ => Nil
  }

  /** An operand of a comparison: a register is needed, and held, unless the operand is a local or a
      constant that still has a short index. */
  function Operand(k: seq<Value>, s: Shape): Cost {
    if InRegister(s) then Cost(k, 0, s)
    else if !s.t && !s.f && (s.form.FNil? || s.form.FTrue? || s.form.FFalse? || s.form.FNum?) && |k| <= MAXINDEXRK
    then Cost(Added(k, ConstantOf(s.form)), 0, s)
    else if !s.t && !s.f && s.form.FConst? && s.form.i <= MAXINDEXRK then Cost(k, 0, s)
    else Cost(Stored(k, s.form), 1, s)
  }

  function CostOf(x: Expr, k: seq<Value>): Cost
    decreases x
  {
    match x
    case ENil => Cost(k, 0, Shape(FNil, false, false))
    case ETrue => Cost(k, 0, Shape(FTrue, false, false))
    case EFalse => Cost(k, 0, Shape(FFalse, false, false))
    case ENum(n) => Cost(k, 0, Shape(FNum(n), false, false))
    case EStr(s) => Cost(Added(k, Str(s)), 0, Shape(FConst(IndexOf(k, Str(s))), false, false))
    case ELocal(_) => Cost(k, 0, Shape(FLocal, false, false))
    case EGlobal(name) => Cost(Added(k, Str(name)), 0, Shape(FGlobal, false, false))
    case EParen(e) => var c := CostOf(e, k); c.(s := Vars(c.s))
    case ENot(e) => var c := CostOf(e, k); var d := Negated(c.k, c.s); d.(need := Max(c.need, d.need))
    case EAnd(a, b) =>
      var c := CostOf(a, k);
      var test := IfTrue(c.k, c.s);
      var d := CostOf(b, test.k);
      var s := Vars(d.s);
      Cost(d.k, Max(Max(c.need, test.need), d.need), s.(f := s.f || test.s.f))
    case EOr(a, b) =>
      var c := CostOf(a, k);
      var test := IfFalse(c.k, c.s);
      var d := CostOf(b, test.k);
      var s := Vars(d.s);
      Cost(d.k, Max(Max(c.need, test.need), d.need), s.(t := s.t || test.s.t))
    case ERel(_, a, b) =>
      var c := CostOf(a, k);
      var o := Operand(c.k, c.s);
      var d := CostOf(b, o.k);
      var p := Operand(d.k, d.s);
      Cost(p.k, Max(c.need, o.need + Max(d.need, p.need)), Shape(FJump, false, false))
  }

  /** The registers that `return x` needs beyond the parameters. */
  function Need(x: Expr): nat {
    var c := CostOf(x, []);
    Max(c.need, if InRegister(c.s) then 0 else 1)
  }

  // ---------------------------------------------------------------- the generator needs just these

  predicate Fits(st: St, kind: Kind, form: Form) {
    match form
    case FNil => kind.VNil?
    case FTrue => kind.VTrue?
    case FFalse => kind.VFalse?
    case FNum(n) => kind == VKNum(n)
    case FConst(i) => kind == VK(i)
    case FLocal => (kind.VLocal? || kind.VNonReloc?) && kind.info < st.nactvar
    case FGlobal => kind.VGlobal?
    case FJump => kind.VJmp?
    case FNegation => kind.VReloc? && 0 <= kind.info == |st.code| - 1 && st.code[kind.info].Not?
    case FLoad => kind.VReloc? && 0 <= kind.info == |st.code| - 1 && st.code[kind.info].GetGlobal?
  }

  predicate Shaped(st: St, e: Exp, s: Shape) { Fits(st, e.kind, s.form) && (e.t != [] <==> s.t) && (e.f != [] <==> s.f) }

  predicate Ready(st: St) { st.nactvar <= st.freereg <= st.maxstack }

  /** From st to st' registers were needed, and none is held. */
  predicate Took(st: St, st': St, k: seq<Value>, need: nat, held: nat) {
    && st'.k == k && st'.freereg == st.freereg + held && st'.nactvar == st.nactvar
    && st'.maxstack == Max(st.maxstack, st.freereg + need)
  }

  lemma VarsOk(st: St, e: Exp, s: Shape)
    requires Shaped(st, e, s) && Ready(st)
    ensures var (st', e') := DischargeVars(st, e);
      Shaped(st', e', Vars(s)) && Took(st, st', st.k, 0, 0) && !e'.kind.VLocal? && !e'.kind.VGlobal? && e'.t == e.t && e'.f == e.f
  {
  }

  lemma AnyOk(st: St, e: Exp, s: Shape)
    requires Shaped(st, e, s) && Ready(st) && !e.kind.VLocal? && !e.kind.VGlobal? && !s.form.FJump?
    ensures var (st', e') := Discharge2AnyReg(st, e);
      var n := if s.form.FLocal? then 0 else 1;
      Took(st, st', Stored(st.k, s.form), n, n) && Took(st, FreeExp(st', e'), Stored(st.k, s.form), n, 0) && e'.kind.VNonReloc?
  {
  }

  lemma TestOk(st: St, e: Exp, s: Shape, cond: bool)
    requires Shaped(st, e, s) && Ready(st) && !e.kind.VLocal? && !e.kind.VGlobal? && !s.form.FJump?
    ensures var c := Tested(st.k, s); Took(st, JumpOnCond(st, e, cond).0, c.k, c.need, 0)
  {
    if !s.form.FNegation? { AnyOk(st, e, s); }
  }

  lemma IfTrueOk(st: St, e: Exp, s: Shape)
    requires Shaped(st, e, s) && Ready(st)
    ensures var (st', e') := GoIfTrue(st, e); var c := IfTrue(st.k, s); Took(st, st', c.k, c.need, 0) && (e'.f != [] <==> c.s.f)
  {
    VarsOk(st, e, s);
    var (st1, e1) := DischargeVars(st, e);
    if !Vars(s).form.FJump? { TestOk(st1, e1, Vars(s), false); }
  }

  lemma IfFalseOk(st: St, e: Exp, s: Shape)
    requires Shaped(st, e, s) && Ready(st)
    ensures var (st', e') := GoIfFalse(st, e); var c := IfFalse(st.k, s); Took(st, st', c.k, c.need, 0) && (e'.t != [] <==> c.s.t)
  {
    VarsOk(st, e, s);
    var (st1, e1) := DischargeVars(st, e);
    if !Vars(s).form.FJump? { TestOk(st1, e1, Vars(s), true); }
  }

  lemma NegatedOk(st: St, e: Exp, s: Shape)
    requires Shaped(st, e, s) && Ready(st)
    ensures var (st', e') := CodeNot(st, e); var c := Negated(st.k, s); Took(st, st', c.k, c.need, 0) && Shaped(st', e', c.s)
  {
    VarsOk(st, e, s);
    var (st1, e1) := DischargeVars(st, e);
    if !Vars(s).form.FJump? { AnyOk(st1, e1, Vars(s)); }
  }

  /** The expression in a register of its own, or in that of a local. */
  lemma AnyRegOk(st: St, e: Exp, s: Shape)
    requires Shaped(st, e, s) && Ready(st)
    ensures var (st', e') := Exp2AnyReg(st, e);
      var n := if InRegister(s) then 0 else 1;
      && Took(st, st', if n == 0 then st.k else Stored(st.k, s.form), n, n) && e'.t == [] && e'.f == []
      && e'.kind.VNonReloc? && (e'.kind.info < st.nactvar <==> n == 0)
  {
    hide Exp2Reg, Added, IndexOf, Emit;
    VarsOk(st, e, s);
    var (st1, e1) := DischargeVars(st, e);
    if !InRegister(s) {
      var st2 := ReserveReg(FreeExp(st1, e1));
      assert Took(st, st2, st.k, 1, 1);
      RegOk(st2, e1, st2.freereg - 1, Vars(s).form);
    }
  }

  /** Neither registers nor constants change. */
  predicate Settled(st: St, st': St) {
    st'.k == st.k && st'.freereg == st.freereg && st'.nactvar == st.nactvar && st'.maxstack == st.maxstack
  }

  lemma CloseOk(st: St, e: Exp, reg: int)
    ensures Settled(st, CloseJumps(st, e, reg))
  {
    hide PatchList, NeedValue;
    if HasJumps(e) { LoadsOk(st, e, reg); }
  }

  lemma LoadsOk(st: St, e: Exp, reg: int)
    ensures Settled(st, LoadBools(st, e, reg))
  {
    hide PatchList;
  }

  lemma ValueOk(st: St, kind: Kind, form: Form, reg: int)
    requires Fits(st, kind, form) && !kind.VLocal? && !kind.VGlobal?
    ensures var st' := DischargeValue(st, kind, reg); st'.k == Stored(st.k, form) && Settled(st.(k := st'.k), st')
  {
    hide PatchList, IndexOf;
  }

  lemma RegOk(st: St, e: Exp, reg: int, form: Form)
    requires Fits(st, e.kind, form) && !e.kind.VLocal? && !e.kind.VGlobal?
    ensures var (st', e') := Exp2Reg(st, e, reg);
      st'.k == Stored(st.k, form) && Settled(st.(k := st'.k), st') && e' == Exp(VNonReloc(reg), [], [])
  {
    hide DischargeValue, CloseJumps, Stored, Fits;
    ValueOk(st, e.kind, form, reg);
    var (st1, e1) := Discharge2Reg(st, e, reg);
    CloseOk(st1, JoinJmp(e1), reg);
  }

  lemma OperandOk(st: St, e: Exp, s: Shape)
    requires Shaped(st, e, s) && Ready(st)
    ensures var (st', e', _) := Exp2RK(st, e);
      var c := Operand(st.k, s);
      && Took(st, st', c.k, c.need, c.need) && c.need <= 1 && Held(st, e', c.need)
  {
    hide IndexOf, Exp2Reg, Stored;
    AnyRegOk(st, e, s);
    VarsOk(st, e, s);
    var (st1, e1) := Exp2Val(st, e);
    if HasJumps(e) {
      assert !InRegister(s);
    } else {
      AnyRegOk(st1, e1, Vars(s));
    }
  }

  /** An operand that is held: in the next register, in that of a local, or a constant. */
  predicate Held(st: St, e: Exp, n: nat) {
    && e.t == [] && e.f == []
    && if n == 0 then (e.kind.VNonReloc? && e.kind.info < st.nactvar) || (e.kind.VK? && e.kind.info <= MAXINDEXRK)
       else e.kind.VNonReloc? && e.kind.info >= st.nactvar
  }

  /** The left operand is not touched again. */
  lemma HeldStays(st: St, e: Exp, n: nat)
    requires Held(st, e, n)
    ensures var (st', e', _) := Exp2RK(st, e); st' == st && e' == e
  {
  }

  lemma CompareOk(st0: St, st: St, op: CmpOp, cond: bool, e1: Exp, n: nat, e2: Exp, s: Shape)
    requires Shaped(st, e2, s) && Ready(st) && Held(st, e1, n) && n <= 1 && st0.freereg + n == st.freereg && st0.nactvar == st.nactvar
    ensures var (st', e') := CodeComp(st, op, cond, e1, e2);
      var c := Operand(st.k, s);
      && st'.k == c.k && st'.freereg == st0.freereg && st'.nactvar == st.nactvar && st'.maxstack == Max(st.maxstack, st.freereg + c.need)
      && Shaped(st', e', Shape(FJump, false, false))
  {
    hide Exp2RK, Operand;
    HeldStays(st, e1, n);
    OperandOk(st, e2, s);
    var (st2, e2', _) := Exp2RK(st, e2);
    var st3 := FreeExp(st2, e2');
    assert st3 == st2.(freereg := st.freereg);
    assert FreeExp(st3, e1) == st3.(freereg := st0.freereg);
  }

  ghost predicate Costs(st: St, x: Expr) {
    var (st', e') := Compile(st, x);
    var c := CostOf(x, st.k);
    Took(st, st', c.k, c.need, 0) && Shaped(st', e', c.s)
  }

  lemma {:induction false} CompileCost(st: St, x: Expr)
    requires Scoped(x, st.nactvar) && Ready(st)
    ensures Costs(st, x)
    decreases x, 1
  {
    hide GoIfTrue, GoIfFalse, CodeNot, CodeComp, Exp2RK, IfTrue, IfFalse, Negated, Operand, DischargeVars, Vars;
    match x
    case EParen(e) =>
      CompileCost(st, e);
      var (st1, e1) := Compile(st, e);
      VarsOk(st1, e1, CostOf(e, st.k).s);
    case ENot(e) =>
      CompileCost(st, e);
      var (st1, e1) := Compile(st, e);
      NegatedOk(st1, e1, CostOf(e, st.k).s);
    case EAnd(a, b) => AndCost(st, a, b);
    case EOr(a, b) => OrCost(st, a, b);
    case ERel(op, a, b) => RelCost(st, op, a, b);
    case _ =>
  }

  lemma {:induction false} AndCost(st: St, a: Expr, b: Expr)
    requires Scoped(EAnd(a, b), st.nactvar) && Ready(st)
    ensures Costs(st, EAnd(a, b))
    decreases EAnd(a, b), 0
  {
    hide GoIfTrue, IfTrue, Vars, Fits, DischargeVars, Compile, CostOf;
    CompileAnd(st, a, b);
    CostAnd(a, b, st.k);
    CompileCost(st, a);
    var (st1, e1) := Compile(st, a);
    var c := CostOf(a, st.k);
    IfTrueOk(st1, e1, c.s);
    var (st2, e2) := GoIfTrue(st1, e1);
    CompileCost(st2, b);
    var (st3, e3) := Compile(st2, b);
    VarsOk(st3, e3, CostOf(b, st2.k).s);
    VarsKind(CostOf(b, st2.k).s);
  }

  lemma {:induction false} OrCost(st: St, a: Expr, b: Expr)
    requires Scoped(EOr(a, b), st.nactvar) && Ready(st)
    ensures Costs(st, EOr(a, b))
    decreases EOr(a, b), 0
  {
    hide GoIfFalse, IfFalse, Vars, Fits, DischargeVars, Compile, CostOf;
    CompileOr(st, a, b);
    CostOr(a, b, st.k);
    CompileCost(st, a);
    var (st1, e1) := Compile(st, a);
    var c := CostOf(a, st.k);
    IfFalseOk(st1, e1, c.s);
    var (st2, e2) := GoIfFalse(st1, e1);
    CompileCost(st2, b);
    var (st3, e3) := Compile(st2, b);
    VarsOk(st3, e3, CostOf(b, st2.k).s);
    VarsKind(CostOf(b, st2.k).s);
  }

  lemma {:induction false} RelCost(st: St, op: RelOp, a: Expr, b: Expr)
    requires Scoped(ERel(op, a, b), st.nactvar) && Ready(st)
    ensures Costs(st, ERel(op, a, b))
    decreases ERel(op, a, b), 0
  {
    hide CodeComp, Exp2RK, Operand, Shaped, Held, OpOf, Fits, Compile, CostOf;
    CompileRel(st, op, a, b);
    CostRel(op, a, b, st.k);
    CompileCost(st, a);
    var (st1, e1) := Compile(st, a);
    var c := CostOf(a, st.k);
    OperandOk(st1, e1, c.s);
    var (st2, e2, _) := Exp2RK(st1, e1);
    assert Held(st2, e2, Operand(c.k, c.s).need) by { HeldIn(st1, st2, e2, Operand(c.k, c.s).need); }
    CompileCost(st2, b);
    var (st3, e3) := Compile(st2, b);
    HeldIn(st2, st3, e2, Operand(c.k, c.s).need);
    CompareOk(st1, st3, OpOf(op).0, OpOf(op).1, e2, Operand(c.k, c.s).need, e3, CostOf(b, st2.k).s);
  }

  lemma CompileRel(st: St, op: RelOp, a: Expr, b: Expr)
    ensures var (st1, e1) := Compile(st, a);
      var (st2, e2, _) := Exp2RK(st1, e1);
      var (st3, e3) := Compile(st2, b);
      Compile(st, ERel(op, a, b)) == CodeComp(st3, OpOf(op).0, OpOf(op).1, e2, e3)
  {
    hide CodeComp, Exp2RK, OpOf;
  }

  lemma CostRel(op: RelOp, a: Expr, b: Expr, k: seq<Value>)
    ensures var c := CostOf(a, k);
      var o := Operand(c.k, c.s);
      var d := CostOf(b, o.k);
      var p := Operand(d.k, d.s);
      CostOf(ERel(op, a, b), k) == Cost(p.k, Max(c.need, o.need + Max(d.need, p.need)), Shape(FJump, false, false))
  {
    hide Operand;
  }

  lemma CompileAnd(st: St, a: Expr, b: Expr)
    ensures var (st1, e1) := Compile(st, a);
      var (st2, e2) := GoIfTrue(st1, e1);
      var (st3, e3) := Compile(st2, b);
      var (st4, e4) := DischargeVars(st3, e3);
      Compile(st, EAnd(a, b)) == (st4, e4.(f := e4.f + e2.f))
  {
    hide GoIfTrue, DischargeVars;
  }

  lemma CostAnd(a: Expr, b: Expr, k: seq<Value>)
    ensures var c := CostOf(a, k);
      var test := IfTrue(c.k, c.s);
      var d := CostOf(b, test.k);
      var s := Vars(d.s);
      CostOf(EAnd(a, b), k) == Cost(d.k, Max(Max(c.need, test.need), d.need), s.(f := s.f || test.s.f))
  {
    hide IfTrue, Vars;
  }

  lemma CompileOr(st: St, a: Expr, b: Expr)
    ensures var (st1, e1) := Compile(st, a);
      var (st2, e2) := GoIfFalse(st1, e1);
      var (st3, e3) := Compile(st2, b);
      var (st4, e4) := DischargeVars(st3, e3);
      Compile(st, EOr(a, b)) == (st4, e4.(t := e4.t + e2.t))
  {
    hide GoIfFalse, DischargeVars;
  }

  lemma CostOr(a: Expr, b: Expr, k: seq<Value>)
    ensures var c := CostOf(a, k);
      var test := IfFalse(c.k, c.s);
      var d := CostOf(b, test.k);
      var s := Vars(d.s);
      CostOf(EOr(a, b), k) == Cost(d.k, Max(Max(c.need, test.need), d.need), s.(t := s.t || test.s.t))
  {
    hide IfFalse, Vars;
  }

  lemma HeldIn(st: St, st': St, e: Exp, n: nat)
    requires Held(st, e, n) && st'.nactvar == st.nactvar
    ensures Held(st', e, n)
  {
  }

  lemma VarsKind(s: Shape)
    ensures Vars(s).t == s.t && Vars(s).f == s.f
  {
  }

  /** The registers that `return x` needs. */
  lemma ReturnNeed(nparams: nat, x: Expr)
    requires Scoped(x, nparams)
    ensures CompileReturn(NewFunction(nparams), x).maxstack == Max(2, nparams + Need(x))
  {
    hide Compile, CostOf, Exp2AnyReg;
    var st := NewFunction(nparams);
    CompileCost(st, x);
    var (st1, e1) := Compile(st, x);
    AnyRegOk(st1, e1, CostOf(x, []).s);
  }
}
