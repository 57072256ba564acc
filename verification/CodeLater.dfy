/** Constants are never dropped and errors never forgotten, whatever the code generator does. */
module CodeLater {
  import opened CodeMachine
  import opened CodeSpec

  predicate Later(st: St, st': St) { st.k <= st'.k && (st.err ==> st'.err) }

  lemma DischargeVarsLater(st: St, e: Exp)
    ensures Later(st, DischargeVars(st, e).0)
  {
  }

  lemma Discharge2RegLater(st: St, e: Exp, reg: int)
    ensures Later(st, Discharge2Reg(st, e, reg).0)
  {
    hide PatchList;
  }

  lemma Exp2RegLater(st: St, e: Exp, reg: int)
    ensures Later(st, Exp2Reg(st, e, reg).0)
  {
    hide Discharge2Reg, PatchList, NeedValue;
    Discharge2RegLater(st, e, reg);
  }

  lemma Exp2NextRegLater(st: St, e: Exp)
    ensures Later(st, Exp2NextReg(st, e).0)
  {
    hide DischargeVars, Exp2Reg;
    DischargeVarsLater(st, e);
    var (st1, e1) := DischargeVars(st, e);
    var st2 := ReserveReg(FreeExp(st1, e1));
    Exp2RegLater(st2, e1, st2.freereg - 1);
  }

  lemma Exp2AnyRegLater(st: St, e: Exp)
    ensures Later(st, Exp2AnyReg(st, e).0)
  {
    hide DischargeVars, Exp2Reg, Exp2NextReg;
    DischargeVarsLater(st, e);
    var (st1, e1) := DischargeVars(st, e);
    if e1.kind.VNonReloc? { Exp2RegLater(st1, e1, e1.kind.info); }
    Exp2NextRegLater(st1, e1);
  }

  lemma Exp2RKLater(st: St, e: Exp)
    ensures Later(st, Exp2RK(st, e).0)
  {
    hide DischargeVars, Exp2AnyReg;
    Exp2AnyRegLater(st, e);
    DischargeVarsLater(st, e);
    var (st1, e1) := Exp2Val(st, e);
    Exp2AnyRegLater(st1, e1);
  }

  lemma Discharge2AnyRegLater(st: St, e: Exp)
    ensures Later(st, Discharge2AnyReg(st, e).0)
  {
    hide Discharge2Reg;
    var st1 := ReserveReg(st);
    Discharge2RegLater(st1, e, st1.freereg - 1);
  }

  lemma JumpOnCondLater(st: St, e: Exp, cond: bool)
    ensures Later(st, JumpOnCond(st, e, cond).0)
  {
    hide Discharge2AnyReg, PatchList;
    Discharge2AnyRegLater(st, e);
  }

  lemma GoIfLater(st: St, e: Exp)
    ensures Later(st, GoIfTrue(st, e).0) && Later(st, GoIfFalse(st, e).0)
  {
    hide DischargeVars, JumpOnCond;
    DischargeVarsLater(st, e);
    var (st1, e1) := DischargeVars(st, e);
    JumpOnCondLater(st1, e1, false);
    JumpOnCondLater(st1, e1, true);
  }

  lemma CodeNotLater(st: St, e: Exp)
    ensures Later(st, CodeNot(st, e).0)
  {
    hide DischargeVars, Discharge2AnyReg, RemoveValues, PatchList;
    DischargeVarsLater(st, e);
    var (st1, e1) := DischargeVars(st, e);
    Discharge2AnyRegLater(st1, e1);
  }

  lemma CodeCompLater(st: St, op: CmpOp, cond: bool, e1: Exp, e2: Exp)
    ensures Later(st, CodeComp(st, op, cond, e1, e2).0)
  {
    hide Exp2RK, PatchList;
    Exp2RKLater(st, e1);
    Exp2RKLater(Exp2RK(st, e1).0, e2);
  }

  lemma {:induction false} CompileLater(st: St, x: Expr)
    ensures Later(st, Compile(st, x).0)
    decreases x
  {
    hide DischargeVars, GoIfTrue, GoIfFalse, CodeNot, CodeComp, Exp2RK;
    match x
    case EParen(e) =>
      CompileLater(st, e);
      DischargeVarsLater(Compile(st, e).0, Compile(st, e).1);
    case ENot(e) =>
      CompileLater(st, e);
      CodeNotLater(Compile(st, e).0, Compile(st, e).1);
    case EAnd(a, b) =>
      var (st1, e1) := Compile(st, a);
      var (st2, e2) := GoIfTrue(st1, e1);
      var (st3, e3) := Compile(st2, b);
      CompileLater(st, a);
      GoIfLater(st1, e1);
      CompileLater(st2, b);
      DischargeVarsLater(st3, e3);
    case EOr(a, b) =>
      var (st1, e1) := Compile(st, a);
      var (st2, e2) := GoIfFalse(st1, e1);
      var (st3, e3) := Compile(st2, b);
      CompileLater(st, a);
      GoIfLater(st1, e1);
      CompileLater(st2, b);
      DischargeVarsLater(st3, e3);
    case ERel(op, a, b) =>
      var (st1, e1) := Compile(st, a);
      var (st2, e2, _) := Exp2RK(st1, e1);
      var (st3, e3) := Compile(st2, b);
      CompileLater(st, a);
      Exp2RKLater(st1, e1);
      CompileLater(st2, b);
      CodeCompLater(st3, OpOf(op).0, OpOf(op).1, e2, e3);
    case _ =>
  }
}
