/** What the code generator of lcode.c does, on values: jump lists are plain sequences of
    jump positions and a jump without a target is Jmp(NO_JUMP). */
module CodeSpec {
  import opened CodeMachine

  const MAXSTACK := 250

  // ---------------------------------------------------------------- the source language

  datatype RelOp = OpEq | OpNe | OpLt | OpLe | OpGt | OpGe

  datatype Expr =
    | ENil | ETrue | EFalse | ENum(n: int) | EStr(s: string)
    | ELocal(reg: int) | EGlobal(name: string)
    | EParen(e: Expr)
    | ENot(e: Expr)
    | EAnd(l: Expr, r: Expr)
    | EOr(l: Expr, r: Expr)
    | ERel(op: RelOp, l: Expr, r: Expr)

  function Relate(m: Machine, op: RelOp, x: Value, y: Value): bool {
    match op
    case OpEq => x == y
    case OpNe => x != y
    case OpLt => m.lt(x, y)
    case OpLe => m.le(x, y)
    case OpGt => m.lt(y, x)
    case OpGe => m.le(y, x)
  }

  /** The values that count as false. */
  const FALSE := {Nil, Bool(false)}

  /** The meaning of an expression, locals being registers; a global that was not set is nil. */
  function Eval(m: Machine, x: Expr, r: Regs): Value {
    match x
    case ENil => Nil
    case ETrue => Bool(true)
    case EFalse => Bool(false)
    case ENum(n) => Num(n)
    case EStr(s) => Str(s)
    case ELocal(i) => Get(r, i)
    case EGlobal(name) => if Str(name) in m.globals then m.globals[Str(name)] else Nil
    case EParen(e) => Eval(m, e, r)
    case ENot(e) => Bool(Eval(m, e, r) in FALSE)
    case EAnd(a, b) => var v := Eval(m, a, r); if v in FALSE then v else Eval(m, b, r)
    case EOr(a, b) => var v := Eval(m, a, r); if v in FALSE then Eval(m, b, r) else v
    case ERel(op, a, b) => Bool(Relate(m, op, Eval(m, a, r), Eval(m, b, r)))
  }

  /** Every local is an active variable. */
  predicate Scoped(x: Expr, nactvar: int) {
    match x
    case ELocal(i) => 0 <= i < nactvar
    case EParen(e) => Scoped(e, nactvar)
    case ENot(e) => Scoped(e, nactvar)
    case EAnd(a, b) => Scoped(a, nactvar) && Scoped(b, nactvar)
    case EOr(a, b) => Scoped(a, nactvar) && Scoped(b, nactvar)
    case ERel(_, a, b) => Scoped(a, nactvar) && Scoped(b, nactvar)
    case _ => true
  }

  // ---------------------------------------------------------------- generator state

  /** The part of FuncState that expressions use; err records a raised syntax error. */
  datatype St = St(code: seq<Instr>, jpc: seq<int>, lasttarget: int, freereg: int, nactvar: int,
                   maxstack: int, k: seq<Value>, err: bool)

  datatype Kind = VNil | VTrue | VFalse | VKNum(n: int) | VK(info: int) | VLocal(info: int)
                | VGlobal(info: int) | VJmp(info: int) | VReloc(info: int) | VNonReloc(info: int)

  /** An expdesc: t and f are the lists of jumps taken when the value is true or false. */
  datatype Exp = Exp(kind: Kind, t: seq<int>, f: seq<int>)

  predicate HasJumps(e: Exp) { e.t != [] || e.f != [] }

  // ---------------------------------------------------------------- jump lists

  predicate Controlled(code: seq<Instr>, j: int) { 0 < j < |code| && code[j - 1].IsTest() }

  predicate TestSetJump(code: seq<Instr>, j: int) { 0 < j < |code| && code[j - 1].TestSet? }

  /** patchtestreg on the TESTSET i. */
  function PatchedTest(i: Instr, reg: int): Instr
    requires i.TestSet?
  {
    if reg != NO_REG && reg != i.b then TestSet(reg, i.b, i.cond) else Test(i.b, i.cond)
  }

  /** The instruction at p after patchlistaux(list, vtarget, reg, dtarget). */
  function PatchedAt(code: seq<Instr>, list: seq<int>, vtarget: int, reg: int, dtarget: int, p: int): Instr
    requires 0 <= p < |code|
  {
    if p in list then Jmp((if TestSetJump(code, p) then vtarget else dtarget) - (p + 1))
    else if p + 1 in list && code[p].TestSet? then PatchedTest(code[p], reg)
    else code[p]
  }

  function PatchList(code: seq<Instr>, list: seq<int>, vtarget: int, reg: int, dtarget: int): seq<Instr> {
    seq(|code|, p requires 0 <= p < |code| => PatchedAt(code, list, vtarget, reg, dtarget, p))
  }

  function RemoveValues(code: seq<Instr>, list: seq<int>): seq<Instr> {
    seq(|code|, p requires 0 <= p < |code| =>
      if p + 1 in list && code[p].TestSet? then PatchedTest(code[p], NO_REG) else code[p])
  }

  predicate NeedValue(code: seq<Instr>, list: seq<int>) {
    exists j :: j in list && !TestSetJump(code, j)
  }

  /** luaK_code: jumps pending to here are discharged, then the instruction is appended. */
  function Emit(st: St, i: Instr): St {
    var n := |st.code|;
    st.(code := PatchList(st.code, st.jpc, n, NO_REG, n) + [i], jpc := [])
  }

  /** luaK_jump: jumps pending to here are kept on hold in the list of the new jump. */
  function PlainJump(st: St): (St, seq<int>) {
    (st.(code := st.code + [Jmp(NO_JUMP)], jpc := []), [|st.code|] + st.jpc)
  }

  /** condjump; the new jump is at position |st.code| + 1. */
  function CondJump(st: St, i: Instr): St { PlainJump(Emit(st, i)).0 }

  function GetLabel(st: St): St { st.(lasttarget := |st.code|) }

  function PatchToHere(st: St, list: seq<int>): St {
    st.(lasttarget := |st.code|, jpc := st.jpc + list)
  }

  // ---------------------------------------------------------------- registers and constants

  function ReserveReg(st: St): St {
    var newstack := st.freereg + 1;
    st.(freereg := newstack,
        maxstack := if newstack > st.maxstack then newstack else st.maxstack,
        err := st.err || (newstack > st.maxstack && newstack >= MAXSTACK))
  }

  function FreeExp(st: St, e: Exp): St {
    if e.kind.VNonReloc? && e.kind.info >= st.nactvar
    then st.(freereg := st.freereg - 1) else st
  }

  function IndexOf(k: seq<Value>, v: Value): (i: int)
    ensures 0 <= i <= |k| && (i < |k| ==> k[i] == v)
  {
    if k == [] || k[0] == v then 0 else 1 + IndexOf(k[1..], v)
  }

  /** addk: an equal constant is shared. */
  function AddK(st: St, v: Value): (St, int) {
    var i := IndexOf(st.k, v);
    (if i < |st.k| then st else st.(k := st.k + [v]), i)
  }

  // ---------------------------------------------------------------- discharging expressions

  /** luaK_nil for one register: nothing at a clean function start, else joined to a LOADNIL. */
  function LoadNilOp(st: St, from: int): St {
    var n := |st.code|;
    if n > st.lasttarget && n == 0 && from >= st.nactvar then st
    else if n > st.lasttarget && n > 0 && st.code[n - 1].LoadNil?
            && st.code[n - 1].a <= from <= st.code[n - 1].b + 1 then
      if from > st.code[n - 1].b then st.(code := st.code[n - 1 := LoadNil(st.code[n - 1].a, from)]) else st
    else Emit(st, LoadNil(from, from))
  }

  function DischargeVars(st: St, e: Exp): (St, Exp) {
    match e.kind
    case VLocal(r) => (st, e.(kind := VNonReloc(r)))
    case VGlobal(i) => (Emit(st, GetGlobal(0, i)), e.(kind := VReloc(|st.code|)))
    case _ => (st, e)
  }

  function SetA(i: Instr, reg: int): Instr {
    match i
    case GetGlobal(_, bx) => GetGlobal(reg, bx)
    case Not(_, b) => Not(reg, b)
    case _ => i
  }

  /** Choosing the register of the relocatable instruction at the end of the code. */
  function Relocate(st: St, reg: int): St {
    var n := |st.code|;
    if n > 0 then st.(code := st.code[n - 1 := SetA(st.code[n - 1], reg)]) else st
  }

  /** The instruction that loads a constant or moves a register, and the state before it. */
  function ValueLoad(st: St, kind: Kind, reg: int): (St, Instr) {
    match kind
    case VFalse => (st, LoadBool(reg, false, false))
    case VK(i) => (st, LoadK(reg, i))
    case VKNum(n) => var (st1, i) := AddK(st, Num(n)); (st1, LoadK(reg, i))
    case VNonReloc(r) => (st, Move(reg, r))
    case _ => (st, LoadBool(reg, true, false))
  }

  function DischargeValue(st: St, kind: Kind, reg: int): St {
    if kind.VNil? then LoadNilOp(st, reg)
    else if kind.VReloc? then Relocate(st, reg)
    else if kind.VJmp? || kind == VNonReloc(reg) then st
    else var (st1, i) := ValueLoad(st, kind, reg); Emit(st1, i)
  }

  function Discharge2Reg(st: St, e: Exp, reg: int): (St, Exp) {
    var (st1, e1) := DischargeVars(st, e);
    (DischargeValue(st1, e1.kind, reg), if e1.kind.VJmp? then e1 else e1.(kind := VNonReloc(reg)))
  }

  function Discharge2AnyReg(st: St, e: Exp): (St, Exp) {
    if e.kind.VNonReloc? then (st, e)
    else var st1 := ReserveReg(st); Discharge2Reg(st1, e, st1.freereg - 1)
  }

  /** Both lists of e closed at the end of the code. */
  function CloseBoth(st: St, e: Exp, reg: int, pf: int, pt: int): St {
    var final := |st.code|;
    GetLabel(st).(code := PatchList(PatchList(st.code, e.f, final, reg, pf), e.t, final, reg, pt))
  }

  /** The second half of exp2reg, once the fall-through value is in reg; e still carries its
      lists, and a VJmp has already joined its true list. */
  function CloseJumps(st: St, e: Exp, reg: int): St {
    if !HasJumps(e) then st
    else if NeedValue(st.code, e.t) || NeedValue(st.code, e.f) then
      var st1 := LoadBools(st, e, reg);
      CloseBoth(st1, e, reg, |st1.code| - 2, |st1.code| - 1)
    else CloseBoth(st, e, reg, NO_JUMP, NO_JUMP)
  }

  /** The jump over, and the two LOADBOOLs of exp2reg. */
  function LoadBools(st: St, e: Exp, reg: int): St {
    var (st1, fj) := if e.kind.VJmp? then (st, []) else PlainJump(st);
    var st2 := Emit(GetLabel(st1), LoadBool(reg, false, true));
    var st3 := Emit(GetLabel(st2), LoadBool(reg, true, false));
    PatchToHere(st3, fj)
  }

  function JoinJmp(e: Exp): Exp { if e.kind.VJmp? then e.(t := e.t + [e.kind.info]) else e }

  function Exp2Reg(st: St, e: Exp, reg: int): (St, Exp) {
    var (st1, e1) := Discharge2Reg(st, e, reg);
    (CloseJumps(st1, JoinJmp(e1), reg), Exp(VNonReloc(reg), [], []))
  }

  function Exp2TopReg(st: St, e: Exp): (St, Exp) { Exp2Reg(st, e, st.freereg - 1) }

  function Exp2NextReg(st: St, e: Exp): (St, Exp) {
    var (st1, e1) := DischargeVars(st, e);
    Exp2TopReg(ReserveReg(FreeExp(st1, e1)), e1)
  }

  function Exp2AnyReg(st: St, e: Exp): (St, Exp) {
    var (st1, e1) := DischargeVars(st, e);
    if e1.kind.VNonReloc? && !HasJumps(e1) then (st1, e1)
    else if e1.kind.VNonReloc? && e1.kind.info >= st1.nactvar then Exp2Reg(st1, e1, e1.kind.info)
    else Exp2NextReg(st1, e1)
  }

  function Exp2Val(st: St, e: Exp): (St, Exp) {
    if HasJumps(e) then Exp2AnyReg(st, e) else DischargeVars(st, e)
  }

  function ConstOf(kind: Kind): Value {
    match kind
    case VTrue => Bool(true)
    case VFalse => Bool(false)
    case VKNum(n) => Num(n)
    case _ => Nil
  }

  /** luaK_exp2RK: an RK operand for the expression. */
  function Exp2RK(st: St, e: Exp): (St, Exp, int) {
    var (st1, e1) := Exp2Val(st, e);
    var simple := e1.kind.VNil? || e1.kind.VTrue? || e1.kind.VFalse? || e1.kind.VKNum?;
    if simple && |st1.k| <= MAXINDEXRK then
      var (st2, i) := AddK(st1, ConstOf(e1.kind)); (st2, e1.(kind := VK(i)), i + BITRK)
    else if e1.kind.VK? && e1.kind.info <= MAXINDEXRK then (st1, e1, e1.kind.info + BITRK)
    else
      var (st2, e2) := Exp2AnyReg(st1, e1);
      (st2, e2, if e2.kind.VNonReloc? then e2.kind.info else 0)
  }

  // ---------------------------------------------------------------- conditions

  /** invertjump on the comparison that controls jump j. */
  function InvertJump(code: seq<Instr>, j: int): seq<Instr> {
    if 0 < j < |code| && code[j - 1].Cmp?
    then code[j - 1 := code[j - 1].(accept := !code[j - 1].accept)] else code
  }

  /** jumponcond: emits a test that jumps when the value's truth is cond; returns the jump. */
  function JumpOnCond(st: St, e: Exp, cond: bool): (St, int) {
    if e.kind.VReloc? && 0 <= e.kind.info == |st.code| - 1 && st.code[e.kind.info].Not? then
      var st1 := st.(code := st.code[..e.kind.info]);
      (CondJump(st1, Test(st.code[e.kind.info].b, !cond)), |st1.code| + 1)
    else
      var (st1, e1) := Discharge2AnyReg(st, e);
      var st2 := FreeExp(st1, e1);
      (CondJump(st2, TestSet(NO_REG, if e1.kind.VNonReloc? then e1.kind.info else 0, cond)), |st2.code| + 1)
  }

  function GoIfTrue(st: St, e: Exp): (St, Exp) {
    var (st1, e1) := DischargeVars(st, e);
    match e1.kind
    case VK(_) => (PatchToHere(st1, e1.t), e1.(t := []))
    case VKNum(_) => (PatchToHere(st1, e1.t), e1.(t := []))
    case VTrue => (PatchToHere(st1, e1.t), e1.(t := []))
    case VJmp(j) =>
      (PatchToHere(st1.(code := InvertJump(st1.code, j)), e1.t), e1.(t := [], f := e1.f + [j]))
    case _ =>
      var (st2, j) := JumpOnCond(st1, e1, false);
      (PatchToHere(st2, e1.t), e1.(t := [], f := e1.f + [j]))
  }

  function GoIfFalse(st: St, e: Exp): (St, Exp) {
    var (st1, e1) := DischargeVars(st, e);
    match e1.kind
    case VNil => (PatchToHere(st1, e1.f), e1.(f := []))
    case VFalse => (PatchToHere(st1, e1.f), e1.(f := []))
    case VJmp(j) => (PatchToHere(st1, e1.f), e1.(f := [], t := e1.t + [j]))
    case _ =>
      var (st2, j) := JumpOnCond(st1, e1, true);
      (PatchToHere(st2, e1.f), e1.(f := [], t := e1.t + [j]))
  }

  /** codenot without the final exchange of lists. */
  function NotValue(st: St, e: Exp): (St, Kind) {
    match e.kind
    case VNil => (st, VTrue)
    case VFalse => (st, VTrue)
    case VK(_) => (st, VFalse)
    case VKNum(_) => (st, VFalse)
    case VTrue => (st, VFalse)
    case VJmp(j) => (st.(code := InvertJump(st.code, j)), e.kind)
    case _ =>
      var (st1, e1) := Discharge2AnyReg(st, e);
      var st2 := FreeExp(st1, e1);
      (Emit(st2, Not(0, if e1.kind.VNonReloc? then e1.kind.info else 0)), VReloc(|st2.code|))
  }

  function CodeNot(st: St, e: Exp): (St, Exp) {
    var (st1, e1) := DischargeVars(st, e);
    var (st2, kind) := NotValue(st1, e1);
    (st2.(code := RemoveValues(RemoveValues(st2.code, e1.t), e1.f)), Exp(kind, e1.f, e1.t))
  }

  function OpOf(op: RelOp): (CmpOp, bool) {
    match op
    case OpEq => (CmpEq, true)
    case OpNe => (CmpEq, false)
    case OpLt => (CmpLt, true)
    case OpLe => (CmpLe, true)
    case OpGt => (CmpLt, false)
    case OpGe => (CmpLe, false)
  }

  function CodeComp(st: St, op: CmpOp, cond: bool, e1: Exp, e2: Exp): (St, Exp) {
    var (st1, e1', o1) := Exp2RK(st, e1);
    var (st2, e2', o2) := Exp2RK(st1, e2);
    var st3 := FreeExp(FreeExp(st2, e2'), e1');
    var swap := !cond && op != CmpEq;
    var test := if swap then Cmp(op, true, o2, o1) else Cmp(op, cond, o1, o2);
    (CondJump(st3, test), Exp(VJmp(|st3.code| + 1), e1'.t, e1'.f))
  }

  // ---------------------------------------------------------------- whole expressions

  /** The calls subexpr makes while it parses the expression. */
  function Compile(st: St, x: Expr): (St, Exp)
    decreases x
  {
    match x
    case ENil => (st, Exp(VNil, [], []))
    case ETrue => (st, Exp(VTrue, [], []))
    case EFalse => (st, Exp(VFalse, [], []))
    case ENum(n) => (st, Exp(VKNum(n), [], []))
    case EStr(s) => var (st1, i) := AddK(st, Str(s)); (st1, Exp(VK(i), [], []))
    case ELocal(r) => (st, Exp(VLocal(r), [], []))
    case EGlobal(name) => var (st1, i) := AddK(st, Str(name)); (st1, Exp(VGlobal(i), [], []))
    case EParen(e) => var (st1, e1) := Compile(st, e); DischargeVars(st1, e1)
    case ENot(e) => var (st1, e1) := Compile(st, e); CodeNot(st1, e1)
    case EAnd(a, b) =>
      var (st1, e1) := Compile(st, a);
      var (st2, e2) := GoIfTrue(st1, e1);
      var (st3, e3) := Compile(st2, b);
      var (st4, e4) := DischargeVars(st3, e3);
      (st4, e4.(f := e4.f + e2.f))
    case EOr(a, b) =>
      var (st1, e1) := Compile(st, a);
      var (st2, e2) := GoIfFalse(st1, e1);
      var (st3, e3) := Compile(st2, b);
      var (st4, e4) := DischargeVars(st3, e3);
      (st4, e4.(t := e4.t + e2.t))
    case ERel(op, a, b) =>
      var (st1, e1) := Compile(st, a);
      var (st2, e2, _) := Exp2RK(st1, e1);
      var (st3, e3) := Compile(st2, b);
      CodeComp(st3, OpOf(op).0, OpOf(op).1, e2, e3)
  }

  /** `return x`: the value in any register, then OP_RETURN (retstat in lparser.c, luaK_ret). */
  function CompileReturn(st: St, x: Expr): St {
    var (st1, e1) := Compile(st, x);
    var (st2, e2) := Exp2AnyReg(st1, e1);
    Emit(st2, Return(if e2.kind.VNonReloc? then e2.kind.info else 0, 2))
  }

  /** `v = x` for a local variable v in register reg (luaK_storevar). */
  function CompileAssign(st: St, x: Expr, reg: int): St {
    var (st1, e1) := Compile(st, x);
    Exp2Reg(FreeExp(st1, e1), e1, reg).0
  }

  /** The state of open_func, its parameters being active variables. */
  function NewFunction(nparams: int): St {
    St([], [], -1, nparams, nparams, if nparams > 2 then nparams else 2, [], false)
  }
}
