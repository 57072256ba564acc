/** The fragment of the Lua 5.1 virtual machine that expression code runs on, and an
    executor for code whose jump lists are still being threaded by the code generator. */
module CodeMachine {

  datatype Value = Nil | Bool(b: bool) | Num(n: int) | Str(s: string)

  const NO_JUMP := -1
  /** MAXARG_A: the register number that no instruction of finished code mentions. */
  const NO_REG := 255
  /** SIZE_B is 9, so the top bit of an RK operand says "constant". */
  const BITRK := 256
  const MAXINDEXRK := 255
  const MAXARG_SBX := 131071

  /** What the operand fields hold: registers and constants share nine bits, A has eight and sBx
      eighteen, its middle standing for 0. */
  lemma OperandBits()
    ensures BITRK == 256 && MAXINDEXRK == 255 && NO_REG == 255 && MAXARG_SBX == 131071 && NO_JUMP == -1
  {
  }

  datatype CmpOp = CmpEq | CmpLt | CmpLe

  /** Decoded instructions; Jmp carries the signed offset stored in sBx. */
  datatype Instr =
    | Move(a: int, b: int)
    | LoadK(a: int, bx: int)
    | LoadBool(a: int, value: bool, skip: bool)
    | LoadNil(a: int, b: int)
    | GetGlobal(a: int, bx: int)
    | Not(a: int, b: int)
    | Jmp(sbx: int)
    | Cmp(op: CmpOp, accept: bool, b: int, c: int)
    | Test(a: int, cond: bool)
    | TestSet(a: int, b: int, cond: bool)
    | Return(a: int, b: int)
  {
    /** testTMode: the instruction is a test and the next one is its jump. */
    predicate IsTest() { Cmp? || Test? || TestSet? }
  }

  type Regs = map<int, Value>

  /** Constants, globals and the (possibly user-defined) order relations. */
  datatype Machine = Machine(k: seq<Value>, globals: map<Value, Value>,
                             lt: (Value, Value) -> bool, le: (Value, Value) -> bool)

  /** Where partial code stops: at the end, or at a jump that has no target yet. */
  datatype Out = Fall(r: Regs) | Exit(j: int, r: Regs) | Stuck

  function Get(r: Regs, i: int): Value { if i in r then r[i] else Nil }

  predicate Truthy(v: Value) { v != Nil && v != Bool(false) }

  function Kst(m: Machine, i: int): Value { if 0 <= i < |m.k| then m.k[i] else Nil }

  function Global(m: Machine, name: Value): Value { if name in m.globals then m.globals[name] else Nil }

  function RK(m: Machine, r: Regs, o: int): Value { if o >= BITRK then Kst(m, o - BITRK) else Get(r, o) }

  function Compare(m: Machine, op: CmpOp, x: Value, y: Value): bool {
    match op
    case CmpEq => x == y
    case CmpLt => m.lt(x, y)
    case CmpLe => m.le(x, y)
  }

  /** The loop of OP_LOADNIL: from R(B) down to R(A), at least once. */
  function Nils(r: Regs, a: int, b: int): (r': Regs)
    ensures forall i :: Get(r', i) == if a <= i <= b || i == b then Nil else Get(r, i)
    decreases b - a
  {
    if b > a then Nils(r[b := Nil], a, b - 1) else r[b := Nil]
  }

  /** The value a relocatable instruction is about to put in its A register. */
  function Computed(m: Machine, i: Instr, r: Regs): Value {
    match i
    case GetGlobal(_, bx) => Global(m, Kst(m, bx))
    case Not(_, b) => Bool(!Truthy(Get(r, b)))
    case _ => Nil
  }

  /** Does the test at hand send control to the jump that follows it? */
  predicate Taken(m: Machine, i: Instr, r: Regs)
    requires i.IsTest()
  {
    match i
    case Cmp(op, accept, b, c) => Compare(m, op, RK(m, r, b), RK(m, r, c)) == accept
    case Test(a, c) => !Truthy(Get(r, a)) != c
    case TestSet(_, b, c) => !Truthy(Get(r, b)) != c
  }

  /** The registers after a taken test; a TESTSET still without a register writes nothing. */
  function AfterTest(i: Instr, r: Regs): Regs {
    if i.TestSet? && i.a != NO_REG then r[i.a := Get(r, i.b)] else r
  }

  /** The effect on the registers of an instruction that is neither test, jump nor return. */
  function Effect(m: Machine, i: Instr, r: Regs): Regs {
    match i
    case Move(a, b) => r[a := Get(r, b)]
    case LoadK(a, bx) => r[a := Kst(m, bx)]
    case LoadBool(a, v, _) => r[a := Bool(v)]
    case LoadNil(a, b) => Nils(r, a, b)
    case GetGlobal(a, _) => r[a := Computed(m, i, r)]
    case Not(a, _) => r[a := Computed(m, i, r)]
    case _ => r
  }

  function Width(i: Instr): int { if i.LoadBool? && i.skip then 2 else 1 }

  /** Runs code from p up to end. Expression code only ever jumps forward; a jump with offset
      NO_JUMP is one whose target is not known yet. */
  function Exec(code: seq<Instr>, m: Machine, p: int, end: int, r: Regs): Out
    requires 0 <= p && end <= |code|
    decreases end - p
  {
    if p >= end then (if p == end then Fall(r) else Stuck)
    else if code[p].IsTest() then
      if p + 1 >= end || !code[p + 1].Jmp? then Stuck
      else if Taken(m, code[p], r) then Jump(code, m, p + 1, end, AfterTest(code[p], r))
      else Exec(code, m, p + 2, end, r)
    else if code[p].Jmp? then
      if p > 0 && code[p - 1].IsTest() then Stuck else Jump(code, m, p, end, r)
    else if code[p].Return? then Stuck
    else Exec(code, m, p + Width(code[p]), end, Effect(m, code[p], r))
  }

  function Jump(code: seq<Instr>, m: Machine, j: int, end: int, r: Regs): Out
    requires 0 <= j < end <= |code| && code[j].Jmp?
    decreases end - j, 0
  {
    if code[j].sbx == NO_JUMP then Exit(j, r)
    else
      var dest := j + 1 + code[j].sbx;
      if j < dest <= end then Exec(code, m, dest, end, r) else Stuck
  }

  // ---------------------------------------------------------------- the virtual machine

  /** One turn of the interpreter loop: the next pc and registers. */
  function Step(code: seq<Instr>, m: Machine, pc: int, r: Regs): (int, Regs)
    requires 0 <= pc < |code|
  {
    var i := code[pc];
    if i.IsTest() then
      if Taken(m, i, r) then
        var r' := if i.TestSet? then r[i.a := Get(r, i.b)] else r;
        if pc + 1 < |code| && code[pc + 1].Jmp? then (pc + 2 + code[pc + 1].sbx, r') else (pc + 2, r')
      else (pc + 2, r)
    else if i.Jmp? then (pc + 1 + i.sbx, r)
    else (pc + Width(i), Effect(m, i, r))
  }

  /** n turns of the interpreter loop, or fewer up to an OP_RETURN. */
  function Steps(code: seq<Instr>, m: Machine, pc: int, r: Regs, n: nat): (int, Regs)
    decreases n
  {
    if n == 0 || !(0 <= pc < |code|) || code[pc].Return? then (pc, r)
    else var (pc', r') := Step(code, m, pc, r); Steps(code, m, pc', r', n - 1)
  }

  /** What OP_RETURN hands back: the B - 1 values from R(A) on, or for B of 0 those up to top. */
  function HandedBack(i: Instr, r: Regs, top: int): seq<Value>
    requires i.Return?
  {
    var n := if i.b != 0 then i.b - 1 else top - i.a;
    seq(if n > 0 then n else 0, k requires 0 <= k => Get(r, i.a + k))
  }

  /** These values and no others are handed back, wherever top is. */
  ghost predicate HandsBack(i: Instr, r: Regs, vals: seq<Value>) { i.Return? && forall top :: HandedBack(i, r, top) == vals }

  lemma HandsWherever(i: Instr, r: Regs, vals: seq<Value>, top: int)
    requires HandsBack(i, r, vals)
    ensures HandedBack(i, r, top) == vals
  {
  }

  /** More turns change nothing at an OP_RETURN. */
  lemma {:induction false} StepsStay(code: seq<Instr>, m: Machine, pc: int, r: Regs, n: nat, more: nat)
    requires var q := Steps(code, m, pc, r, n).0; 0 <= q < |code| && code[q].Return?
    ensures Steps(code, m, pc, r, n + more) == Steps(code, m, pc, r, n)
    decreases n
  {
    hide Step;
    if n > 0 && 0 <= pc < |code| && !code[pc].Return? {
      var (pc', r') := Step(code, m, pc, r);
      StepsStay(code, m, pc', r', n - 1, more);
    }
  }

  /** Every test has its jump, and a TESTSET waits for its register as long as the jump waits
      for its target. */
  predicate TestsPaired(code: seq<Instr>) {
    forall p :: 0 <= p < |code| && code[p].IsTest() ==>
      && p + 1 < |code| && code[p + 1].Jmp?
      && (code[p].TestSet? && code[p].a == NO_REG ==> code[p + 1].sbx == NO_JUMP)
  }

  /** Where the partial executor reaches the end, so does the machine, with the same registers. */
  lemma {:induction false} ExecIsVm(code: seq<Instr>, m: Machine, p: int, end: int, r: Regs) returns (n: nat)
    requires 0 <= p && end <= |code| && TestsPaired(code)
    requires Exec(code, m, p, end, r).Fall?
    ensures Steps(code, m, p, r, n) == (end, Exec(code, m, p, end, r).r) && n <= end - p
    decreases end - p
  {
    if p >= end {
      n := 0;
    } else if code[p].IsTest() {
      var r' := AfterTest(code[p], r);
      if Taken(m, code[p], r) {
        n := ExecIsVm(code, m, p + 2 + code[p + 1].sbx, end, r');
      } else {
        n := ExecIsVm(code, m, p + 2, end, r);
      }
      n := n + 1;
    } else if code[p].Jmp? {
      n := ExecIsVm(code, m, p + 1 + code[p].sbx, end, r);
      n := n + 1;
    } else {
      n := ExecIsVm(code, m, p + Width(code[p]), end, Effect(m, code[p], r));
      n := n + 1;
    }
  }
}
