/** The bytecode checker of ldebug.c, and what its acceptance means for the interpreter. */
module Checker {
  import opened Bytecode

  const MAXSTACK := 250
  const NO_REG := 255
  const EXTRA_STACK := 5

  datatype ArgMode = ArgN | ArgU | ArgR | ArgK

  datatype Mode = ABC | ABx | AsBx

  datatype OpMode = OpMode(test: bool, setsA: bool, b: ArgMode, c: ArgMode, mode: Mode)

  /** luaP_opmodes. */
  function ModeOf(op: OpCode): OpMode {
    match op
    case OP_MOVE => OpMode(false, true, ArgR, ArgN, ABC)
    case OP_LOADK => OpMode(false, true, ArgK, ArgN, ABx)
    case OP_LOADBOOL => OpMode(false, true, ArgU, ArgU, ABC)
    case OP_LOADNIL => OpMode(false, true, ArgR, ArgN, ABC)
    case OP_GETUPVAL => OpMode(false, true, ArgU, ArgN, ABC)
    case OP_GETGLOBAL => OpMode(false, true, ArgK, ArgN, ABx)
    case OP_GETTABLE => OpMode(false, true, ArgR, ArgK, ABC)
    case OP_SETGLOBAL => OpMode(false, false, ArgK, ArgN, ABx)
    case OP_SETUPVAL => OpMode(false, false, ArgU, ArgN, ABC)
    case OP_SETTABLE => OpMode(false, false, ArgK, ArgK, ABC)
    case OP_NEWTABLE => OpMode(false, true, ArgU, ArgU, ABC)
    case OP_SELF => OpMode(false, true, ArgR, ArgK, ABC)
    case OP_ADD => OpMode(false, true, ArgK, ArgK, ABC)
    case OP_SUB => OpMode(false, true, ArgK, ArgK, ABC)
    case OP_MUL => OpMode(false, true, ArgK, ArgK, ABC)
    case OP_DIV => OpMode(false, true, ArgK, ArgK, ABC)
    case OP_MOD => OpMode(false, true, ArgK, ArgK, ABC)
    case OP_POW => OpMode(false, true, ArgK, ArgK, ABC)
    case OP_UNM => OpMode(false, true, ArgR, ArgN, ABC)
    case OP_NOT => OpMode(false, true, ArgR, ArgN, ABC)
    case OP_LEN => OpMode(false, true, ArgR, ArgN, ABC)
    case OP_CONCAT => OpMode(false, true, ArgR, ArgR, ABC)
    case OP_JMP => OpMode(false, false, ArgR, ArgN, AsBx)
    case OP_EQ => OpMode(true, false, ArgK, ArgK, ABC)
    case OP_LT => OpMode(true, false, ArgK, ArgK, ABC)
    case OP_LE => OpMode(true, false, ArgK, ArgK, ABC)
    case OP_TEST => OpMode(true, true, ArgR, ArgU, ABC)
    case OP_TESTSET => OpMode(true, true, ArgR, ArgU, ABC)
    case OP_CALL => OpMode(false, true, ArgU, ArgU, ABC)
    case OP_TAILCALL => OpMode(false, true, ArgU, ArgU, ABC)
    case OP_RETURN => OpMode(false, false, ArgU, ArgN, ABC)
    case OP_FORLOOP => OpMode(false, true, ArgR, ArgN, AsBx)
    case OP_FORPREP => OpMode(false, true, ArgR, ArgN, AsBx)
    case OP_TFORLOOP => OpMode(true, false, ArgN, ArgU, ABC)
    case OP_SETLIST => OpMode(false, false, ArgU, ArgU, ABC)
    case OP_CLOSE => OpMode(false, false, ArgN, ArgN, ABC)
    case OP_CLOSURE => OpMode(false, true, ArgU, ArgN, ABx)
    case OP_VARARG => OpMode(false, true, ArgU, ArgN, ABC)
    case OP_NONE => OpMode(false, false, ArgN, ArgN, ABC)
  }

  // ---------------------------------------------------------------- instruction boundaries

  /** Looks like a SETLIST whose count is in the next word. */
  predicate LongSetList(w: Word) { Op(w) == OP_SETLIST && ArgC(w) == 0 }

  /** The word at pc is the count of a SETLIST. */
  predicate IsCount(code: seq<Word>, pc: nat)
    requires pc <= |code|
  {
    pc > 0 && LongSetList(code[pc - 1]) && !IsCount(code, pc - 1)
  }

  /** An instruction starts at pc. */
  predicate Boundary(code: seq<Word>, pc: int) { 0 <= pc < |code| && !IsCount(code, pc) }

  /** How many words before dest in a row look like such a SETLIST. */
  function RunBefore(code: seq<Word>, dest: nat): (n: nat)
    requires dest <= |code|
    ensures n <= dest
  {
    if dest > 0 && LongSetList(code[dest - 1]) then 1 + RunBefore(code, dest - 1) else 0
  }

  /** The parity argument: a word is a count exactly when that run is odd. */
  lemma {:induction false} CountParity(code: seq<Word>, dest: nat)
    requires dest <= |code|
    ensures IsCount(code, dest) <==> RunBefore(code, dest) % 2 == 1
  {
    if dest > 0 { CountParity(code, dest - 1); }
  }

  // ---------------------------------------------------------------- what the interpreter does with pc

  function Nups(pt: Proto, bx: nat): nat { if bx < |pt.p| && pt.p[bx].nups >= 0 then pt.p[bx].nups else 0 }

  /** Where the interpreter can be after the instruction at pc, whatever the data; nowhere after a
      return. */
  function Steps(pt: Proto, pc: nat): set<int>
    requires pc < |pt.code|
  {
    var w := pt.code[pc];
    var jump := if pc + 1 < |pt.code| then pc + 2 + ArgSBx(pt.code[pc + 1]) else pc + 2;
    match Op(w)
    case OP_LOADBOOL => if ArgC(w) != 0 then {pc + 2} else {pc + 1}
    case OP_JMP => {pc + 1 + ArgSBx(w)}
    case OP_EQ => {pc + 2, jump}
    case OP_LT => {pc + 2, jump}
    case OP_LE => {pc + 2, jump}
    case OP_TEST => {pc + 2, jump}
    case OP_TESTSET => {pc + 2, jump}
    case OP_TFORLOOP => {pc + 2, jump}
    case OP_RETURN => {}
    case OP_FORLOOP => {pc + 1, pc + 1 + ArgSBx(w)}
    case OP_FORPREP => {pc + 1 + ArgSBx(w)}
    case OP_SETLIST => if ArgC(w) == 0 then {pc + 2} else {pc + 1}
    case OP_CLOSURE => {pc + 1 + Nups(pt, ArgBx(w))}
    case _ => {pc + 1}
  }

  /** The registers an instruction names; open ends (up to top) are not among them. */
  function Registers(pt: Proto, pc: nat): set<int>
    requires pc < |pt.code|
  {
    var w := pt.code[pc];
    var a, b, c := ArgA(w), ArgB(w), ArgC(w);
    match Op(w)
    case OP_MOVE => {a, b}
    case OP_LOADK => {a}
    case OP_LOADBOOL => {a}
    case OP_LOADNIL => {b} + Range(a, b)
    case OP_GETUPVAL => {a}
    case OP_GETGLOBAL => {a}
    case OP_GETTABLE => {a, b} + RK(c)
    case OP_SETGLOBAL => {a}
    case OP_SETUPVAL => {a}
    case OP_SETTABLE => {a} + RK(b) + RK(c)
    case OP_NEWTABLE => {a}
    case OP_SELF => {a, a + 1, b} + RK(c)
    case OP_UNM => {a, b}
    case OP_NOT => {a, b}
    case OP_LEN => {a, b}
    case OP_CONCAT => {a} + Range(b, c)
    case OP_JMP => {}
    case OP_EQ => RK(b) + RK(c)
    case OP_LT => RK(b) + RK(c)
    case OP_LE => RK(b) + RK(c)
    case OP_TEST => {a}
    case OP_TESTSET => {a, b}
    case OP_CALL => {a} + (if b != 0 then Range(a, a + b - 1) else {}) + Range(a, a + c - 2)
    case OP_TAILCALL => {a} + (if b != 0 then Range(a, a + b - 1) else {})
    case OP_RETURN => Range(a, a + b - 2)
    case OP_FORLOOP => Range(a, a + 3)
    case OP_FORPREP => Range(a, a + 2)
    case OP_TFORLOOP => Range(a, a + 2 + c)
    case OP_SETLIST => {a} + Range(a, a + b)
    case OP_CLOSE => {a}
    case OP_CLOSURE => {a} + Captured(pt, pc)
    case OP_VARARG => Range(a, a + b - 2)
    case OP_NONE => {}
    case _ => {a} + RK(b) + RK(c)
  }

  function Range(lo: int, hi: int): set<int> { set r | lo <= r <= hi && IsReg(r) }

  predicate IsReg(r: int) { true }

  function RK(rk: nat): set<int> { if IsK(rk) then {} else {rk} }

  /** The registers captured by the pseudo-instructions after a CLOSURE. */
  function Captured(pt: Proto, pc: nat): set<int>
    requires pc < |pt.code|
  {
    set j | 0 <= j < |pt.code| && pc < j <= pc + Nups(pt, ArgBx(pt.code[pc])) && Op(pt.code[j]) == OP_MOVE :: ArgB(pt.code[j])
  }

  /** The upvalues an instruction names. */
  function Upvalues(pt: Proto, pc: nat): set<int>
    requires pc < |pt.code|
  {
    var w := pt.code[pc];
    match Op(w)
    case OP_GETUPVAL => {ArgB(w)}
    case OP_SETUPVAL => {ArgB(w)}
    case OP_CLOSURE =>
      set j | 0 <= j < |pt.code| && pc < j <= pc + Nups(pt, ArgBx(w)) && Op(pt.code[j]) == OP_GETUPVAL :: ArgB(pt.code[j])
    case _ => {}
  }

  /** The constants an instruction names. */
  function Constants(w: Word): set<int> {
    match Op(w)
    case OP_LOADK => {ArgBx(w)}
    case OP_GETGLOBAL => {ArgBx(w)}
    case OP_SETGLOBAL => {ArgBx(w)}
    case op =>
      var m := ModeOf(op);
      if m.mode != ABC then {}
      else (if m.b == ArgK then Kst(ArgB(w)) else {}) + (if m.c == ArgK then Kst(ArgC(w)) else {})
  }

  function Kst(rk: nat): set<int> { if IsK(rk) then {IndexK(rk)} else {} }

  /** All operands of the instruction at pc are in range. */
  ghost predicate OperandsInRange(pt: Proto, pc: nat)
    requires pc < |pt.code|
  {
    var w := pt.code[pc];
    && Op(w) != OP_NONE
    && (forall r :: r in Registers(pt, pc) ==> 0 <= r < pt.maxstacksize)
    && (forall u :: u in Upvalues(pt, pc) ==> 0 <= u < pt.nups)
    && (forall x :: x in Constants(w) ==> 0 <= x < |pt.k|)
    && (Op(w) == OP_GETGLOBAL || Op(w) == OP_SETGLOBAL ==> ArgBx(w) < |pt.k| && pt.k[ArgBx(w)].KString?)
    && (Op(w) == OP_CLOSURE ==> ArgBx(w) < |pt.p|)
    && (Op(w) == OP_TFORLOOP ==> ArgA(w) + 5 < pt.maxstacksize + EXTRA_STACK)
  }

  // ---------------------------------------------------------------- the checks

  predicate PreOk(pt: Proto) {
    && pt.maxstacksize <= MAXSTACK
    && pt.numparams + (if HasArg(pt.vararg) then 1 else 0) <= pt.maxstacksize
    && (NeedsArg(pt.vararg) ==> HasArg(pt.vararg))
    && |pt.upvalues| <= pt.nups
    && (|pt.lineinfo| == |pt.code| || |pt.lineinfo| == 0)
    && |pt.code| > 0 && Op(pt.code[|pt.code| - 1]) == OP_RETURN
  }

  predicate ArgOk(pt: Proto, r: nat, m: ArgMode) {
    match m
    case ArgN => r == 0
    case ArgU => true
    case ArgR => r < pt.maxstacksize
    case ArgK => if IsK(r) then IndexK(r) < |pt.k| else r < pt.maxstacksize
  }

  /** luaG_checkopenop: an instruction that uses top. */
  predicate OpenOk(w: Word) { (Op(w) == OP_CALL || Op(w) == OP_TAILCALL || Op(w) == OP_RETURN || Op(w) == OP_SETLIST) && ArgB(w) == 0 }

  predicate ArgsOk(pt: Proto, pc: nat)
    requires pc < |pt.code|
  {
    var w := pt.code[pc];
    var m := ModeOf(Op(w));
    match m.mode
    case ABC => ArgOk(pt, ArgB(w), m.b) && ArgOk(pt, ArgC(w), m.c)
    case ABx => m.b == ArgK ==> ArgBx(w) < |pt.k|
    case AsBx => m.b == ArgR ==> JumpOk(pt, pc + 1 + ArgSBx(w))
  }

  predicate JumpOk(pt: Proto, dest: int) {
    0 <= dest < |pt.code| && RunBefore(pt.code, dest) % 2 == 0
  }

  predicate ClosureOk(pt: Proto, pc: nat)
    requires pc < |pt.code|
  {
    var bx := ArgBx(pt.code[pc]);
    && bx < |pt.p| && pc + Nups(pt, bx) < |pt.code|
    && forall j :: pc < j <= pc + Nups(pt, bx) ==> Op(pt.code[j]) == OP_GETUPVAL || Op(pt.code[j]) == OP_MOVE
  }

  /** The checks that depend on the operation. */
  predicate OpOk(pt: Proto, pc: nat)
    requires pc < |pt.code|
  {
    var w := pt.code[pc];
    var a, b, c := ArgA(w), ArgB(w), ArgC(w);
    match Op(w)
    case OP_LOADBOOL => c == 1 ==> pc + 2 < |pt.code| && !LongSetList(pt.code[pc + 1])
    case OP_GETUPVAL => b < pt.nups
    case OP_SETUPVAL => b < pt.nups
    case OP_GETGLOBAL => ArgBx(w) < |pt.k| && pt.k[ArgBx(w)].KString?
    case OP_SETGLOBAL => ArgBx(w) < |pt.k| && pt.k[ArgBx(w)].KString?
    case OP_SELF => a + 1 < pt.maxstacksize
    case OP_CONCAT => b < c
    case OP_TFORLOOP => c >= 1 && a + 2 + c < pt.maxstacksize
    case OP_FORLOOP => a + 3 < pt.maxstacksize
    case OP_FORPREP => a + 3 < pt.maxstacksize
    case OP_CALL => CallOk(pt, pc)
    case OP_TAILCALL => CallOk(pt, pc)
    case OP_RETURN => b - 1 > 0 ==> a + b - 2 < pt.maxstacksize
    case OP_SETLIST => (b > 0 ==> a + b < pt.maxstacksize) && (c == 0 ==> pc + 1 < |pt.code| - 1)
    case OP_CLOSURE => ClosureOk(pt, pc)
    case OP_VARARG => IsVararg(pt.vararg) && !NeedsArg(pt.vararg) && (b == 0 ==> pc + 1 < |pt.code| && OpenOk(pt.code[pc + 1]))
                      && a + b - 2 < pt.maxstacksize
    case _ => true
  }

  predicate CallOk(pt: Proto, pc: nat)
    requires pc < |pt.code|
  {
    var w := pt.code[pc];
    var a, b, c := ArgA(w), ArgB(w), ArgC(w);
    && (b != 0 ==> a + b - 1 < pt.maxstacksize)
    && (if c == 0 then pc + 1 < |pt.code| && OpenOk(pt.code[pc + 1]) else c > 1 ==> a + c - 2 < pt.maxstacksize)
  }

  predicate InstrOk(pt: Proto, pc: nat)
    requires pc < |pt.code|
  {
    var w := pt.code[pc];
    && Op(w) != OP_NONE && ArgA(w) < pt.maxstacksize && ArgsOk(pt, pc)
    && (ModeOf(Op(w)).test ==> pc + 2 < |pt.code| && Op(pt.code[pc + 1]) == OP_JMP)
    && OpOk(pt, pc)
  }

  /** What luaG_checkcode accepts. */
  ghost predicate Accepts(pt: Proto) {
    PreOk(pt) && forall pc :: Boundary(pt.code, pc) ==> InstrOk(pt, pc)
  }

  // ---------------------------------------------------------------- symbexec

  /** The instruction may change a register, as symbexec has it. */
  predicate Changes(w: Word, reg: int) {
    || (ModeOf(Op(w)).setsA && ArgA(w) == reg)
    || (Op(w) == OP_LOADNIL && ArgA(w) <= reg <= ArgB(w))
    || (Op(w) == OP_SELF && reg == ArgA(w) + 1)
    || (Op(w) == OP_TFORLOOP && reg >= ArgA(w) + 2)
    || ((Op(w) == OP_CALL || Op(w) == OP_TAILCALL) && reg >= ArgA(w))
  }

  /** The destination of a jump is in the code and not a count. */
  method CheckJump(pt: Proto, dest: int) returns (ok: bool)
    ensures ok == JumpOk(pt, dest)
  {
    if !(0 <= dest < |pt.code|) { return false; }
    if dest > 0 {
      var j := 0;
      while j < dest
        invariant 0 <= j <= dest && RunBefore(pt.code, dest) == j + RunBefore(pt.code, dest - j)
      {
        if !LongSetList(pt.code[dest - 1 - j]) { break; }
        j := j + 1;
      }
      return j % 2 == 0;
    }
    ok := true;
  }

  method CheckArgs(pt: Proto, pc: nat) returns (ok: bool)
    requires pc < |pt.code|
    ensures ok == ArgsOk(pt, pc)
  {
    var w := pt.code[pc];
    var m := ModeOf(Op(w));
    match m.mode
    case ABC => ok := ArgOk(pt, ArgB(w), m.b) && ArgOk(pt, ArgC(w), m.c);
    case ABx => ok := m.b == ArgK ==> ArgBx(w) < |pt.k|;
    case AsBx =>
      ok := true;
      if m.b == ArgR { ok := CheckJump(pt, pc + 1 + ArgSBx(w)); }
  }

  method CheckClosure(pt: Proto, pc: nat) returns (ok: bool)
    requires pc < |pt.code|
    ensures ok == ClosureOk(pt, pc)
  {
    var bx := ArgBx(pt.code[pc]);
    if bx >= |pt.p| { return false; }
    var nup := Nups(pt, bx);
    if pc + nup >= |pt.code| { return false; }
    var j := 1;
    while j <= nup
      invariant 1 <= j <= nup + 1
      invariant forall i :: pc < i < pc + j ==> Op(pt.code[i]) == OP_GETUPVAL || Op(pt.code[i]) == OP_MOVE
    {
      if !(Op(pt.code[pc + j]) == OP_GETUPVAL || Op(pt.code[pc + j]) == OP_MOVE) { return false; }
      j := j + 1;
    }
    ok := true;
  }

  /** precheck. */
  method Precheck(pt: Proto) returns (ok: bool)
    ensures ok == PreOk(pt)
  {
    if pt.maxstacksize > MAXSTACK { return false; }
    var params := pt.numparams;
    if HasArg(pt.vararg) { params := params + 1; }
    if params > pt.maxstacksize { return false; }
    if NeedsArg(pt.vararg) && !HasArg(pt.vararg) { return false; }
    if |pt.upvalues| > pt.nups { return false; }
    if |pt.lineinfo| != |pt.code| && |pt.lineinfo| != 0 { return false; }
    ok := |pt.code| > 0 && Op(pt.code[|pt.code| - 1]) == OP_RETURN;
  }

  /** luaG_checkopenop on the instruction after pc. */
  method CheckOpenOp(pt: Proto, pc: nat) returns (ok: bool)
    ensures ok == (pc + 1 < |pt.code| && OpenOk(pt.code[pc + 1]))
  {
    if pc + 1 >= |pt.code| { return false; }
    var i := pt.code[pc + 1];
    match Op(i)
    case OP_CALL => ok := ArgB(i) == 0;
    case OP_TAILCALL => ok := ArgB(i) == 0;
    case OP_RETURN => ok := ArgB(i) == 0;
    case OP_SETLIST => ok := ArgB(i) == 0;
    case _ => ok := false;
  }

  /** The cases CALL and TAILCALL. */
  method CheckCall(pt: Proto, pc: nat) returns (ok: bool)
    requires pc < |pt.code|
    ensures ok == CallOk(pt, pc)
  {
    var a, b, c: int := ArgA(pt.code[pc]), ArgB(pt.code[pc]), ArgC(pt.code[pc]);
    if b != 0 && a + b - 1 >= pt.maxstacksize { return false; }
    c := c - 1;
    if c == -1 {
      ok := CheckOpenOp(pt, pc);
      return;
    }
    ok := c == 0 || a + c - 1 < pt.maxstacksize;
  }

  /** The switch on the operation, up to what it does to last and pc. */
  method CheckOp(pt: Proto, pc: nat) returns (ok: bool)
    requires pc < |pt.code|
    ensures ok == OpOk(pt, pc)
  {
    var w := pt.code[pc];
    var a, b, c: int := ArgA(w), ArgB(w), ArgC(w);
    ok := true;
    match Op(w)
    case OP_LOADBOOL =>
      if c == 1 {
        if pc + 2 >= |pt.code| { return false; }
        ok := Op(pt.code[pc + 1]) != OP_SETLIST || ArgC(pt.code[pc + 1]) != 0;
      }
    case OP_GETUPVAL => ok := b < pt.nups;
    case OP_SETUPVAL => ok := b < pt.nups;
    case OP_GETGLOBAL => ok := CheckName(pt, ArgBx(w));
    case OP_SETGLOBAL => ok := CheckName(pt, ArgBx(w));
    case OP_SELF => ok := a + 1 < pt.maxstacksize;
    case OP_CONCAT => ok := b < c;
    case OP_TFORLOOP =>
      if c < 1 { return false; }
      ok := a + 2 + c < pt.maxstacksize;
    case OP_FORLOOP => ok := a + 3 < pt.maxstacksize;
    case OP_FORPREP => ok := a + 3 < pt.maxstacksize;
    case OP_CALL => ok := CheckCall(pt, pc);
    case OP_TAILCALL => ok := CheckCall(pt, pc);
    case OP_RETURN =>
      b := b - 1;
      if b > 0 { ok := a + b - 1 < pt.maxstacksize; }
    case OP_SETLIST =>
      if b > 0 && a + b >= pt.maxstacksize { return false; }
      if c == 0 { ok := pc + 1 < |pt.code| - 1; }
    case OP_CLOSURE => ok := CheckClosure(pt, pc);
    case OP_VARARG =>
      if !IsVararg(pt.vararg) || NeedsArg(pt.vararg) { return false; }
      b := b - 1;
      if b == -1 {
        ok := CheckOpenOp(pt, pc);
        if !ok { return; }
      }
      ok := a + b - 1 < pt.maxstacksize;
    case _ =>
  }

  /** The name of a global is a string constant. */
  method CheckName(pt: Proto, bx: nat) returns (ok: bool)
    ensures ok == (bx < |pt.k| && pt.k[bx].KString?)
  {
    if bx >= |pt.k| { return false; }
    ok := pt.k[bx].KString?;
  }

  /** How far symbexec moves after an instruction: over counts, and when it traces a register over
      forward jumps and the pseudo-instructions of a closure. */
  function Skip(pt: Proto, pc: nat, lastpc: nat, reg: int): (n: int)
    requires pc < |pt.code|
  {
    var w := pt.code[pc];
    match Op(w)
    case OP_SETLIST => if ArgC(w) == 0 then 2 else 1
    case OP_CLOSURE => if reg != NO_REG then 1 + Nups(pt, ArgBx(w)) else 1
    case op =>
      if (op == OP_JMP || op == OP_FORLOOP || op == OP_FORPREP) && reg != NO_REG && pc < pc + 1 + ArgSBx(w) <= lastpc
      then 1 + ArgSBx(w) else 1
  }

  /** The instructions symbexec passes from one position up to another leave reg alone. */
  ghost predicate Quiet(pt: Proto, from: nat, to: nat, lastpc: nat, reg: int)
    requires lastpc <= |pt.code|
    decreases if from < to then to - from else 0
  {
    from == to ||
    (from < to && from < lastpc && !Changes(pt.code[from], reg) && Skip(pt, from, lastpc, reg) > 0 &&
     Quiet(pt, from + Skip(pt, from, lastpc, reg), to, lastpc, reg))
  }

  lemma {:induction false} QuietOn(pt: Proto, from: nat, to: nat, lastpc: nat, reg: int)
    requires lastpc <= |pt.code| && to < lastpc && Quiet(pt, from, to, lastpc, reg)
    requires !Changes(pt.code[to], reg) && Skip(pt, to, lastpc, reg) > 0
    ensures Quiet(pt, from, to + Skip(pt, to, lastpc, reg), lastpc, reg)
    decreases if from < to then to - from else 0
  {
    hide Changes, Skip;
    if from < to { QuietOn(pt, from + Skip(pt, from, lastpc, reg), to, lastpc, reg); }
  }

  /** No instruction passed on the way to position to changes reg after the one at last does, or none
      changes it at all and last is the final one. */
  ghost predicate LastChange(pt: Proto, last: nat, to: nat, lastpc: nat, reg: int)
    requires lastpc <= |pt.code| && last < |pt.code|
  {
    || (last == |pt.code| - 1 && Quiet(pt, 0, to, lastpc, reg))
    || (last < lastpc && Boundary(pt.code, last) && Changes(pt.code[last], reg) && Skip(pt, last, lastpc, reg) > 0 &&
        Quiet(pt, last + Skip(pt, last, lastpc, reg), to, lastpc, reg))
  }

  lemma LastStart(pt: Proto, lastpc: nat, reg: int)
    requires lastpc <= |pt.code| && |pt.code| > 0
    ensures LastChange(pt, |pt.code| - 1, 0, lastpc, reg)
  {
    hide Changes, Skip;
  }

  lemma LastOn(pt: Proto, last: nat, to: nat, lastpc: nat, reg: int)
    requires lastpc <= |pt.code| && last < |pt.code| && LastChange(pt, last, to, lastpc, reg)
    requires to < lastpc && Boundary(pt.code, to) && Skip(pt, to, lastpc, reg) > 0
    ensures LastChange(pt, if Changes(pt.code[to], reg) then to else last, to + Skip(pt, to, lastpc, reg), lastpc, reg)
  {
    hide Changes, Skip;
    if !Changes(pt.code[to], reg) {
      if last == |pt.code| - 1 && Quiet(pt, 0, to, lastpc, reg) {
        QuietOn(pt, 0, to, lastpc, reg);
      } else {
        QuietOn(pt, last + Skip(pt, last, lastpc, reg), to, lastpc, reg);
      }
    }
  }

  /** symbexec: checks the code up to lastpc and finds the last instruction on its way that changed
      reg; in a full check every instruction is visited. */
  method Symbexec(pt: Proto, lastpc: nat, reg: int) returns (ok: bool, last: nat)
    requires lastpc <= |pt.code|
    ensures ok ==> last < |pt.code| && exists to :: lastpc <= to <= |pt.code| && LastChange(pt, last, to, lastpc, reg)
    ensures reg == NO_REG && lastpc == |pt.code| ==> (ok <==> Accepts(pt))
  {
    hide InstrOk, OpOk, ArgsOk, ArgOk, Changes, PreOk, LastChange, Skip;
    last := 0;
    ok := Precheck(pt);
    if !ok { return; }
    PreMeans(pt);
    last := |pt.code| - 1;
    LastStart(pt, lastpc, reg);
    var pc := 0;
    while pc < lastpc
      invariant 0 <= pc <= |pt.code| && (pc < |pt.code| ==> Boundary(pt.code, pc))
      invariant last < |pt.code| && LastChange(pt, last, pc, lastpc, reg)
      invariant reg == NO_REG ==> forall q :: q < pc && Boundary(pt.code, q) ==> InstrOk(pt, q)
      decreases |pt.code| - pc
    {
      var checked := CheckInstr(pt, pc);
      if !checked { return false, 0; }
      SkipLands(pt, pc, lastpc, reg);
      LastOn(pt, last, pc, lastpc, reg);
      if Changes(pt.code[pc], reg) { last := pc; }
      pc := pc + Skip(pt, pc, lastpc, reg);
    }
    ok := true;
  }

  /** All checks on one instruction. */
  method CheckInstr(pt: Proto, pc: nat) returns (ok: bool)
    requires pc < |pt.code|
    ensures ok == InstrOk(pt, pc)
  {
    var w := pt.code[pc];
    if Op(w) == OP_NONE || ArgA(w) >= pt.maxstacksize { return false; }
    ok := CheckArgs(pt, pc);
    if !ok { return; }
    if ModeOf(Op(w)).test && !(pc + 2 < |pt.code| && Op(pt.code[pc + 1]) == OP_JMP) { return false; }
    ok := CheckOp(pt, pc);
  }

  lemma PreMeans(pt: Proto)
    requires PreOk(pt)
    ensures |pt.code| > 0 && Op(pt.code[|pt.code| - 1]) == OP_RETURN && !IsCount(pt.code, 0)
  {
  }

  lemma SkipLands(pt: Proto, pc: nat, lastpc: nat, reg: int)
    requires pc < lastpc <= |pt.code| && Boundary(pt.code, pc) && InstrOk(pt, pc)
    ensures var n := Skip(pt, pc, lastpc, reg); n > 0 && pc + n <= |pt.code| && (pc + n < |pt.code| ==> Boundary(pt.code, pc + n))
    ensures reg == NO_REG ==> forall q :: pc < q < pc + Skip(pt, pc, lastpc, reg) ==> !Boundary(pt.code, q)
  {
    hide InstrOk, RunBefore, IsCount, ArgSBx, ArgBx, ArgA, ArgB, Op;
    var w := pt.code[pc];
    if Op(w) == OP_JMP || Op(w) == OP_FORLOOP || Op(w) == OP_FORPREP {
      JumpLands(pt, pc);
    } else if Op(w) == OP_CLOSURE {
      ClosureLands(pt, pc);
    } else if LongSetList(w) {
      SetListLands(pt, pc);
    }
    NextLands(pt.code, pc);
  }

  lemma JumpLands(pt: Proto, pc: nat)
    requires pc < |pt.code| && InstrOk(pt, pc) && (Op(pt.code[pc]) == OP_JMP || Op(pt.code[pc]) == OP_FORLOOP || Op(pt.code[pc]) == OP_FORPREP)
    ensures Boundary(pt.code, pc + 1 + ArgSBx(pt.code[pc]))
  {
    hide OpOk, IsCount, RunBefore;
    CountParity(pt.code, pc + 1 + ArgSBx(pt.code[pc]));
  }

  lemma ClosureLands(pt: Proto, pc: nat)
    requires Boundary(pt.code, pc) && InstrOk(pt, pc) && Op(pt.code[pc]) == OP_CLOSURE
    ensures var n := Nups(pt, ArgBx(pt.code[pc])); pc + n < |pt.code| && (pc + n + 1 < |pt.code| ==> Boundary(pt.code, pc + n + 1))
  {
    hide ArgsOk, IsCount;
    AfterPlain(pt.code, pc, Nups(pt, ArgBx(pt.code[pc])));
  }

  lemma SetListLands(pt: Proto, pc: nat)
    requires Boundary(pt.code, pc) && InstrOk(pt, pc) && LongSetList(pt.code[pc])
    ensures pc + 2 < |pt.code| && !Boundary(pt.code, pc + 1) && Boundary(pt.code, pc + 2)
  {
    hide ArgsOk;
    assert IsCount(pt.code, pc + 1);
  }

  lemma NextLands(code: seq<Word>, pc: nat)
    requires pc < |code|
    ensures !LongSetList(code[pc]) && pc + 1 < |code| ==> Boundary(code, pc + 1)
  {
  }

  /** After words that are no SETLIST there is a boundary, or the end. */
  lemma AfterPlain(code: seq<Word>, pc: nat, n: nat)
    requires pc + n < |code| && forall j :: pc <= j <= pc + n ==> Op(code[j]) != OP_SETLIST
    ensures pc + n + 1 < |code| ==> Boundary(code, pc + n + 1)
  {
    assert Op(code[pc + n]) != OP_SETLIST;
  }

  lemma ZeroWord()
    ensures Op(0) == OP_MOVE && ArgA(0) == 0
  {
  }

  /** luaG_checkcode: the instruction that symbexec returns is never the word zero. */
  method CheckCode(pt: Proto) returns (ok: bool)
    ensures ok <==> Accepts(pt)
  {
    hide InstrOk, PreOk, Changes;
    var last;
    ok, last := Symbexec(pt, |pt.code|, NO_REG);
    if ok {
      LastNotZero(pt, last);
      ok := pt.code[last] != 0;
    }
  }

  lemma LastNotZero(pt: Proto, last: nat)
    requires Accepts(pt) && last < |pt.code|
    requires last == |pt.code| - 1 || (Boundary(pt.code, last) && Changes(pt.code[last], NO_REG))
    ensures pt.code[last] != 0
  {
    ZeroWord();
  }
}
