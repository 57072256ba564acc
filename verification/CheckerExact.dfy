/** What luaG_checkcode accepts, operation by operation. */
module CheckerExact {
  import opened Bytecode
  import opened Checker

  predicate InFrame(pt: Proto, r: int) { r < pt.maxstacksize }

  /** A register of the frame or, from 256 on, a constant. */
  predicate Operand(pt: Proto, rk: int) { if rk >= 256 then rk - 256 < |pt.k| else rk < pt.maxstacksize }

  predicate Name(pt: Proto, bx: int) { 0 <= bx < |pt.k| && pt.k[bx].KString? }

  /** A jump is next, and an instruction behind it. */
  predicate JumpNext(pt: Proto, pc: nat) { pc + 2 < |pt.code| && Op(pt.code[pc + 1]) == OP_JMP }

  /** The next instruction takes values up to top. */
  predicate OpenNext(pt: Proto, pc: nat) {
    pc + 1 < |pt.code| && Op(pt.code[pc + 1]) in {OP_CALL, OP_TAILCALL, OP_RETURN, OP_SETLIST} && ArgB(pt.code[pc + 1]) == 0
  }

  predicate Called(pt: Proto, pc: nat, a: int, b: int, c: int) {
    (b >= 1 ==> InFrame(pt, a + b - 1)) && (c == 0 ==> OpenNext(pt, pc)) && (c >= 2 ==> InFrame(pt, a + c - 2))
  }

  /** The upvalues of a closure are given by the instructions behind it. */
  predicate Closes(pt: Proto, pc: nat, bx: int) {
    && 0 <= bx < |pt.p|
    && var n := if pt.p[bx].nups >= 0 then pt.p[bx].nups else 0;
       pc + n < |pt.code| && forall j :: pc < j <= pc + n ==> Op(pt.code[j]) in {OP_GETUPVAL, OP_MOVE}
  }

  predicate Sound(pt: Proto, pc: nat)
    requires pc < |pt.code|
  {
    var w := pt.code[pc];
    var a, b, c: int := ArgA(w), ArgB(w), ArgC(w);
    var dest := pc + 1 + ArgSBx(w);
    InFrame(pt, a) &&
    match Op(w)
    case OP_MOVE => InFrame(pt, b) && c == 0
    case OP_LOADK => ArgBx(w) < |pt.k|
    case OP_LOADBOOL => c == 1 ==> pc + 2 < |pt.code| && !(Op(pt.code[pc + 1]) == OP_SETLIST && ArgC(pt.code[pc + 1]) == 0)
    case OP_LOADNIL => InFrame(pt, b) && c == 0
    case OP_GETUPVAL => b < pt.nups && c == 0
    case OP_GETGLOBAL => Name(pt, ArgBx(w))
    case OP_GETTABLE => InFrame(pt, b) && Operand(pt, c)
    case OP_SETGLOBAL => Name(pt, ArgBx(w))
    case OP_SETUPVAL => b < pt.nups && c == 0
    case OP_NEWTABLE => true
    case OP_SELF => InFrame(pt, b) && Operand(pt, c) && InFrame(pt, a + 1)
    case OP_UNM => InFrame(pt, b) && c == 0
    case OP_NOT => InFrame(pt, b) && c == 0
    case OP_LEN => InFrame(pt, b) && c == 0
    case OP_CONCAT => InFrame(pt, b) && InFrame(pt, c) && b < c
    case OP_JMP => Boundary(pt.code, dest)
    case OP_EQ => Operand(pt, b) && Operand(pt, c) && JumpNext(pt, pc)
    case OP_LT => Operand(pt, b) && Operand(pt, c) && JumpNext(pt, pc)
    case OP_LE => Operand(pt, b) && Operand(pt, c) && JumpNext(pt, pc)
    case OP_TEST => InFrame(pt, b) && JumpNext(pt, pc)
    case OP_TESTSET => InFrame(pt, b) && JumpNext(pt, pc)
    case OP_CALL => Called(pt, pc, a, b, c)
    case OP_TAILCALL => Called(pt, pc, a, b, c)
    case OP_RETURN => c == 0 && (b >= 2 ==> InFrame(pt, a + b - 2))
    case OP_FORLOOP => Boundary(pt.code, dest) && InFrame(pt, a + 3)
    case OP_FORPREP => Boundary(pt.code, dest) && InFrame(pt, a + 3)
    case OP_TFORLOOP => b == 0 && c >= 1 && InFrame(pt, a + 2 + c) && JumpNext(pt, pc)
    case OP_SETLIST => (b >= 1 ==> InFrame(pt, a + b)) && (c == 0 ==> pc + 2 < |pt.code|)
    case OP_CLOSE => b == 0 && c == 0
    case OP_CLOSURE => Closes(pt, pc, ArgBx(w))
    case OP_VARARG => c == 0 && pt.vararg / 2 % 2 == 1 && pt.vararg / 4 % 2 == 0 && (b == 0 ==> OpenNext(pt, pc)) && InFrame(pt, a + b - 2)
    case OP_NONE => false
    case _ => Operand(pt, b) && Operand(pt, c)
  }

  /** What is asked of a function as a whole. */
  predicate Whole(pt: Proto) {
    && pt.maxstacksize <= 250 && pt.numparams + pt.vararg % 2 <= pt.maxstacksize && (pt.vararg / 4 % 2 == 1 ==> pt.vararg % 2 == 1)
    && |pt.upvalues| <= pt.nups && (|pt.lineinfo| == |pt.code| || |pt.lineinfo| == 0)
    && |pt.code| > 0 && Op(pt.code[|pt.code| - 1]) == OP_RETURN
  }

  lemma JumpLandsOn(pt: Proto, dest: int)
    ensures JumpOk(pt, dest) <==> Boundary(pt.code, dest)
  {
    hide IsCount, RunBefore;
    if 0 <= dest < |pt.code| { CountParity(pt.code, dest); }
  }

  lemma SoundIs(pt: Proto, pc: nat)
    requires pc < |pt.code|
    ensures InstrOk(pt, pc) <==> Sound(pt, pc)
  {
    hide InstrOk, Sound, ArgA, ArgB, ArgC, ArgBx, ArgSBx;
    var op := OpNumbered(pt.code[pc] % 64);
    if op in LOADS { SoundLoads(pt, pc); }
    else if op in OPERATORS { SoundOperators(pt, pc); }
    else if op in JUMPS { SoundJumps(pt, pc); }
    else { assert op in CALLS; SoundCalls(pt, pc); }
  }

  const LOADS := {OP_MOVE, OP_LOADK, OP_LOADBOOL, OP_LOADNIL, OP_GETUPVAL, OP_GETGLOBAL, OP_SETGLOBAL, OP_SETUPVAL, OP_NEWTABLE, OP_CLOSE, OP_NONE}

  const OPERATORS := {OP_GETTABLE, OP_SETTABLE, OP_SELF, OP_ADD, OP_SUB, OP_MUL, OP_DIV, OP_MOD, OP_POW, OP_UNM, OP_NOT, OP_LEN, OP_CONCAT}

  const JUMPS := {OP_JMP, OP_EQ, OP_LT, OP_LE, OP_TEST, OP_TESTSET, OP_FORLOOP, OP_FORPREP, OP_TFORLOOP}

  const CALLS := {OP_CALL, OP_TAILCALL, OP_RETURN, OP_SETLIST, OP_CLOSURE, OP_VARARG}

  lemma SoundLoads(pt: Proto, pc: nat)
    requires pc < |pt.code| && Op(pt.code[pc]) in LOADS
    ensures InstrOk(pt, pc) <==> Sound(pt, pc)
  {
    hide ArgA, ArgB, ArgC, ArgBx, ArgSBx, OpNumbered, IsCount, RunBefore, JumpOk, Boundary, CallOk, Called, ClosureOk, Closes;
  }

  lemma SoundOperators(pt: Proto, pc: nat)
    requires pc < |pt.code| && Op(pt.code[pc]) in OPERATORS
    ensures InstrOk(pt, pc) <==> Sound(pt, pc)
  {
    hide ArgA, ArgB, ArgC, ArgBx, ArgSBx, OpNumbered, IsCount, RunBefore, JumpOk, Boundary, CallOk, Called, ClosureOk, Closes;
  }

  lemma SoundJumps(pt: Proto, pc: nat)
    requires pc < |pt.code| && Op(pt.code[pc]) in JUMPS
    ensures InstrOk(pt, pc) <==> Sound(pt, pc)
  {
    hide ArgA, ArgB, ArgC, ArgBx, ArgSBx, OpNumbered, IsCount, RunBefore, JumpOk, Boundary, CallOk, Called, ClosureOk, Closes;
    JumpLandsOn(pt, pc + 1 + ArgSBx(pt.code[pc]));
  }

  lemma SoundCalls(pt: Proto, pc: nat)
    requires pc < |pt.code| && Op(pt.code[pc]) in CALLS
    ensures InstrOk(pt, pc) <==> Sound(pt, pc)
  {
    hide ArgA, ArgB, ArgC, ArgBx, ArgSBx, OpNumbered, IsCount, RunBefore, JumpOk, Boundary, CallOk, Called, ClosureOk, Closes;
    CalledIs(pt, pc);
    ClosesIs(pt, pc);
  }

  lemma CalledIs(pt: Proto, pc: nat)
    requires pc < |pt.code|
    ensures CallOk(pt, pc) <==> Called(pt, pc, ArgA(pt.code[pc]), ArgB(pt.code[pc]), ArgC(pt.code[pc]))
  {
    hide ArgA, ArgB, ArgC, Op;
  }

  lemma ClosesIs(pt: Proto, pc: nat)
    requires pc < |pt.code|
    ensures ClosureOk(pt, pc) <==> Closes(pt, pc, ArgBx(pt.code[pc]))
  {
    hide ArgBx, Op;
  }

  /** Exactly these functions are accepted. */
  lemma AcceptsExactly(pt: Proto)
    ensures Accepts(pt) <==> Whole(pt) && forall pc :: Boundary(pt.code, pc) ==> Sound(pt, pc)
  {
    hide InstrOk, Sound, IsCount, Op;
    forall pc | Boundary(pt.code, pc) ensures InstrOk(pt, pc) <==> Sound(pt, pc) { SoundIs(pt, pc); }
  }
}
