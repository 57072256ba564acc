/** Code that the checker accepts never leaves its instructions, if every LOADBOOL that skips has
    the skip flag that the checker looks for. */
module CheckerSafe {
  import opened Bytecode
  import opened Checker

  /** Skipping is written 1, as the code generator writes it. */
  ghost predicate PlainSkips(pt: Proto) {
    forall pc :: Boundary(pt.code, pc) && Op(pt.code[pc]) == OP_LOADBOOL ==> ArgC(pt.code[pc]) <= 1
  }

  /** The interpreter stays on instructions, whatever the data. */
  ghost predicate Stays(pt: Proto) {
    forall pc, next :: Boundary(pt.code, pc) && next in Steps(pt, pc) ==> Boundary(pt.code, next)
  }

  // ---------------------------------------------------------------- one step

  lemma CheckedAt(pt: Proto, pc: nat)
    requires Accepts(pt) && Boundary(pt.code, pc)
    ensures InstrOk(pt, pc) && PreOk(pt)
  {
    hide InstrOk, PreOk;
  }

  lemma NotLast(pt: Proto, pc: nat)
    requires PreOk(pt) && pc < |pt.code| && Op(pt.code[pc]) != OP_RETURN
    ensures pc + 1 < |pt.code|
  {
    hide Op;
  }

  lemma TestLands(pt: Proto, pc: nat)
    requires Accepts(pt) && Boundary(pt.code, pc) && ModeOf(Op(pt.code[pc])).test
    ensures pc + 2 < |pt.code| && Boundary(pt.code, pc + 2) && Boundary(pt.code, pc + 2 + ArgSBx(pt.code[pc + 1]))
  {
    hide ArgSBx, IsCount, Accepts, InstrOk, Op;
    CheckedAt(pt, pc);
    TestChecked(pt, pc);
    NextLands(pt.code, pc);
    CheckedAt(pt, pc + 1);
    NextLands(pt.code, pc + 1);
    JumpLands(pt, pc + 1);
  }

  lemma TestChecked(pt: Proto, pc: nat)
    requires pc < |pt.code| && InstrOk(pt, pc) && ModeOf(Op(pt.code[pc])).test
    ensures pc + 2 < |pt.code| && Op(pt.code[pc + 1]) == OP_JMP && !LongSetList(pt.code[pc])
  {
    hide OpOk, ArgsOk, Op;
  }

  lemma SkipBool(pt: Proto, pc: nat)
    requires Accepts(pt) && Boundary(pt.code, pc) && Op(pt.code[pc]) == OP_LOADBOOL
    ensures Boundary(pt.code, pc + 1)
    ensures Boundary(pt.code, pc + 2) <==> pc + 2 < |pt.code| && !LongSetList(pt.code[pc + 1])
    ensures ArgC(pt.code[pc]) == 1 ==> Boundary(pt.code, pc + 2)
  {
    hide ArgsOk, PreOk, Accepts, Op, ArgC;
    CheckedAt(pt, pc);
    NotLast(pt, pc);
    assert !LongSetList(pt.code[pc]);
    assert !IsCount(pt.code, pc + 1);
  }

  /** Every step but a skip with another flag stays on instructions. */
  lemma StepLands(pt: Proto, pc: nat, next: int)
    requires Accepts(pt) && Boundary(pt.code, pc) && next in Steps(pt, pc)
    requires Op(pt.code[pc]) == OP_LOADBOOL ==> ArgC(pt.code[pc]) <= 1
    ensures Boundary(pt.code, next)
  {
    hide InstrOk, Accepts, ArgSBx, ArgBx, ArgC, ArgB, ArgA, IsCount, Op, PreOk;
    var op := Op(pt.code[pc]);
    CheckedAt(pt, pc);
    if ModeOf(op).test {
      TestLands(pt, pc);
    } else if op == OP_LOADBOOL {
      SkipBool(pt, pc);
    } else if op == OP_JMP || op == OP_FORPREP || op == OP_FORLOOP {
      NotLast(pt, pc);
      JumpLands(pt, pc);
      NextLands(pt.code, pc);
    } else if op == OP_CLOSURE {
      ClosureLands(pt, pc);
      ClosureInside(pt, pc);
    } else if LongSetList(pt.code[pc]) {
      SetListLands(pt, pc);
    } else if op != OP_RETURN {
      NotLast(pt, pc);
      NextLands(pt.code, pc);
    }
  }

  lemma ClosureMeans(pt: Proto, pc: nat)
    requires pc < |pt.code| && InstrOk(pt, pc) && Op(pt.code[pc]) == OP_CLOSURE
    ensures ClosureOk(pt, pc)
  {
    hide Op, ArgsOk, ClosureOk, ArgBx, ArgA, ArgB, ArgC;
  }

  /** The pseudo-instructions of a closure are followed by an instruction. */
  lemma ClosureInside(pt: Proto, pc: nat)
    requires Accepts(pt) && Boundary(pt.code, pc) && Op(pt.code[pc]) == OP_CLOSURE
    ensures pc + Nups(pt, ArgBx(pt.code[pc])) + 1 < |pt.code|
  {
    hide Op, IsCount, Accepts, InstrOk, ArgBx, Nups;
    CheckedAt(pt, pc);
    ClosureMeans(pt, pc);
    var n := Nups(pt, ArgBx(pt.code[pc]));
    if n > 0 { assert Op(pt.code[pc + n]) != OP_RETURN; }
  }

  /** A skipping LOADBOOL has an instruction to skip, which is not a SETLIST with its count. */
  predicate GoodSkip(pt: Proto, pc: nat)
    requires pc < |pt.code|
  {
    Op(pt.code[pc]) == OP_LOADBOOL && ArgC(pt.code[pc]) != 0 ==> pc + 2 < |pt.code| && !LongSetList(pt.code[pc + 1])
  }

  /** Acceptance makes the interpreter stay on instructions exactly when no LOADBOOL with a skip
      flag would skip a count or the end of the code. */
  lemma StaysExactly(pt: Proto)
    requires Accepts(pt)
    ensures Stays(pt) <==> forall pc :: Boundary(pt.code, pc) ==> GoodSkip(pt, pc)
  {
    hide IsCount, Accepts, Op, ArgC;
    if Stays(pt) {
      forall pc | Boundary(pt.code, pc) ensures GoodSkip(pt, pc) {
        if Op(pt.code[pc]) == OP_LOADBOOL && ArgC(pt.code[pc]) != 0 {
          assert pc + 2 in Steps(pt, pc);
          SkipBool(pt, pc);
        }
      }
    }
    if forall pc :: Boundary(pt.code, pc) ==> GoodSkip(pt, pc) {
      forall pc, next | Boundary(pt.code, pc) && next in Steps(pt, pc) ensures Boundary(pt.code, next) {
        if Op(pt.code[pc]) == OP_LOADBOOL {
          assert GoodSkip(pt, pc);
          SkipBool(pt, pc);
        } else {
          StepLands(pt, pc, next);
        }
      }
    }
  }

  lemma PlainStays(pt: Proto)
    requires Accepts(pt) && PlainSkips(pt)
    ensures Stays(pt)
  {
    forall pc, next | Boundary(pt.code, pc) && next in Steps(pt, pc) ensures Boundary(pt.code, next) {
      StepLands(pt, pc, next);
    }
  }

  /** The checker accepts a LOADBOOL with skip flag 2 that runs off the end of the code. */
  lemma SkipFlagTwo() returns (pt: Proto)
    ensures Accepts(pt) && !Stays(pt)
  {
    hide Op, ArgA, ArgB, ArgC, ArgBx, ArgSBx;
    pt := Proto(NoText, 0, 0, 0, 0, 0, 2, [SKIPTWO, RETURN0], [], [], [], [], []);
    TwoWords();
    assert InstrOk(pt, 0) && InstrOk(pt, 1);
    forall pc | Boundary(pt.code, pc) ensures InstrOk(pt, pc) {}
    assert Boundary(pt.code, 0) && 2 in Steps(pt, 0);
    assert Stays(pt) ==> Boundary(pt.code, 2);
  }

  const SKIPTWO: Word := 2 + 2 * 0x4000

  const RETURN0: Word := 30 + 0x80_0000

  lemma TwoWords()
    ensures Op(SKIPTWO) == OP_LOADBOOL && ArgA(SKIPTWO) == 0 && ArgB(SKIPTWO) == 0 && ArgC(SKIPTWO) == 2
    ensures Op(RETURN0) == OP_RETURN && ArgA(RETURN0) == 0 && ArgB(RETURN0) == 1 && ArgC(RETURN0) == 0
  {
  }

  // ---------------------------------------------------------------- operands

  lemma InRange(lo: int, hi: int, m: int)
    requires lo >= 0 && (lo <= hi ==> hi < m)
    ensures forall r :: r in Range(lo, hi) ==> 0 <= r < m
  {
  }

  /** A closure's pseudo-instructions are checked as the instructions they look like. */
  lemma PseudoOk(pt: Proto, pc: nat, j: nat)
    requires Accepts(pt) && Boundary(pt.code, pc) && Op(pt.code[pc]) == OP_CLOSURE && pc < j <= pc + Nups(pt, ArgBx(pt.code[pc]))
    ensures Boundary(pt.code, j) && InstrOk(pt, j)
  {
    hide IsCount, Op, PreOk, Accepts, InstrOk, ArgBx, Nups;
    CheckedAt(pt, pc);
    ClosureMeans(pt, pc);
    assert forall i :: pc < i <= pc + (j - pc - 1) ==> Op(pt.code[i]) == OP_GETUPVAL || Op(pt.code[i]) == OP_MOVE;
    AfterPlain(pt.code, pc, j - pc - 1);
    CheckedAt(pt, j);
  }

  lemma PseudoOperand(pt: Proto, j: nat)
    requires j < |pt.code| && InstrOk(pt, j)
    ensures Op(pt.code[j]) == OP_MOVE ==> ArgB(pt.code[j]) < pt.maxstacksize
    ensures Op(pt.code[j]) == OP_GETUPVAL ==> ArgB(pt.code[j]) < pt.nups
  {
    hide Op;
  }

  lemma CapturedInRange(pt: Proto, pc: nat)
    requires Accepts(pt) && Boundary(pt.code, pc) && Op(pt.code[pc]) == OP_CLOSURE
    ensures forall r :: r in Captured(pt, pc) ==> 0 <= r < pt.maxstacksize
    ensures forall u :: u in Upvalues(pt, pc) ==> 0 <= u < pt.nups
  {
    hide IsCount, Op, Accepts, InstrOk, ArgB, ArgBx;
    forall j | pc < j <= pc + Nups(pt, ArgBx(pt.code[pc]))
      ensures j < |pt.code| && (Op(pt.code[j]) == OP_MOVE ==> ArgB(pt.code[j]) < pt.maxstacksize) && (Op(pt.code[j]) == OP_GETUPVAL ==> ArgB(pt.code[j]) < pt.nups) {
      PseudoOk(pt, pc, j);
      PseudoOperand(pt, j);
    }
  }

  lemma RegistersOk(pt: Proto, pc: nat)
    requires Accepts(pt) && Boundary(pt.code, pc)
    ensures forall r :: r in Registers(pt, pc) ==> 0 <= r < pt.maxstacksize
  {
    hide Accepts, JumpOk, ClosureOk, Captured, Op, ArgA, ArgB, ArgC, ArgBx, ArgSBx, IsCount, OpenOk, Upvalues;
    CheckedAt(pt, pc);
    if Op(pt.code[pc]) == OP_CLOSURE { CapturedInRange(pt, pc); }
  }

  lemma ConstantsOk(pt: Proto, pc: nat)
    requires Accepts(pt) && Boundary(pt.code, pc)
    ensures forall x :: x in Constants(pt.code[pc]) ==> 0 <= x < |pt.k|
  {
    hide Accepts, JumpOk, ClosureOk, Op, ArgA, ArgB, ArgC, ArgBx, ArgSBx, IsCount, OpenOk;
    CheckedAt(pt, pc);
  }

  lemma UpvaluesOk(pt: Proto, pc: nat)
    requires Accepts(pt) && Boundary(pt.code, pc)
    ensures forall u :: u in Upvalues(pt, pc) ==> 0 <= u < pt.nups
  {
    hide Accepts, ArgsOk, ClosureOk, Op, IsCount;
    CheckedAt(pt, pc);
    if Op(pt.code[pc]) == OP_CLOSURE { CapturedInRange(pt, pc); }
  }

  /** Every instruction of accepted code names registers, upvalues, constants and prototypes that
      are there. */
  lemma OperandsOk(pt: Proto, pc: nat)
    requires Accepts(pt) && Boundary(pt.code, pc)
    ensures OperandsInRange(pt, pc)
  {
    hide Registers, Upvalues, Constants, ArgsOk, Accepts, Op, IsCount, PreOk;
    RegistersOk(pt, pc);
    ConstantsOk(pt, pc);
    UpvaluesOk(pt, pc);
    CheckedAt(pt, pc);
  }

  /** An open call or vararg is followed by an instruction that uses top. */
  lemma OpenIsUsed(pt: Proto, pc: nat)
    requires Accepts(pt) && Boundary(pt.code, pc)
    requires ((Op(pt.code[pc]) == OP_CALL || Op(pt.code[pc]) == OP_TAILCALL) && ArgC(pt.code[pc]) == 0)
             || (Op(pt.code[pc]) == OP_VARARG && ArgB(pt.code[pc]) == 0)
    ensures Boundary(pt.code, pc + 1) && OpenOk(pt.code[pc + 1])
  {
    hide Accepts, ArgsOk, IsCount, Op;
    CheckedAt(pt, pc);
    NotLast(pt, pc);
    NextLands(pt.code, pc);
  }

  // ---------------------------------------------------------------- whole runs

  /** A run of the interpreter from the start of a function. */
  ghost predicate IsRun(pt: Proto, pcs: seq<int>) {
    && pcs != [] && pcs[0] == 0
    && forall i :: 0 <= i < |pcs| - 1 ==> 0 <= pcs[i] < |pt.code| && pcs[i + 1] in Steps(pt, pcs[i])
  }

  lemma StaysStep(pt: Proto, pc: nat, next: int)
    requires Stays(pt) && Boundary(pt.code, pc) && next in Steps(pt, pc)
    ensures Boundary(pt.code, next)
  {
    hide Steps;
  }

  lemma StartIsBoundary(pt: Proto)
    requires Accepts(pt)
    ensures Boundary(pt.code, 0)
  {
    hide InstrOk;
    PreMeans(pt);
  }

  /** Whatever the data, a run stays on instructions with all operands in range. */
  lemma {:induction false} RunIsSafe(pt: Proto, pcs: seq<int>)
    requires Accepts(pt) && PlainSkips(pt) && IsRun(pt, pcs)
    ensures forall i :: 0 <= i < |pcs| ==> Boundary(pt.code, pcs[i]) && OperandsInRange(pt, pcs[i])
  {
    hide Steps, OperandsInRange, PlainSkips, Accepts, IsCount, Op, Stays;
    if |pcs| > 1 {
      var before := pcs[..|pcs| - 1];
      RunIsSafe(pt, before);
      PlainStays(pt);
      assert Boundary(pt.code, before[|before| - 1]);
      StaysStep(pt, before[|before| - 1], pcs[|pcs| - 1]);
      OperandsOk(pt, pcs[|pcs| - 1]);
      forall i | 0 <= i < |pcs| ensures Boundary(pt.code, pcs[i]) && OperandsInRange(pt, pcs[i]) { if i < |pcs| - 1 { assert pcs[i] == before[i]; } }
    } else {
      StartIsBoundary(pt);
      OperandsOk(pt, 0);
    }
  }
}
