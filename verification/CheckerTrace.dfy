/** What symbexec finds out about a register, compared with what the interpreter does to it. */
module CheckerTrace {
  import opened Bytecode
  import opened Checker

  /** The registers of its frame that the interpreter writes, or may write, when it executes an
      instruction. A call may use all registers from its first on; a callee that sets upvalues of
      the frame is not part of the instruction. */
  predicate Writes(w: Word, r: int) {
    var a, b, c := ArgA(w), ArgB(w), ArgC(w);
    match Op(w)
    case OP_LOADNIL => r == b || a <= r <= b
    case OP_SELF => r == a || r == a + 1
    case OP_CONCAT => r == a || b <= r <= c
    case OP_FORLOOP => r == a || r == a + 3
    case OP_FORPREP => a <= r <= a + 2
    case OP_TFORLOOP => r >= a + 2
    case OP_CALL => r >= a
    case OP_TAILCALL => r >= a
    case OP_VARARG => a <= r && (b == 0 || r <= a + b - 2)
    case OP_SETGLOBAL => false
    case OP_SETUPVAL => false
    case OP_SETTABLE => false
    case OP_JMP => false
    case OP_EQ => false
    case OP_LT => false
    case OP_LE => false
    case OP_TEST => false
    case OP_RETURN => false
    case OP_SETLIST => false
    case OP_CLOSE => false
    case OP_NONE => false
    case _ => r == a
  }

  /** The writes that symbexec does not see. */
  predicate Unseen(w: Word, r: int) {
    var a, b, c := ArgA(w), ArgB(w), ArgC(w);
    match Op(w)
    case OP_LOADNIL => r == b && b < a
    case OP_CONCAT => b <= r <= c && r != a
    case OP_FORLOOP => r == a + 3
    case OP_FORPREP => r == a + 1 || r == a + 2
    case OP_VARARG => a < r && (b == 0 || r <= a + b - 2)
    case _ => false
  }

  /** The writes that it sees and that do not happen. */
  predicate Imagined(w: Word, r: int) {
    (Op(w) == OP_TEST && r == ArgA(w)) || (Op(w) == OP_VARARG && ArgB(w) == 1 && r == ArgA(w)) || (Op(w) == OP_LOADNIL && r == ArgA(w) && ArgB(w) < r)
  }

  /** symbexec takes an instruction for one that changes a register exactly when it writes it and is
      none of those, or is one of these. */
  lemma ChangesWhat(w: Word, r: int)
    requires Op(w) != OP_NONE
    ensures Changes(w, r) <==> (Writes(w, r) && !Unseen(w, r)) || Imagined(w, r)
    ensures Unseen(w, r) ==> Writes(w, r)
    ensures Imagined(w, r) ==> !Writes(w, r)
  {
    hide ArgA, ArgB, ArgC;
  }

  /** The register before each instruction, when nothing but the instructions passed changes it. */
  ghost predicate Values<V(!new)>(pt: Proto, val: int -> V, lastpc: nat, reg: int)
    requires lastpc <= |pt.code|
  {
    forall q :: 0 <= q < lastpc && !Writes(pt.code[q], reg) ==> val(q + Skip(pt, q, lastpc, reg)) == val(q)
  }

  /** No instruction passed writes the register unseen. */
  ghost predicate Seen(pt: Proto, from: nat, to: nat, lastpc: nat, reg: int)
    requires lastpc <= |pt.code|
    decreases if from < to then to - from else 0
  {
    from == to ||
    (from < to && from < lastpc && Op(pt.code[from]) != OP_NONE && !Unseen(pt.code[from], reg) && Skip(pt, from, lastpc, reg) > 0 &&
     Seen(pt, from + Skip(pt, from, lastpc, reg), to, lastpc, reg))
  }

  /** Along a way that symbexec calls quiet the register keeps its value, but for unseen writes. */
  lemma {:induction false} QuietKeeps<V(!new)>(pt: Proto, val: int -> V, from: nat, to: nat, lastpc: nat, reg: int)
    requires lastpc <= |pt.code| && Quiet(pt, from, to, lastpc, reg) && Seen(pt, from, to, lastpc, reg) && Values(pt, val, lastpc, reg)
    ensures val(to) == val(from)
    decreases if from < to then to - from else 0
  {
    hide Changes, Writes, Unseen, Skip;
    if from < to {
      ChangesWhat(pt.code[from], reg);
      QuietKeeps(pt, val, from + Skip(pt, from, lastpc, reg), to, lastpc, reg);
    }
  }

  /** An instruction on the way writes the register, or is taken to, and none behind it is. */
  ghost predicate Found(pt: Proto, last: nat, to: nat, lastpc: nat, reg: int)
    requires lastpc <= |pt.code|
  {
    last < lastpc && Boundary(pt.code, last) && ((Writes(pt.code[last], reg) && !Unseen(pt.code[last], reg)) || Imagined(pt.code[last], reg))
    && Skip(pt, last, lastpc, reg) > 0 && Quiet(pt, last + Skip(pt, last, lastpc, reg), to, lastpc, reg)
  }

  /** The instruction that symbexec finds left the register as it is at the end of the way; if it
      finds none, the register is as it was at the start of the function. */
  lemma LastLeft<V(!new)>(pt: Proto, val: int -> V, last: nat, to: nat, lastpc: nat, reg: int)
    requires lastpc <= |pt.code| && last < |pt.code| && LastChange(pt, last, to, lastpc, reg) && Values(pt, val, lastpc, reg)
    requires forall q :: 0 <= q < lastpc ==> Op(pt.code[q]) != OP_NONE
    ensures Found(pt, last, to, lastpc, reg) || (last == |pt.code| - 1 && Quiet(pt, 0, to, lastpc, reg))
    ensures Found(pt, last, to, lastpc, reg) && Seen(pt, last + Skip(pt, last, lastpc, reg), to, lastpc, reg)
            ==> val(to) == val(last + Skip(pt, last, lastpc, reg))
    ensures Quiet(pt, 0, to, lastpc, reg) && Seen(pt, 0, to, lastpc, reg) ==> val(to) == val(0)
  {
    hide Changes, Skip, Writes, Unseen, Imagined, Op;
    if last < lastpc { ChangesWhat(pt.code[last], reg); }
    if Found(pt, last, to, lastpc, reg) && Seen(pt, last + Skip(pt, last, lastpc, reg), to, lastpc, reg) {
      QuietKeeps(pt, val, last + Skip(pt, last, lastpc, reg), to, lastpc, reg);
    }
    if Quiet(pt, 0, to, lastpc, reg) && Seen(pt, 0, to, lastpc, reg) {
      QuietKeeps(pt, val, 0, to, lastpc, reg);
    }
  }

  /** Where symbexec goes after an instruction: over the count of a SETLIST, where it traces a register
      also to the destination of a forward jump not beyond lastpc and behind the pseudo-instructions
      of a closure; otherwise to the next word. */
  lemma WayOn(pt: Proto, pc: nat, lastpc: nat, reg: int)
    requires pc < |pt.code|
    ensures var w, next := pt.code[pc], pc + Skip(pt, pc, lastpc, reg);
      match Op(w)
      case OP_SETLIST => next == if ArgC(w) == 0 then pc + 2 else pc + 1
      case OP_CLOSURE => next == if reg == 255 then pc + 1 else if ArgBx(w) < |pt.p| && pt.p[ArgBx(w)].nups >= 0 then pc + 1 + pt.p[ArgBx(w)].nups else pc + 1
      case op =>
        if (op == OP_JMP || op == OP_FORLOOP || op == OP_FORPREP) && reg != 255 && ArgSBx(w) >= 0 && pc + 1 + ArgSBx(w) <= lastpc
        then next == pc + 1 + ArgSBx(w) else next == pc + 1
  {
    hide ArgBx, ArgC, Op;
  }

  /** The interpreter goes the same way, unless it tests, skips, leaves the function, or jumps back or
      beyond. */
  lemma SameWay(pt: Proto, pc: nat, lastpc: nat, reg: int)
    requires pc < |pt.code| && reg != NO_REG
    requires var w := pt.code[pc];
      && Op(w) !in {OP_EQ, OP_LT, OP_LE, OP_TEST, OP_TESTSET, OP_TFORLOOP, OP_RETURN} && (Op(w) == OP_LOADBOOL ==> ArgC(w) == 0)
      && (Op(w) in {OP_JMP, OP_FORPREP} ==> ArgSBx(w) >= 0 && pc + 1 + ArgSBx(w) <= lastpc)
    ensures pc + Skip(pt, pc, lastpc, reg) in Steps(pt, pc)
  {
    hide ArgSBx, ArgC;
  }
}
