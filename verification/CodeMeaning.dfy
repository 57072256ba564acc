/** What holds of the generator's state and expression descriptors between operations. */
module CodeMeaning {
  import opened CodeMachine
  import opened CodeSpec
  import opened CodeRuns

  /** Jumps of an expression's lists: pending, each behind a test, TESTSETs without register. */
  ghost predicate ValueJumps(code: seq<Instr>, list: seq<int>) {
    && Pending(code, list)
    && (forall j :: j in list ==> Controlled(code, j) && (code[j - 1].TestSet? ==> code[j - 1].a == NO_REG))
  }

  ghost predicate Disjoint(a: seq<int>, b: seq<int>) { forall j :: j in a ==> j !in b }

  /** A descriptor in step with the state. */
  ghost predicate InvE(st: St, e: Exp) {
    && ValueJumps(st.code, e.t) && ValueJumps(st.code, e.f)
    && Disjoint(e.t, e.f) && Disjoint(e.t, st.jpc) && Disjoint(e.f, st.jpc)
    && match e.kind
       case VJmp(j) =>
         && 0 < j == |st.code| - 1 && st.code[j] == Jmp(NO_JUMP) && st.code[j - 1].Cmp?
         && j !in e.t && j !in e.f && st.jpc == [] && st.lasttarget < j
       case VReloc(i) =>
         && 0 <= i == |st.code| - 1 && st.jpc == [] && st.lasttarget < |st.code|
         && (st.code[i].Not? || st.code[i].GetGlobal?)
       case VNonReloc(r) => 0 <= r && (r < st.nactvar || r == st.freereg - 1)
       case VLocal(r) => 0 <= r < st.nactvar
       case VK(i) => 0 <= i < |st.k|
       case VGlobal(i) => 0 <= i < |st.k|
       case _ => true
  }

  /** Registers below base, other than but, are as they were. */
  ghost predicate Same(r1: Regs, r2: Regs, base: int, but: int) {
    forall i :: 0 <= i < base && i != but ==> Get(r1, i) == Get(r2, i)
  }

  /** What is known when jump j of a list is taken: a TESTSET still has the value in its B
      register, any other test only tells the truth value b. */
  ghost predicate JumpValue(code: seq<Instr>, j: int, r: Regs, v: Value, b: bool) {
    && Truthy(v) == b
    && (if TestSetJump(code, j) then Get(r, code[j - 1].b) == v else v == Bool(b))
  }

  /** Where the value is when control falls through. */
  ghost predicate FallValue(m: Machine, code: seq<Instr>, k: seq<Value>, kind: Kind, r: Regs, v: Value) {
    match kind
    case VNil => v == Nil
    case VTrue => v == Bool(true)
    case VFalse => v == Bool(false)
    case VKNum(n) => v == Num(n)
    case VK(i) => 0 <= i < |k| && k[i] == v
    case VLocal(i) => Get(r, i) == v
    case VNonReloc(i) => Get(r, i) == v
    case VGlobal(i) => 0 <= i < |k| && v == Global(m, k[i])
    case VReloc(i) => 0 <= i < |code| && v == Computed(m, code[i], r)
    case VJmp(_) => v == Bool(false)
  }

  /** The run of an expression; one that is relocatable stops before its last instruction. */
  function ValueRun(m: Machine, code: seq<Instr>, jpc: seq<int>, kind: Kind, s0: nat, r: Regs): Out
  {
    if kind.VReloc? && |code| > 0 then Exec(code, m, s0, |code| - 1, r)
    else Arrive(jpc, Exec(code, m, s0, |code|, r))
  }

  /** Outcome o carries value v, computed from registers r1 and touching none below base but but. */
  ghost predicate Carries(m: Machine, code: seq<Instr>, k: seq<Value>, e: Exp, o: Out, v: Value,
                          r1: Regs, base: int, but: int) {
    match o
    case Stuck => false
    case Fall(r) => Same(r1, r, base, but) && FallValue(m, code, k, e.kind, r, v)
    case Exit(j, r) =>
      && Same(r1, r, base, but)
      && (|| (j in e.t && JumpValue(code, j, r, v, true))
          || (j in e.f && JumpValue(code, j, r, v, false))
          || (e.kind == VJmp(j) && v == Bool(true)))
  }

  /** Outcome o2 of the code with the expression, given outcome o before it: runs that had left
      still leave the same way, and runs that arrived carry v. */
  ghost predicate Follows(m: Machine, code: seq<Instr>, k: seq<Value>, e: Exp, o: Out, o2: Out, v: Value,
                          base: int, but: int) {
    && !o.Stuck?
    && (o.Exit? ==> o2 == o && o.j !in e.t && o.j !in e.f && e.kind != VJmp(o.j))
    && (o.Fall? ==> Carries(m, code, k, e, o2, v, o.r, base, but))
  }

  ghost predicate Tracks(m: Machine, st: St, e: Exp, s0: nat, r0: Regs, o: Out, v: Value, base: int, but: int)
  {
    Follows(m, st.code, st.k, e, o, ValueRun(m, st.code, st.jpc, e.kind, s0, r0), v, base, but)
  }

  /** Runs may start at the beginning of the function, with clean registers, or at a mark. */
  ghost predicate StartsAt(st: St, s0: nat, r0: Regs) {
    && s0 <= |st.code|
    && (s0 == 0 || s0 <= st.lasttarget)
    && (s0 == 0 ==> forall i :: i >= st.nactvar ==> Get(r0, i) == Nil)
  }

  /** reg is a place exp2reg may fill: a local variable or the top register. */
  predicate IsTarget(st: St, reg: int) { 0 <= reg && (reg < st.nactvar || reg == st.freereg - 1) }

  /** The tests of a list's jumps still hold the same values. */
  ghost predicate TestsKept(code: seq<Instr>, code': seq<Instr>, list: seq<int>) {
    forall j :: j in list ==>
      TestSetJump(code', j) == TestSetJump(code, j) && (TestSetJump(code, j) ==> code'[j - 1].b == code[j - 1].b)
  }

  /** What only grows, and what stays, from one generator state to the next. */
  predicate Grows(st: St, st': St) {
    st.k <= st'.k && st'.nactvar == st.nactvar && st.lasttarget <= st'.lasttarget && (st.err ==> st'.err)
  }

  /** A list may be closed at the end of the code, its value-less jumps going through the
      LOADBOOL at dt. */
  ghost predicate Closable(st: St, list: seq<int>, reg: int, dt: int, b: bool) {
    && ValueJumps(st.code, list) && Disjoint(list, st.jpc)
    && (|| (forall j :: j in list ==> TestSetJump(st.code, j))
        || (&& 0 <= dt < |st.code| && (forall j :: j in list ==> j < dt)
            && st.code[dt].LoadBool? && st.code[dt].a == reg && st.code[dt].value == b
            && dt + Width(st.code[dt]) == |st.code|))
  }

  /** The value arrives in reg. */
  ghost predicate Delivers(m: Machine, st: St, s0: nat, r0: Regs, o: Out, v: Value, base: int, reg: int)
  {
    && !o.Stuck?
    && (o.Exit? ==> Run(m, st, s0, r0) == o)
    && (o.Fall? ==> var o' := Run(m, st, s0, r0);
          o'.Fall? && Same(o.r, o'.r, base, reg) && Get(o'.r, reg) == v)
  }

  /** The value is in reg, or known by the jump of a list the run leaves through. */
  ghost predicate AtLists(m: Machine, st: St, e: Exp, s0: nat, r0: Regs, o: Out, v: Value, base: int, reg: int)
  {
    && !o.Stuck?
    && (o.Exit? ==> Run(m, st, s0, r0) == o && o.j !in e.t && o.j !in e.f)
    && (o.Fall? ==>
          match Run(m, st, s0, r0)
          case Stuck => false
          case Fall(r) => Same(o.r, r, base, reg) && Get(r, reg) == v
          case Exit(j, r) =>
            && Same(o.r, r, base, reg)
            && (|| (j in e.t && JumpValue(st.code, j, r, v, true))
                || (j in e.f && JumpValue(st.code, j, r, v, false))))
  }

  /** A list that belongs to an enclosing expression: apart from everything e and st own. */
  ghost predicate Safe(st: St, e: Exp, list: seq<int>) {
    && ValueJumps(st.code, list) && Disjoint(list, st.jpc)
    && Disjoint(list, e.t) && Disjoint(list, e.f) && (e.kind.VJmp? ==> e.kind.info !in list)
  }

  /** Everything known between two operations on an expression: its state is in order, it holds
      at most the register above base, and its runs carry v. */
  ghost predicate Sim(m: Machine, st: St, e: Exp, s0: nat, r0: Regs, o: Out, v: Value, base: int) {
    && Inv(st) && InvE(st, e) && StartsAt(st, s0, r0)
    && st.nactvar <= base == FreeExp(st, e).freereg
    && Tracks(m, st, e, s0, r0, o, v, base, -1)
  }

  /** What an operation leaves of an enclosing expression's list. */
  ghost predicate Spares(st: St, st': St, e': Exp, list: seq<int>) {
    Safe(st', e', list) && TestsKept(st.code, st'.code, list)
  }
}
