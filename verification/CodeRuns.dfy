/** How runs of partial code change when code is appended, patched or discharged. */
module CodeRuns {
  import opened CodeMachine
  import opened CodeSpec

  /** The jumps of a list are in the code and have no target yet. */
  ghost predicate Pending(code: seq<Instr>, list: seq<int>) {
    forall j :: j in list ==> 0 <= j < |code| && code[j] == Jmp(NO_JUMP)
  }

  /** Appending code only prolongs the runs that reached the end. */
  lemma {:induction false} ExecAppend(code: seq<Instr>, more: seq<Instr>, m: Machine, p: int, end: int, r: Regs)
    requires 0 <= p <= |code| <= end <= |code + more|
    ensures var o := Exec(code, m, p, |code|, r);
      && (o.Fall? ==> Exec(code + more, m, p, end, r) == Exec(code + more, m, |code|, end, o.r))
      && (o.Exit? ==> Exec(code + more, m, p, end, r) == o)
    decreases |code| - p
  {
    if p == |code| {
    } else if code[p].IsTest() {
      if p + 1 < |code| && code[p + 1].Jmp? {
        if Taken(m, code[p], r) {
          var dest := p + 2 + code[p + 1].sbx;
          if code[p + 1].sbx != NO_JUMP && p + 1 < dest <= |code| {
            ExecAppend(code, more, m, dest, end, AfterTest(code[p], r));
          }
        } else if p + 2 <= |code| {
          ExecAppend(code, more, m, p + 2, end, r);
        }
      }
    } else if code[p].Jmp? {
      var dest := p + 1 + code[p].sbx;
      if code[p].sbx != NO_JUMP && p < dest <= |code| {
        ExecAppend(code, more, m, dest, end, r);
      }
    } else if p + Width(code[p]) <= |code| {
      ExecAppend(code, more, m, p + Width(code[p]), end, Effect(m, code[p], r));
    }
  }

  /** A run up to end reads nothing from end on. */
  lemma {:induction false} ExecPrefix(code: seq<Instr>, more: seq<Instr>, m: Machine, p: int, r: Regs)
    requires 0 <= p <= |code|
    ensures Exec(code + more, m, p, |code|, r) == Exec(code, m, p, |code|, r)
    decreases |code| - p
  {
    if p == |code| {
    } else if code[p].IsTest() {
      if p + 1 < |code| && code[p + 1].Jmp? {
        if Taken(m, code[p], r) {
          var dest := p + 2 + code[p + 1].sbx;
          if code[p + 1].sbx != NO_JUMP && p + 1 < dest <= |code| {
            ExecPrefix(code, more, m, dest, AfterTest(code[p], r));
          }
        } else if p + 2 <= |code| {
          ExecPrefix(code, more, m, p + 2, r);
        }
      }
    } else if code[p].Jmp? {
      var dest := p + 1 + code[p].sbx;
      if code[p].sbx != NO_JUMP && p < dest <= |code| {
        ExecPrefix(code, more, m, dest, r);
      }
    } else if p + Width(code[p]) <= |code| {
      ExecPrefix(code, more, m, p + Width(code[p]), Effect(m, code[p], r));
    }
  }

  /** A run leaves through a pending jump of the code it ran. */
  lemma {:induction false} ExitsWithin(code: seq<Instr>, m: Machine, p: int, end: int, r: Regs)
    requires 0 <= p && end <= |code|
    ensures var o := Exec(code, m, p, end, r); o.Exit? ==> p <= o.j < end && code[o.j] == Jmp(NO_JUMP)
    decreases end - p
  {
    if p >= end {
    } else if code[p].IsTest() {
      if p + 1 < end && code[p + 1].Jmp? {
        if Taken(m, code[p], r) {
          var dest := p + 2 + code[p + 1].sbx;
          if code[p + 1].sbx != NO_JUMP && p + 1 < dest <= end {
            ExitsWithin(code, m, dest, end, AfterTest(code[p], r));
          }
        } else {
          ExitsWithin(code, m, p + 2, end, r);
        }
      }
    } else if code[p].Jmp? {
      var dest := p + 1 + code[p].sbx;
      if code[p].sbx != NO_JUMP && p < dest <= end {
        ExitsWithin(code, m, dest, end, r);
      }
    } else {
      ExitsWithin(code, m, p + Width(code[p]), end, Effect(m, code[p], r));
    }
  }

  /** The registers with which a run goes on after the patched jump j. */
  function PatchedRegs(code: seq<Instr>, j: int, reg: int, r: Regs): Regs {
    if TestSetJump(code, j) && reg != NO_REG && reg != code[j - 1].b
    then r[reg := Get(r, code[j - 1].b)] else r
  }

  function PatchedDest(code: seq<Instr>, j: int, vtarget: int, dtarget: int): int {
    if TestSetJump(code, j) then vtarget else dtarget
  }

  /** Each jump of the list is pending; the TESTSETs that control them have no register yet;
      and each will get a forward target within the code. */
  ghost predicate Patchable(code: seq<Instr>, list: seq<int>, vtarget: int, dtarget: int, end: int) {
    && Pending(code, list)
    && (forall j :: j in list && TestSetJump(code, j) ==> code[j - 1].a == NO_REG)
    && (forall j :: j in list ==> j < PatchedDest(code, j, vtarget, dtarget) <= end)
  }

  /** Where a run with outcome o in the unpatched code leads in the patched one. */
  function Redirect(code: seq<Instr>, list: seq<int>, vtarget: int, reg: int, dtarget: int,
                    m: Machine, end: int, o: Out): Out
    requires end <= |code|
  {
    if o.Exit? && o.j in list && 0 <= PatchedDest(code, o.j, vtarget, dtarget)
    then Exec(PatchList(code, list, vtarget, reg, dtarget), m, PatchedDest(code, o.j, vtarget, dtarget),
              end, PatchedRegs(code, o.j, reg, o.r))
    else o
  }

  /** Patching a list redirects exactly the runs that left through one of its jumps. */
  lemma {:induction false} ExecPatch(code: seq<Instr>, list: seq<int>, vtarget: int, reg: int, dtarget: int,
                                     m: Machine, p: int, end: int, r: Regs)
    requires 0 <= p <= end <= |code|
    requires Patchable(code, list, vtarget, dtarget, end)
    ensures !Exec(code, m, p, end, r).Stuck? ==>
      Exec(PatchList(code, list, vtarget, reg, dtarget), m, p, end, r)
      == Redirect(code, list, vtarget, reg, dtarget, m, end, Exec(code, m, p, end, r))
    decreases end - p, 1
  {
    var code' := PatchList(code, list, vtarget, reg, dtarget);
    if p == end {
      return;
    }
    PatchShape(code, list, vtarget, reg, dtarget, p);
    if code[p].IsTest() {
      if p + 1 < end && code[p + 1].Jmp? {
        PatchShape(code, list, vtarget, reg, dtarget, p + 1);
        PatchTaken(code, list, vtarget, reg, dtarget, m, p, r);
        if Taken(m, code[p], r) {
          JumpPatch(code, list, vtarget, reg, dtarget, m, p + 1, end, AfterTest(code[p], r));
        } else if p + 2 <= end {
          ExecPatch(code, list, vtarget, reg, dtarget, m, p + 2, end, r);
        }
      }
    } else if code[p].Jmp? {
      if p > 0 { PatchShape(code, list, vtarget, reg, dtarget, p - 1); }
      if !(p > 0 && code[p - 1].IsTest()) {
        JumpPatch(code, list, vtarget, reg, dtarget, m, p, end, r);
      }
    } else if p + Width(code[p]) <= end {
      ExecPatch(code, list, vtarget, reg, dtarget, m, p + Width(code[p]), end, Effect(m, code[p], r));
    }
  }

  /** The same for a jump about to be taken, r being the registers before patching. */
  lemma {:induction false} JumpPatch(code: seq<Instr>, list: seq<int>, vtarget: int, reg: int, dtarget: int,
                                     m: Machine, j: int, end: int, r: Regs)
    requires 0 <= j < end <= |code| && code[j].Jmp?
    requires Patchable(code, list, vtarget, dtarget, end)
    ensures var code' := PatchList(code, list, vtarget, reg, dtarget);
      && code'[j].Jmp?
      && (!Jump(code, m, j, end, r).Stuck? ==>
            Jump(code', m, j, end, if j in list then PatchedRegs(code, j, reg, r) else r)
            == Redirect(code, list, vtarget, reg, dtarget, m, end, Jump(code, m, j, end, r)))
    decreases end - j, 0
  {
    PatchShape(code, list, vtarget, reg, dtarget, j);
    var dest := j + 1 + code[j].sbx;
    if code[j].sbx != NO_JUMP && j < dest <= end {
      ExecPatch(code, list, vtarget, reg, dtarget, m, dest, end, r);
    }
  }

  /** Patching changes jumps of the list into jumps and TESTSETs into tests, and nothing else. */
  lemma PatchShape(code: seq<Instr>, list: seq<int>, vtarget: int, reg: int, dtarget: int, p: int)
    requires 0 <= p < |code| && Pending(code, list)
    ensures var i := PatchList(code, list, vtarget, reg, dtarget)[p];
      && (p in list ==> code[p].Jmp? && i == Jmp(PatchedDest(code, p, vtarget, dtarget) - (p + 1)))
      && (p !in list && !code[p].TestSet? ==> i == code[p])
      && (code[p].TestSet? ==> i == if p + 1 in list then PatchedTest(code[p], reg) else code[p])
  {
  }

  /** A taken test whose jump is patched leaves the registers PatchedRegs describes. */
  lemma PatchTaken(code: seq<Instr>, list: seq<int>, vtarget: int, reg: int, dtarget: int, m: Machine, p: int, r: Regs)
    requires 0 <= p < |code| - 1 && code[p].IsTest() && code[p + 1].Jmp?
    requires Pending(code, list)
    requires forall j :: j in list && TestSetJump(code, j) ==> code[j - 1].a == NO_REG
    ensures var i := PatchList(code, list, vtarget, reg, dtarget)[p];
      && i.IsTest() && Taken(m, i, r) == Taken(m, code[p], r)
      && AfterTest(i, r) == if p + 1 in list then PatchedRegs(code, p + 1, reg, AfterTest(code[p], r))
                            else AfterTest(code[p], r)
  {
    PatchShape(code, list, vtarget, reg, dtarget, p);
  }

  // ---------------------------------------------------------------- runs of a generator state

  /** A run of the generated code from s0, jumps pending to here counted as arrived. */
  function Run(m: Machine, st: St, s0: nat, r: Regs): Out
  {
    Arrive(st.jpc, Exec(st.code, m, s0, |st.code|, r))
  }

  function Arrive(jpc: seq<int>, o: Out): Out { if o.Exit? && o.j in jpc then Fall(o.r) else o }

  ghost predicate Inv(st: St) {
    && -1 <= st.lasttarget <= |st.code|
    && 0 <= st.nactvar <= st.freereg <= st.maxstack
    && (!st.err ==> st.maxstack < MAXSTACK)
    && (st.jpc != [] ==> st.lasttarget == |st.code|)
    && Pending(st.code, st.jpc)
    && (forall j :: j in st.jpc && TestSetJump(st.code, j) ==> st.code[j - 1].a == NO_REG)
    && Labelled(st.code, st.lasttarget)
    && TestsPaired(st.code)
  }

  /** No resolved jump or skip goes beyond the last label, and LOADNIL ranges are not empty. */
  ghost predicate Labelled(code: seq<Instr>, lasttarget: int) {
    forall p :: 0 <= p < |code| ==>
      && (code[p].Jmp? && code[p].sbx != NO_JUMP ==> p + 1 + code[p].sbx <= lasttarget)
      && (code[p].LoadBool? && code[p].skip ==> p + 2 <= lasttarget)
      && (code[p].LoadNil? ==> code[p].a <= code[p].b)
  }

  /** Discharging the jumps pending to here and appending code (luaK_code and condjump). */
  lemma RunEmit(m: Machine, st: St, more: seq<Instr>, s0: nat, r: Regs)
    requires Inv(st) && s0 <= |st.code|
    ensures var n := |st.code|;
      var code' := PatchList(st.code, st.jpc, n, NO_REG, n) + more;
      var o := Run(m, st, s0, r);
      && (o.Fall? ==> Exec(code', m, s0, |code'|, r) == Exec(code', m, n, |code'|, o.r) && Exec(code', m, s0, n, r) == o)
      && (o.Exit? ==> Exec(code', m, s0, |code'|, r) == o && Exec(code', m, s0, n, r) == o)
  {
    var n := |st.code|;
    var code1 := PatchList(st.code, st.jpc, n, NO_REG, n);
    ExecPatch(st.code, st.jpc, n, NO_REG, n, m, s0, n, r);
    ExecAppend(code1, more, m, s0, |code1 + more|, r);
    ExecAppend(code1, more, m, s0, n, r);
  }
}
