/** Running the generated code leaves the value of the source expression where the
    expression descriptor says it is. */
module CodeCorrect {
  import opened CodeMachine
  import opened CodeSpec
  import opened CodeRuns
  import opened CodeMeaning

  // ---------------------------------------------------------------- emitting

  /** The code after jumps pending to here are discharged. */
  function Here(st: St): seq<Instr> { PatchList(st.code, st.jpc, |st.code|, NO_REG, |st.code|) }

  lemma HereShape(st: St)
    requires Inv(st)
    ensures |Here(st)| == |st.code| && Labelled(Here(st), st.lasttarget) && TestsPaired(Here(st))
    ensures forall p :: 0 <= p < |st.code| && p !in st.jpc && !st.code[p].TestSet? ==> Here(st)[p] == st.code[p]
    ensures forall p :: 0 <= p < |st.code| ==> Here(st)[p].IsTest() == st.code[p].IsTest()
    ensures forall p :: 0 <= p < |st.code| && p + 1 !in st.jpc && st.code[p].TestSet? ==> Here(st)[p] == st.code[p]
  {
    forall p | 0 <= p < |st.code|
      ensures Here(st)[p].IsTest() == st.code[p].IsTest()
      ensures p !in st.jpc && !st.code[p].TestSet? ==> Here(st)[p] == st.code[p]
      ensures p in st.jpc ==> Here(st)[p] == Jmp(|st.code| - (p + 1)) && st.lasttarget == |st.code|
      ensures st.code[p].TestSet? ==> Here(st)[p] == st.code[p] || Here(st)[p].IsTest()
      ensures p + 1 !in st.jpc && st.code[p].TestSet? ==> Here(st)[p] == st.code[p]
    {
      PatchShape(st.code, st.jpc, |st.code|, NO_REG, |st.code|, p);
    }
  }

  /** A list apart from the jumps pending to here survives whatever is appended. */
  lemma KeepsList(st: St, more: seq<Instr>, list: seq<int>)
    requires Inv(st) && ValueJumps(st.code, list) && Disjoint(list, st.jpc)
    ensures ValueJumps(Here(st) + more, list)
    ensures forall j :: j in list ==> (Here(st) + more)[j - 1] == st.code[j - 1]
  {
    HereShape(st);
    forall j | j in list
      ensures (Here(st) + more)[j] == Jmp(NO_JUMP) && (Here(st) + more)[j - 1] == st.code[j - 1]
    {
    }
  }

  lemma EmitInv(st: St, i: Instr)
    requires Inv(st) && !i.IsTest() && !i.Jmp? && !(i.LoadBool? && i.skip)
    requires i.LoadNil? ==> i.a <= i.b
    ensures Inv(Emit(st, i))
  {
    HereShape(st);
  }

  // ---------------------------------------------------------------- discharging

  lemma DischargeVarsInv(st: St, e: Exp)
    requires Inv(st) && InvE(st, e)
    ensures var (st', e') := DischargeVars(st, e);
      && Inv(st') && InvE(st', e') && e'.t == e.t && e'.f == e.f
      && !e'.kind.VLocal? && !e'.kind.VGlobal?
      && st'.freereg == st.freereg && st'.nactvar == st.nactvar && st'.k == st.k && st'.err == st.err
      && st'.lasttarget == st.lasttarget && |st.code| <= |st'.code|
      && (e'.kind.VK? || e.kind.VJmp? ==> e' == e && st' == st)
  {
    if e.kind.VGlobal? {
      var i := GetGlobal(0, e.kind.info);
      EmitInv(st, i);
      KeepsList(st, [i], e.t);
      KeepsList(st, [i], e.f);
    }
  }

  lemma DischargeVarsOk(m: Machine, st: St, e: Exp, s0: nat, r0: Regs, o: Out, v: Value, base: int, but: int)
    requires Inv(st) && InvE(st, e) && s0 <= |st.code| && st.k <= m.k
    requires Tracks(m, st, e, s0, r0, o, v, base, but)
    ensures var (st', e') := DischargeVars(st, e); Tracks(m, st', e', s0, r0, o, v, base, but)
  {
    hide Labelled, TestsPaired, Exec;
    if e.kind.VGlobal? {
      RunEmit(m, st, [GetGlobal(0, e.kind.info)], s0, r0);
    }
  }

  // ---------------------------------------------------------------- LOADNIL

  /** When no label lies beyond pre, what follows pre is entered from its end only. */
  lemma {:induction false} ExecSplit(pre: seq<Instr>, tail: seq<Instr>, m: Machine, p: int, r: Regs, mark: int)
    requires 0 <= p <= |pre| && TestsPaired(pre)
    requires Labelled(pre, mark) && mark <= |pre|
    requires !Exec(pre + tail, m, p, |pre + tail|, r).Stuck?
    ensures var o := Exec(pre + tail, m, p, |pre + tail|, r);
      var o1 := Exec(pre, m, p, |pre|, r);
      && !o1.Stuck? && (o1.Exit? ==> o == o1)
      && (o1.Fall? ==> o == Exec(pre + tail, m, |pre|, |pre + tail|, o1.r))
    decreases |pre| - p
  {
    var code := pre + tail;
    if p == |pre| {
    } else if pre[p].IsTest() {
      assert code[p] == pre[p] && code[p + 1] == pre[p + 1];
      if Taken(m, pre[p], r) {
        if pre[p + 1].sbx != NO_JUMP {
          ExecSplit(pre, tail, m, p + 2 + pre[p + 1].sbx, AfterTest(pre[p], r), mark);
        }
      } else {
        ExecSplit(pre, tail, m, p + 2, r, mark);
      }
    } else if pre[p].Jmp? {
      assert code[p] == pre[p];
      if pre[p].sbx != NO_JUMP {
        ExecSplit(pre, tail, m, p + 1 + pre[p].sbx, r, mark);
      }
    } else {
      assert code[p] == pre[p];
      ExecSplit(pre, tail, m, p + Width(pre[p]), Effect(m, pre[p], r), mark);
    }
  }

  /** luaK_nil extends the LOADNIL before it. */
  predicate JoinsNil(st: St, from: int) {
    var n := |st.code|;
    n > st.lasttarget && n > 0 && st.code[n - 1].LoadNil? && st.code[n - 1].a <= from <= st.code[n - 1].b + 1
  }

  lemma LoadNilInv(st: St, from: int)
    requires Inv(st)
    ensures var st' := LoadNilOp(st, from);
      && Inv(st') && st'.freereg == st.freereg && st'.nactvar == st.nactvar && st'.k == st.k && st'.err == st.err
      && |st.code| <= |st'.code| && st'.maxstack == st.maxstack && st'.lasttarget == st.lasttarget
      && (st'.jpc == [] || st'.jpc == st.jpc)
  {
    if !JoinsNil(st, from) {
      EmitInv(st, LoadNil(from, from));
    }
  }

  lemma LoadNilList(st: St, from: int, list: seq<int>)
    requires Inv(st) && ValueJumps(st.code, list) && Disjoint(list, st.jpc)
    ensures ValueJumps(LoadNilOp(st, from).code, list)
    ensures forall j :: j in list ==> LoadNilOp(st, from).code[j - 1] == st.code[j - 1]
  {
    if !JoinsNil(st, from) {
      KeepsList(st, [LoadNil(from, from)], list);
    } else {
      assert |st.code| - 1 !in list && |st.code| !in list;
    }
  }

  lemma JoinNilOk(m: Machine, st: St, from: int, s0: nat, r0: Regs)
    requires Inv(st) && StartsAt(st, s0, r0) && !Run(m, st, s0, r0).Stuck? && JoinsNil(st, from)
    ensures var o, o' := Run(m, st, s0, r0), Run(m, LoadNilOp(st, from), s0, r0);
      && (o.Exit? ==> o' == o)
      && (o.Fall? ==> o'.Fall? && Get(o'.r, from) == Nil && forall i :: i != from ==> Get(o'.r, i) == Get(o.r, i))
  {
    var n := |st.code|;
    var pre, i := st.code[..n - 1], st.code[n - 1];
    assert st.code == pre + [i];
    assert Labelled(pre, st.lasttarget) && TestsPaired(pre);
    ExecSplit(pre, [i], m, s0, r0, st.lasttarget);
    assert forall r :: Exec(st.code, m, n - 1, n, r) == Exec(st.code, m, n, n, Effect(m, i, r));
    if from > i.b {
      var i' := LoadNil(i.a, from);
      var code' := st.code[n - 1 := i'];
      assert code' == pre + [i'];
      ExecAppend(pre, [i'], m, s0, n, r0);
      assert Exec(code', m, n - 1, n, Exec(pre, m, s0, n - 1, r0).r)
        == Exec(code', m, n, n, Effect(m, i', Exec(pre, m, s0, n - 1, r0).r));
    }
  }

  lemma LoadNilOk(m: Machine, st: St, from: int, s0: nat, r0: Regs)
    requires Inv(st) && StartsAt(st, s0, r0) && !Run(m, st, s0, r0).Stuck?
    ensures var o, o' := Run(m, st, s0, r0), Run(m, LoadNilOp(st, from), s0, r0);
      && (o.Exit? ==> o' == o)
      && (o.Fall? ==> o'.Fall? && Get(o'.r, from) == Nil && forall i :: i != from ==> Get(o'.r, i) == Get(o.r, i))
  {
    var n := |st.code|;
    if n > st.lasttarget && n == 0 && from >= st.nactvar {
    } else if JoinsNil(st, from) {
      JoinNilOk(m, st, from, s0, r0);
    } else {
      RunEmit(m, st, [LoadNil(from, from)], s0, r0);
    }
  }

  // ---------------------------------------------------------------- into a register

  /** A step that keeps the lists and carries the fall-through value on. */
  lemma TracksStep(m: Machine, st: St, e: Exp, st': St, e': Exp, s0: nat, r0: Regs, o: Out, v: Value, base: int, but: int)
    requires e'.t == e.t && e'.f == e.f
    requires e.kind.VJmp? ==> e'.kind == e.kind
    requires e'.kind.VJmp? ==> e'.kind == e.kind
    requires TestsKept(st.code, st'.code, e.t) && TestsKept(st.code, st'.code, e.f)
    requires var o1, o2 := ValueRun(m, st.code, st.jpc, e.kind, s0, r0), ValueRun(m, st'.code, st'.jpc, e'.kind, s0, r0);
      && (o1.Exit? ==> o2 == o1)
      && (o1.Fall? ==> o2.Fall? && Same(o1.r, o2.r, base, but)
                       && (FallValue(m, st.code, st.k, e.kind, o1.r, v) ==> FallValue(m, st'.code, st'.k, e'.kind, o2.r, v)))
    requires Tracks(m, st, e, s0, r0, o, v, base, -1)
    ensures Tracks(m, st', e', s0, r0, o, v, base, but)
  {
  }

  /** Emitting the straight-line instruction i that fills reg. */
  lemma PlaceInv(st: St, e: Exp, i: Instr, reg: int)
    requires Inv(st) && InvE(st, e) && IsTarget(st, reg) && !e.kind.VJmp?
    requires i.Move? || i.LoadK? || (i.LoadBool? && !i.skip)
    ensures Inv(Emit(st, i)) && InvE(Emit(st, i), e.(kind := VNonReloc(reg)))
  {
    EmitInv(st, i);
    KeepsList(st, [i], e.t);
    KeepsList(st, [i], e.f);
  }

  lemma PlaceOk(m: Machine, st: St, e: Exp, i: Instr, reg: int, s0: nat, r0: Regs, o: Out, v: Value, base: int)
    requires Inv(st) && InvE(st, e) && StartsAt(st, s0, r0)
    requires !e.kind.VJmp? && !e.kind.VReloc?
    requires i.Move? || i.LoadK? || (i.LoadBool? && !i.skip)
    requires forall r :: FallValue(m, st.code, st.k, e.kind, r, v) ==> Effect(m, i, r) == r[reg := v]
    requires Tracks(m, st, e, s0, r0, o, v, base, -1)
    ensures Tracks(m, Emit(st, i), e.(kind := VNonReloc(reg)), s0, r0, o, v, base, reg)
  {
    KeepsList(st, [i], e.t);
    KeepsList(st, [i], e.f);
    RunEmit(m, st, [i], s0, r0);
    var o1 := Run(m, st, s0, r0);
    var o2 := Run(m, Emit(st, i), s0, r0);
    if o1.Fall? {
      assert Exec(Emit(st, i).code, m, |st.code|, |st.code| + 1, o1.r) == Fall(Effect(m, i, o1.r));
      assert o2.Fall? && o2.r == Effect(m, i, o1.r);
    }
    TracksStep(m, st, e, Emit(st, i), e.(kind := VNonReloc(reg)), s0, r0, o, v, base, reg);
  }

  lemma PlaceNilInv(st: St, e: Exp, reg: int)
    requires Inv(st) && InvE(st, e) && IsTarget(st, reg) && !e.kind.VJmp?
    ensures Inv(LoadNilOp(st, reg)) && InvE(LoadNilOp(st, reg), e.(kind := VNonReloc(reg)))
  {
    LoadNilInv(st, reg);
    LoadNilList(st, reg, e.t);
    LoadNilList(st, reg, e.f);
  }

  lemma PlaceNilOk(m: Machine, st: St, e: Exp, reg: int, s0: nat, r0: Regs, o: Out, v: Value, base: int)
    requires Inv(st) && InvE(st, e) && StartsAt(st, s0, r0) && e.kind.VNil?
    requires Tracks(m, st, e, s0, r0, o, v, base, -1)
    ensures Tracks(m, LoadNilOp(st, reg), e.(kind := VNonReloc(reg)), s0, r0, o, v, base, reg)
  {
    LoadNilList(st, reg, e.t);
    LoadNilList(st, reg, e.f);
    LoadNilOk(m, st, reg, s0, r0);
    TracksStep(m, st, e, LoadNilOp(st, reg), e.(kind := VNonReloc(reg)), s0, r0, o, v, base, reg);
  }

  lemma RelocateInv(st: St, e: Exp, reg: int)
    requires Inv(st) && InvE(st, e) && IsTarget(st, reg) && e.kind.VReloc?
    ensures Inv(Relocate(st, reg)) && InvE(Relocate(st, reg), e.(kind := VNonReloc(reg)))
  {
    assert |st.code| - 1 !in e.t && |st.code| - 1 !in e.f;
  }

  lemma RelocateRun(m: Machine, st: St, reg: int, s0: nat, r0: Regs)
    requires 0 <= s0 < |st.code| && st.jpc == []
    requires st.code[|st.code| - 1].Not? || st.code[|st.code| - 1].GetGlobal?
    ensures var i := st.code[|st.code| - 1];
      var o1, o2 := Exec(st.code, m, s0, |st.code| - 1, r0), Run(m, Relocate(st, reg), s0, r0);
      && (o1.Exit? ==> o2 == o1)
      && (o1.Fall? ==> o2 == Fall(o1.r[reg := Computed(m, i, o1.r)]))
  {
    var i := |st.code| - 1;
    var pre := st.code[..i];
    var i' := SetA(st.code[i], reg);
    assert st.code == pre + [st.code[i]] && Relocate(st, reg).code == pre + [i'];
    ExecPrefix(pre, [st.code[i]], m, s0, r0);
    ExecAppend(pre, [i'], m, s0, i + 1, r0);
    var o1 := Exec(pre, m, s0, i, r0);
    if o1.Fall? {
      assert Exec(pre + [i'], m, i, i + 1, o1.r) == Fall(Effect(m, i', o1.r));
    }
  }

  lemma RelocateOk(m: Machine, st: St, e: Exp, reg: int, s0: nat, r0: Regs, o: Out, v: Value, base: int)
    requires InvE(st, e) && StartsAt(st, s0, r0) && e.kind.VReloc?
    requires Tracks(m, st, e, s0, r0, o, v, base, -1)
    ensures Tracks(m, Relocate(st, reg), e.(kind := VNonReloc(reg)), s0, r0, o, v, base, reg)
  {
    RelocateRun(m, st, reg, s0, r0);
    TracksStep(m, st, e, Relocate(st, reg), e.(kind := VNonReloc(reg)), s0, r0, o, v, base, reg);
  }

  lemma AddKGrows(st: St, v: Value)
    ensures var (st', i) := AddK(st, v);
      && Grows(st, st') && 0 <= i < |st'.k| && st'.k[i] == v && st' == st.(k := st'.k)
  {
  }

  /** A longer constant table changes nothing. */
  lemma MoreConstants(m: Machine, st: St, k: seq<Value>, e: Exp, s0: nat, r0: Regs, o: Out, v: Value, base: int)
    requires Inv(st) && InvE(st, e) && st.k <= k 
    requires Tracks(m, st, e, s0, r0, o, v, base, -1)
    ensures Inv(st.(k := k)) && InvE(st.(k := k), e)
    ensures Tracks(m, st.(k := k), e, s0, r0, o, v, base, -1)
  {
  }

  lemma DischargeValueGrows(st: St, kind: Kind, reg: int)
    ensures var st' := DischargeValue(st, kind, reg);
      && Grows(st, st') && |st.code| <= |st'.code|
      && st'.freereg == st.freereg && st'.maxstack == st.maxstack && st'.err == st.err
  {
    hide Labelled, TestsPaired, Pending, ValueJumps, Disjoint;
    if kind.VKNum? { AddKGrows(st, Num(kind.n)); }
  }

  lemma Discharge2RegGrows(st: St, e: Exp, reg: int)
    requires Inv(st) && InvE(st, e)
    ensures var st' := Discharge2Reg(st, e, reg).0;
      && Grows(st, st') && |st.code| <= |st'.code|
      && st'.freereg == st.freereg && st'.maxstack == st.maxstack && st'.err == st.err
  {
    hide Labelled, TestsPaired, Pending, ValueJumps, Disjoint, DischargeValue;
    DischargeValueGrows(DischargeVars(st, e).0, DischargeVars(st, e).1.kind, reg);
  }

  lemma Discharge2RegInv(st: St, e: Exp, reg: int)
    requires Inv(st) && InvE(st, e) && IsTarget(st, reg)
    ensures var (st', e') := Discharge2Reg(st, e, reg);
      && Inv(st') && InvE(st', e') && e'.t == e.t && e'.f == e.f
      && (if e.kind.VJmp? then e'.kind == e.kind && st' == st else e'.kind == VNonReloc(reg))
  {
    DischargeVarsInv(st, e);
    var (st1, e1) := DischargeVars(st, e);
    DischargeValueInv(st1, e1, reg);
  }

  lemma DischargeValueInv(st: St, e: Exp, reg: int)
    requires Inv(st) && InvE(st, e) && IsTarget(st, reg) && !e.kind.VGlobal? && !e.kind.VLocal?
    ensures var st' := DischargeValue(st, e.kind, reg);
      && Inv(st')
      && (!e.kind.VJmp? ==> InvE(st', e.(kind := VNonReloc(reg))))
  {
    match e.kind
    case VNil => PlaceNilInv(st, e, reg);
    case VReloc(i) => RelocateInv(st, e, reg);
    case VJmp(_) =>
    case VKNum(n) =>
      AddKGrows(st, Num(n));
      PlaceInv(AddK(st, Num(n)).0, e, LoadK(reg, AddK(st, Num(n)).1), reg);
    case _ => PlaceInv(st, e, ValueLoad(st, e.kind, reg).1, reg);
  }

  lemma NumLoadOk(m: Machine, st: St, e: Exp, reg: int, s0: nat, r0: Regs, o: Out, v: Value, base: int)
    requires Inv(st) && InvE(st, e) && IsTarget(st, reg) && StartsAt(st, s0, r0) && e.kind.VKNum?
    requires DischargeValue(st, e.kind, reg).k <= m.k
    requires Tracks(m, st, e, s0, r0, o, v, base, -1)
    ensures Tracks(m, DischargeValue(st, e.kind, reg), e.(kind := VNonReloc(reg)), s0, r0, o, v, base, reg)
  {
    var (st1, i) := AddK(st, Num(e.kind.n));
    AddKGrows(st, Num(e.kind.n));
    MoreConstants(m, st, st1.k, e, s0, r0, o, v, base);
    PlaceOk(m, st1, e, LoadK(reg, i), reg, s0, r0, o, v, base);
  }

  lemma DischargeValueOk(m: Machine, st: St, e: Exp, reg: int, s0: nat, r0: Regs, o: Out, v: Value, base: int)
    requires Inv(st) && InvE(st, e) && IsTarget(st, reg) && StartsAt(st, s0, r0)
    requires !e.kind.VGlobal? && !e.kind.VLocal? && !e.kind.VJmp?
    requires DischargeValue(st, e.kind, reg).k <= m.k
    requires Tracks(m, st, e, s0, r0, o, v, base, -1)
    ensures Tracks(m, DischargeValue(st, e.kind, reg), e.(kind := VNonReloc(reg)), s0, r0, o, v, base, reg)
  {
    match e.kind
    case VNil => PlaceNilOk(m, st, e, reg, s0, r0, o, v, base);
    case VReloc(i) => RelocateOk(m, st, e, reg, s0, r0, o, v, base);
    case VKNum(n) =>
      NumLoadOk(m, st, e, reg, s0, r0, o, v, base);
    case _ =>
      if e.kind != VNonReloc(reg) {
        PlaceOk(m, st, e, ValueLoad(st, e.kind, reg).1, reg, s0, r0, o, v, base);
      }
  }

  lemma Discharge2RegOk(m: Machine, st: St, e: Exp, reg: int, s0: nat, r0: Regs, o: Out, v: Value, base: int)
    requires Inv(st) && InvE(st, e) && IsTarget(st, reg) && StartsAt(st, s0, r0)
    requires Discharge2Reg(st, e, reg).0.k <= m.k
    requires Tracks(m, st, e, s0, r0, o, v, base, -1)
    ensures var (st', e') := Discharge2Reg(st, e, reg); Tracks(m, st', e', s0, r0, o, v, base, reg)
  {
    hide Labelled, TestsPaired, Pending, ValueJumps, Disjoint, TestsKept, Exec, DischargeVars, ValueLoad, Relocate, LoadNilOp, Emit, Tracks;
    DischargeVarsInv(st, e);
    Discharge2RegGrows(st, e, reg);
    DischargeVarsOk(m, st, e, s0, r0, o, v, base, -1);
    var (st1, e1) := DischargeVars(st, e);
    if !e1.kind.VJmp? {
      DischargeValueOk(m, st1, e1, reg, s0, r0, o, v, base);
    } else {
      TracksBut(m, st1, e1, s0, r0, o, v, base, reg);
    }
  }

  lemma TracksBut(m: Machine, st: St, e: Exp, s0: nat, r0: Regs, o: Out, v: Value, base: int, but: int)
    requires Tracks(m, st, e, s0, r0, o, v, base, -1)
    ensures Tracks(m, st, e, s0, r0, o, v, base, but)
  {
  }

  // ---------------------------------------------------------------- closing the jump lists

  lemma PatchNothing(code: seq<Instr>, vtarget: int, reg: int, dtarget: int)
    ensures PatchList(code, [], vtarget, reg, dtarget) == code
  {
  }

  lemma LoadBoolsCode(st: St, e: Exp, reg: int)
    requires Inv(st) && (e.kind.VJmp? ==> st.jpc == [])
    ensures var st1 := LoadBools(st, e, reg);
      && st1.code == (st.code + if e.kind.VJmp? then [] else [Jmp(NO_JUMP)])
                     + [LoadBool(reg, false, true), LoadBool(reg, true, false)]
      && st1 == st.(code := st1.code, lasttarget := |st1.code|, jpc := if e.kind.VJmp? then [] else [|st.code|] + st.jpc)
  {
    var st1 := if e.kind.VJmp? then st else PlainJump(st).0;
    PatchNothing(st1.code, |st1.code|, NO_REG, |st1.code|);
    var st2 := Emit(GetLabel(st1), LoadBool(reg, false, true));
    PatchNothing(st2.code, |st2.code|, NO_REG, |st2.code|);
    assert st1.code + [LoadBool(reg, false, true)] + [LoadBool(reg, true, false)]
      == st1.code + [LoadBool(reg, false, true), LoadBool(reg, true, false)];
  }

  lemma LoadBoolsRun(m: Machine, st: St, e: Exp, reg: int, s0: nat, r0: Regs)
    requires Inv(st) && s0 <= |st.code| && (e.kind.VJmp? ==> st.jpc == [])
    ensures var o, o' := Run(m, st, s0, r0), Run(m, LoadBools(st, e, reg), s0, r0);
      && (o.Exit? ==> o' == o)
      && (o.Fall? ==> o' == Fall(if e.kind.VJmp? then o.r[reg := Bool(false)] else o.r))
  {
    LoadBoolsCode(st, e, reg);
    var n := |st.code|;
    var code := LoadBools(st, e, reg).code;
    var more := (if e.kind.VJmp? then [] else [Jmp(NO_JUMP)]) + [LoadBool(reg, false, true), LoadBool(reg, true, false)];
    assert code == st.code + more;
    ExecAppend(st.code, more, m, s0, |code|, r0);
    ExitsWithin(st.code, m, s0, n, r0);
    var o := Exec(st.code, m, s0, n, r0);
    if o.Fall? {
      LoadBoolsTail(m, st.code, e.kind.VJmp?, reg, o.r);
    }
  }

  lemma LoadBoolsTail(m: Machine, code: seq<Instr>, isJmp: bool, reg: int, r: Regs)
    requires TestsPaired(code)
    ensures var n := |code|;
      var code' := code + ((if isJmp then [] else [Jmp(NO_JUMP)]) + [LoadBool(reg, false, true), LoadBool(reg, true, false)]);
      Exec(code', m, n, |code'|, r) == if isJmp then Fall(r[reg := Bool(false)]) else Exit(n, r)
  {
    var n := |code|;
    if !isJmp { assert n > 0 ==> !code[n - 1].IsTest(); }
  }

  /** The registers after a closed jump. */
  function ClosedRegs(code: seq<Instr>, j: int, reg: int, b: bool, r: Regs): Regs {
    if TestSetJump(code, j) then PatchedRegs(code, j, reg, r) else r[reg := Bool(b)]
  }

  lemma CloseListRun(m: Machine, st: St, list: seq<int>, reg: int, dt: int, b: bool, s0: nat, r0: Regs)
    requires s0 <= |st.code| && 0 <= reg < NO_REG
    requires Closable(st, list, reg, dt, b)
    ensures var o := Run(m, st, s0, r0);
      var o' := Run(m, st.(code := PatchList(st.code, list, |st.code|, reg, dt)), s0, r0);
      && (o.Fall? ==> o' == o)
      && (o.Exit? ==> o' == if o.j in list then Fall(ClosedRegs(st.code, o.j, reg, b, o.r)) else o)
  {
    var n := |st.code|;
    var code' := PatchList(st.code, list, n, reg, dt);
    assert Patchable(st.code, list, n, dt, n);
    ExecPatch(st.code, list, n, reg, dt, m, s0, n, r0);
    var o := Exec(st.code, m, s0, n, r0);
    if o.Exit? && o.j in list && !TestSetJump(st.code, o.j) {
      PatchShape(st.code, list, n, reg, dt, dt);
      assert code'[dt] == st.code[dt];
      assert Exec(code', m, dt, n, o.r) == Exec(code', m, n, n, o.r[reg := Bool(b)]);
    }
  }

  lemma ClosedValue(code: seq<Instr>, j: int, reg: int, b: bool, r: Regs, v: Value, r1: Regs, base: int)
    requires JumpValue(code, j, r, v, b) && Same(r1, r, base, reg) && reg != NO_REG
    ensures var r' := ClosedRegs(code, j, reg, b, r); Get(r', reg) == v && Same(r1, r', base, reg)
  {
  }

  /** A list apart from the one patched keeps its jumps and its tests. */
  lemma PatchKeepsList(code: seq<Instr>, list: seq<int>, vtarget: int, reg: int, dtarget: int, other: seq<int>)
    requires ValueJumps(code, list) && ValueJumps(code, other) && Disjoint(list, other)
    ensures var code' := PatchList(code, list, vtarget, reg, dtarget);
      ValueJumps(code', other) && forall j :: j in other ==> code'[j - 1] == code[j - 1]
  {
    var code' := PatchList(code, list, vtarget, reg, dtarget);
    forall j | j in other ensures code'[j] == code[j] && code'[j - 1] == code[j - 1] {
      PatchShape(code, list, vtarget, reg, dtarget, j);
      PatchShape(code, list, vtarget, reg, dtarget, j - 1);
    }
  }

  /** exp2reg closes both lists: false first, then true. */
  lemma CloseBothRun(m: Machine, st: St, e: Exp, reg: int, pf: int, pt: int, s0: nat, r0: Regs, o: Out, v: Value, base: int)
    requires s0 <= |st.code| && 0 <= reg < NO_REG
    requires Closable(st, e.f, reg, pf, false) && Closable(st, e.t, reg, pt, true) && Disjoint(e.t, e.f)
    requires AtLists(m, st, e, s0, r0, o, v, base, reg)
    ensures Delivers(m, CloseBoth(st, e, reg, pf, pt), s0, r0, o, v, base, reg)
  {
    var code1 := PatchList(st.code, e.f, |st.code|, reg, pf);
    var st1 := st.(code := code1);
    var r1 := if o.Stuck? then r0 else o.r;
    CloseListRun(m, st, e.f, reg, pf, false, s0, r0);
    PatchKeepsList(st.code, e.f, |st.code|, reg, pf, e.t);
    if 0 <= pt < |st.code| && st.code[pt].LoadBool? {
      PatchShape(st.code, e.f, |st.code|, reg, pf, pt);
    }
    assert Closable(st1, e.t, reg, pt, true);
    CloseListRun(m, st1, e.t, reg, pt, true, s0, r0);
    var o1 := Run(m, st, s0, r0);
    if o.Fall? && o1.Exit? {
      if o1.j in e.t {
        assert JumpValue(code1, o1.j, o1.r, v, true);
        ClosedValue(code1, o1.j, reg, true, o1.r, v, r1, base);
      } else {
        ClosedValue(st.code, o1.j, reg, false, o1.r, v, r1, base);
      }
    }
  }

  lemma LoadBoolsList(st: St, e: Exp, reg: int, list: seq<int>)
    requires Inv(st) && (e.kind.VJmp? ==> st.jpc == [])
    requires ValueJumps(st.code, list) && Disjoint(list, st.jpc)
    ensures var st1 := LoadBools(st, e, reg);
      && ValueJumps(st1.code, list) && Disjoint(list, st1.jpc)
      && (forall j :: j in list ==> st1.code[j - 1] == st.code[j - 1] && j < |st1.code| - 2)
  {
    LoadBoolsCode(st, e, reg);
  }

  /** A VJmp's jump has joined the true list. */
  lemma JoinJmpInv(st: St, e: Exp)
    requires InvE(st, e)
    ensures var e' := JoinJmp(e);
      && ValueJumps(st.code, e'.t) && ValueJumps(st.code, e'.f) && Disjoint(e'.t, e'.f)
      && Disjoint(e'.t, st.jpc) && Disjoint(e'.f, st.jpc)
      && (e.kind.VJmp? ==> st.jpc == [] && NeedValue(st.code, e'.t))
  {
    if e.kind.VJmp? {
      assert e.kind.info in JoinJmp(e).t && !TestSetJump(st.code, e.kind.info);
    }
  }

  lemma LoadsClosable(st: St, e: Exp, reg: int, list: seq<int>)
    requires Inv(st) && (e.kind.VJmp? ==> st.jpc == [])
    requires ValueJumps(st.code, list) && Disjoint(list, st.jpc)
    ensures var st1 := LoadBools(st, e, reg);
      && 2 <= |st1.code| && Closable(st1, list, reg, |st1.code| - 2, false) && Closable(st1, list, reg, |st1.code| - 1, true)
  {
    hide Labelled, TestsPaired, LoadBools, PatchList;
    LoadBoolsCode(st, e, reg);
    LoadBoolsList(st, e, reg, list);
  }

  lemma AtListsStep(m: Machine, st: St, st1: St, e: Exp, reg: int, s0: nat, r0: Regs, o: Out, v: Value, base: int)
    requires (e.kind == VNonReloc(reg) || e.kind.VJmp?)
    requires e.kind.VJmp? ==> !TestSetJump(st.code, e.kind.info)
    requires TestsKept(st.code, st1.code, JoinJmp(e).t) && TestsKept(st.code, st1.code, e.f)
    requires var o1, o2 := Run(m, st, s0, r0), Run(m, st1, s0, r0);
      && (o1.Exit? ==> o2 == o1)
      && (o1.Fall? ==> o2 == Fall(if e.kind.VJmp? then o1.r[reg := Bool(false)] else o1.r))
    requires Tracks(m, st, e, s0, r0, o, v, base, reg)
    ensures AtLists(m, st1, JoinJmp(e), s0, r0, o, v, base, reg)
  {
  }

  lemma AtListsAfterLoads(m: Machine, st: St, e: Exp, reg: int, s0: nat, r0: Regs, o: Out, v: Value, base: int)
    requires Inv(st) && InvE(st, e) && StartsAt(st, s0, r0)
    requires e.kind == VNonReloc(reg) || e.kind.VJmp?
    requires Tracks(m, st, e, s0, r0, o, v, base, reg)
    ensures AtLists(m, LoadBools(st, JoinJmp(e), reg), JoinJmp(e), s0, r0, o, v, base, reg)
  {
    var e1 := JoinJmp(e);
    JoinJmpInv(st, e);
    LoadBoolsRun(m, st, e1, reg, s0, r0);
    LoadBoolsList(st, e1, reg, e1.t);
    LoadBoolsList(st, e1, reg, e1.f);
    AtListsStep(m, st, LoadBools(st, e1, reg), e, reg, s0, r0, o, v, base);
  }

  lemma CloseWithLoads(m: Machine, st: St, e: Exp, reg: int, s0: nat, r0: Regs, o: Out, v: Value, base: int)
    requires Inv(st) && InvE(st, e) && StartsAt(st, s0, r0) && 0 <= reg < NO_REG
    requires e.kind == VNonReloc(reg) || e.kind.VJmp?
    requires Tracks(m, st, e, s0, r0, o, v, base, reg)
    ensures var e1 := JoinJmp(e);
      var st1 := LoadBools(st, e1, reg);
      Delivers(m, CloseBoth(st1, e1, reg, |st1.code| - 2, |st1.code| - 1), s0, r0, o, v, base, reg)
  {
    hide Labelled, TestsPaired, Pending, Exec, ValueJumps, LoadBools, CloseBoth, AtLists, Delivers, Closable;
    var e1 := JoinJmp(e);
    JoinJmpInv(st, e);
    AtListsAfterLoads(m, st, e, reg, s0, r0, o, v, base);
    LoadsClosable(st, e1, reg, e1.t);
    LoadsClosable(st, e1, reg, e1.f);
    LoadBoolsCode(st, e1, reg);
    var st1 := LoadBools(st, e1, reg);
    CloseBothRun(m, st1, e1, reg, |st1.code| - 2, |st1.code| - 1, s0, r0, o, v, base);
  }

  lemma CloseJumpsOk(m: Machine, st: St, e: Exp, reg: int, s0: nat, r0: Regs, o: Out, v: Value, base: int)
    requires Inv(st) && InvE(st, e) && StartsAt(st, s0, r0) && 0 <= reg < NO_REG
    requires e.kind == VNonReloc(reg) || e.kind.VJmp?
    requires Tracks(m, st, e, s0, r0, o, v, base, reg)
    ensures Delivers(m, CloseJumps(st, JoinJmp(e), reg), s0, r0, o, v, base, reg)
  {
    var e1 := JoinJmp(e);
    JoinJmpInv(st, e);
    if HasJumps(e1) {
      if NeedValue(st.code, e1.t) || NeedValue(st.code, e1.f) {
        CloseWithLoads(m, st, e, reg, s0, r0, o, v, base);
      } else {
        CloseBothRun(m, st, e1, reg, NO_JUMP, NO_JUMP, s0, r0, o, v, base);
      }
    }
  }

  // ---------------------------------------------------------------- lists of enclosing expressions

  lemma DischargeVarsKeeps(st: St, e: Exp, list: seq<int>)
    requires Inv(st) && InvE(st, e) && Safe(st, e, list)
    ensures var (st', e') := DischargeVars(st, e);
      Safe(st', e', list) && TestsKept(st.code, st'.code, list)
  {
    if e.kind.VGlobal? { KeepsList(st, [GetGlobal(0, e.kind.info)], list); }
  }

  lemma RelocateKeeps(st: St, e: Exp, reg: int, list: seq<int>)
    requires Inv(st) && InvE(st, e) && Safe(st, e, list) && e.kind.VReloc?
    ensures Safe(Relocate(st, reg), e, list) && TestsKept(st.code, Relocate(st, reg).code, list)
  {
    hide Labelled, TestsPaired;
    assert |st.code| - 1 !in list && |st.code| !in list;
  }

  lemma LoadNilKeeps(st: St, e: Exp, reg: int, list: seq<int>)
    requires Inv(st) && Safe(st, e, list)
    ensures Safe(LoadNilOp(st, reg), e, list) && TestsKept(st.code, LoadNilOp(st, reg).code, list)
  {
    hide Labelled, TestsPaired, LoadNilOp, Inv;
    LoadNilInv(st, reg);
    LoadNilList(st, reg, list);
  }

  lemma DischargeValueKeeps(st: St, e: Exp, reg: int, list: seq<int>)
    requires Inv(st) && InvE(st, e) && Safe(st, e, list)
    ensures var st' := DischargeValue(st, e.kind, reg);
      Safe(st', e, list) && TestsKept(st.code, st'.code, list)
  {
    hide Labelled, TestsPaired, Pending, ValueJumps, TestsKept, Relocate, LoadNilOp, Emit;
    match e.kind
    case VNil => LoadNilKeeps(st, e, reg, list);
    case VReloc(i) => RelocateKeeps(st, e, reg, list);
    case VJmp(_) => SparesSelf(st, e, list);
    case _ =>
      var (st1, i) := ValueLoad(st, e.kind, reg);
      EmitKeeps(st1, i, list);
      SparesSelf(st, e, list);
  }

  lemma Discharge2RegKeeps(st: St, e: Exp, reg: int, list: seq<int>)
    requires Inv(st) && InvE(st, e) && Safe(st, e, list)
    ensures var (st', e') := Discharge2Reg(st, e, reg);
      Safe(st', e', list) && TestsKept(st.code, st'.code, list)
  {
    DischargeVarsInv(st, e);
    DischargeVarsKeeps(st, e, list);
    var (st1, e1) := DischargeVars(st, e);
    DischargeValueKeeps(st1, e1, reg, list);
  }

  /** Closing a list at the end of the code keeps the state in order. */
  lemma PatchInv(st: St, list: seq<int>, reg: int, dt: int, b: bool)
    requires Inv(st) && Closable(st, list, reg, dt, b) && st.lasttarget == |st.code|
    ensures Inv(st.(code := PatchList(st.code, list, |st.code|, reg, dt)))
  {
    hide Labelled, TestsPaired, PatchList;
    var n := |st.code|;
    var code' := PatchList(st.code, list, n, reg, dt);
    PatchCodeInv(st.code, list, n, reg, dt);
    PatchSameControls(st.code, list, n, reg, dt, st.jpc);
  }

  lemma PatchSameControls(code: seq<Instr>, list: seq<int>, vtarget: int, reg: int, dtarget: int, other: seq<int>)
    requires Pending(code, list) && Pending(code, other) && Disjoint(list, other)
    ensures var code' := PatchList(code, list, vtarget, reg, dtarget);
      && |code'| == |code| && Pending(code', other)
      && forall j :: j in other && TestSetJump(code', j) ==> TestSetJump(code, j) && code'[j - 1] == code[j - 1]
  {
  }

  lemma PatchCodeInv(code: seq<Instr>, list: seq<int>, n: int, reg: int, dt: int)
    requires n == |code| && Labelled(code, n) && TestsPaired(code) && Pending(code, list)
    requires forall j :: j in list ==> PatchedDest(code, j, n, dt) <= n
    requires forall j :: j in list ==> Controlled(code, j)
    ensures var code' := PatchList(code, list, n, reg, dt); Labelled(code', n) && TestsPaired(code')
  {
    var code' := PatchList(code, list, n, reg, dt);
    forall p | 0 <= p < n
      ensures code'[p].IsTest() == code[p].IsTest() && (code[p].Jmp? ==> code'[p].Jmp?)
      ensures p !in list && !code[p].TestSet? ==> code'[p] == code[p]
      ensures p in list ==> code'[p].Jmp? && p + 1 + code'[p].sbx <= n
      ensures code[p].TestSet? ==> code'[p] == (if p + 1 in list then PatchedTest(code[p], reg) else code[p])
    {
      PatchShape(code, list, n, reg, dt, p);
    }
  }

  lemma LoadBoolsInv(st: St, e: Exp, reg: int)
    requires Inv(st) && (e.kind.VJmp? ==> st.jpc == [])
    ensures var st' := LoadBools(st, e, reg);
      && Inv(st') && st'.lasttarget == |st'.code| && |st.code| + 2 <= |st'.code|
      && st' == st.(code := st'.code, jpc := st'.jpc, lasttarget := st'.lasttarget)
  {
    LoadBoolsCode(st, e, reg);
    LoadsShape(st.code, (if e.kind.VJmp? then [] else [Jmp(NO_JUMP)]), reg, st.lasttarget);
    LoadBoolsJpc(st, e, reg);
  }

  lemma LoadsShape(code: seq<Instr>, over: seq<Instr>, reg: int, lasttarget: int)
    requires Labelled(code, lasttarget) && TestsPaired(code) && lasttarget <= |code|
    requires over == [] || over == [Jmp(NO_JUMP)]
    ensures var code' := code + over + [LoadBool(reg, false, true), LoadBool(reg, true, false)];
      Labelled(code', |code'|) && TestsPaired(code')
  {
  }

  lemma LoadBoolsJpc(st: St, e: Exp, reg: int)
    requires Inv(st) && (e.kind.VJmp? ==> st.jpc == [])
    ensures var st' := LoadBools(st, e, reg);
      Pending(st'.code, st'.jpc) && forall j :: j in st'.jpc && TestSetJump(st'.code, j) ==> st'.code[j - 1].a == NO_REG
  {
    LoadBoolsCode(st, e, reg);
  }

  lemma CloseBothInv(st: St, e: Exp, reg: int, pf: int, pt: int)
    requires Inv(st) && Disjoint(e.t, e.f)
    requires Closable(st, e.f, reg, pf, false) && Closable(st, e.t, reg, pt, true)
    ensures var st' := CloseBoth(st, e, reg, pf, pt);
      && Inv(st') && |st'.code| == |st.code| && st' == st.(code := st'.code, lasttarget := |st.code|)
  {
    var st0 := GetLabel(st);
    var code1 := PatchList(st.code, e.f, |st.code|, reg, pf);
    PatchInv(st0, e.f, reg, pf, false);
    PatchKeepsList(st.code, e.f, |st.code|, reg, pf, e.t);
    if 0 <= pt < |st.code| && st.code[pt].LoadBool? {
      PatchShape(st.code, e.f, |st.code|, reg, pf, pt);
    }
    PatchInv(st0.(code := code1), e.t, reg, pt, true);
  }

  lemma CloseJumpsInv(st: St, e: Exp, reg: int)
    requires Inv(st) && InvE(st, e) && (e.kind == VNonReloc(reg) || e.kind.VJmp?)
    ensures var st' := CloseJumps(st, JoinJmp(e), reg);
      && Inv(st') && |st.code| <= |st'.code| && st.lasttarget <= st'.lasttarget
      && st' == st.(code := st'.code, jpc := st'.jpc, lasttarget := st'.lasttarget)
  {
    hide Labelled, TestsPaired, Pending, ValueJumps, Disjoint, TestsKept, Exec, LoadBools, CloseBoth;
    var e1 := JoinJmp(e);
    JoinJmpInv(st, e);
    if !HasJumps(e1) {
    } else if NeedValue(st.code, e1.t) || NeedValue(st.code, e1.f) {
      LoadBoolsInv(st, e1, reg);
      LoadsClosable(st, e1, reg, e1.t);
      LoadsClosable(st, e1, reg, e1.f);
      var st1 := LoadBools(st, e1, reg);
      CloseBothInv(st1, e1, reg, |st1.code| - 2, |st1.code| - 1);
    } else {
      CloseBothInv(st, e1, reg, NO_JUMP, NO_JUMP);
    }
  }

  lemma CloseBothKeeps(st: St, e: Exp, reg: int, pf: int, pt: int, list: seq<int>)
    requires ValueJumps(st.code, e.t) && ValueJumps(st.code, e.f) && ValueJumps(st.code, list)
    requires Disjoint(e.f, e.t) && Disjoint(e.f, list) && Disjoint(e.t, list)
    ensures var st' := CloseBoth(st, e, reg, pf, pt);
      ValueJumps(st'.code, list) && TestsKept(st.code, st'.code, list)
  {
    var n := |st.code|;
    PatchKeepsList(st.code, e.f, n, reg, pf, list);
    PatchKeepsList(st.code, e.f, n, reg, pf, e.t);
    PatchKeepsList(PatchList(st.code, e.f, n, reg, pf), e.t, n, reg, pt, list);
  }

  lemma JoinJmpSafe(st: St, e: Exp, list: seq<int>)
    requires InvE(st, e) && Safe(st, e, list)
    ensures Disjoint(JoinJmp(e).t, list) && Disjoint(JoinJmp(e).f, list)
    ensures Disjoint(JoinJmp(e).f, JoinJmp(e).t)
  {
  }

  lemma CloseLoadsKeeps(st: St, e: Exp, reg: int, list: seq<int>)
    requires Inv(st) && (e.kind.VJmp? ==> st.jpc == [])
    requires ValueJumps(st.code, e.t) && Disjoint(e.t, st.jpc)
    requires ValueJumps(st.code, e.f) && Disjoint(e.f, st.jpc)
    requires ValueJumps(st.code, list) && Disjoint(list, st.jpc)
    requires Disjoint(e.f, e.t) && Disjoint(e.f, list) && Disjoint(e.t, list)
    ensures var st1 := LoadBools(st, e, reg);
      var st' := CloseBoth(st1, e, reg, |st1.code| - 2, |st1.code| - 1);
      ValueJumps(st'.code, list) && Disjoint(list, st'.jpc) && TestsKept(st.code, st'.code, list)
  {
    LoadBoolsList(st, e, reg, e.t);
    LoadBoolsList(st, e, reg, e.f);
    LoadBoolsList(st, e, reg, list);
    var st1 := LoadBools(st, e, reg);
    CloseBothKeeps(st1, e, reg, |st1.code| - 2, |st1.code| - 1, list);
    assert TestsKept(st.code, st1.code, list);
  }

  lemma CloseJumpsKeeps(st: St, e: Exp, reg: int, list: seq<int>)
    requires Inv(st) && InvE(st, e) && (e.kind == VNonReloc(reg) || e.kind.VJmp?) && Safe(st, e, list)
    ensures var st' := CloseJumps(st, JoinJmp(e), reg);
      ValueJumps(st'.code, list) && Disjoint(list, st'.jpc) && TestsKept(st.code, st'.code, list)
  {
    var e1 := JoinJmp(e);
    JoinJmpInv(st, e);
    JoinJmpSafe(st, e, list);
    if HasJumps(e1) {
      if NeedValue(st.code, e1.t) || NeedValue(st.code, e1.f) {
        CloseLoadsKeeps(st, e1, reg, list);
      } else {
        CloseBothKeeps(st, e1, reg, NO_JUMP, NO_JUMP, list);
      }
    }
  }

  // ---------------------------------------------------------------- exp2reg and its callers

  lemma SparesTrans(st: St, st1: St, st2: St, e1: Exp, e2: Exp, list: seq<int>)
    requires Spares(st, st1, e1, list) && Spares(st1, st2, e2, list)
    ensures Spares(st, st2, e2, list)
  {
  }

  lemma Exp2RegInv(st: St, e: Exp, reg: int, list: seq<int>)
    requires Inv(st) && InvE(st, e) && IsTarget(st, reg) && Safe(st, e, list)
    ensures var (st', e') := Exp2Reg(st, e, reg);
      && Inv(st') && InvE(st', e') && Grows(st, st') && Spares(st, st', e', list)
      && |st.code| <= |st'.code| && st'.freereg == st.freereg && st'.err == st.err
  {
    var (st1, e1) := Discharge2Reg(st, e, reg);
    Discharge2RegGrows(st, e, reg);
    Discharge2RegInv(st, e, reg);
    Discharge2RegKeeps(st, e, reg, list);
    CloseJumpsInv(st1, e1, reg);
    CloseJumpsKeeps(st1, e1, reg, list);
  }

  /** The value of the expression arrives in reg, a local variable or the top register. */
  lemma Exp2RegOk(m: Machine, st: St, e: Exp, reg: int, s0: nat, r0: Regs, o: Out, v: Value, base: int)
    requires Inv(st) && InvE(st, e) && IsTarget(st, reg) && StartsAt(st, s0, r0)
    requires reg < NO_REG && Exp2Reg(st, e, reg).0.k <= m.k
    requires Tracks(m, st, e, s0, r0, o, v, base, -1)
    ensures Delivers(m, Exp2Reg(st, e, reg).0, s0, r0, o, v, base, reg)
  {
    var (st1, e1) := Discharge2Reg(st, e, reg);
    Discharge2RegGrows(st, e, reg);
    Discharge2RegInv(st, e, reg);
    CloseJumpsInv(st1, e1, reg);
    Discharge2RegOk(m, st, e, reg, s0, r0, o, v, base);
    CloseJumpsOk(m, st1, e1, reg, s0, r0, o, v, base);
  }

  lemma DischargeVarsSim(m: Machine, st: St, e: Exp, s0: nat, r0: Regs, o: Out, v: Value, base: int, list: seq<int>)
    requires Sim(m, st, e, s0, r0, o, v, base) && Safe(st, e, list) && st.k <= m.k
    ensures var (st', e') := DischargeVars(st, e);
      && Sim(m, st', e', s0, r0, o, v, base) && Spares(st, st', e', list) && Grows(st, st')
      && !e'.kind.VLocal? && !e'.kind.VGlobal?
  {
    DischargeVarsInv(st, e);
    DischargeVarsKeeps(st, e, list);
    DischargeVarsOk(m, st, e, s0, r0, o, v, base, -1);
  }

  /** Filling the top register. */
  lemma TopRegSim(m: Machine, st: St, e: Exp, s0: nat, r0: Regs, o: Out, v: Value, base: int, list: seq<int>)
    requires Inv(st) && InvE(st, e) && StartsAt(st, s0, r0) && Safe(st, e, list)
    requires st.nactvar <= base == st.freereg - 1 && Tracks(m, st, e, s0, r0, o, v, base, -1)
    requires var st' := Exp2Reg(st, e, base).0; !st'.err && st'.k <= m.k
    ensures var (st', e') := Exp2Reg(st, e, base);
      && Sim(m, st', e', s0, r0, o, v, base) && Spares(st, st', e', list) && Grows(st, st')
      && !HasJumps(e') && e'.kind == VNonReloc(base)
  {
    hide Labelled, TestsPaired, Pending, ValueJumps, Disjoint, TestsKept, Exec, Discharge2Reg, CloseJumps;
    Exp2RegInv(st, e, base, list);
    Exp2RegOk(m, st, e, base, s0, r0, o, v, base);
  }

  /** Reserving the top register in place of the one the expression held. */
  lemma ReserveInv(st: St, e: Exp, list: seq<int>)
    requires Inv(st) && InvE(st, e) && Safe(st, e, list)
    ensures var st2 := ReserveReg(FreeExp(st, e));
      && Inv(st2) && InvE(st2, e) && Safe(st2, e, list) && Grows(st, st2) && IsTarget(st2, st2.freereg - 1)
      && st2.freereg == FreeExp(st, e).freereg + 1 && st2.code == st.code && st2.jpc == st.jpc && st2.k == st.k
  {
  }

  lemma ReserveTracks(m: Machine, st: St, e: Exp, s0: nat, r0: Regs, o: Out, v: Value, base: int)
    requires StartsAt(st, s0, r0) && Tracks(m, st, e, s0, r0, o, v, base, -1)
    ensures var st2 := ReserveReg(FreeExp(st, e));
      StartsAt(st2, s0, r0) && Tracks(m, st2, e, s0, r0, o, v, base, -1)
  {
  }

  lemma Exp2TopRegInv(st: St, e: Exp, list: seq<int>)
    requires Inv(st) && InvE(st, e) && Safe(st, e, list) && IsTarget(st, st.freereg - 1)
    ensures var (st', e') := Exp2TopReg(st, e);
      Inv(st') && InvE(st', e') && Grows(st, st')
  {
    hide Labelled, TestsPaired, Pending, ValueJumps, Disjoint, TestsKept, Exec, Exp2Reg;
    Exp2RegInv(st, e, st.freereg - 1, list);
  }

  lemma Exp2NextRegInv(st: St, e: Exp, list: seq<int>)
    requires Inv(st) && InvE(st, e) && Safe(st, e, list)
    ensures var (st', e') := Exp2NextReg(st, e);
      Inv(st') && InvE(st', e') && Grows(st, st')
  {
    hide Labelled, TestsPaired, Pending, ValueJumps, Disjoint, TestsKept, Exec, Exp2TopReg, DischargeVars;
    var (st1, e1) := DischargeVars(st, e);
    assert Inv(st1) && InvE(st1, e1) && Grows(st, st1) && Safe(st1, e1, list) by {
      DischargeVarsInv(st, e);
      DischargeVarsKeeps(st, e, list);
    }
    ReserveInv(st1, e1, list);
    Exp2TopRegInv(ReserveReg(FreeExp(st1, e1)), e1, list);
  }

  lemma Exp2NextRegSim(m: Machine, st: St, e: Exp, s0: nat, r0: Regs, o: Out, v: Value, base: int, list: seq<int>)
    requires Sim(m, st, e, s0, r0, o, v, base) && Safe(st, e, list)
    requires var st' := Exp2NextReg(st, e).0; !st'.err && st'.k <= m.k
    ensures var (st', e') := Exp2NextReg(st, e);
      && Sim(m, st', e', s0, r0, o, v, base) && Spares(st, st', e', list) && Grows(st, st')
      && !HasJumps(e') && e'.kind == VNonReloc(base)
  {
    hide Labelled, TestsPaired, Pending, ValueJumps, Disjoint, TestsKept, Exec, Exp2Reg, DischargeVars, Tracks;
    Exp2NextRegInv(st, e, list);
    DischargeVarsSim(m, st, e, s0, r0, o, v, base, list);
    var (st1, e1) := DischargeVars(st, e);
    ReserveInv(st1, e1, list);
    ReserveTracks(m, st1, e1, s0, r0, o, v, base);
    var st2 := ReserveReg(FreeExp(st1, e1));
    TopRegSim(m, st2, e1, s0, r0, o, v, base, list);
    var (st3, e3) := Exp2Reg(st2, e1, base);
    assert TestsKept(st1.code, st2.code, list) by { ReserveKeeps(st1, e1, list); }
    SparesTrans(st1, st2, st3, e1, e3, list);
    SparesTrans(st, st1, st3, e1, e3, list);
  }

  lemma SafeEmpty(st: St, e: Exp)
    ensures Safe(st, e, [])
  {
  }

  lemma ReserveKeeps(st: St, e: Exp, list: seq<int>)
    ensures TestsKept(st.code, ReserveReg(FreeExp(st, e)).code, list)
  {
  }

  lemma Exp2AnyRegInv(st: St, e: Exp, list: seq<int>)
    requires Inv(st) && InvE(st, e) && Safe(st, e, list)
    ensures var (st', e') := Exp2AnyReg(st, e);
      Inv(st') && InvE(st', e') && Grows(st, st')
  {
    hide Labelled, TestsPaired, Pending, ValueJumps, Disjoint, TestsKept, Exec, Exp2Reg, Exp2NextReg, DischargeVars;
    DischargeVarsInv(st, e);
    DischargeVarsKeeps(st, e, list);
    var (st1, e1) := DischargeVars(st, e);
    if e1.kind.VNonReloc? && !HasJumps(e1) {
    } else if e1.kind.VNonReloc? && e1.kind.info >= st1.nactvar {
      Exp2RegInv(st1, e1, e1.kind.info, list);
    } else {
      Exp2NextRegInv(st1, e1, list);
    }
  }

  lemma Exp2AnyRegSim(m: Machine, st: St, e: Exp, s0: nat, r0: Regs, o: Out, v: Value, base: int, list: seq<int>)
    requires Sim(m, st, e, s0, r0, o, v, base) && Safe(st, e, list)
    requires var st' := Exp2AnyReg(st, e).0; !st'.err && st'.k <= m.k
    ensures var (st', e') := Exp2AnyReg(st, e);
      && Sim(m, st', e', s0, r0, o, v, base) && Spares(st, st', e', list) && Grows(st, st')
      && !HasJumps(e') && e'.kind.VNonReloc?
  {
    hide Labelled, TestsPaired, Pending, ValueJumps, Disjoint, TestsKept, Exec, Exp2Reg, Exp2NextReg, DischargeVars, Tracks;
    Exp2AnyRegInv(st, e, list);
    DischargeVarsSim(m, st, e, s0, r0, o, v, base, list);
    var (st1, e1) := DischargeVars(st, e);
    if e1.kind.VNonReloc? && !HasJumps(e1) {
    } else if e1.kind.VNonReloc? && e1.kind.info >= st1.nactvar {
      TopRegSim(m, st1, e1, s0, r0, o, v, base, list);
      SparesTrans(st, st1, Exp2Reg(st1, e1, base).0, e1, Exp2Reg(st1, e1, base).1, list);
    } else {
      Exp2NextRegSim(m, st1, e1, s0, r0, o, v, base, list);
      SparesTrans(st, st1, Exp2NextReg(st1, e1).0, e1, Exp2NextReg(st1, e1).1, list);
    }
  }

  lemma Exp2ValSim(m: Machine, st: St, e: Exp, s0: nat, r0: Regs, o: Out, v: Value, base: int, list: seq<int>)
    requires Sim(m, st, e, s0, r0, o, v, base) && Safe(st, e, list)
    requires var st' := Exp2Val(st, e).0; !st'.err && st'.k <= m.k
    ensures var (st', e') := Exp2Val(st, e);
      && Sim(m, st', e', s0, r0, o, v, base) && Spares(st, st', e', list) && Grows(st, st')
      && !HasJumps(e') && !e'.kind.VLocal? && !e'.kind.VGlobal?
  {
    hide Labelled, TestsPaired, Pending, ValueJumps, Disjoint, TestsKept, Exec, DischargeVars, Exp2AnyReg, Tracks;
    if HasJumps(e) {
      Exp2AnyRegSim(m, st, e, s0, r0, o, v, base, list);
    } else {
      DischargeVarsInv(st, e);
      DischargeVarsSim(m, st, e, s0, r0, o, v, base, list);
    }
  }

  lemma Exp2ValInv(st: St, e: Exp, list: seq<int>)
    requires Inv(st) && InvE(st, e) && Safe(st, e, list)
    ensures var (st', e') := Exp2Val(st, e);
      Inv(st') && InvE(st', e') && Grows(st, st')
  {
    hide Labelled, TestsPaired, Pending, ValueJumps, Disjoint, TestsKept, Exec, DischargeVars, Exp2AnyReg;
    if HasJumps(e) {
      Exp2AnyRegInv(st, e, list);
    } else {
      DischargeVarsInv(st, e);
    }
  }

  /** An operand holds v: a constant, or a register that later code leaves alone. */
  ghost predicate IsOperand(m: Machine, st: St, e: Exp, operand: int) {
    && !HasJumps(e)
    && (|| (e.kind.VK? && 0 <= e.kind.info <= MAXINDEXRK && operand == e.kind.info + BITRK)
        || (e.kind.VNonReloc? && e.kind.info < BITRK && operand == e.kind.info))
  }

  /** A simple constant gets an entry of the constant table. */
  lemma ConstantSim(m: Machine, st: St, e: Exp, s0: nat, r0: Regs, o: Out, v: Value, base: int, list: seq<int>)
    requires Sim(m, st, e, s0, r0, o, v, base) && Safe(st, e, list) && !HasJumps(e)
    requires e.kind.VNil? || e.kind.VTrue? || e.kind.VFalse? || e.kind.VKNum?
    ensures var (st', i) := AddK(st, ConstOf(e.kind));
      && Sim(m, st', e.(kind := VK(i)), s0, r0, o, v, base) && Spares(st, st', e.(kind := VK(i)), list)
      && Grows(st, st') && 0 <= i <= |st.k|
  {
    hide Labelled, TestsPaired, Pending, ValueJumps, Disjoint, Exec;
    AddKGrows(st, ConstOf(e.kind));
  }

  lemma Exp2RKSim(m: Machine, st: St, e: Exp, s0: nat, r0: Regs, o: Out, v: Value, base: int, list: seq<int>)
    requires Sim(m, st, e, s0, r0, o, v, base) && Safe(st, e, list)
    requires var st' := Exp2RK(st, e).0; !st'.err && st'.k <= m.k
    ensures var (st', e', operand) := Exp2RK(st, e);
      && Sim(m, st', e', s0, r0, o, v, base) && Spares(st, st', e', list) && Grows(st, st')
      && IsOperand(m, st', e', operand)
  {
    hide Labelled, TestsPaired, Pending, ValueJumps, Disjoint, TestsKept, Exec, AddK, Exp2Val, Exp2AnyReg, Tracks;
    var (st1, e1) := Exp2Val(st, e);
    Exp2ValInv(st, e, list);
    var simple := e1.kind.VNil? || e1.kind.VTrue? || e1.kind.VFalse? || e1.kind.VKNum?;
    var (st', e', operand) := Exp2RK(st, e);
    assert Grows(st1, st') && !st1.err && st1.k <= m.k by {
      AddKGrows(st1, ConstOf(e1.kind));
      SafeEmpty(st1, e1);
      Exp2AnyRegInv(st1, e1, []);
    }
    Exp2ValSim(m, st, e, s0, r0, o, v, base, list);
    if simple && |st1.k| <= MAXINDEXRK {
      ConstantSim(m, st1, e1, s0, r0, o, v, base, list);
      SparesTrans(st, st1, st', e1, e', list);
    } else if e1.kind.VK? && e1.kind.info <= MAXINDEXRK {
    } else {
      Exp2AnyRegSim(m, st1, e1, s0, r0, o, v, base, list);
      SparesTrans(st, st1, st', e1, e', list);
    }
  }

  // ---------------------------------------------------------------- conditional jumps

  lemma CondJumpCode(st: St, i: Instr)
    requires Inv(st) && i.IsTest() && (i.TestSet? ==> i.a == NO_REG)
    ensures var st' := CondJump(st, i);
      && Inv(st') && st' == st.(code := Here(st) + [i, Jmp(NO_JUMP)], jpc := [])
      && |Here(st)| == |st.code| && ValueJumps(st'.code, [|st.code| + 1])
  {
    hide PatchList, Labelled, TestsPaired;
    HereShape(st);
    TestAppended(Here(st), i, st.lasttarget);
    assert Here(st) + [i] + [Jmp(NO_JUMP)] == Here(st) + [i, Jmp(NO_JUMP)];
  }

  lemma TestAppended(code: seq<Instr>, i: Instr, lasttarget: int)
    requires Labelled(code, lasttarget) && TestsPaired(code) && i.IsTest()
    ensures var code' := code + [i, Jmp(NO_JUMP)]; Labelled(code', lasttarget) && TestsPaired(code')
  {
  }

  lemma CondJumpInv(st: St, i: Instr, list: seq<int>)
    requires Inv(st) && i.IsTest() && (i.TestSet? ==> i.a == NO_REG)
    requires ValueJumps(st.code, list) && Disjoint(list, st.jpc)
    ensures var st' := CondJump(st, i);
      && Inv(st') && st' == st.(code := Here(st) + [i, Jmp(NO_JUMP)], jpc := [])
      && ValueJumps(st'.code, list) && TestsKept(st.code, st'.code, list)
      && ValueJumps(st'.code, [|st.code| + 1])
  {
    hide Inv, PatchList, CondJump;
    CondJumpCode(st, i);
    KeepsList(st, [i, Jmp(NO_JUMP)], list);
  }

  lemma CondJumpRun(m: Machine, st: St, i: Instr, s0: nat, r0: Regs)
    requires Inv(st) && i.IsTest() && (i.TestSet? ==> i.a == NO_REG) && s0 <= |st.code|
    ensures var o, o' := Run(m, st, s0, r0), Run(m, CondJump(st, i), s0, r0);
      && (o.Exit? ==> o' == o)
      && (o.Fall? ==> o' == if Taken(m, i, o.r) then Exit(|st.code| + 1, o.r) else Fall(o.r))
  {
    hide Labelled, TestsPaired, Pending;
    var n, more := |st.code|, [i, Jmp(NO_JUMP)];
    var code' := Here(st) + more;
    assert Here(st) + [i] + [Jmp(NO_JUMP)] == code';
    RunEmit(m, st, more, s0, r0);
    var o := Run(m, st, s0, r0);
    if o.Fall? {
      assert code'[n] == i && code'[n + 1] == Jmp(NO_JUMP);
      assert Exec(code', m, n, n + 2, o.r) == if Taken(m, i, o.r) then Exit(n + 1, o.r) else Fall(o.r);
    }
  }

  /** discharge2anyreg: the value in some register, the lists untouched. */
  lemma Discharge2AnySim(m: Machine, st: St, e: Exp, s0: nat, r0: Regs, o: Out, v: Value, base: int, list: seq<int>)
    requires Sim(m, st, e, s0, r0, o, v, base) && Safe(st, e, list) && !e.kind.VJmp?
    requires var st' := Discharge2AnyReg(st, e).0; !st'.err && st'.k <= m.k
    ensures var (st', e') := Discharge2AnyReg(st, e);
      && Sim(m, st', e', s0, r0, o, v, base) && Spares(st, st', e', list) && Grows(st, st')
      && e'.kind.VNonReloc? && e'.t == e.t && e'.f == e.f
  {
    hide Labelled, TestsPaired, Pending, ValueJumps, Disjoint, TestsKept, Exec, DischargeVars, DischargeValue;
    if !e.kind.VNonReloc? {
      var st1 := ReserveReg(st);
      Reserve1(m, st, e, s0, r0, o, v, base, list);
      Discharge2RegGrows(st1, e, base);
      Discharge2RegInv(st1, e, base);
      Discharge2RegKeeps(st1, e, base, list);
      Discharge2RegOk(m, st1, e, base, s0, r0, o, v, base);
    } else {
      SparesSelf(st, e, list);
    }
  }

  lemma SparesSelf(st: St, e: Exp, list: seq<int>)
    requires Safe(st, e, list)
    ensures Spares(st, st, e, list)
  {
  }

  lemma Reserve1(m: Machine, st: St, e: Exp, s0: nat, r0: Regs, o: Out, v: Value, base: int, list: seq<int>)
    requires Sim(m, st, e, s0, r0, o, v, base) && Safe(st, e, list) && !e.kind.VNonReloc?
    ensures var st1 := ReserveReg(st);
      && Inv(st1) && InvE(st1, e) && Safe(st1, e, list) && Grows(st, st1) && IsTarget(st1, base)
      && base == st1.freereg - 1 && StartsAt(st1, s0, r0) && Tracks(m, st1, e, s0, r0, o, v, base, -1)
  {
    hide Labelled, TestsPaired, Pending, ValueJumps, Exec;
  }

  /** The truth of v has been tested: control goes on where it is not cond, and leaves through j
      or an earlier jump of the right list elsewhere. */
  ghost predicate Tested(m: Machine, st: St, e: Exp, j: int, s0: nat, r0: Regs, o: Out, v: Value, base: int, cond: bool)
  {
    && !o.Stuck?
    && (o.Exit? ==> Run(m, st, s0, r0) == o && o.j !in e.t && o.j !in e.f && o.j != j)
    && (o.Fall? ==>
          match Run(m, st, s0, r0)
          case Stuck => false
          case Fall(r) => Same(o.r, r, base, -1) && Truthy(v) != cond
          case Exit(i, r) =>
            && Same(o.r, r, base, -1)
            && (|| (i in e.t && JumpValue(st.code, i, r, v, true))
                || (i in e.f && JumpValue(st.code, i, r, v, false))
                || (i == j && JumpValue(st.code, j, r, v, cond))))
  }

  lemma TestedStep(m: Machine, st: St, e: Exp, st': St, j: int, taken: bool, s0: nat, r0: Regs, o: Out, v: Value,
                   base: int, cond: bool)
    requires !e.kind.VJmp? && j !in e.t && j !in e.f && (o.Exit? ==> o.j != j)
    requires TestsKept(st.code, st'.code, e.t) && TestsKept(st.code, st'.code, e.f)
    requires var o1, o2 := ValueRun(m, st.code, st.jpc, e.kind, s0, r0), Run(m, st', s0, r0);
      && (o1.Exit? ==> o2 == o1)
      && (o1.Fall? ==> o2 == if taken then Exit(j, o1.r) else Fall(o1.r))
      && (o1.Fall? && FallValue(m, st.code, st.k, e.kind, o1.r, v) ==>
            (taken <==> Truthy(v) == cond) && (taken ==> JumpValue(st'.code, j, o1.r, v, cond)))
    requires Tracks(m, st, e, s0, r0, o, v, base, -1)
    ensures Tested(m, st', e, j, s0, r0, o, v, base, cond)
  {
    hide Exec;
  }

  lemma TestSetFacts(st: St, e: Exp, cond: bool)
    requires Inv(st) && InvE(st, e) && e.kind.VNonReloc?
    ensures var st1 := FreeExp(st, e);
      var st' := CondJump(st1, TestSet(NO_REG, e.kind.info, cond));
      var j := |st.code| + 1;
      && Inv(st1) && st1.code == st.code && st1.jpc == st.jpc
      && TestsKept(st.code, st'.code, e.t) && TestsKept(st.code, st'.code, e.f)
      && TestSetJump(st'.code, j) && st'.code[j - 1].b == e.kind.info && j !in e.t && j !in e.f
  {
    hide Labelled, TestsPaired, Pending, CondJump, ValueJumps, TestsKept;
    var st1 := FreeExp(st, e);
    var i := TestSet(NO_REG, e.kind.info, cond);
    FreeInv(st, e);
    CondJumpInv(st1, i, e.t);
    CondJumpInv(st1, i, e.f);
    CondJumpCode(st1, i);
    BoundedList(st, e, |st.code| + 1);
  }

  /** jumponcond without an OP_NOT to remove. */
  lemma TestSetOk(m: Machine, st: St, e: Exp, cond: bool, s0: nat, r0: Regs, o: Out, v: Value, base: int)
    requires Sim(m, st, e, s0, r0, o, v, base) && e.kind.VNonReloc?
    ensures var st1 := FreeExp(st, e);
      Tested(m, CondJump(st1, TestSet(NO_REG, e.kind.info, cond)), e, |st1.code| + 1, s0, r0, o, v, base, cond)
  {
    hide Inv, InvE, Exec, Tracks, CondJump, TestsKept, FreeExp;
    var st1 := FreeExp(st, e);
    var i := TestSet(NO_REG, e.kind.info, cond);
    TestSetFacts(st, e, cond);
    CondJumpRun(m, st1, i, s0, r0);
    BoundedExit(m, st, e, s0, r0, o, v, base);
    var o1 := Run(m, st, s0, r0);
    TestedStep(m, st, e, CondJump(st1, i), |st.code| + 1, o1.Fall? && Taken(m, i, o1.r), s0, r0, o, v, base, cond);
  }

  lemma BoundedList(st: St, e: Exp, j: int)
    requires InvE(st, e) && j >= |st.code|
    ensures j !in e.t && j !in e.f
  {
  }

  lemma FreeInv(st: St, e: Exp)
    requires Inv(st) && InvE(st, e)
    ensures Inv(FreeExp(st, e)) && Grows(st, FreeExp(st, e))
  {
    hide Labelled, TestsPaired, Pending;
  }

  lemma BoundedExit(m: Machine, st: St, e: Exp, s0: nat, r0: Regs, o: Out, v: Value, base: int)
    requires Sim(m, st, e, s0, r0, o, v, base)
    ensures o.Exit? ==> o.j < |st.code|
  {
    ExitsWithin(st.code, m, s0, |st.code|, r0);
    if e.kind.VReloc? { ExitsWithin(st.code, m, s0, |st.code| - 1, r0); }
  }

  /** pc--: a removed OP_NOT was no jump target and controlled no jump. */
  lemma TruncInv(st: St, e: Exp, list: seq<int>)
    requires Inv(st) && InvE(st, e) && Safe(st, e, list) && e.kind.VReloc?
    ensures var st1 := st.(code := st.code[..|st.code| - 1]);
      && Inv(st1) && ValueJumps(st1.code, list) && TestsKept(st.code, st1.code, list)
      && ValueJumps(st1.code, e.t) && TestsKept(st.code, st1.code, e.t)
      && ValueJumps(st1.code, e.f) && TestsKept(st.code, st1.code, e.f)
  {
    var n := |st.code| - 1;
    assert n !in list && n !in e.t && n !in e.f;
  }

  /** jumponcond after OP_NOT: the operand is tested the other way round. */
  lemma TestNotOk(m: Machine, st: St, e: Exp, cond: bool, s0: nat, r0: Regs, o: Out, v: Value, base: int)
    requires Sim(m, st, e, s0, r0, o, v, base) && e.kind.VReloc? && st.code[e.kind.info].Not?
    ensures var st1 := st.(code := st.code[..|st.code| - 1]);
      Tested(m, CondJump(st1, Test(st.code[e.kind.info].b, !cond)), e, |st1.code| + 1, s0, r0, o, v, base, cond)
  {
    hide Labelled, TestsPaired, Pending, Exec, CondJump, Tracks, ValueJumps, TestsKept;
    var n := |st.code| - 1;
    var st1 := st.(code := st.code[..n]);
    var i := Test(st.code[n].b, !cond);
    SafeEmpty(st, e);
    TruncInv(st, e, []);
    CondJumpInv(st1, i, e.t);
    CondJumpInv(st1, i, e.f);
    assert st.code == st1.code + [st.code[n]];
    ExecPrefix(st1.code, [st.code[n]], m, s0, r0);
    CondJumpRun(m, st1, i, s0, r0);
    BoundedExit(m, st, e, s0, r0, o, v, base);
    BoundedList(st, e, n + 1);
    var st' := CondJump(st1, i);
    KeptTrans(st.code, st1.code, st'.code, e.t);
    KeptTrans(st.code, st1.code, st'.code, e.f);
    var o1 := Run(m, st1, s0, r0);
    TestedStep(m, st, e, st', n + 1, o1.Fall? && Taken(m, i, o1.r), s0, r0, o, v, base, cond);
  }

  lemma KeptTrans(a: seq<Instr>, b: seq<Instr>, c: seq<Instr>, list: seq<int>)
    requires TestsKept(a, b, list) && TestsKept(b, c, list)
    ensures TestsKept(a, c, list)
  {
  }

  // ---------------------------------------------------------------- inverted comparisons

  function Inverted(st: St, e: Exp): St { if e.kind.VJmp? then st.(code := InvertJump(st.code, e.kind.info)) else st }

  lemma InvertInv(st: St, e: Exp, list: seq<int>)
    requires Inv(st) && InvE(st, e) && Safe(st, e, list) && e.kind.VJmp?
    ensures var st' := Inverted(st, e);
      && Inv(st') && InvE(st', e) && Safe(st', e, list) && TestsKept(st.code, st'.code, list)
      && TestsKept(st.code, st'.code, e.t) && TestsKept(st.code, st'.code, e.f)
  {
    hide Labelled, TestsPaired;
    var n := |st.code|;
    InvertShape(st.code, n - 1, st.lasttarget);
    assert n !in list && n - 1 !in list && n - 1 !in e.t && n - 1 !in e.f;
  }

  lemma InvertShape(code: seq<Instr>, j: int, mark: int)
    requires 0 < j < |code| && code[j - 1].Cmp? && Labelled(code, mark) && TestsPaired(code)
    ensures var code' := InvertJump(code, j);
      && Labelled(code', mark) && TestsPaired(code') && |code'| == |code| && code'[j - 1].Cmp?
      && (forall p :: 0 <= p < |code| && p != j - 1 ==> code'[p] == code[p])
  {
  }

  /** A pending comparison at the end of the code: runs leave through its jump or fall through. */
  lemma CompareRun(m: Machine, st: St, e: Exp, s0: nat, r0: Regs)
    requires Inv(st) && InvE(st, e) && e.kind.VJmp? && StartsAt(st, s0, r0) && !Run(m, st, s0, r0).Stuck?
    ensures var j := e.kind.info;
      var o, o' := Run(m, st, s0, r0), Run(m, Inverted(st, e), s0, r0);
      && (o.Exit? && o.j != j ==> o' == o)
      && (o.Exit? && o.j == j ==> o' == Fall(o.r))
      && (o.Fall? ==> o' == Exit(j, o.r))
  {
    var j := e.kind.info;
    var pre, i := st.code[..j - 1], st.code[j - 1];
    var i' := i.(accept := !i.accept);
    assert st.code == pre + [i, Jmp(NO_JUMP)] && Inverted(st, e).code == pre + [i', Jmp(NO_JUMP)];
    CompareSplit(st.code, j, st.lasttarget);
    ExecSplit(pre, [i, Jmp(NO_JUMP)], m, s0, r0, st.lasttarget);
    ExecAppend(pre, [i', Jmp(NO_JUMP)], m, s0, j + 1, r0);
    ExitsWithin(pre, m, s0, |pre|, r0);
    var o1 := Exec(pre, m, s0, |pre|, r0);
    if o1.Fall? {
      CompareTail(m, pre, i, o1.r);
      CompareTail(m, pre, i', o1.r);
    }
  }

  lemma CompareSplit(code: seq<Instr>, j: int, mark: int)
    requires 0 < j < |code| && Labelled(code, mark) && TestsPaired(code) && code[j - 1].Cmp?
    ensures Labelled(code[..j - 1], mark) && TestsPaired(code[..j - 1])
  {
  }

  lemma CompareTail(m: Machine, pre: seq<Instr>, i: Instr, r: Regs)
    requires i.Cmp?
    ensures var code := pre + [i, Jmp(NO_JUMP)];
      Exec(code, m, |pre|, |code|, r) == if Taken(m, i, r) then Exit(|pre| + 1, r) else Fall(r)
  {
    var code := pre + [i, Jmp(NO_JUMP)];
    assert code[|pre|] == i && code[|pre| + 1] == Jmp(NO_JUMP);
  }

  // ---------------------------------------------------------------- goiftrue and goiffalse

  /** Two lists that may be pending side by side. */
  ghost predicate Apart(st: St, out: seq<int>, list: seq<int>) {
    && ValueJumps(st.code, out) && Disjoint(out, st.jpc)
    && ValueJumps(st.code, list) && Disjoint(list, st.jpc) && Disjoint(list, out)
  }

  /** Control goes on where the truth of v is not cond and leaves through out where it is. */
  ghost predicate Branched(m: Machine, st: St, out: seq<int>, s0: nat, r0: Regs, o: Out, v: Value, base: int, cond: bool)
  {
    && !o.Stuck?
    && (o.Exit? ==> Run(m, st, s0, r0) == o && o.j !in out)
    && (o.Fall? ==>
          match Run(m, st, s0, r0)
          case Stuck => false
          case Fall(r) => Same(o.r, r, base, -1) && Truthy(v) != cond
          case Exit(i, r) => Same(o.r, r, base, -1) && i in out && JumpValue(st.code, i, r, v, cond))
  }

  /** A state between expressions. */
  ghost predicate Between(st: St, s0: nat, r0: Regs, base: int) {
    Inv(st) && StartsAt(st, s0, r0) && st.nactvar <= base == st.freereg
  }

  lemma CondJumpTail(st: St, st1: St, i: Instr, e: Exp, list: seq<int>)
    requires Inv(st1) && i.IsTest() && (i.TestSet? ==> i.a == NO_REG)
    requires ValueJumps(st1.code, e.t) && ValueJumps(st1.code, e.f) && ValueJumps(st1.code, list)
    requires Disjoint(e.t, st1.jpc) && Disjoint(e.f, st1.jpc) && Disjoint(list, st1.jpc)
    requires TestsKept(st.code, st1.code, list)
    ensures var st', j := CondJump(st1, i), |st1.code| + 1;
      && Inv(st') && ValueJumps(st'.code, e.t) && ValueJumps(st'.code, e.f) && ValueJumps(st'.code, list)
      && ValueJumps(st'.code, [j]) && j !in e.t && j !in e.f && j !in list && TestsKept(st.code, st'.code, list)
      && st' == st1.(code := st'.code, jpc := []) && |st'.code| == |st1.code| + 2
  {
    hide Inv, TestsKept, CondJump;
    CondJumpInv(st1, i, e.t);
    CondJumpInv(st1, i, e.f);
    CondJumpInv(st1, i, list);
    CondJumpCode(st1, i);
    KeptTrans(st.code, st1.code, CondJump(st1, i).code, list);
  }

  /** What jumponcond leaves: j is a new last jump, and the lists are still pending. */
  ghost predicate Jumped(st: St, st': St, e: Exp, j: int, list: seq<int>) {
    && ValueJumps(st'.code, e.t) && ValueJumps(st'.code, e.f) && ValueJumps(st'.code, list)
    && ValueJumps(st'.code, [j]) && j !in e.t && j !in e.f && j !in list && TestsKept(st.code, st'.code, list)
    && st'.jpc == [] && Grows(st, st')
  }

  lemma TestNotInv(st: St, e: Exp, cond: bool, s0: nat, r0: Regs, base: int, list: seq<int>)
    requires Inv(st) && InvE(st, e) && StartsAt(st, s0, r0) && Safe(st, e, list) && st.nactvar <= base == st.freereg
    requires e.kind.VReloc? && st.code[e.kind.info].Not?
    ensures var (st', j) := JumpOnCond(st, e, cond);
      && Between(st', s0, r0, base) && Jumped(st, st', e, j, list) && st'.err == st.err
  {
    hide Labelled, TestsPaired, Pending, ValueJumps, TestsKept, CondJump;
    var st1 := st.(code := st.code[..|st.code| - 1]);
    TruncInv(st, e, list);
    CondJumpTail(st, st1, Test(st.code[e.kind.info].b, !cond), e, list);
  }

  lemma TestSetInv(st: St, st1: St, e: Exp, cond: bool, s0: nat, r0: Regs, base: int, list: seq<int>)
    requires Inv(st1) && InvE(st1, e) && StartsAt(st1, s0, r0) && Spares(st, st1, e, list) && Grows(st, st1)
    requires e.kind.VNonReloc? && st.nactvar <= base == FreeExp(st1, e).freereg
    ensures var st2 := FreeExp(st1, e);
      var st' := CondJump(st2, TestSet(NO_REG, e.kind.info, cond));
      && Between(st', s0, r0, base) && Jumped(st, st', e, |st2.code| + 1, list) && st'.err == st1.err
  {
    hide Labelled, TestsPaired, Pending, ValueJumps, TestsKept, CondJump;
    FreeInv(st1, e);
    CondJumpTail(st, FreeExp(st1, e), TestSet(NO_REG, e.kind.info, cond), e, list);
  }

  lemma JumpOnCondSim(m: Machine, st: St, e: Exp, cond: bool, s0: nat, r0: Regs, o: Out, v: Value, base: int, list: seq<int>)
    requires Sim(m, st, e, s0, r0, o, v, base) && Safe(st, e, list) && !e.kind.VJmp?
    requires var st' := JumpOnCond(st, e, cond).0; !st'.err && st'.k <= m.k
    ensures var (st', j) := JumpOnCond(st, e, cond);
      && Between(st', s0, r0, base) && Jumped(st, st', e, j, list)
      && Tested(m, st', e, j, s0, r0, o, v, base, cond)
  {
    hide Labelled, TestsPaired, Pending, ValueJumps, Disjoint, TestsKept, CondJump, Tested, Discharge2AnyReg, Tracks, Exec;
    if e.kind.VReloc? && st.code[e.kind.info].Not? {
      TestNotInv(st, e, cond, s0, r0, base, list);
      TestNotOk(m, st, e, cond, s0, r0, o, v, base);
    } else {
      var (st1, e1) := Discharge2AnyReg(st, e);
      CondJumpFields(FreeExp(st1, e1), TestSet(NO_REG, if e1.kind.VNonReloc? then e1.kind.info else 0, cond));
      Discharge2AnySim(m, st, e, s0, r0, o, v, base, list);
      TestSetInv(st, st1, e1, cond, s0, r0, base, list);
      TestSetOk(m, st1, e1, cond, s0, r0, o, v, base);
      TestedSame(m, JumpOnCond(st, e, cond).0, e1, e, JumpOnCond(st, e, cond).1, s0, r0, o, v, base, cond);
    }
  }

  lemma CondJumpFields(st: St, i: Instr)
    ensures var st' := CondJump(st, i); st'.k == st.k && st'.err == st.err
  {
  }

  lemma TestedSame(m: Machine, st: St, e1: Exp, e: Exp, j: int, s0: nat, r0: Regs, o: Out, v: Value, base: int, cond: bool)
    requires Tested(m, st, e1, j, s0, r0, o, v, base, cond) && e1.t == e.t && e1.f == e.f
    ensures Tested(m, st, e, j, s0, r0, o, v, base, cond)
  {
    hide Exec;
  }

  lemma PatchToHereInv(st: St, list: seq<int>)
    requires Inv(st) && ValueJumps(st.code, list)
    ensures Inv(PatchToHere(st, list)) && Grows(st, PatchToHere(st, list))
  {
    hide TestsPaired;
  }

  /** The list closed here and the list that goes on, once j has joined it. */
  function HereList(e: Exp, cond: bool): seq<int> { if cond then e.f else e.t }
  function OutList(e: Exp, j: seq<int>, cond: bool): seq<int> { (if cond then e.t else e.f) + j }

  lemma BranchRun(m: Machine, st: St, e: Exp, j: int, cond: bool, s0: nat, r0: Regs, o: Out, v: Value, base: int)
    requires Tested(m, st, e, j, s0, r0, o, v, base, cond) && Disjoint(e.t, e.f) && j !in e.t && j !in e.f
    ensures Branched(m, PatchToHere(st, HereList(e, cond)), OutList(e, [j], cond), s0, r0, o, v, base, cond)
  {
    hide Exec, Same;
  }

  lemma BranchEnd(m: Machine, st0: St, st: St, e: Exp, j: int, cond: bool, s0: nat, r0: Regs, o: Out, v: Value,
                  base: int, list: seq<int>)
    requires Between(st, s0, r0, base) && Jumped(st0, st, e, j, list) && Tested(m, st, e, j, s0, r0, o, v, base, cond)
    requires Disjoint(e.t, e.f) && Disjoint(list, e.t) && Disjoint(list, e.f)
    ensures var st', out := PatchToHere(st, HereList(e, cond)), OutList(e, [j], cond);
      && Between(st', s0, r0, base) && Apart(st', out, list) && TestsKept(st0.code, st'.code, list) && Grows(st0, st')
      && Branched(m, st', out, s0, r0, o, v, base, cond)
  {
    hide Exec, Labelled, TestsPaired, Inv, Tested, Branched;
    PatchToHereInv(st, HereList(e, cond));
    BranchRun(m, st, e, j, cond, s0, r0, o, v, base);
  }

  /** A constant of known truth needs no jump of its own. */
  lemma ConstBranch(m: Machine, st: St, e: Exp, cond: bool, s0: nat, r0: Regs, o: Out, v: Value, base: int, list: seq<int>)
    requires Sim(m, st, e, s0, r0, o, v, base) && Safe(st, e, list)
    requires !e.kind.VJmp? && !e.kind.VReloc? && !e.kind.VNonReloc?
    requires forall r :: FallValue(m, st.code, st.k, e.kind, r, v) ==> Truthy(v) != cond
    ensures var st', out := PatchToHere(st, HereList(e, cond)), OutList(e, [], cond);
      && Between(st', s0, r0, base) && Apart(st', out, list) && TestsKept(st.code, st'.code, list) && Grows(st, st')
      && Branched(m, st', out, s0, r0, o, v, base, cond)
  {
    hide Exec, Labelled, TestsPaired, Inv, Same;
    PatchToHereInv(st, HereList(e, cond));
  }

  /** A comparison branches on its own jump, inverted for goiftrue. */
  lemma JmpBranch(m: Machine, st: St, e: Exp, cond: bool, s0: nat, r0: Regs, o: Out, v: Value, base: int, list: seq<int>)
    requires Sim(m, st, e, s0, r0, o, v, base) && Safe(st, e, list) && e.kind.VJmp?
    ensures var st1 := if cond then st else Inverted(st, e);
      && Between(st1, s0, r0, base) && Jumped(st, st1, e, e.kind.info, list)
      && Tested(m, st1, e, e.kind.info, s0, r0, o, v, base, cond)
  {
    hide Labelled, TestsPaired, Exec;
    if !cond {
      InvertInv(st, e, list);
      CompareRun(m, st, e, s0, r0);
    }
  }

  /** Strings are the constants an expression can start as. */
  ghost predicate TrueConst(st: St, e: Exp) { e.kind.VK? ==> 0 <= e.kind.info < |st.k| && Truthy(st.k[e.kind.info]) }

  /** What goiftrue (cond false) and goiffalse (cond true) leave; out is the list that goes on. */
  ghost predicate Went(m: Machine, st: St, st': St, out: seq<int>, s0: nat, r0: Regs, o: Out, v: Value, base: int,
                       cond: bool, list: seq<int>)
  {
    && Between(st', s0, r0, base) && Apart(st', out, list) && TestsKept(st.code, st'.code, list) && Grows(st, st')
    && Branched(m, st', out, s0, r0, o, v, base, cond)
  }

  lemma WentFrom(m: Machine, st: St, st1: St, e1: Exp, st': St, out: seq<int>, s0: nat, r0: Regs, o: Out, v: Value,
                 base: int, cond: bool, list: seq<int>)
    requires Spares(st, st1, e1, list) && Grows(st, st1) 
    requires Went(m, st1, st', out, s0, r0, o, v, base, cond, list)
    ensures Went(m, st, st', out, s0, r0, o, v, base, cond, list)
  {
    hide Between, Apart, Branched, TestsKept, Safe;
    KeptTrans(st.code, st1.code, st'.code, list);
  }

  lemma GoIfTrueSim(m: Machine, st: St, e: Exp, s0: nat, r0: Regs, o: Out, v: Value, base: int, list: seq<int>)
    requires Sim(m, st, e, s0, r0, o, v, base) && Safe(st, e, list) && TrueConst(st, e) && st.k <= m.k
    requires var st' := GoIfTrue(st, e).0; !st'.err && st'.k <= m.k
    ensures var (st', e') := GoIfTrue(st, e);
      Went(m, st, st', e'.f, s0, r0, o, v, base, false, list) && e'.t == []
  {
    hide Inv, Apart, ValueJumps, Disjoint, TestsKept, Between, Branched, Tested, JumpOnCond, DischargeVars, Exec, Tracks, Grows, PatchToHere;
    var (st1, e1) := DischargeVars(st, e);
    DischargeVarsInv(st, e);
    DischargeVarsSim(m, st, e, s0, r0, o, v, base, list);
    var (st', e') := GoIfTrue(st, e);
    if e1.kind.VK? || e1.kind.VKNum? || e1.kind.VTrue? {
      ConstBranch(m, st1, e1, false, s0, r0, o, v, base, list);
      assert OutList(e1, [], false) == e'.f;
    } else if e1.kind.VJmp? {
      JmpBranch(m, st1, e1, false, s0, r0, o, v, base, list);
      SafeLists(st1, e1, list);
      BranchEnd(m, st1, Inverted(st1, e1), e1, e1.kind.info, false, s0, r0, o, v, base, list);
    } else {
      var (st2, j) := JumpOnCond(st1, e1, false);
      PatchToHereFields(st2, e1.t);
      JumpOnCondSim(m, st1, e1, false, s0, r0, o, v, base, list);
      SafeLists(st1, e1, list);
      BranchEnd(m, st1, st2, e1, j, false, s0, r0, o, v, base, list);
    }
    WentFrom(m, st, st1, e1, st', e'.f, s0, r0, o, v, base, false, list);
  }

  lemma PatchToHereFields(st: St, list: seq<int>)
    ensures PatchToHere(st, list).k == st.k && PatchToHere(st, list).err == st.err
  {
  }

  lemma SafeLists(st: St, e: Exp, list: seq<int>)
    requires InvE(st, e) && Safe(st, e, list)
    ensures Disjoint(e.t, e.f) && Disjoint(list, e.t) && Disjoint(list, e.f)
  {
  }

  lemma GoIfFalseSim(m: Machine, st: St, e: Exp, s0: nat, r0: Regs, o: Out, v: Value, base: int, list: seq<int>)
    requires Sim(m, st, e, s0, r0, o, v, base) && Safe(st, e, list) && st.k <= m.k
    requires var st' := GoIfFalse(st, e).0; !st'.err && st'.k <= m.k
    ensures var (st', e') := GoIfFalse(st, e);
      Went(m, st, st', e'.t, s0, r0, o, v, base, true, list) && e'.f == []
  {
    hide Inv, Apart, ValueJumps, Disjoint, TestsKept, Between, Branched, Tested, JumpOnCond, DischargeVars, Exec, Tracks, Grows, PatchToHere;
    var (st1, e1) := DischargeVars(st, e);
    DischargeVarsInv(st, e);
    DischargeVarsSim(m, st, e, s0, r0, o, v, base, list);
    var (st', e') := GoIfFalse(st, e);
    if e1.kind.VNil? || e1.kind.VFalse? {
      ConstBranch(m, st1, e1, true, s0, r0, o, v, base, list);
      assert OutList(e1, [], true) == e'.t;
    } else if e1.kind.VJmp? {
      JmpBranch(m, st1, e1, true, s0, r0, o, v, base, list);
      SafeLists(st1, e1, list);
      BranchEnd(m, st1, st1, e1, e1.kind.info, true, s0, r0, o, v, base, list);
    } else {
      var (st2, j) := JumpOnCond(st1, e1, true);
      PatchToHereFields(st2, e1.f);
      JumpOnCondSim(m, st1, e1, true, s0, r0, o, v, base, list);
      SafeLists(st1, e1, list);
      BranchEnd(m, st1, st2, e1, j, true, s0, r0, o, v, base, list);
    }
    WentFrom(m, st, st1, e1, st', e'.t, s0, r0, o, v, base, true, list);
  }

  // ---------------------------------------------------------------- not

  /** Turning TESTSETs without a register into TESTs changes no run. */
  lemma {:induction false} RemoveRun(code: seq<Instr>, list: seq<int>, m: Machine, p: int, end: int, r: Regs)
    requires 0 <= p && end <= |code|
    requires forall j :: j in list && TestSetJump(code, j) ==> code[j - 1].a == NO_REG
    ensures Exec(RemoveValues(code, list), m, p, end, r) == Exec(code, m, p, end, r)
    decreases end - p
  {
    var code' := RemoveValues(code, list);
    assert |code'| == |code|;
    if p >= end {
    } else if code[p].IsTest() {
      assert code'[p].IsTest() && Taken(m, code'[p], r) == Taken(m, code[p], r);
      if p + 1 < end {
        assert code[p].TestSet? ==> TestSetJump(code, p + 1);
        assert AfterTest(code'[p], r) == AfterTest(code[p], r);
        RemoveAtJump(code, list, p + 1);
        if !Taken(m, code[p], r) {
          RemoveRun(code, list, m, p + 2, end, r);
        } else if code[p + 1].Jmp? {
          RemoveJump(code, list, m, p + 1, end, AfterTest(code[p], r));
        }
      }
    } else if code[p].Jmp? {
      if p > 0 { assert code'[p - 1].IsTest() == code[p - 1].IsTest(); }
      RemoveJump(code, list, m, p, end, r);
    } else {
      RemoveRun(code, list, m, p + Width(code[p]), end, Effect(m, code[p], r));
    }
  }

  lemma RemoveAtJump(code: seq<Instr>, list: seq<int>, p: int)
    requires 0 <= p < |code|
    ensures RemoveValues(code, list)[p].Jmp? == code[p].Jmp?
  {
  }

  lemma {:induction false} RemoveJump(code: seq<Instr>, list: seq<int>, m: Machine, j: int, end: int, r: Regs)
    requires 0 <= j < end <= |code| && code[j].Jmp?
    requires forall j :: j in list && TestSetJump(code, j) ==> code[j - 1].a == NO_REG
    ensures RemoveValues(code, list)[j] == code[j]
    ensures Jump(RemoveValues(code, list), m, j, end, r) == Jump(code, m, j, end, r)
    decreases end - j, 0
  {
    var dest := j + 1 + code[j].sbx;
    if code[j].sbx != NO_JUMP && j < dest <= end {
      RemoveRun(code, list, m, dest, end, r);
    }
  }

  lemma RemoveShape(code: seq<Instr>, list: seq<int>)
    ensures var code' := RemoveValues(code, list);
      && |code'| == |code|
      && (forall p :: 0 <= p < |code| ==> code'[p].IsTest() == code[p].IsTest())
      && (forall p :: 0 <= p < |code| && !code[p].TestSet? ==> code'[p] == code[p])
      && (forall p :: 0 <= p < |code| && code'[p].TestSet? ==> code'[p] == code[p])
      && (forall j :: j in list ==> !TestSetJump(code', j))
      && (forall p :: 0 <= p < |code| && p + 1 !in list ==> code'[p] == code[p])
  {
  }

  /** Both lists made value-less. */
  function Valueless(st: St, e: Exp): St { st.(code := RemoveValues(RemoveValues(st.code, e.t), e.f)) }

  lemma ValuelessShape(st: St, e: Exp)
    ensures var st' := Valueless(st, e);
      && |st'.code| == |st.code|
      && (forall p :: 0 <= p < |st.code| ==> st'.code[p].IsTest() == st.code[p].IsTest())
      && (forall p :: 0 <= p < |st.code| && !st.code[p].TestSet? ==> st'.code[p] == st.code[p])
      && (forall p :: 0 <= p < |st.code| && st'.code[p].TestSet? ==> st'.code[p] == st.code[p])
      && (forall j :: j in e.t || j in e.f ==> !TestSetJump(st'.code, j))
      && (forall p :: 0 <= p < |st.code| && p + 1 !in e.t && p + 1 !in e.f ==> st'.code[p] == st.code[p])
  {
    hide RemoveValues;
    RemoveShape(st.code, e.t);
    RemoveShape(RemoveValues(st.code, e.t), e.f);
  }

  lemma ValuelessLists(st: St, e: Exp, list: seq<int>)
    requires ValueJumps(st.code, list)
    ensures ValueJumps(Valueless(st, e).code, list)
    ensures Disjoint(list, e.t) && Disjoint(list, e.f) ==> TestsKept(st.code, Valueless(st, e).code, list)
  {
    hide Valueless;
    ValuelessShape(st, e);
  }

  lemma ValuelessInv(st: St, e: Exp)
    requires Inv(st)
    ensures Inv(Valueless(st, e)) && Valueless(st, e) == st.(code := Valueless(st, e).code)
  {
    hide RemoveValues;
    ValuelessShape(st, e);
  }

  function Negation(v: Value): Value { Bool(!Truthy(v)) }

  /** Before codenot's exchange: the lists still tell the truth of v, the kind its negation. */
  ghost predicate Negates(m: Machine, code: seq<Instr>, k: seq<Value>, kind: Kind, e: Exp, o: Out, o2: Out, v: Value, base: int) {
    && !o.Stuck?
    && (o.Exit? ==> o2 == o && o.j !in e.t && o.j !in e.f && kind != VJmp(o.j))
    && (o.Fall? ==>
          match o2
          case Stuck => false
          case Fall(r) => Same(o.r, r, base, -1) && FallValue(m, code, k, kind, r, Negation(v))
          case Exit(j, r) =>
            && Same(o.r, r, base, -1)
            && (|| (j in e.t && Truthy(v)) || (j in e.f && !Truthy(v)) || (kind == VJmp(j) && !Truthy(v))))
  }

  /** The state in which codenot exchanges the lists. */
  ghost predicate NotReady(m: Machine, st: St, kind: Kind, e: Exp, s0: nat, r0: Regs, o: Out, v: Value, base: int, list: seq<int>)
  {
    && Between(st, s0, r0, base) && !kind.VNonReloc? && InvE(st, Exp(kind, e.t, e.f)) && Safe(st, Exp(kind, e.t, e.f), list)
    && Negates(m, st.code, st.k, kind, e, o, ValueRun(m, st.code, st.jpc, kind, s0, r0), v, base)
  }

  lemma NotConst(m: Machine, st: St, e: Exp, s0: nat, r0: Regs, o: Out, v: Value, base: int, list: seq<int>)
    requires Sim(m, st, e, s0, r0, o, v, base) && Safe(st, e, list) && TrueConst(st, e)
    requires e.kind.VNil? || e.kind.VFalse? || e.kind.VK? || e.kind.VKNum? || e.kind.VTrue?
    ensures var (st', kind) := NotValue(st, e);
      NotReady(m, st', kind, e, s0, r0, o, v, base, list) && TestsKept(st.code, st'.code, list) && Grows(st, st')
  {
    hide Exec, Labelled, TestsPaired, Pending, Inv;
  }

  lemma NotJmp(m: Machine, st: St, e: Exp, s0: nat, r0: Regs, o: Out, v: Value, base: int, list: seq<int>)
    requires Sim(m, st, e, s0, r0, o, v, base) && Safe(st, e, list) && e.kind.VJmp?
    ensures var (st', kind) := NotValue(st, e);
      NotReady(m, st', kind, e, s0, r0, o, v, base, list) && TestsKept(st.code, st'.code, list) && Grows(st, st')
  {
    hide Exec, Labelled, TestsPaired, Pending, InvertJump;
    InvertInv(st, e, list);
    CompareRun(m, st, e, s0, r0);
  }

  lemma NotRegInv(st: St, e: Exp, s0: nat, r0: Regs, base: int, list: seq<int>)
    requires Inv(st) && InvE(st, e) && StartsAt(st, s0, r0) && Safe(st, e, list) && e.kind.VNonReloc?
    requires st.nactvar <= base == FreeExp(st, e).freereg
    ensures var st1 := FreeExp(st, e);
      var st', kind := Emit(st1, Not(0, e.kind.info)), VReloc(|st1.code|);
      && Between(st', s0, r0, base) && InvE(st', Exp(kind, e.t, e.f)) && Safe(st', Exp(kind, e.t, e.f), list)
      && st'.code == Here(st1) + [Not(0, e.kind.info)] && |Here(st1)| == |st.code|
      && TestsKept(st.code, st'.code, list) && TestsKept(st.code, st'.code, e.t) && TestsKept(st.code, st'.code, e.f)
      && Grows(st, st')
  {
    hide Labelled, TestsPaired, Pending, PatchList, Emit, ValueJumps, TestsKept;
    var st1 := FreeExp(st, e);
    var i := Not(0, e.kind.info);
    FreeInv(st, e);
    EmitInv(st1, i);
    EmitKeeps(st1, i, e.t);
    EmitKeeps(st1, i, e.f);
    EmitKeeps(st1, i, list);
  }

  lemma EmitKeeps(st: St, i: Instr, list: seq<int>)
    requires Inv(st) && ValueJumps(st.code, list) && Disjoint(list, st.jpc)
    ensures var st' := Emit(st, i);
      && ValueJumps(st'.code, list) && TestsKept(st.code, st'.code, list)
      && st' == st.(code := Here(st) + [i], jpc := []) && |Here(st)| == |st.code|
  {
    hide Labelled, TestsPaired;
    KeepsList(st, [i], list);
    HereShape(st);
  }

  /** OP_NOT on the register that holds the value. */
  lemma NotReg(m: Machine, st: St, e: Exp, s0: nat, r0: Regs, o: Out, v: Value, base: int, list: seq<int>)
    requires Sim(m, st, e, s0, r0, o, v, base) && Safe(st, e, list) && e.kind.VNonReloc?
    ensures var st1 := FreeExp(st, e);
      var st', kind := Emit(st1, Not(0, e.kind.info)), VReloc(|st1.code|);
      NotReady(m, st', kind, e, s0, r0, o, v, base, list) && TestsKept(st.code, st'.code, list) && Grows(st, st')
  {
    hide Labelled, TestsPaired, Pending, Exec, ValueJumps, Disjoint, Emit, Safe, Between, TestsKept;
    var st1 := FreeExp(st, e);
    NotRegInv(st, e, s0, r0, base, list);
    FreeInv(st, e);
    RunEmit(m, st1, [Not(0, e.kind.info)], s0, r0);
  }

  lemma ValuelessTracks(m: Machine, st: St, kind: Kind, e: Exp, s0: nat, r0: Regs, o: Out, v: Value, base: int, list: seq<int>)
    requires NotReady(m, st, kind, e, s0, r0, o, v, base, list)
    ensures Tracks(m, Valueless(st, e), Exp(kind, e.f, e.t), s0, r0, o, Negation(v), base, -1)
  {
    hide Labelled, TestsPaired, Pending, Exec, RemoveValues, Same, Inv;
    var code1 := RemoveValues(st.code, e.t);
    var n := |st.code|;
    RemoveShape(st.code, e.t);
    RemoveShape(code1, e.f);
    forall end | end <= n ensures Exec(Valueless(st, e).code, m, s0, end, r0) == Exec(st.code, m, s0, end, r0) {
      RemoveRun(st.code, e.t, m, s0, end, r0);
      RemoveRun(code1, e.f, m, s0, end, r0);
    }
    ValuelessShape(st, e);
  }

  lemma ValuelessReady(m: Machine, st: St, kind: Kind, e: Exp, s0: nat, r0: Regs, o: Out, v: Value, base: int, list: seq<int>)
    requires NotReady(m, st, kind, e, s0, r0, o, v, base, list)
    ensures var st', e' := Valueless(st, e), Exp(kind, e.f, e.t);
      Sim(m, st', e', s0, r0, o, Negation(v), base) && Spares(st, st', e', list) && Grows(st, st')
  {
    hide Labelled, TestsPaired, Pending, Exec, Inv, Tracks, RemoveValues, Negates;
    ValuelessTracks(m, st, kind, e, s0, r0, o, v, base, list);
    ValuelessInv(st, e);
    ValuelessLists(st, e, e.t);
    ValuelessLists(st, e, e.f);
    ValuelessLists(st, e, list);
    ValuelessShape(st, e);
  }

  lemma NotValueSim(m: Machine, st: St, e: Exp, s0: nat, r0: Regs, o: Out, v: Value, base: int, list: seq<int>)
    requires Sim(m, st, e, s0, r0, o, v, base) && Safe(st, e, list) && TrueConst(st, e)
    requires !e.kind.VLocal? && !e.kind.VGlobal?
    requires var st' := NotValue(st, e).0; !st'.err && st'.k <= m.k
    ensures var (st', kind) := NotValue(st, e);
      NotReady(m, st', kind, e, s0, r0, o, v, base, list) && TestsKept(st.code, st'.code, list) && Grows(st, st')
  {
    hide Inv, Exec, TestsKept, ValueJumps, Emit, Discharge2AnyReg, Tracks, Between, Negates, Disjoint;
    if e.kind.VJmp? {
      NotJmp(m, st, e, s0, r0, o, v, base, list);
    } else if e.kind.VReloc? || e.kind.VNonReloc? {
      var (st1, e1) := Discharge2AnyReg(st, e);
      EmitFields(FreeExp(st1, e1), Not(0, if e1.kind.VNonReloc? then e1.kind.info else 0));
      Discharge2AnySim(m, st, e, s0, r0, o, v, base, list);
      NotReg(m, st1, e1, s0, r0, o, v, base, list);
      var (st', kind) := NotValue(st, e);
      KeptTrans(st.code, st1.code, st'.code, list);
      NotReadySame(m, st', kind, e1, e, s0, r0, o, v, base, list);
    } else {
      NotConst(m, st, e, s0, r0, o, v, base, list);
    }
  }

  lemma EmitFields(st: St, i: Instr)
    ensures var st' := Emit(st, i); st'.k == st.k && st'.err == st.err
  {
  }

  lemma NotReadySame(m: Machine, st: St, kind: Kind, e1: Exp, e: Exp, s0: nat, r0: Regs, o: Out, v: Value, base: int, list: seq<int>)
    requires NotReady(m, st, kind, e1, s0, r0, o, v, base, list) && e1.t == e.t && e1.f == e.f
    ensures NotReady(m, st, kind, e, s0, r0, o, v, base, list)
  {
    hide Exec, Inv;
  }

  lemma CodeNotSim(m: Machine, st: St, e: Exp, s0: nat, r0: Regs, o: Out, v: Value, base: int, list: seq<int>)
    requires Sim(m, st, e, s0, r0, o, v, base) && Safe(st, e, list) && TrueConst(st, e) && st.k <= m.k
    requires var st' := CodeNot(st, e).0; !st'.err && st'.k <= m.k
    ensures var (st', e') := CodeNot(st, e);
      Sim(m, st', e', s0, r0, o, Negation(v), base) && Spares(st, st', e', list) && Grows(st, st')
  {
    hide Inv, InvE, Exec, TestsKept, NotValue, Tracks, NotReady, DischargeVars, RemoveValues, Safe;
    DischargeVarsInv(st, e);
    DischargeVarsSim(m, st, e, s0, r0, o, v, base, list);
    var (st1, e1) := DischargeVars(st, e);
    var (st2, kind) := NotValue(st1, e1);
    NotValueSim(m, st1, e1, s0, r0, o, v, base, list);
    ValuelessReady(m, st2, kind, e1, s0, r0, o, v, base, list);
    var (st', e') := CodeNot(st, e);
    assert st' == Valueless(st2, e1) && e' == Exp(kind, e1.f, e1.t);
    KeptTrans(st.code, st1.code, st2.code, list);
    KeptTrans(st.code, st2.code, st'.code, list);
  }

  // ---------------------------------------------------------------- comparisons

  /** The value of an operand. */
  lemma OperandValue(m: Machine, st: St, e: Exp, operand: int, s0: nat, r0: Regs, o: Out, v: Value, base: int)
    requires Sim(m, st, e, s0, r0, o, v, base) && IsOperand(m, st, e, operand) && st.k <= m.k
    ensures var o1 := Run(m, st, s0, r0);
      && !o.Stuck?
      && (o.Exit? ==> o1 == o)
      && (o.Fall? ==> o1.Fall? && Same(o.r, o1.r, base, -1) && RK(m, o1.r, operand) == v)
    ensures operand < BITRK ==> 0 <= operand < st.freereg
  {
    hide Exec, Labelled, TestsPaired, Pending, ValueJumps;
  }

  /** exp2RK of an operand is that operand. */
  lemma OperandAgain(m: Machine, st: St, e: Exp, operand: int)
    requires IsOperand(m, st, e, operand)
    ensures Exp2RK(st, e) == (st, e, operand)
  {
  }

  /** Both operands are at hand: the comparison of codecomp decides the relation. */
  function CompTest(op: RelOp, o1: int, o2: int): Instr {
    var (c, cond) := OpOf(op);
    if !cond && c != CmpEq then Cmp(c, true, o2, o1) else Cmp(c, cond, o1, o2)
  }

  lemma CompTaken(m: Machine, op: RelOp, o1: int, o2: int, r: Regs)
    ensures Taken(m, CompTest(op, o1, o2), r) == Relate(m, op, RK(m, r, o1), RK(m, r, o2))
  {
  }

  /** The state between freeing the operands and emitting the comparison. */
  function BothFreed(st: St, e1: Exp, e2: Exp): St { FreeExp(FreeExp(st, e2), e1) }

  lemma BothFreedInv(st: St, e1: Exp, e2: Exp, s0: nat, r0: Regs, base: int, base2: int)
    requires Inv(st) && StartsAt(st, s0, r0)
    requires st.nactvar <= base && FreeExp(st, e2).freereg == base2
    requires FreeExp(st.(freereg := base2), e1).freereg == base
    ensures var st' := BothFreed(st, e1, e2);
      && Between(st', s0, r0, base) && Grows(st, st') && st'.code == st.code && st'.jpc == st.jpc && st'.k == st.k
      && st'.err == st.err
  {
    hide Labelled, TestsPaired, Pending;
  }

  lemma CompareOk(m: Machine, st: St, op: RelOp, o1: int, o2: int, s0: nat, r0: Regs, base: int, v1: Value, v2: Value, o: Out)
    requires Between(st, s0, r0, base) && !o.Stuck?
    requires var o' := Run(m, st, s0, r0);
      && (o.Exit? ==> o' == o)
      && (o.Fall? ==> o'.Fall? && Same(o.r, o'.r, base, -1) && RK(m, o'.r, o1) == v1 && RK(m, o'.r, o2) == v2)
    ensures var st', e' := CondJump(st, CompTest(op, o1, o2)), Exp(VJmp(|st.code| + 1), [], []);
      Sim(m, st', e', s0, r0, o, Bool(Relate(m, op, v1, v2)), base)
  {
    hide Exec, Labelled, TestsPaired, Pending, CondJump, Same;
    var i := CompTest(op, o1, o2);
    CondJumpCode(st, i);
    CondJumpRun(m, st, i, s0, r0);
    ExitsWithin(st.code, m, s0, |st.code|, r0);
    var o' := Run(m, st, s0, r0);
    if o'.Fall? { CompTaken(m, op, o1, o2, o'.r); }
  }

  lemma CompareKeeps(st0: St, st: St, i: Instr, list: seq<int>)
    requires Inv(st) && i.Cmp? && ValueJumps(st.code, list) && Disjoint(list, st.jpc) && TestsKept(st0.code, st.code, list)
    ensures var st', e' := CondJump(st, i), Exp(VJmp(|st.code| + 1), [], []);
      Spares(st0, st', e', list) && st'.k == st.k && st'.err == st.err && Grows(st, st')
  {
    hide Inv, TestsKept;
    CondJumpInv(st, i, list);
    KeptTrans(st0.code, st.code, CondJump(st, i).code, list);
    assert |st.code| + 1 !in list;
  }
}
