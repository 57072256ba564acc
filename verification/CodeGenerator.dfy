/**
 * The code generator of lcode.c as it runs: jump lists threaded through the instructions, code
 * patched in place, registers and constants counted in fields.  Every method is proved to do to
 * the stored code what CodeSpec does to plain sequences.
 */
module CodeGenerator {
  import opened CodeMachine
  import opened CodeSpec
  import opened CodeMeaning
  import opened CodeRuns
  import opened CodeLists

  /** expdesc: t and f are the heads of the two lists. */
  datatype ExpDesc = ExpDesc(kind: Kind, t: int, f: int)

  /** The jumps an expression descriptor owns. */
  function Own(e: Exp): seq<int> { e.t + e.f + if e.kind.VJmp? then [e.kind.info] else [] }

  /** d is e as stored. */
  ghost predicate Describes(code: seq<Instr>, d: ExpDesc, e: Exp) {
    && d.kind == e.kind && IsList(code, d.t, e.t) && IsList(code, d.f, e.f) && Disjoint(e.t, e.f)
    && (e.kind.VJmp? ==>
      && e.kind.info !in e.t && e.kind.info !in e.f && IsList(code, e.kind.info, [e.kind.info])
      && 0 < e.kind.info < |code| && code[e.kind.info - 1].Cmp?)
    && (e.kind.VReloc? ==> 0 <= e.kind.info == |code| - 1 && !code[e.kind.info].Jmp?)
  }

  lemma OwnIs(e: Exp)
    ensures forall p :: p in Own(e) <==> p in e.t || p in e.f || (e.kind.VJmp? && p == e.kind.info)
    ensures !e.kind.VJmp? ==> Own(e) == e.t + e.f
  {
  }

  lemma ListKept(code: seq<Instr>, code': seq<Instr>, head: int, l: seq<int>, more: seq<int>)
    requires IsList(code, head, l) && Kept(code, code', more) && forall p :: p in l ==> p in more
    ensures IsList(code', head, l) && Kept(code, code', l)
  {
  }

  lemma KeptSame(code: seq<Instr>, plain: seq<Instr>, loose: seq<int>, list: seq<int>)
    requires Stored(code, plain, loose) && forall p :: p in list ==> p in loose
    ensures Kept(code, code, list)
  {
  }

  /** The value of e, not a comparison, has become kind while code was emitted. */
  lemma Moved(code: seq<Instr>, code': seq<Instr>, d: ExpDesc, e: Exp, kind: Kind, held: seq<int>)
    requires Describes(code, d, e) && Kept(code, code', Own(e) + held) && Disjoint(Own(e), held)
    requires !e.kind.VJmp? && !kind.VJmp? && (kind.VReloc? ==> 0 <= kind.info == |code'| - 1 && !code'[kind.info].Jmp?)
    ensures Describes(code', d.(kind := kind), e.(kind := kind)) && Own(e.(kind := kind)) == Own(e)
    ensures Disjoint(Own(e.(kind := kind)), held) && Kept(code, code', held)
  {
    hide IsList, Kept, Disjoint, Own;
    OwnIs(e);
    OwnIs(e.(kind := kind));
    KeptLess(code, code', held, Own(e) + held);
    ListKept(code, code', d.t, e.t, Own(e) + held);
    ListKept(code, code', d.f, e.f, Own(e) + held);
  }

  lemma SameAt(code: seq<Instr>, plain: seq<Instr>, loose: seq<int>, p: int)
    requires Stored(code, plain, loose) && 0 <= p < |plain|
    ensures |code| == |plain| && (code[p].Jmp? <==> plain[p].Jmp?) && (!plain[p].Jmp? ==> code[p] == plain[p])
  {
  }

  class FuncState {
    var code: seq<Instr>
    var jpc: int
    var lasttarget: int
    var freereg: int
    var nactvar: int
    var maxstack: int
    var k: seq<Value>
    var err: bool
    /** The longest the code has been. */
    ghost var peak: int

    /** The state is st as stored, the loose jumps being those pending to here and rest. */
    ghost predicate Rep(st: St, rest: seq<int>)
      reads this
    {
      && Stored(code, st.code, st.jpc + rest) && Disjoint(st.jpc, rest) && IsList(code, jpc, st.jpc)
      && Counts(st)
    }

    ghost predicate Counts(st: St)
      reads this
    {
      && lasttarget == st.lasttarget && freereg == st.freereg && nactvar == st.nactvar && maxstack == st.maxstack
      && k == st.k && (st.err ==> err) && |code| <= peak
      && (maxstack >= MAXSTACK ==> err) && (err ==> maxstack >= MAXSTACK || peak >= MAXARG_SBX)
    }

    /** The code has grown from length n, its longest length before being top. */
    ghost predicate Grown(n: int, top: int)
      reads this
    {
      n <= |code| && peak == if top < |code| then |code| else top
    }

    /** The state with one expression in hand and the jumps of others on hold. */
    ghost predicate Holds(st: St, e: Exp, d: ExpDesc, held: seq<int>)
      reads this
    {
      Rep(st, Own(e) + held) && Describes(code, d, e) && Disjoint(Own(e), held)
    }

    /** open_func, with the parameters as active variables. */
    constructor (nparams: nat)
      requires nparams < MAXSTACK
      ensures Rep(NewFunction(nparams), []) && !err && code == [] && peak == 0
    {
      peak := 0;
      code, jpc, lasttarget, err := [], NO_JUMP, -1, false;
      freereg, nactvar, maxstack, k := nparams, nparams, if nparams > 2 then nparams else 2, [];
    }

    /** fixjump: "control structure too long" is recorded in err. */
    method FixJump(pc: int, dest: int)
      requires 0 <= pc < |code| && code[pc].Jmp?
      modifies this`code, this`err
      ensures code == old(code)[pc := Jmp(dest - (pc + 1))]
      ensures err == (old(err) || dest - (pc + 1) > MAXARG_SBX || dest - (pc + 1) < -MAXARG_SBX)
    {
      var offset := dest - (pc + 1);
      if offset > MAXARG_SBX || offset < -MAXARG_SBX { err := true; }
      code := code[pc := Jmp(offset)];
    }

    /** luaK_concat: the second list is linked behind the last jump of the first. */
    method Concat(l1: int, l2: int, ghost a: seq<int>, ghost b: seq<int>) returns (head: int)
      requires IsList(code, l1, a) && IsList(code, l2, b) && Disjoint(a, b)
      modifies this`code, this`err
      ensures IsList(code, head, a + b)
      ensures |code| == |old(code)| && (old(err) ==> err) && (err ==> old(err) || |code| >= MAXARG_SBX)
      ensures forall p :: 0 <= p < |code| ==> code[p] == old(code)[p] || (p in a && code[p].Jmp? && old(code)[p].Jmp?)
    {
      if l2 == NO_JUMP {
        assert b == [] && a + b == a;
        return l1;
      }
      if l1 == NO_JUMP {
        assert a == [] && a + b == b;
        return l2;
      }
      head := l1;
      var list := l1;
      ghost var i := 0;
      while GetJump(code, list) != NO_JUMP
        invariant 0 <= i < |a| && list == a[i] && code == old(code) && err == old(err)
        decreases |a| - i
      {
        list := GetJump(code, list);
        i := i + 1;
      }
      assert i == |a| - 1;
      FixJump(list, l2);
      ConcatLinks(old(code), code, a, b);
    }

    /** need_value: some jump of the list does not carry a value. */
    method NeedValue(head: int, ghost l: seq<int>) returns (need: bool)
      requires IsList(code, head, l)
      ensures need == CodeSpec.NeedValue(code, l)
    {
      var list := head;
      ghost var i := 0;
      while list != NO_JUMP
        invariant 0 <= i <= |l| && list == Head(l[i..])
        invariant forall j :: 0 <= j < i ==> TestSetJump(code, l[j])
        decreases |l| - i
      {
        if !code[JumpControl(code, list)].TestSet? {
          assert list in l && !TestSetJump(code, list);
          return true;
        }
        assert TestSetJump(code, l[i]);
        assert l[i + 1..] == l[i..][1..];
        list := GetJump(code, list);
        i := i + 1;
      }
      return false;
    }

    /** patchtestreg: gives a TESTSET its register, or turns it into a TEST. */
    method PatchTestReg(node: int, reg: int) returns (patched: bool)
      requires 0 <= node < |code| && code[node].Jmp?
      modifies this`code
      ensures patched == TestSetJump(old(code), node)
      ensures code == if patched then old(code)[node - 1 := PatchedTest(old(code)[node - 1], reg)] else old(code)
    {
      var i := JumpControl(code, node);
      if !code[i].TestSet? { return false; }
      if reg != NO_REG && reg != code[i].b {
        code := code[i := TestSet(reg, code[i].b, code[i].cond)];
      } else {
        code := code[i := Test(code[i].b, code[i].cond)];
      }
      return true;
    }

    /** removevalues: every TESTSET of the list becomes a TEST. */
    method RemoveValues(head: int, ghost l: seq<int>)
      requires IsList(code, head, l)
      modifies this`code
      ensures code == CodeSpec.RemoveValues(old(code), l) && |code| == |old(code)|
      ensures IsList(code, head, l)
    {
      hide CodeSpec.RemoveValues, IsList;
      var list := head;
      ghost var i := 0;
      RemoveNone(code);
      ListHead(code, head, l);
      while list != NO_JUMP
        invariant 0 <= i <= |l| && list == Head(l[i..])
        invariant code == CodeSpec.RemoveValues(old(code), l[..i]) && |code| == |old(code)|
        decreases |l| - i
      {
        ListStep(old(code), head, l, i);
        RemoveKeepsLinks(old(code), l[..i], l[i]);
        var patched := PatchTestReg(list, NO_REG);
        RemoveOne(old(code), l[..i], l[i]);
        RemoveKeepsLinks(old(code), l[..i + 1], l[i]);
        list := GetJump(code, list);
        i := i + 1;
      }
      ListEnd(old(code), head, l, i);
      RemoveKeepsList(old(code), head, l);
    }

    /** patchlistaux: value jumps go to vtarget with their value in reg, the others to dtarget. */
    method PatchListAux(head: int, vtarget: int, reg: int, dtarget: int, ghost l: seq<int>)
      requires IsList(code, head, l) && -1 <= vtarget <= |code| && -1 <= dtarget <= |code|
      modifies this`code, this`err
      ensures code == PatchList(old(code), l, vtarget, reg, dtarget) && |code| == |old(code)|
      ensures (old(err) ==> err) && (err ==> old(err) || |code| >= MAXARG_SBX)
    {
      hide PatchList, IsList;
      var list := head;
      ghost var i := 0;
      PatchNone(code, vtarget, reg, dtarget);
      assert head == Head(l[0..]) by { ListHead(code, head, l); }
      while list != NO_JUMP
        invariant 0 <= i <= |l| && list == Head(l[i..])
        invariant code == PatchList(old(code), l[..i], vtarget, reg, dtarget) && |code| == |old(code)|
        invariant (old(err) ==> err) && (err ==> old(err) || |code| >= MAXARG_SBX)
        decreases |l| - i
      {
        ListStep(old(code), head, l, i);
        PatchKeepsLinks(old(code), l[..i], vtarget, reg, dtarget, l[i]);
        var next := GetJump(code, list);
        var patched := PatchTestReg(list, reg);
        FixJump(list, if patched then vtarget else dtarget);
        PatchOne(old(code), l[..i], vtarget, reg, dtarget, l[i]);
        list := next;
        i := i + 1;
      }
      ListEnd(old(code), head, l, i);
    }

    /** luaK_code: jumps pending to here get this position as target, then i is appended. */
    method Code(i: Instr, ghost st: St, ghost rest: seq<int>) returns (pc: int)
      requires Rep(st, rest)
      modifies this`code, this`peak, this`jpc, this`err
      ensures Grown(old(|code|), old(peak))
      ensures Rep(Emit(st, i), rest) && Kept(old(code), code, rest)
      ensures pc == |old(code)| && |code| == pc + 1 && code[pc] == i
    {
      hide IsList, Stored, Kept, PatchList;
      pc := |code|;
      ghost var st1 := PatchList(st.code, st.jpc, pc, NO_REG, pc);
      assert |st.code| == pc by { StoredLong(code, st.code, st.jpc + rest); }
      PatchLong(code, st.jpc, pc, NO_REG, pc);
      PatchListAux(jpc, pc, NO_REG, pc, st.jpc);
      PatchStored(old(code), st.code, st.jpc + rest, st.jpc, rest, pc, NO_REG, pc);
      jpc := NO_JUMP;
      ghost var patched := code;
      AppendStored(code, st1, rest, i);
      code := code + [i];
      if peak < |code| { peak := |code|; }
      KeptTwice(old(code), patched, code, rest);
      EmptyList(code);
      SameLoose(code, st1 + [i], rest, [] + rest);
    }

    /** luaK_jump: the jumps pending to here wait in the list of the new jump. */
    method Jump(ghost st: St, ghost rest: seq<int>) returns (j: int)
      requires Rep(st, rest)
      modifies this`code, this`peak, this`jpc, this`err
      ensures Grown(old(|code|), old(peak))
      ensures var (st', l) := PlainJump(st); Rep(st', l + rest) && IsList(code, j, l) && Disjoint(l, rest)
      ensures Kept(old(code), code, rest) && |code| == |old(code)| + 1 && code[..|old(code)|] == old(code)
    {
      hide IsList, Stored, Kept, Disjoint;
      ghost var n := |code|;
      StoredLong(code, st.code, st.jpc + rest);
      AppendList(code, Jmp(NO_JUMP), jpc, st.jpc);
      OneJump(code, st.code, st.jpc, rest);
      var pending := jpc;
      jpc := NO_JUMP;
      code := code + [Jmp(NO_JUMP)];
      if peak < |code| { peak := |code|; }
      j := |code| - 1;
      j := Concat(j, pending, [n], st.jpc);
      JumpStored(old(code), st.code, st.jpc + rest, code);
      KeptLess(old(code), code, rest, st.jpc + rest);
      EmptyList(code);
      SameLoose(code, st.code + [Jmp(NO_JUMP)], [n] + (st.jpc + rest), [] + (([n] + st.jpc) + rest));
      NewApart(old(code), st.code, st.jpc, rest);
    }

    /** luaK_getlabel. */
    method GetLabel(ghost st: St, ghost rest: seq<int>) returns (pc: int)
      requires Rep(st, rest)
      modifies this`lasttarget
      ensures Rep(CodeSpec.GetLabel(st), rest) && pc == |code|
    {
      lasttarget := |code|;
      pc := |code|;
    }

    /** luaK_patchtohere: the list is put in front of the next instruction. */
    method PatchToHere(head: int, ghost l: seq<int>, ghost st: St, ghost rest: seq<int>)
      requires Rep(st, l + rest) && IsList(code, head, l) && Disjoint(l, rest)
      modifies this`code, this`jpc, this`lasttarget, this`err
      ensures Rep(CodeSpec.PatchToHere(st, l), rest) && Kept(old(code), code, rest) && |code| == |old(code)|
    {
      hide IsList, Stored, Kept, Disjoint;
      var pc := GetLabel(st, l + rest);
      ghost var before := code;
      LooseApart(st.jpc, l, rest);
      StoredLong(code, st.code, st.jpc + (l + rest));
      jpc := Concat(jpc, head, st.jpc, l);
      ConcatStored(before, code, st.code, st.jpc + (l + rest), st.jpc, rest);
      SameLoose(code, st.code, st.jpc + (l + rest), (st.jpc + l) + rest);
    }

    /** luaK_reserveregs(1): "function or expression too complex" is recorded in err. */
    method ReserveReg(ghost st: St, ghost rest: seq<int>)
      requires Rep(st, rest)
      modifies this`freereg, this`maxstack, this`err
      ensures Rep(CodeSpec.ReserveReg(st), rest) && (old(err) ==> err)
    {
      var newstack := freereg + 1;
      if newstack > maxstack {
        if newstack >= MAXSTACK { err := true; }
        maxstack := newstack;
      }
      freereg := freereg + 1;
    }

    /** freeexp. */
    method FreeExp(d: ExpDesc, ghost st: St, ghost e: Exp, ghost rest: seq<int>)
      requires Rep(st, rest) && d.kind == e.kind
      modifies this`freereg
      ensures Rep(CodeSpec.FreeExp(st, e), rest)
    {
      if d.kind.VNonReloc? && d.kind.info >= nactvar { freereg := freereg - 1; }
    }

    /** addk. */
    method AddK(v: Value, ghost st: St, ghost rest: seq<int>) returns (i: int)
      requires Rep(st, rest)
      modifies this`k
      ensures Rep(CodeSpec.AddK(st, v).0, rest) && i == CodeSpec.AddK(st, v).1
    {
      i := IndexOf(k, v);
      if i == |k| { k := k + [v]; }
    }

    /** luaK_nil for one register. */
    method CodeNil(from: int, ghost st: St, ghost rest: seq<int>)
      requires Rep(st, rest)
      modifies this`code, this`peak, this`jpc, this`err
      ensures Grown(old(|code|), old(peak))
      ensures Rep(LoadNilOp(st, from), rest) && Kept(old(code), code, rest)
    {
      hide IsList, Stored, Kept, Disjoint, PatchList, Emit;
      StoredLong(code, st.code, st.jpc + rest);
      KeptSame(code, st.code, st.jpc + rest, rest);
      if |code| > lasttarget {
        if |code| == 0 {
          if from >= nactvar { return; }
        } else {
          var last := |code| - 1;
          SameAt(code, st.code, st.jpc + rest, last);
          var previous := code[last];
          if previous.LoadNil? && previous.a <= from <= previous.b + 1 {
            if from > previous.b {
              ReplaceStored(code, st.code, st.jpc + rest, last, LoadNil(previous.a, from));
              KeptLess(code, code[last := LoadNil(previous.a, from)], rest, st.jpc + rest);
              PendingKept(code, code[last := LoadNil(previous.a, from)], jpc, st.jpc, rest);
              code := code[last := LoadNil(previous.a, from)];
            }
            return;
          }
        }
      }
      var pc := Code(LoadNil(from, from), st, rest);
    }

    /** luaK_dischargevars. */
    method DischargeVars(d: ExpDesc, ghost st: St, ghost e: Exp, ghost held: seq<int>) returns (d': ExpDesc)
      requires Holds(st, e, d, held)
      modifies this`code, this`peak, this`jpc, this`err
      ensures Grown(old(|code|), old(peak))
      ensures var (st', e') := CodeSpec.DischargeVars(st, e);
        Holds(st', e', d', held) && Kept(old(code), code, held) && (!d.kind.VGlobal? ==> code == old(code))
    {
      hide IsList, Stored, Kept, Disjoint, Describes, Own, PatchList, Emit;
      HeldKept(code, st.code, st.jpc, e, held);
      KindIs(code, d, e);
      match d.kind {
        case VLocal(r) =>
          Moved(code, code, d, e, VNonReloc(r), held);
          d' := d.(kind := VNonReloc(r));
        case VGlobal(i) =>
          StoredLong(code, st.code, st.jpc + (Own(e) + held));
          ghost var before := code;
          var pc := Code(GetGlobal(0, i), st, Own(e) + held);
          Moved(before, code, d, e, VReloc(pc), held);
          d' := d.(kind := VReloc(pc));
        case _ => d' := d;
      }
    }

    /** discharge2reg; a comparison stays as it is. */
    method Discharge2Reg(d: ExpDesc, reg: int, ghost st: St, ghost e: Exp, ghost held: seq<int>) returns (d': ExpDesc)
      requires Holds(st, e, d, held)
      modifies this`code, this`peak, this`jpc, this`err, this`k
      ensures Grown(old(|code|), old(peak))
      ensures var (st', e') := CodeSpec.Discharge2Reg(st, e, reg);
        Holds(st', e', d', held) && Kept(old(code), code, held)
    {
      hide IsList, Stored, Kept, Disjoint, Describes, Own, PatchList, Emit, LoadNilOp, Relocate, CodeSpec.DischargeVars, CodeSpec.AddK;
      d' := DischargeVars(d, st, e, held);
      ghost var (st1, e1) := CodeSpec.DischargeVars(st, e);
      Discharged(st, e);
      KindIs(code, d', e1);
      HeldKept(code, st1.code, st1.jpc, e1, held);
      if d'.kind.VJmp? { return; }
      ghost var before := code;
      var d1 := d';
      Place(d1.kind, reg, st1, Own(e1) + held);
      Moved(before, code, d1, e1, VNonReloc(reg), held);
      KeptTwice(old(code), before, code, held);
      d' := d1.(kind := VNonReloc(reg));
    }

    /** The switch of discharge2reg. */
    method Place(kind: Kind, reg: int, ghost st: St, ghost rest: seq<int>)
      requires Rep(st, rest) && !kind.VJmp? && !kind.VLocal? && !kind.VGlobal?
      requires kind.VReloc? ==> 0 <= kind.info == |code| - 1 && !code[kind.info].Jmp?
      modifies this`code, this`peak, this`jpc, this`err, this`k
      ensures Grown(old(|code|), old(peak))
      ensures Rep(DischargeValue(st, kind, reg), rest) && Kept(old(code), code, rest)
    {
      hide IsList, Stored, Kept, Disjoint, PatchList, Emit, LoadNilOp, CodeSpec.AddK;
      StoredLong(code, st.code, st.jpc + rest);
      KeptSame(code, st.code, st.jpc + rest, rest);
      match kind {
        case VNil => CodeNil(reg, st, rest);
        case VFalse => var pc := Code(LoadBool(reg, false, false), st, rest);
        case VTrue => var pc := Code(LoadBool(reg, true, false), st, rest);
        case VK(i) => var pc := Code(LoadK(reg, i), st, rest);
        case VKNum(n) =>
          var i := AddK(Num(n), st, rest);
          var pc := Code(LoadK(reg, i), CodeSpec.AddK(st, Num(n)).0, rest);
        case VReloc(i) =>
          SameAt(code, st.code, st.jpc + rest, i);
          var patched := SetA(code[i], reg);
          ReplaceStored(code, st.code, st.jpc + rest, i, patched);
          KeptLess(code, code[i := patched], rest, st.jpc + rest);
          PendingKept(code, code[i := patched], jpc, st.jpc, rest);
          code := code[i := patched];
        case VNonReloc(r) =>
          if r != reg { var pc := Code(Move(reg, r), st, rest); }
        case _ =>
      }
    }

    /** discharge2anyreg. */
    method Discharge2AnyReg(d: ExpDesc, ghost st: St, ghost e: Exp, ghost held: seq<int>) returns (d': ExpDesc)
      requires Holds(st, e, d, held)
      modifies this`code, this`peak, this`jpc, this`err, this`k, this`freereg, this`maxstack
      ensures Grown(old(|code|), old(peak))
      ensures var (st', e') := CodeSpec.Discharge2AnyReg(st, e);
        Holds(st', e', d', held) && Kept(old(code), code, held)
    {
      hide IsList, Stored, Kept, Disjoint, Describes, Own, CodeSpec.Discharge2Reg;
      KindIs(code, d, e);
      HeldKept(code, st.code, st.jpc, e, held);
      d' := d;
      if !d.kind.VNonReloc? {
        ReserveReg(st, Own(e) + held);
        d' := Discharge2Reg(d, freereg - 1, CodeSpec.ReserveReg(st), e, held);
      }
    }

    /** code_label. */
    method CodeLabel(reg: int, value: bool, skip: bool, ghost st: St, ghost rest: seq<int>) returns (pc: int)
      requires Rep(st, rest)
      modifies this`code, this`peak, this`jpc, this`err, this`lasttarget
      ensures Grown(old(|code|), old(peak))
      ensures Rep(Emit(CodeSpec.GetLabel(st), LoadBool(reg, value, skip)), rest) && Kept(old(code), code, rest)
      ensures pc == |old(code)| == |code| - 1
    {
      hide IsList, Stored, Kept, Disjoint, Emit;
      var here := GetLabel(st, rest);
      pc := Code(LoadBool(reg, value, skip), CodeSpec.GetLabel(st), rest);
    }

    /** The jump over, and the two LOADBOOLs of exp2reg. */
    method LoadBools(isJmp: bool, reg: int, ghost st: St, ghost e: Exp, ghost rest: seq<int>) returns (pf: int, pt: int)
      requires Rep(st, rest) && isJmp == e.kind.VJmp?
      modifies this`code, this`peak, this`jpc, this`err, this`lasttarget
      ensures Grown(old(|code|), old(peak))
      ensures Rep(CodeSpec.LoadBools(st, e, reg), rest) && Kept(old(code), code, rest)
      ensures 0 <= pf == |code| - 2 && pt == |code| - 1
    {
      hide IsList, Stored, Kept, Disjoint, Emit;
      var fj := NO_JUMP;
      EmptyList(code);
      ghost var st1, l := st, [];
      if isJmp {
        KeptSame(code, st.code, st.jpc + rest, rest);
        assert [] + rest == rest;
        NoneApart(rest);
      } else {
        fj := Jump(st, rest);
        st1, l := PlainJump(st).0, PlainJump(st).1;
      }
      ghost var c1 := code;
      pf := CodeLabel(reg, false, true, st1, l + rest);
      ghost var st2 := Emit(CodeSpec.GetLabel(st1), LoadBool(reg, false, true));
      ghost var c2 := code;
      pt := CodeLabel(reg, true, false, st2, l + rest);
      KeptTwice(c1, c2, code, l + rest);
      ListKept(c1, code, fj, l, l + rest);
      KeptLess(c1, code, rest, l + rest);
      KeptTwice(old(code), c1, code, rest);
      ghost var c3 := code;
      PatchToHere(fj, l, Emit(CodeSpec.GetLabel(st2), LoadBool(reg, true, false)), rest);
      KeptTwice(old(code), c3, code, rest);
    }

    /** The end of exp2reg: both lists are closed at the end of the code. */
    method CloseBoth(t: int, f: int, reg: int, pf: int, pt: int, ghost st: St, ghost e: Exp, ghost held: seq<int>)
      requires Rep(st, e.t + e.f + held) && IsList(code, t, e.t) && IsList(code, f, e.f)
      requires Disjoint(e.t, e.f) && Disjoint(e.t + e.f, held) && -1 <= pf < |code| && -1 <= pt < |code|
      modifies this`code, this`err, this`lasttarget
      ensures |code| == |old(code)|
      ensures Rep(CodeSpec.CloseBoth(st, e, reg, pf, pt), held) && Kept(old(code), code, held)
    {
      hide IsList, Stored, Kept, Disjoint, PatchList;
      ghost var jumps := st.jpc;
      StoredLong(code, st.code, jumps + (e.t + e.f + held));
      ClosingApart(jumps, e, held);
      var final := GetLabel(st, e.t + e.f + held);
      PatchStored(code, st.code, jumps + (e.t + e.f + held), e.f, e.t + (jumps + held), final, reg, pf);
      ghost var plain := PatchList(st.code, e.f, final, reg, pf);
      ghost var c0 := code;
      PatchListAux(f, final, reg, pf, e.f);
      ListKept(c0, code, t, e.t, e.t + (jumps + held));
      KeptLess(c0, code, jumps + held, e.t + (jumps + held));
      ghost var c1 := code;
      PatchStored(code, plain, e.t + (jumps + held), e.t, jumps + held, final, reg, pt);
      PatchListAux(t, final, reg, pt, e.t);
      KeptTwice(c0, c1, code, jumps + held);
      ListKept(c0, code, jpc, jumps, jumps + held);
      KeptLess(c0, code, held, jumps + held);
    }

    /** exp2reg after discharge2reg, the jump of a comparison having joined the true list. */
    method CloseJumps(t: int, f: int, isJmp: bool, reg: int, ghost st: St, ghost e: Exp, ghost held: seq<int>)
      requires Rep(st, e.t + e.f + held) && IsList(code, t, e.t) && IsList(code, f, e.f) && isJmp == e.kind.VJmp?
      requires Disjoint(e.t, e.f) && Disjoint(e.t + e.f, held)
      modifies this`code, this`peak, this`jpc, this`err, this`lasttarget
      ensures Grown(old(|code|), old(peak))
      ensures Rep(CodeSpec.CloseJumps(st, e, reg), held) && Kept(old(code), code, held)
    {
      hide IsList, Stored, Kept, Disjoint, CodeSpec.LoadBools, CodeSpec.CloseBoth, CodeSpec.NeedValue;
      HeadIs(code, t, e.t);
      HeadIs(code, f, e.f);
      if t == NO_JUMP && f == NO_JUMP {
        assert e.t + e.f + held == held;
        KeptSame(code, st.code, st.jpc + held, held);
        return;
      }
      var needT := NeedValue(t, e.t);
      var needF := NeedValue(f, e.f);
      NeedSame(code, st.code, st.jpc + (e.t + e.f + held), e.t);
      NeedSame(code, st.code, st.jpc + (e.t + e.f + held), e.f);
      ghost var c0, st1 := code, st;
      KeptSame(code, st.code, st.jpc + (e.t + e.f + held), e.t + e.f + held);
      var pf, pt := NO_JUMP, NO_JUMP;
      if needT || needF {
        pf, pt := LoadBools(isJmp, reg, st, e, e.t + e.f + held);
        st1 := CodeSpec.LoadBools(st, e, reg);
        StoredLong(code, st1.code, st1.jpc + (e.t + e.f + held));
      }
      ListKept(c0, code, t, e.t, e.t + e.f + held);
      ListKept(c0, code, f, e.f, e.t + e.f + held);
      KeptLess(c0, code, held, e.t + e.f + held);
      ghost var c1 := code;
      CloseBoth(t, f, reg, pf, pt, st1, e, held);
      KeptTwice(c0, c1, code, held);
    }

    /** exp2reg. */
    method Exp2Reg(d: ExpDesc, reg: int, ghost st: St, ghost e: Exp, ghost held: seq<int>) returns (d': ExpDesc)
      requires Holds(st, e, d, held)
      modifies this`code, this`peak, this`jpc, this`err, this`k, this`lasttarget
      ensures Grown(old(|code|), old(peak))
      ensures var (st', e') := CodeSpec.Exp2Reg(st, e, reg);
        Holds(st', e', d', held) && Kept(old(code), code, held) && d' == ExpDesc(VNonReloc(reg), NO_JUMP, NO_JUMP)
    {
      hide IsList, Stored, Kept, Disjoint, Describes, Own, CodeSpec.Discharge2Reg, CodeSpec.CloseJumps;
      var d1 := Discharge2Reg(d, reg, st, e, held);
      ghost var (st1, e1) := CodeSpec.Discharge2Reg(st, e, reg);
      ghost var c1 := code;
      DescribesParts(code, d1, e1, held);
      var t := d1.t;
      StoredParts(code, st1.code, st1.jpc, e1, held);
      HeldKept(code, st1.code, st1.jpc, e1, held);
      if d1.kind.VJmp? {
        JoinApart(code, d1, e1, held);
        t := Concat(d1.t, d1.kind.info, e1.t, [d1.kind.info]);
        JoinStored(c1, code, st1.code, st1.jpc, e1, held);
        ListKept(c1, code, d1.f, e1.f, e1.f + st1.jpc + held);
        ListKept(c1, code, jpc, st1.jpc, e1.f + st1.jpc + held);
        KeptLess(c1, code, held, e1.f + st1.jpc + held);
      }
      ghost var c2 := code;
      KeptTwice(old(code), c1, code, held);
      CloseJumps(t, d1.f, d1.kind.VJmp?, reg, st1, JoinJmp(e1), held);
      KeptTwice(old(code), c2, code, held);
      d' := ExpDesc(VNonReloc(reg), NO_JUMP, NO_JUMP);
      PlainDesc(code, d'.kind, held);
    }

    /** luaK_exp2nextreg. */
    method Exp2NextReg(d: ExpDesc, ghost st: St, ghost e: Exp, ghost held: seq<int>) returns (d': ExpDesc)
      requires Holds(st, e, d, held)
      modifies this`code, this`peak, this`jpc, this`err, this`k, this`lasttarget, this`freereg, this`maxstack
      ensures Grown(old(|code|), old(peak))
      ensures var (st', e') := CodeSpec.Exp2NextReg(st, e);
        Holds(st', e', d', held) && Kept(old(code), code, held)
        && d'.kind.VNonReloc? && d'.t == NO_JUMP && d'.f == NO_JUMP
    {
      hide IsList, Stored, Kept, Disjoint, Describes, Own, CodeSpec.DischargeVars, CodeSpec.Exp2Reg;
      var d1 := DischargeVars(d, st, e, held);
      ghost var (st1, e1) := CodeSpec.DischargeVars(st, e);
      KindIs(code, d1, e1);
      FreeExp(d1, st1, e1, Own(e1) + held);
      ghost var st2 := CodeSpec.FreeExp(st1, e1);
      ReserveReg(st2, Own(e1) + held);
      ghost var c1 := code;
      d' := Exp2Reg(d1, freereg - 1, CodeSpec.ReserveReg(st2), e1, held);
      KeptTwice(old(code), c1, code, held);
    }

    /** luaK_exp2anyreg. */
    method Exp2AnyReg(d: ExpDesc, ghost st: St, ghost e: Exp, ghost held: seq<int>) returns (d': ExpDesc)
      requires Holds(st, e, d, held)
      modifies this`code, this`peak, this`jpc, this`err, this`k, this`lasttarget, this`freereg, this`maxstack
      ensures Grown(old(|code|), old(peak))
      ensures var (st', e') := CodeSpec.Exp2AnyReg(st, e);
        Holds(st', e', d', held) && Kept(old(code), code, held)
        && d'.kind.VNonReloc? && d'.t == NO_JUMP && d'.f == NO_JUMP
      ensures d.kind.VNonReloc? && d.t == NO_JUMP && d.f == NO_JUMP ==> code == old(code) && d' == d
    {
      hide IsList, Stored, Kept, Disjoint, Describes, Own, CodeSpec.DischargeVars, CodeSpec.Exp2Reg, CodeSpec.Exp2NextReg;
      d' := DischargeVars(d, st, e, held);
      ghost var (st1, e1) := CodeSpec.DischargeVars(st, e);
      ghost var c1 := code;
      DischargeTwice(st, e);
      HeadsAre(code, d', e1);
      HeadsAre(old(code), d, e);
      if d'.kind.VNonReloc? {
        if d'.t == NO_JUMP && d'.f == NO_JUMP { return; }
        if d'.kind.info >= nactvar {
          d' := Exp2Reg(d', d'.kind.info, st1, e1, held);
          KeptTwice(old(code), c1, code, held);
          return;
        }
      }
      d' := Exp2NextReg(d', st1, e1, held);
      KeptTwice(old(code), c1, code, held);
    }

    /** luaK_exp2val. */
    method Exp2Val(d: ExpDesc, ghost st: St, ghost e: Exp, ghost held: seq<int>) returns (d': ExpDesc)
      requires Holds(st, e, d, held)
      modifies this`code, this`peak, this`jpc, this`err, this`k, this`lasttarget, this`freereg, this`maxstack
      ensures Grown(old(|code|), old(peak))
      ensures var (st', e') := CodeSpec.Exp2Val(st, e);
        Holds(st', e', d', held) && Kept(old(code), code, held) && d'.t == NO_JUMP && d'.f == NO_JUMP
      ensures (d.kind.VNonReloc? || d.kind.VK?) && d.t == NO_JUMP && d.f == NO_JUMP ==> code == old(code) && d' == d
    {
      hide IsList, Stored, Kept, Disjoint, Describes, Own, CodeSpec.DischargeVars, CodeSpec.Exp2AnyReg;
      DischargeTwice(st, e);
      HeadsAre(code, d, e);
      if d.t != NO_JUMP || d.f != NO_JUMP {
        d' := Exp2AnyReg(d, st, e, held);
      } else {
        d' := DischargeVars(d, st, e, held);
        HeadsAre(code, d', CodeSpec.DischargeVars(st, e).1);
        if d.kind.VNonReloc? || d.kind.VK? { SameDesc(code, d, d', e); }
      }
    }

    /** luaK_exp2RK. */
    method Exp2RK(d: ExpDesc, ghost st: St, ghost e: Exp, ghost held: seq<int>) returns (d': ExpDesc, operand: int)
      requires Holds(st, e, d, held)
      modifies this`code, this`peak, this`jpc, this`err, this`k, this`lasttarget, this`freereg, this`maxstack
      ensures Grown(old(|code|), old(peak))
      ensures var (st', e', o) := CodeSpec.Exp2RK(st, e);
        Holds(st', e', d', held) && Kept(old(code), code, held) && operand == o && IsPlain(d', e')
      ensures IsPlain(d, e) && (d.kind.VK? ==> d.kind.info <= MAXINDEXRK) ==> code == old(code) && d' == d
    {
      hide IsList, Stored, Kept, Disjoint, Describes, Own, CodeSpec.Exp2Val, CodeSpec.Exp2AnyReg, CodeSpec.AddK;
      var d1 := Exp2Val(d, st, e, held);
      ghost var (st1, e1) := CodeSpec.Exp2Val(st, e);
      ghost var c1 := code;
      HeadsAre(code, d1, e1);
      var kind := d1.kind;
      if (kind.VNil? || kind.VTrue? || kind.VFalse? || kind.VKNum?) && |k| <= MAXINDEXRK {
        var i := AddK(ConstOf(kind), st1, Own(e1) + held);
        OwnIs(e1);
        PlainDesc(code, VK(i), held);
        assert Own(e1) == [];
        return ExpDesc(VK(i), NO_JUMP, NO_JUMP), i + BITRK;
      }
      if kind.VK? && kind.info <= MAXINDEXRK {
        return d1, kind.info + BITRK;
      }
      d' := Exp2AnyReg(d1, st1, e1, held);
      HeadsAre(code, d', CodeSpec.Exp2AnyReg(st1, e1).1);
      operand := d'.kind.info;
      KeptTwice(old(code), c1, code, held);
    }

    /** The order of the loose jumps does not matter. */
    lemma RepSame(st: St, rest: seq<int>, rest': seq<int>)
      requires Rep(st, rest) && forall p :: p in rest <==> p in rest'
      ensures Rep(st, rest')
    {
      SameLoose(code, st.code, st.jpc + rest, st.jpc + rest');
    }

    /** condjump. */
    method CondJump(i: Instr, ghost st: St, ghost rest: seq<int>) returns (j: int)
      requires Rep(st, rest)
      modifies this`code, this`peak, this`jpc, this`err
      ensures Grown(old(|code|), old(peak))
      ensures Rep(CodeSpec.CondJump(st, i), [j] + rest) && Kept(old(code), code, rest)
      ensures j == |old(code)| + 1 == |code| - 1 && code[j - 1] == i && IsList(code, j, [j]) && Disjoint([j], rest)
    {
      hide IsList, Stored, Kept, Disjoint, PatchList;
      var pc := Code(i, st, rest);
      ghost var c1 := code;
      j := Jump(Emit(st, i), rest);
      StoredLong(c1, Emit(st, i).code, Emit(st, i).jpc + rest);
      assert code[pc] == code[..pc + 1][pc];
      assert PlainJump(Emit(st, i)).1 == [j] by { JumpList(code, j, |c1|); }
      KeptTwice(old(code), c1, code, rest);
      JumpList(code, j, |c1|);
    }

    /** invertjump. */
    method InvertJump(d: ExpDesc, ghost st: St, ghost e: Exp, ghost held: seq<int>)
      requires Holds(st, e, d, held) && e.kind.VJmp?
      modifies this`code
      ensures |code| == |old(code)|
      ensures Holds(st.(code := CodeSpec.InvertJump(st.code, e.kind.info)), e, d, held) && Kept(old(code), code, held)
    {
      hide IsList, Stored, Kept, Disjoint, Describes, Own;
      KindIs(code, d, e);
      ghost var loose := st.jpc + (Own(e) + held);
      StoredLong(code, st.code, loose);
      var pc := JumpControl(code, d.kind.info);
      SameAt(code, st.code, loose, pc);
      var inverted := code[pc].(accept := !code[pc].accept);
      ReplaceStored(code, st.code, loose, pc, inverted);
      PendingKept(code, code[pc := inverted], jpc, st.jpc, Own(e) + held);
      InvertDesc(code, pc, d, e);
      KeptLess(code, code[pc := inverted], held, loose);
      code := code[pc := inverted];
    }

    /** jumponcond: a test that jumps when the truth of the value is cond. */
    method JumpOnCond(d: ExpDesc, cond: bool, ghost st: St, ghost e: Exp, ghost held: seq<int>) returns (j: int)
      requires Holds(st, e, d, held) && !e.kind.VJmp?
      modifies this`code, this`peak, this`jpc, this`err, this`k, this`freereg, this`maxstack
      ensures Grown(old(|code|), old(peak))
      ensures var (st', j') := CodeSpec.JumpOnCond(st, e, cond);
        j == j' && Rep(st', [j] + (Own(e) + held)) && IsList(code, j, [j]) && Disjoint([j], Own(e) + held)
      ensures IsList(code, d.t, e.t) && IsList(code, d.f, e.f) && Kept(old(code), code, held)
    {
      hide IsList, Stored, Kept, Disjoint, Describes, Own, CodeSpec.Discharge2AnyReg, CodeSpec.CondJump;
      ghost var loose := st.jpc + (Own(e) + held);
      KindIs(code, d, e);
      StoredLong(code, st.code, loose);
      HeldKept(code, st.code, st.jpc, e, held);
      if d.kind.VReloc? {
        var last := d.kind.info;
        SameAt(code, st.code, loose, last);
        var ie := code[last];
        if ie.Not? {
          CutStored(code, st.code, loose, last);
          PendingKept(code, code[..last], jpc, st.jpc, Own(e) + held);
          KeptLess(code, code[..last], Own(e) + held, loose);
          code := code[..last];
          ghost var c1, st1 := code, st.(code := st.code[..last]);
          j := CondJump(Test(ie.b, !cond), st1, Own(e) + held);
          KeptTwice(old(code), c1, code, Own(e) + held);
          ListsKept(old(code), code, d, e, held);
          return;
        }
      }
      var d1 := Discharge2AnyReg(d, st, e, held);
      ghost var (st1, e1) := CodeSpec.Discharge2AnyReg(st, e);
      ghost var c1 := code;
      AnyRegIs(st, e);
      KindIs(code, d1, e1);
      FreeExp(d1, st1, e1, Own(e1) + held);
      StoredLong(code, st1.code, st1.jpc + (Own(e1) + held));
      OwnIs(e);
      OwnIs(e1);
      j := CondJump(TestSet(NO_REG, d1.kind.info, cond), CodeSpec.FreeExp(st1, e1), Own(e1) + held);
      ListsKept(c1, code, d1, e1, held);
      SameHeads(old(code), c1, d, e, d1, e1);
      KeptTwice(old(code), c1, code, held);
    }

    /** The end of goiftrue and goiffalse: j joins the list out, and the list here goes on here. */
    method Branch(hereHead: int, outHead: int, j: int, ghost st: St, ghost here: seq<int>, ghost out: seq<int>,
      ghost js: seq<int>, ghost held: seq<int>) returns (head: int)
      requires Rep(st, js + (here + out + held))
      requires IsList(code, hereHead, here) && IsList(code, outHead, out) && IsList(code, j, js)
      requires Disjoint(js, here + out + held) && Disjoint(here, out) && Disjoint(here + out, held)
      modifies this`code, this`jpc, this`err, this`lasttarget
      ensures |code| == |old(code)|
      ensures Rep(CodeSpec.PatchToHere(st, here), out + js + held)
      ensures IsList(code, head, out + js) && Disjoint(out + js, held) && Kept(old(code), code, held)
    {
      hide IsList, Stored, Kept, Disjoint;
      ghost var c0 := code;
      ghost var loose := st.jpc + (js + (here + out + held));
      BranchApart(st.jpc, here, out, js, held);
      StoredLong(code, st.code, loose);
      head := Concat(outHead, j, out, js);
      ConcatStored(c0, code, st.code, loose, out, st.jpc + here + held);
      ListKept(c0, code, hereHead, here, st.jpc + here + held);
      ListKept(c0, code, jpc, st.jpc, st.jpc + here + held);
      KeptLess(c0, code, held, st.jpc + here + held);
      SameLoose(code, st.code, loose, st.jpc + (here + (out + js + held)));
      ghost var c1 := code;
      PatchToHere(hereHead, here, st, out + js + held);
      ListKept(c1, code, head, out + js, out + js + held);
      KeptLess(c1, code, held, out + js + held);
      KeptTwice(c0, c1, code, held);
    }

    /** luaK_goiftrue: what is left is the list of jumps taken when the value is false. */
    method GoIfTrue(d: ExpDesc, ghost st: St, ghost e: Exp, ghost held: seq<int>) returns (f: int)
      requires Holds(st, e, d, held)
      modifies this`code, this`peak, this`jpc, this`err, this`k, this`lasttarget, this`freereg, this`maxstack
      ensures Grown(old(|code|), old(peak))
      ensures var (st', e') := CodeSpec.GoIfTrue(st, e);
        Rep(st', e'.f + held) && IsList(code, f, e'.f) && Disjoint(e'.f, held) && Kept(old(code), code, held)
    {
      hide IsList, Stored, Kept, Disjoint, Describes, Own, CodeSpec.DischargeVars, CodeSpec.JumpOnCond, CodeSpec.InvertJump;
      var d1 := DischargeVars(d, st, e, held);
      ghost var (st1, e1) := CodeSpec.DischargeVars(st, e);
      ghost var c1, js: seq<int>, st2, loose := code, [], st1, Own(e1) + held;
      var pc := NO_JUMP;
      KindIs(code, d1, e1);
      HeldKept(code, st1.code, st1.jpc, e1, held);
      if d1.kind.VK? || d1.kind.VKNum? || d1.kind.VTrue? {
      } else if d1.kind.VJmp? {
        InvertJump(d1, st1, e1, held);
        st2 := st1.(code := CodeSpec.InvertJump(st1.code, e1.kind.info));
        pc, js := d1.kind.info, [d1.kind.info];
      } else {
        pc := JumpOnCond(d1, false, st1, e1, held);
        js, st2 := [pc], CodeSpec.JumpOnCond(st1, e1, false).0;
        loose := js + loose;
      }
      BranchParts(c1, code, d1, e1, pc, js, held, loose);
      assert e1.f + js == CodeSpec.GoIfTrue(st, e).1.f;
      RepSame(st2, loose, js + (e1.t + e1.f + held));
      ghost var c2 := code;
      f := Branch(d1.t, d1.f, pc, st2, e1.t, e1.f, js, held);
      KeptTwice(c1, c2, code, held);
      KeptTwice(old(code), c1, code, held);
    }

    /** luaK_goiffalse: what is left is the list of jumps taken when the value is true. */
    method GoIfFalse(d: ExpDesc, ghost st: St, ghost e: Exp, ghost held: seq<int>) returns (t: int)
      requires Holds(st, e, d, held)
      modifies this`code, this`peak, this`jpc, this`err, this`k, this`lasttarget, this`freereg, this`maxstack
      ensures Grown(old(|code|), old(peak))
      ensures var (st', e') := CodeSpec.GoIfFalse(st, e);
        Rep(st', e'.t + held) && IsList(code, t, e'.t) && Disjoint(e'.t, held) && Kept(old(code), code, held)
    {
      hide IsList, Stored, Kept, Disjoint, Describes, Own, CodeSpec.DischargeVars, CodeSpec.JumpOnCond;
      var d1 := DischargeVars(d, st, e, held);
      ghost var (st1, e1) := CodeSpec.DischargeVars(st, e);
      ghost var c1, js: seq<int>, st2, loose := code, [], st1, Own(e1) + held;
      var pc := NO_JUMP;
      KindIs(code, d1, e1);
      HeldKept(code, st1.code, st1.jpc, e1, held);
      if d1.kind.VNil? || d1.kind.VFalse? {
      } else if d1.kind.VJmp? {
        pc, js := d1.kind.info, [d1.kind.info];
      } else {
        pc := JumpOnCond(d1, true, st1, e1, held);
        js, st2 := [pc], CodeSpec.JumpOnCond(st1, e1, true).0;
        loose := js + loose;
      }
      BranchParts(c1, code, d1, e1, pc, js, held, loose);
      Exchanged(e1, js, held);
      assert e1.t + js == CodeSpec.GoIfFalse(st, e).1.t;
      RepSame(st2, loose, js + (e1.f + e1.t + held));
      ghost var c2 := code;
      t := Branch(d1.f, d1.t, pc, st2, e1.f, e1.t, js, held);
      KeptTwice(c1, c2, code, held);
      KeptTwice(old(code), c1, code, held);
    }

    /** The switch of codenot. */
    method NotValue(d: ExpDesc, ghost st: St, ghost e: Exp, ghost held: seq<int>) returns (kind: Kind)
      requires Holds(st, e, d, held) && !e.kind.VLocal? && !e.kind.VGlobal?
      modifies this`code, this`peak, this`jpc, this`err, this`k, this`freereg, this`maxstack
      ensures Grown(old(|code|), old(peak))
      ensures var (st', kind') := CodeSpec.NotValue(st, e);
        kind == kind' && Holds(st', e.(kind := kind), d.(kind := kind), held) && Kept(old(code), code, held)
    {
      hide IsList, Stored, Kept, Disjoint, Describes, Own, CodeSpec.Discharge2AnyReg, CodeSpec.InvertJump, Emit;
      KindIs(code, d, e);
      HeldKept(code, st.code, st.jpc, e, held);
      match d.kind {
        case VJmp(j) =>
          InvertJump(d, st, e, held);
          kind := d.kind;
        case VReloc(_) => kind := NotRegister(d, st, e, held);
        case VNonReloc(_) => kind := NotRegister(d, st, e, held);
        case _ =>
          kind := if d.kind.VNil? || d.kind.VFalse? then VTrue else VFalse;
          Moved(code, code, d, e, kind, held);
      }
    }

    method NotRegister(d: ExpDesc, ghost st: St, ghost e: Exp, ghost held: seq<int>) returns (kind: Kind)
      requires Holds(st, e, d, held) && (e.kind.VReloc? || e.kind.VNonReloc?)
      modifies this`code, this`peak, this`jpc, this`err, this`k, this`freereg, this`maxstack
      ensures Grown(old(|code|), old(peak))
      ensures var (st', kind') := CodeSpec.NotValue(st, e);
        kind == kind' && Holds(st', e.(kind := kind), d.(kind := kind), held) && Kept(old(code), code, held)
    {
      hide IsList, Stored, Kept, Disjoint, Describes, Own, CodeSpec.Discharge2AnyReg, Emit;
      var d1 := Discharge2AnyReg(d, st, e, held);
      ghost var (st1, e1) := CodeSpec.Discharge2AnyReg(st, e);
      AnyRegIs(st, e);
      KindIs(code, d1, e1);
      SameHeads(old(code), code, d, e, d1, e1);
      FreeExp(d1, st1, e1, Own(e1) + held);
      ghost var c1 := code;
      StoredLong(code, st1.code, st1.jpc + (Own(e1) + held));
      var pc := Code(Not(0, d1.kind.info), CodeSpec.FreeExp(st1, e1), Own(e1) + held);
      kind := VReloc(pc);
      Moved(c1, code, d1, e1, kind, held);
      KeptTwice(old(code), c1, code, held);
    }

    /** codenot. */
    method CodeNot(d: ExpDesc, ghost st: St, ghost e: Exp, ghost held: seq<int>) returns (d': ExpDesc)
      requires Holds(st, e, d, held)
      modifies this`code, this`peak, this`jpc, this`err, this`k, this`freereg, this`maxstack
      ensures Grown(old(|code|), old(peak))
      ensures var (st', e') := CodeSpec.CodeNot(st, e);
        Holds(st', e', d', held) && Kept(old(code), code, held)
    {
      hide IsList, Stored, Kept, Disjoint, Describes, Own, CodeSpec.DischargeVars, CodeSpec.NotValue, CodeSpec.RemoveValues;
      var d1 := DischargeVars(d, st, e, held);
      ghost var (st1, e1) := CodeSpec.DischargeVars(st, e);
      Discharged(st, e);
      ghost var c1 := code;
      var kind := NotValue(d1, st1, e1, held);
      ghost var (st2, e2) := (CodeSpec.NotValue(st1, e1).0, e1.(kind := kind));
      ghost var c2 := code;
      d' := ExpDesc(kind, d1.f, d1.t);
      DescribesParts(code, d1.(kind := kind), e2, held);
      RemovedDesc(code, st2, d1.(kind := kind), e2, jpc, held);
      RemoveValues(d'.f, e1.t);
      RemoveValues(d'.t, e1.f);
      KeptTwice(old(code), c1, c2, held);
      KeptTwice(old(code), c2, code, held);
    }

    /** codecomp; the left operand went through exp2RK before the right one was read. */
    method CodeComp(op: CmpOp, cond: bool, d1: ExpDesc, d2: ExpDesc, ghost st: St, ghost e1: Exp, ghost e2: Exp,
      ghost held: seq<int>) returns (d': ExpDesc)
      requires Holds(st, e2, d2, held) && IsPlain(d1, e1) && (e1.kind.VK? ==> e1.kind.info <= MAXINDEXRK)
      modifies this`code, this`peak, this`jpc, this`err, this`k, this`lasttarget, this`freereg, this`maxstack
      ensures Grown(old(|code|), old(peak))
      ensures var (st', e') := CodeSpec.CodeComp(st, op, cond, e1, e2);
        Holds(st', e', d', held) && Kept(old(code), code, held)
    {
      hide IsList, Stored, Kept, Disjoint, Describes, Own, CodeSpec.CondJump, CodeSpec.Exp2RK;
      PlainHolds(code, d1, e1, Own(e2) + held);
      PlainAgain(st, e1);
      var d1', o1 := Exp2RK(d1, st, e1, Own(e2) + held);
      var d2', o2 := Exp2RK(d2, st, e2, held);
      ghost var (st2, e2', o2') := CodeSpec.Exp2RK(st, e2);
      PlainOwn(e2');
      assert [] + held == held;
      ghost var c1 := code;
      FreeExp(d2', st2, e2', held);
      FreeExp(d1, CodeSpec.FreeExp(st2, e2'), e1, held);
      ghost var st3 := CodeSpec.FreeExp(CodeSpec.FreeExp(st2, e2'), e1);
      StoredLong(code, st3.code, st3.jpc + held);
      var accept := cond;
      if !cond && op != CmpEq { o1, o2 := o2, o1; accept := true; }
      var j := CondJump(Cmp(op, accept, o1, o2), st3, held);
      KeptTwice(old(code), c1, code, held);
      d' := ExpDesc(VJmp(j), NO_JUMP, NO_JUMP);
      JumpDesc(code, j, held);
    }

    /** The calls subexpr makes while it parses x. */
    method Compile(x: Expr, ghost st: St, ghost held: seq<int>) returns (d: ExpDesc)
      requires Rep(st, held)
      modifies this
      ensures Grown(old(|code|), old(peak))
      ensures var (st', e) := CodeSpec.Compile(st, x);
        Holds(st', e, d, held) && Kept(old(code), code, held)
      decreases x, 1
    {
      hide IsList, Stored, Kept, Disjoint, Describes, Own, CodeSpec.AddK, CodeSpec.DischargeVars, CodeSpec.CodeNot,
        CodeSpec.GoIfTrue, CodeSpec.GoIfFalse, CodeSpec.CodeComp, CodeSpec.Exp2RK;
      KeptSame(code, st.code, st.jpc + held, held);
      match x {
        case ENil => d := Constant(VNil, st, held);
        case ETrue => d := Constant(VTrue, st, held);
        case EFalse => d := Constant(VFalse, st, held);
        case ENum(n) => d := Constant(VKNum(n), st, held);
        case EStr(s) =>
          var i := AddK(Str(s), st, held);
          d := Constant(VK(i), CodeSpec.AddK(st, Str(s)).0, held);
        case ELocal(r) => d := Constant(VLocal(r), st, held);
        case EGlobal(name) =>
          var i := AddK(Str(name), st, held);
          d := Constant(VGlobal(i), CodeSpec.AddK(st, Str(name)).0, held);
        case EParen(a) =>
          var d1 := Compile(a, st, held);
          ghost var c1 := code;
          d := DischargeVars(d1, CodeSpec.Compile(st, a).0, CodeSpec.Compile(st, a).1, held);
          KeptTwice(old(code), c1, code, held);
        case ENot(a) =>
          var d1 := Compile(a, st, held);
          ghost var c1 := code;
          d := CodeNot(d1, CodeSpec.Compile(st, a).0, CodeSpec.Compile(st, a).1, held);
          KeptTwice(old(code), c1, code, held);
        case EAnd(_, _) => d := CompileAnd(x, st, held);
        case EOr(_, _) => d := CompileOr(x, st, held);
        case ERel(_, _, _) => d := CompileRel(x, st, held);
      }
    }

    /** `a and b`. */
    method CompileAnd(x: Expr, ghost st: St, ghost held: seq<int>) returns (d: ExpDesc)
      requires Rep(st, held) && x.EAnd?
      modifies this
      ensures Grown(old(|code|), old(peak))
      ensures var (st', e) := CodeSpec.Compile(st, x);
        Holds(st', e, d, held) && Kept(old(code), code, held)
      decreases x, 0
    {
      hide IsList, Stored, Kept, Disjoint, Describes, Own, CodeSpec.AddK, CodeSpec.DischargeVars, CodeSpec.CodeNot,
        CodeSpec.GoIfTrue, CodeSpec.GoIfFalse, CodeSpec.CodeComp, CodeSpec.Exp2RK;
      var a, b := x.l, x.r;
      var d1 := Compile(a, st, held);
      ghost var (st1, e1) := CodeSpec.Compile(st, a);
      ghost var c1 := code;
      var f := GoIfTrue(d1, st1, e1, held);
      ghost var (st2, e2) := CodeSpec.GoIfTrue(st1, e1);
      KeptTwice(old(code), c1, code, held);
      ghost var c2 := code;
      var d3 := Compile(b, st2, e2.f + held);
      ghost var (st3, e3) := CodeSpec.Compile(st2, b);
      ghost var c3 := code;
      d := DischargeVars(d3, st3, e3, e2.f + held);
      KeptTwice(c2, c3, code, e2.f + held);
      KeptLess(c2, code, held, e2.f + held);
      KeptTwice(old(code), c2, code, held);
      ListKept(c2, code, f, e2.f, e2.f + held);
      ghost var c4 := code;
      d := JoinFalse(d, f, CodeSpec.DischargeVars(st3, e3).0, CodeSpec.DischargeVars(st3, e3).1, e2.f, held);
      KeptTwice(old(code), c4, code, held);
    }

    /** `a or b`. */
    method CompileOr(x: Expr, ghost st: St, ghost held: seq<int>) returns (d: ExpDesc)
      requires Rep(st, held) && x.EOr?
      modifies this
      ensures Grown(old(|code|), old(peak))
      ensures var (st', e) := CodeSpec.Compile(st, x);
        Holds(st', e, d, held) && Kept(old(code), code, held)
      decreases x, 0
    {
      hide IsList, Stored, Kept, Disjoint, Describes, Own, CodeSpec.AddK, CodeSpec.DischargeVars, CodeSpec.CodeNot,
        CodeSpec.GoIfTrue, CodeSpec.GoIfFalse, CodeSpec.CodeComp, CodeSpec.Exp2RK;
      var a, b := x.l, x.r;
      var d1 := Compile(a, st, held);
      ghost var (st1, e1) := CodeSpec.Compile(st, a);
      ghost var c1 := code;
      var t := GoIfFalse(d1, st1, e1, held);
      ghost var (st2, e2) := CodeSpec.GoIfFalse(st1, e1);
      KeptTwice(old(code), c1, code, held);
      ghost var c2 := code;
      var d3 := Compile(b, st2, e2.t + held);
      ghost var (st3, e3) := CodeSpec.Compile(st2, b);
      ghost var c3 := code;
      d := DischargeVars(d3, st3, e3, e2.t + held);
      KeptTwice(c2, c3, code, e2.t + held);
      KeptLess(c2, code, held, e2.t + held);
      KeptTwice(old(code), c2, code, held);
      ListKept(c2, code, t, e2.t, e2.t + held);
      ghost var c4 := code;
      d := JoinTrue(d, t, CodeSpec.DischargeVars(st3, e3).0, CodeSpec.DischargeVars(st3, e3).1, e2.t, held);
      KeptTwice(old(code), c4, code, held);
    }

    /** A comparison. */
    method CompileRel(x: Expr, ghost st: St, ghost held: seq<int>) returns (d: ExpDesc)
      requires Rep(st, held) && x.ERel?
      modifies this
      ensures Grown(old(|code|), old(peak))
      ensures var (st', e) := CodeSpec.Compile(st, x);
        Holds(st', e, d, held) && Kept(old(code), code, held)
      decreases x, 0
    {
      hide IsList, Stored, Kept, Disjoint, Describes, Own, CodeSpec.AddK, CodeSpec.DischargeVars, CodeSpec.CodeNot,
        CodeSpec.GoIfTrue, CodeSpec.GoIfFalse, CodeSpec.CodeComp, CodeSpec.Exp2RK;
      var op, a, b := x.op, x.l, x.r;
      var d1 := Compile(a, st, held);
      ghost var (st1, e1) := CodeSpec.Compile(st, a);
      ghost var c1 := code;
      var d2, o := Exp2RK(d1, st1, e1, held);
      ghost var (st2, e2, o') := CodeSpec.Exp2RK(st1, e1);
      KeptTwice(old(code), c1, code, held);
      PlainOwn(e2);
      assert [] + held == held;
      ghost var c2 := code;
      var d3 := Compile(b, st2, held);
      ghost var (st3, e3) := CodeSpec.Compile(st2, b);
      KeptTwice(old(code), c2, code, held);
      ghost var c3 := code;
      SmallConstant(st1, e1);
      d := CodeComp(OpOf(op).0, OpOf(op).1, d2, d3, st3, e2, e3, held);
      KeptTwice(old(code), c3, code, held);
    }

    /** init_exp for a leaf of the expression. */
    method Constant(kind: Kind, ghost st: St, ghost held: seq<int>) returns (d: ExpDesc)
      requires Rep(st, held) && !kind.VJmp? && !kind.VReloc?
      ensures Holds(st, Exp(kind, [], []), d, held)
    {
      hide IsList, Stored, Kept, Disjoint, Describes, Own;
      PlainDesc(code, kind, held);
      d := ExpDesc(kind, NO_JUMP, NO_JUMP);
    }

    /** The end of posfix for `and`: the false list of the left operand joins that of the right one. */
    method JoinFalse(d: ExpDesc, f: int, ghost st: St, ghost e: Exp, ghost out: seq<int>, ghost held: seq<int>) returns (d': ExpDesc)
      requires Holds(st, e, d, out + held) && IsList(code, f, out) && Disjoint(out, held)
      modifies this`code, this`err
      ensures |code| == |old(code)|
      ensures Holds(st, e.(f := e.f + out), d', held) && Kept(old(code), code, held)
    {
      hide IsList, Stored, Kept, Disjoint, Describes, Own;
      JoinReady(st.jpc, d, e, code, out, held, false);
      ghost var c0 := code;
      StoredLong(code, st.code, st.jpc + (Own(e) + (out + held)));
      var head := Concat(d.f, f, e.f, out);
      JoinedDesc(c0, code, st.code, st.jpc, jpc, d, e, head, out, held, false);
      d' := d.(f := head);
    }

    /** The end of posfix for `or`. */
    method JoinTrue(d: ExpDesc, t: int, ghost st: St, ghost e: Exp, ghost out: seq<int>, ghost held: seq<int>) returns (d': ExpDesc)
      requires Holds(st, e, d, out + held) && IsList(code, t, out) && Disjoint(out, held)
      modifies this`code, this`err
      ensures |code| == |old(code)|
      ensures Holds(st, e.(t := e.t + out), d', held) && Kept(old(code), code, held)
    {
      hide IsList, Stored, Kept, Disjoint, Describes, Own;
      JoinReady(st.jpc, d, e, code, out, held, true);
      ghost var c0 := code;
      StoredLong(code, st.code, st.jpc + (Own(e) + (out + held)));
      var head := Concat(d.t, t, e.t, out);
      JoinedDesc(c0, code, st.code, st.jpc, jpc, d, e, head, out, held, true);
      d' := d.(t := head);
    }

    /** `return x` (luaK_ret): the code, when no error was raised, is exactly that of the specification,
        every jump tied down. */
    method CompileReturn(x: Expr, ghost st: St)
      requires Rep(st, []) && peak == |code|
      modifies this
      ensures Grown(old(|code|), old(peak))
      ensures var st' := CodeSpec.CompileReturn(st, x);
        && code == st'.code && k == st'.k && (st'.err ==> err)
        && (st'.maxstack >= MAXSTACK ==> err) && (err ==> st'.maxstack >= MAXSTACK || |code| >= MAXARG_SBX)
    {
      hide IsList, Stored, Kept, Disjoint, Describes, Own, CodeSpec.Exp2AnyReg, CodeSpec.Compile, PatchList;
      var d := Compile(x, st, []);
      ghost var (st1, e1) := CodeSpec.Compile(st, x);
      var d2 := Exp2AnyReg(d, st1, e1, []);
      ghost var (st2, e2) := CodeSpec.Exp2AnyReg(st1, e1);
      HeadsAre(code, d2, e2);
      PlainOwn(e2);
      ghost var none: seq<int> := [];
      assert none + none == none;
      var pc := Code(Return(d2.kind.info, 2), st2, none);
      NothingLoose(code, Emit(st2, Return(d2.kind.info, 2)).code);
    }

    /** `v = x` for a local v in register reg (luaK_storevar). */
    method CompileAssign(x: Expr, reg: int, ghost st: St)
      requires Rep(st, [])
      modifies this
      ensures Grown(old(|code|), old(peak))
      ensures Rep(CodeSpec.CompileAssign(st, x, reg), [])
    {
      hide IsList, Stored, Kept, Disjoint, Describes, Own, CodeSpec.Exp2Reg, CodeSpec.Compile;
      var d := Compile(x, st, []);
      ghost var (st1, e1) := CodeSpec.Compile(st, x);
      KindIs(code, d, e1);
      FreeExp(d, st1, e1, Own(e1) + []);
      d := Exp2Reg(d, reg, CodeSpec.FreeExp(st1, e1), e1, []);
      ghost var e2 := CodeSpec.Exp2Reg(CodeSpec.FreeExp(st1, e1), e1, reg).1;
      HeadsAre(code, d, e2);
      PlainOwn(e2);
      ghost var none: seq<int> := [];
      assert Own(e2) + none == none;
    }
  }

  lemma NoneApart(rest: seq<int>)
    ensures Disjoint([], rest)
  {
  }

  lemma HeadIs(code: seq<Instr>, head: int, l: seq<int>)
    requires IsList(code, head, l)
    ensures head == NO_JUMP <==> l == []
  {
  }

  lemma NeedSame(code: seq<Instr>, plain: seq<Instr>, loose: seq<int>, l: seq<int>)
    requires Stored(code, plain, loose)
    ensures CodeSpec.NeedValue(code, l) <==> CodeSpec.NeedValue(plain, l)
  {
    forall j ensures TestSetJump(code, j) <==> TestSetJump(plain, j) {
      if 0 < j < |code| { SameAt(code, plain, loose, j - 1); }
    }
  }

  lemma ClosingApart(jumps: seq<int>, e: Exp, held: seq<int>)
    requires Disjoint(jumps, e.t + e.f + held) && Disjoint(e.t, e.f) && Disjoint(e.t + e.f, held)
    ensures Disjoint(e.f, e.t + (jumps + held)) && Disjoint(e.t, jumps + held) && Disjoint(jumps, held)
    ensures forall p :: p in jumps + (e.t + e.f + held) <==> p in e.f || p in e.t + (jumps + held)
    ensures forall p :: p in e.t + (jumps + held) <==> p in e.t || p in jumps + held
  {
    assert forall p :: p in e.t || p in e.f <==> p in e.t + e.f;
    assert forall p :: p in e.t || p in e.f || p in held <==> p in e.t + e.f + held;
    assert forall p :: p in jumps || p in held <==> p in jumps + held;
  }

  /** The parts of a descriptor, and how they lie to the lists on hold. */
  lemma DescribesParts(code: seq<Instr>, d: ExpDesc, e: Exp, held: seq<int>)
    requires Describes(code, d, e) && Disjoint(Own(e), held)
    ensures d.kind == e.kind && IsList(code, d.t, e.t) && IsList(code, d.f, e.f) && Disjoint(e.t, e.f)
    ensures Disjoint(e.t + e.f, held)
  {
    hide IsList;
    assert forall p :: p in e.t + e.f ==> p in Own(e);
  }

  lemma StoredParts(code: seq<Instr>, plain: seq<Instr>, jpc: seq<int>, e: Exp, held: seq<int>)
    requires Stored(code, plain, jpc + (Own(e) + held))
    ensures !e.kind.VJmp? ==> Own(e) + held == e.t + e.f + held
  {
  }

  lemma JoinApart(code: seq<Instr>, d: ExpDesc, e: Exp, held: seq<int>)
    requires Describes(code, d, e) && Disjoint(Own(e), held) && e.kind.VJmp?
    ensures var j := e.kind.info;
      && IsList(code, j, [j]) && Disjoint(e.t, [j]) && Disjoint(JoinJmp(e).t, e.f) && Disjoint(JoinJmp(e).t + e.f, held)
  {
    assert forall p :: p in e.t || p in e.f || p == e.kind.info <==> p in Own(e);
  }

  lemma JoinStored(code: seq<Instr>, code': seq<Instr>, plain: seq<Instr>, jpc: seq<int>, e: Exp, held: seq<int>)
    requires Stored(code, plain, jpc + (Own(e) + held)) && e.kind.VJmp? && |code'| == |code|
    requires Disjoint(jpc, Own(e) + held) && Disjoint(Own(e), held) && Disjoint(e.t, e.f)
    requires forall p :: 0 <= p < |code| ==> code'[p] == code[p] || (p in e.t && code'[p].Jmp? && code[p].Jmp?)
    ensures Stored(code', plain, jpc + (JoinJmp(e).t + e.f + held)) && Disjoint(jpc, JoinJmp(e).t + e.f + held)
    ensures Kept(code, code', e.f + jpc + held)
  {
    hide Stored, Kept, Disjoint;
    JoinOrder(jpc, e, held);
    ConcatStored(code, code', plain, jpc + (Own(e) + held), e.t, e.f + jpc + held);
    SameLoose(code', plain, jpc + (Own(e) + held), jpc + (JoinJmp(e).t + e.f + held));
  }

  lemma JoinOrder(jpc: seq<int>, e: Exp, held: seq<int>)
    requires e.kind.VJmp? && Disjoint(jpc, Own(e) + held) && Disjoint(Own(e), held) && Disjoint(e.t, e.f)
    ensures forall p :: p in jpc + (Own(e) + held) <==> p in jpc + (JoinJmp(e).t + e.f + held)
    ensures forall p :: p in e.t ==> p in jpc + (Own(e) + held)
    ensures forall p :: p in e.f + jpc + held ==> p in jpc + (Own(e) + held)
    ensures Disjoint(e.t, e.f + jpc + held) && Disjoint(jpc, JoinJmp(e).t + e.f + held)
  {
    assert forall p :: p in e.t || p in e.f || p == e.kind.info <==> p in Own(e);
    assert forall p :: p in Own(e) || p in held <==> p in Own(e) + held;
    assert forall p :: p in JoinJmp(e).t + e.f + held <==> p in Own(e) + held;
  }

  /** A descriptor without jumps. */
  lemma PlainDesc(code: seq<Instr>, kind: Kind, held: seq<int>)
    requires !kind.VJmp? && !kind.VReloc?
    ensures var d, e := ExpDesc(kind, NO_JUMP, NO_JUMP), Exp(kind, [], []);
      Describes(code, d, e) && Own(e) == [] && Disjoint(Own(e), held) && Own(e) + held == held
  {
  }

  /** A constant of the table or a register, with no jumps. */
  predicate IsPlain(d: ExpDesc, e: Exp) {
    (d.kind.VK? || d.kind.VNonReloc?) && d.kind == e.kind && d.t == NO_JUMP && d.f == NO_JUMP && e.t == [] && e.f == []
  }

  lemma HeadsAre(code: seq<Instr>, d: ExpDesc, e: Exp)
    requires Describes(code, d, e)
    ensures d.kind == e.kind && (d.t == NO_JUMP <==> e.t == []) && (d.f == NO_JUMP <==> e.f == [])
    ensures e.kind.VReloc? ==> 0 <= e.kind.info == |code| - 1 && !code[e.kind.info].Jmp?
  {
    HeadIs(code, d.t, e.t);
    HeadIs(code, d.f, e.f);
  }

  /** Two stored forms of one descriptor are the same. */
  lemma SameDesc(code: seq<Instr>, d: ExpDesc, d': ExpDesc, e: Exp)
    requires Describes(code, d, e) && Describes(code, d', e)
    ensures d == d'
  {
  }

  lemma DischargeTwice(st: St, e: Exp)
    ensures var (st', e') := CodeSpec.DischargeVars(st, e);
      CodeSpec.DischargeVars(st', e') == (st', e') && (e.kind.VNonReloc? || e.kind.VK? ==> st' == st && e' == e)
    ensures var e' := CodeSpec.DischargeVars(st, e).1; e'.t == e.t && e'.f == e.f
  {
  }

  lemma JumpList(code: seq<Instr>, j: int, n: int)
    requires IsList(code, j, [n] + [])
    ensures j == n && IsList(code, j, [n])
  {
    assert [n] + [] == [n];
  }

  lemma InvertDesc(code: seq<Instr>, pc: int, d: ExpDesc, e: Exp)
    requires Describes(code, d, e) && e.kind.VJmp? && pc == JumpControl(code, e.kind.info)
    ensures pc == e.kind.info - 1 && code[pc].Cmp?
    ensures Describes(code[pc := code[pc].(accept := !code[pc].accept)], d, e)
  {
    var code' := code[pc := code[pc].(accept := !code[pc].accept)];
    ListFrame(code, code', d.t, e.t);
    ListFrame(code, code', d.f, e.f);
    ListFrame(code, code', e.kind.info, [e.kind.info]);
  }

  lemma ListsKept(code: seq<Instr>, code': seq<Instr>, d: ExpDesc, e: Exp, held: seq<int>)
    requires Describes(code, d, e) && Kept(code, code', Own(e) + held)
    ensures IsList(code', d.t, e.t) && IsList(code', d.f, e.f) && Kept(code, code', held)
  {
    hide IsList, Kept;
    OwnIs(e);
    ListKept(code, code', d.t, e.t, Own(e) + held);
    ListKept(code, code', d.f, e.f, Own(e) + held);
    KeptLess(code, code', held, Own(e) + held);
  }

  lemma AnyRegIs(st: St, e: Exp)
    requires !e.kind.VJmp?
    ensures var e' := CodeSpec.Discharge2AnyReg(st, e).1; e'.kind.VNonReloc? && e'.t == e.t && e'.f == e.f
  {
  }

  lemma SameHeads(code: seq<Instr>, code': seq<Instr>, d: ExpDesc, e: Exp, d': ExpDesc, e': Exp)
    requires Describes(code, d, e) && Describes(code', d', e') && e.t == e'.t && e.f == e'.f
    ensures d.t == d'.t && d.f == d'.f
  {
  }

  lemma BranchApart(jpc: seq<int>, here: seq<int>, out: seq<int>, js: seq<int>, held: seq<int>)
    requires Disjoint(jpc, js + (here + out + held)) && Disjoint(js, here + out + held)
    requires Disjoint(here, out) && Disjoint(here + out, held)
    ensures Disjoint(out, js) && Disjoint(out, jpc + here + held) && Disjoint(out + js, held)
    ensures Disjoint(here, out + js + held) && Disjoint(jpc, here + (out + js + held))
    ensures forall p :: p in jpc + (js + (here + out + held)) <==> p in jpc + (here + (out + js + held))
    ensures forall p :: p in out || p in jpc + here + held ==> p in jpc + (js + (here + out + held))
  {
    assert forall p :: p in here || p in out <==> p in here + out;
    assert forall p :: p in here + out || p in held <==> p in here + out + held;
    assert forall p :: p in js || p in here + out + held <==> p in js + (here + out + held);
    assert forall p :: p in out || p in js || p in held <==> p in out + js + held;
    assert forall p :: p in here || p in out + js + held <==> p in here + (out + js + held);
  }

  /** A condition has its last jump: that of the comparison, none, or a new one. */
  ghost predicate Ready(code: seq<Instr>, code': seq<Instr>, d: ExpDesc, e: Exp, pc: int, js: seq<int>, held: seq<int>) {
    if e.kind.VJmp? then Describes(code', d, e) && pc == e.kind.info && js == [pc]
    else if js == [] then pc == NO_JUMP && code' == code
    else
      && js == [pc] && IsList(code', d.t, e.t) && IsList(code', d.f, e.f) && IsList(code', pc, js)
      && Disjoint(js, Own(e) + held)
  }

  /** The lists of a descriptor and the jump that is to join one of them. */
  lemma BranchParts(code: seq<Instr>, code': seq<Instr>, d: ExpDesc, e: Exp, pc: int, js: seq<int>, held: seq<int>,
    loose: seq<int>)
    requires Describes(code, d, e) && Disjoint(Own(e), held)
    requires loose == if e.kind.VJmp? || js == [] then Own(e) + held else js + (Own(e) + held)
    requires Ready(code, code', d, e, pc, js, held)
    ensures IsList(code', d.t, e.t) && IsList(code', d.f, e.f) && IsList(code', pc, js)
    ensures Disjoint(js, e.t + e.f + held) && Disjoint(e.t, e.f) && Disjoint(e.t + e.f, held)
    ensures forall p :: p in loose <==> p in js + (e.t + e.f + held)
  {
    hide IsList;
    EmptyList(code');
    assert forall p :: p in Own(e) <==> p in e.t + e.f || (e.kind.VJmp? && p == e.kind.info);
    assert forall p :: p in e.t + e.f <==> p in e.t || p in e.f;
    assert forall p :: p in Own(e) + held <==> p in Own(e) || p in held;
    assert forall p :: p in e.t + e.f + held <==> p in e.t + e.f || p in held;
    assert forall p :: p in js + (Own(e) + held) <==> p in js || p in Own(e) + held;
  }

  lemma Exchanged(e: Exp, js: seq<int>, held: seq<int>)
    requires Disjoint(js, e.t + e.f + held) && Disjoint(e.t, e.f) && Disjoint(e.t + e.f, held)
    ensures Disjoint(js, e.f + e.t + held) && Disjoint(e.f, e.t) && Disjoint(e.f + e.t, held)
    ensures forall p :: p in js + (e.t + e.f + held) <==> p in js + (e.f + e.t + held)
  {
    assert forall p :: p in e.f + e.t <==> p in e.t + e.f;
    assert forall p :: p in e.f + e.t + held <==> p in e.t + e.f + held;
  }

  /** The descriptor of codenot once the lists are exchanged and value-less. */
  lemma RemovedDesc(code: seq<Instr>, st: St, d: ExpDesc, e: Exp, jpc: int, held: seq<int>)
    requires Describes(code, d, e) && Stored(code, st.code, st.jpc + (Own(e) + held)) && IsList(code, jpc, st.jpc)
    requires Disjoint(st.jpc, Own(e) + held) && Disjoint(Own(e), held)
    ensures var e' := Exp(e.kind, e.f, e.t);
      var code', plain' := CodeSpec.RemoveValues(CodeSpec.RemoveValues(code, e.t), e.f),
        CodeSpec.RemoveValues(CodeSpec.RemoveValues(st.code, e.t), e.f);
      && Describes(code', ExpDesc(d.kind, d.f, d.t), e') && Stored(code', plain', st.jpc + (Own(e') + held))
      && IsList(code', jpc, st.jpc) && Disjoint(st.jpc, Own(e') + held) && Disjoint(Own(e'), held)
      && Kept(code, code', held) && IsList(CodeSpec.RemoveValues(code, e.t), d.f, e.f)
  {
    hide IsList, Stored, Kept, CodeSpec.RemoveValues;
    var loose := st.jpc + (Own(e) + held);
    var e' := Exp(e.kind, e.f, e.t);
    var c1, c2 := CodeSpec.RemoveValues(code, e.t), CodeSpec.RemoveValues(CodeSpec.RemoveValues(code, e.t), e.f);
    assert forall p :: p in Own(e') <==> p in Own(e);
    assert forall p :: p in Own(e') + held <==> p in Own(e) + held;
    RemoveStored(code, st.code, loose, e.t);
    RemoveStored(c1, CodeSpec.RemoveValues(st.code, e.t), loose, e.f);
    KeptTwice(code, c1, c2, loose);
    KeptLess(code, c1, e.f, loose);
    ListKept(code, c1, d.f, e.f, loose);
    ListKept(code, c2, d.t, e.t, loose);
    ListKept(code, c2, d.f, e.f, loose);
    ListKept(code, c2, jpc, st.jpc, loose);
    KeptLess(code, c2, held, loose);
    if e.kind.VJmp? { ListKept(code, c2, e.kind.info, [e.kind.info], loose); }
    RemovedAt(code, e.t, e.kind);
    RemovedAt(c1, e.f, e.kind);
    SameLoose(c2, CodeSpec.RemoveValues(CodeSpec.RemoveValues(st.code, e.t), e.f), loose, st.jpc + (Own(e') + held));
  }

  lemma RemovedAt(code: seq<Instr>, l: seq<int>, kind: Kind)
    ensures var code' := CodeSpec.RemoveValues(code, l);
      && |code'| == |code|
      && (kind.VReloc? && 0 <= kind.info < |code| && !code[kind.info].Jmp? ==> !code'[kind.info].Jmp?)
      && (kind.VJmp? && 0 < kind.info < |code| && code[kind.info - 1].Cmp? ==> code'[kind.info - 1].Cmp?)
  {
  }

  lemma PlainHolds(code: seq<Instr>, d: ExpDesc, e: Exp, held: seq<int>)
    requires IsPlain(d, e)
    ensures Describes(code, d, e) && Disjoint(Own(e), held) && Own(e) + held == held
  {
  }

  lemma PlainOwn(e: Exp)
    requires !e.kind.VJmp? && e.t == [] && e.f == []
    ensures Own(e) == []
  {
  }

  lemma PlainAgain(st: St, e: Exp)
    requires (e.kind.VK? || e.kind.VNonReloc?) && e.t == [] && e.f == [] && (e.kind.VK? ==> e.kind.info <= MAXINDEXRK)
    ensures var (st', e', o) := CodeSpec.Exp2RK(st, e); st' == st && e' == e
  {
  }

  lemma SmallConstant(st: St, e: Exp)
    ensures var e' := CodeSpec.Exp2RK(st, e).1; e'.kind.VK? ==> e'.kind.info <= MAXINDEXRK
  {
    hide CodeSpec.Exp2Val, CodeSpec.Exp2AnyReg;
    AnyRegKind(CodeSpec.Exp2Val(st, e).0, CodeSpec.Exp2Val(st, e).1);
  }

  lemma AnyRegKind(st: St, e: Exp)
    ensures CodeSpec.Exp2AnyReg(st, e).1.kind.VNonReloc?
  {
  }

  lemma JumpDesc(code: seq<Instr>, j: int, held: seq<int>)
    requires IsList(code, j, [j]) && Disjoint([j], held) && 0 < j < |code| && code[j - 1].Cmp?
    ensures var d, e := ExpDesc(VJmp(j), NO_JUMP, NO_JUMP), Exp(VJmp(j), [], []);
      Describes(code, d, e) && Own(e) == [j] && Disjoint(Own(e), held)
  {
  }

  function JoinedExp(e: Exp, out: seq<int>, cond: bool): Exp {
    if cond then e.(t := e.t + out) else e.(f := e.f + out)
  }

  lemma JoinReady(jpc: seq<int>, d: ExpDesc, e: Exp, code: seq<Instr>, out: seq<int>, held: seq<int>, cond: bool)
    requires Describes(code, d, e) && Disjoint(Own(e), out + held) && Disjoint(out, held)
    ensures IsList(code, d.t, e.t) && IsList(code, d.f, e.f) && Disjoint(if cond then e.t else e.f, out)
  {
    hide IsList;
    assert forall p :: p in out ==> p in out + held;
    assert forall p :: p in e.t || p in e.f ==> p in Own(e);
  }

  lemma JoinedDesc(code: seq<Instr>, code': seq<Instr>, plain: seq<Instr>, jpc: seq<int>, jpcHead: int, d: ExpDesc, e: Exp,
    head: int, out: seq<int>, held: seq<int>, cond: bool)
    requires Stored(code, plain, jpc + (Own(e) + (out + held))) && Describes(code, d, e) && IsList(code, jpcHead, jpc)
    requires Disjoint(jpc, Own(e) + (out + held)) && Disjoint(Own(e), out + held) && Disjoint(out, held) && |code'| == |code|
    requires var a := if cond then e.t else e.f;
      && IsList(code', head, a + out)
      && forall p :: 0 <= p < |code| ==> code'[p] == code[p] || (p in a && code'[p].Jmp? && code[p].Jmp?)
    ensures var e', d' := JoinedExp(e, out, cond), if cond then d.(t := head) else d.(f := head);
      && Stored(code', plain, jpc + (Own(e') + held)) && Describes(code', d', e') && IsList(code', jpcHead, jpc)
      && Disjoint(jpc, Own(e') + held) && Disjoint(Own(e'), held) && Kept(code, code', held)
  {
    hide IsList, Stored, Kept;
    var a, other := if cond then e.t else e.f, if cond then e.f else e.t;
    var js := if e.kind.VJmp? then [e.kind.info] else [];
    var e' := JoinedExp(e, out, cond);
    var loose := jpc + (Own(e) + (out + held));
    var rest := jpc + other + js + held;
    JoinedOrder(jpc, e, out, held, cond);
    ConcatStored(code, code', plain, loose, a, rest);
    ListKept(code, code', if cond then d.f else d.t, other, rest);
    ListKept(code, code', jpcHead, jpc, rest);
    KeptLess(code, code', held, rest);
    if e.kind.VJmp? { ListKept(code, code', e.kind.info, [e.kind.info], rest); }
    SameLoose(code', plain, loose, jpc + (Own(e') + held));
  }

  lemma JoinedOrder(jpc: seq<int>, e: Exp, out: seq<int>, held: seq<int>, cond: bool)
    requires Disjoint(jpc, Own(e) + (out + held)) && Disjoint(Own(e), out + held) && Disjoint(out, held) && Disjoint(e.t, e.f)
    requires e.kind.VJmp? ==> e.kind.info !in e.t && e.kind.info !in e.f
    ensures var a, other := if cond then e.t else e.f, if cond then e.f else e.t;
      var js := if e.kind.VJmp? then [e.kind.info] else [];
      var e' := JoinedExp(e, out, cond);
      var loose, rest := jpc + (Own(e) + (out + held)), jpc + other + js + held;
      && (forall p :: p in a || p in rest ==> p in loose) && Disjoint(a, rest)
      && (forall p :: p in loose <==> p in jpc + (Own(e') + held))
      && Disjoint(jpc, Own(e') + held) && Disjoint(Own(e'), held) && Disjoint(e'.t, e'.f)
      && (e.kind.VJmp? ==> e.kind.info !in e'.t && e.kind.info !in e'.f)
  {
    var e' := JoinedExp(e, out, cond);
    assert forall p :: p in Own(e) <==> p in e.t || p in e.f || (e.kind.VJmp? && p == e.kind.info);
    assert forall p :: p in Own(e') <==> p in Own(e) || p in out;
    assert forall p :: p in out + held <==> p in out || p in held;
    assert forall p :: p in Own(e) + (out + held) <==> p in Own(e) || p in out + held;
    assert forall p :: p in Own(e') + held <==> p in Own(e) + (out + held);
  }

  lemma KindIs(code: seq<Instr>, d: ExpDesc, e: Exp)
    requires Describes(code, d, e)
    ensures d.kind == e.kind
    ensures e.kind.VReloc? ==> 0 <= e.kind.info == |code| - 1 && !code[e.kind.info].Jmp?
    ensures e.kind.VJmp? ==> 0 < e.kind.info < |code| && code[e.kind.info - 1].Cmp?
  {
  }

  /** Nothing has changed yet. */
  lemma HeldKept(code: seq<Instr>, plain: seq<Instr>, jpc: seq<int>, e: Exp, held: seq<int>)
    requires Stored(code, plain, jpc + (Own(e) + held))
    ensures Kept(code, code, held) && Kept(code, code, Own(e) + held)
  {
    hide Own;
    KeptSame(code, plain, jpc + (Own(e) + held), held);
    KeptSame(code, plain, jpc + (Own(e) + held), Own(e) + held);
  }

  lemma PendingKept(code: seq<Instr>, code': seq<Instr>, head: int, l: seq<int>, rest: seq<int>)
    requires IsList(code, head, l) && Kept(code, code', l + rest)
    ensures IsList(code', head, l)
  {
    ListKept(code, code', head, l, l + rest);
  }

  lemma Discharged(st: St, e: Exp)
    ensures var (st', e') := CodeSpec.DischargeVars(st, e);
      && !e'.kind.VLocal? && !e'.kind.VGlobal? && (e'.kind.VJmp? <==> e.kind.VJmp?) && e'.t == e.t && e'.f == e.f
  {
  }

  lemma AppendList(code: seq<Instr>, i: Instr, head: int, l: seq<int>)
    requires IsList(code, head, l)
    ensures IsList(code + [i], head, l)
  {
    ListFrame(code, code + [i], head, l);
  }

  lemma OneJump(code: seq<Instr>, plain: seq<Instr>, jpc: seq<int>, rest: seq<int>)
    requires Stored(code, plain, jpc + rest)
    ensures IsList(code + [Jmp(NO_JUMP)], |code|, [|code|]) && Disjoint([|code|], jpc)
  {
    forall p | p in jpc ensures p < |code| { assert p in jpc + rest; }
  }

  lemma StoredLong(code: seq<Instr>, plain: seq<Instr>, loose: seq<int>)
    requires Stored(code, plain, loose)
    ensures |code| == |plain|
  {
  }

  lemma PatchLong(code: seq<Instr>, l: seq<int>, vtarget: int, reg: int, dtarget: int)
    ensures |PatchList(code, l, vtarget, reg, dtarget)| == |code|
  {
  }

  lemma EmptyList(code: seq<Instr>)
    ensures IsList(code, NO_JUMP, [])
  {
  }

  /** A new last jump is apart from everything stored. */
  lemma NewApart(code: seq<Instr>, plain: seq<Instr>, jpc: seq<int>, rest: seq<int>)
    requires Stored(code, plain, jpc + rest) && Disjoint(jpc, rest)
    ensures Disjoint([|code|] + jpc, rest) && Disjoint([], ([|code|] + jpc) + rest)
  {
    forall p | p in rest ensures p < |code| { assert p in jpc + rest; }
  }

  lemma LooseApart(jpc: seq<int>, l: seq<int>, rest: seq<int>)
    requires Disjoint(jpc, l + rest) && Disjoint(l, rest)
    ensures Disjoint(jpc, l) && Disjoint(jpc + l, rest)
  {
    assert forall p :: p in l ==> p in l + rest;
    assert forall p :: p in rest ==> p in l + rest;
  }

  lemma ConcatStored(code: seq<Instr>, code': seq<Instr>, plain: seq<Instr>, loose: seq<int>, a: seq<int>, rest: seq<int>)
    requires Stored(code, plain, loose) && |code'| == |code| && (forall p :: p in a ==> p in loose) && (forall p :: p in rest ==> p in loose)
    requires forall p :: 0 <= p < |code| ==> code'[p] == code[p] || (p in a && code'[p].Jmp? && code[p].Jmp?)
    requires Disjoint(a, rest)
    ensures Stored(code', plain, loose) && Kept(code, code', rest)
  {
    assert forall p :: p in a ==> code'[p].Jmp?;
  }
}
