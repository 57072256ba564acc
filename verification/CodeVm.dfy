/** The interpreter loop of lvm.c for the instructions that expression code is made of. */
module CodeVm {
  import opened CodeMachine

  /** One running function: pc and its stack frame are updated in place. */
  class LuaState {
    const code: seq<Instr>
    const m: Machine
    var pc: int
    var frame: Regs
    var top: int

    constructor (code: seq<Instr>, m: Machine, frame: Regs)
      ensures this.code == code && this.m == m && pc == 0 && this.frame == frame
    {
      this.code, this.m := code, m;
      pc, this.frame, top := 0, frame, 0;
    }

    /** dojump with the offset of the jump behind a test. */
    method DoJump(taken: bool)
      requires 0 <= pc < |code| && code[pc].Jmp?
      modifies this`pc
      ensures pc == old(pc) + 1 + if taken then code[old(pc)].sbx else 0
    {
      if taken { pc := pc + code[pc].sbx; }
      pc := pc + 1;
    }

    /** OP_LOADNIL's loop: from R(B) down to R(A), at least once. */
    method LoadNils(a: int, b: int)
      modifies this`frame
      ensures frame == Nils(old(frame), a, b)
    {
      var rb := b;
      frame := frame[rb := Nil];
      rb := rb - 1;
      while rb >= a
        invariant rb < b && (rb >= a ==> Nils(frame, a, rb) == Nils(old(frame), a, b))
        invariant rb < a ==> frame == Nils(old(frame), a, b)
        decreases rb - a
      {
        frame := frame[rb := Nil];
        rb := rb - 1;
      }
    }

    /** One turn of luaV_execute. */
    method Turn()
      requires 0 <= pc < |code| && TestsPaired(code)
      modifies this`pc, this`frame
      ensures (pc, frame) == Step(code, m, old(pc), old(frame))
    {
      var i := code[pc];
      pc := pc + 1;
      match i {
        case Move(a, b) => frame := frame[a := Get(frame, b)];
        case LoadK(a, bx) => frame := frame[a := Kst(m, bx)];
        case LoadBool(a, value, skip) =>
          frame := frame[a := Bool(value)];
          if skip { pc := pc + 1; }
        case LoadNil(a, b) => LoadNils(a, b);
        case GetGlobal(a, bx) => frame := frame[a := Global(m, Kst(m, bx))];
        case Not(a, b) =>
          var res := !Truthy(Get(frame, b));
          frame := frame[a := Bool(res)];
        case Jmp(sbx) => pc := pc + sbx;
        case Cmp(op, accept, b, c) =>
          var res := Compare(m, op, RK(m, frame, b), RK(m, frame, c));
          DoJump(res == accept);
        case Test(a, cond) =>
          var isFalse := !Truthy(Get(frame, a));
          DoJump(isFalse != cond);
        case TestSet(a, b, cond) =>
          var isFalse := !Truthy(Get(frame, b));
          if isFalse != cond { frame := frame[a := Get(frame, b)]; }
          DoJump(isFalse != cond);
        case Return(_, _) =>
      }
    }

    /** The loop, for a number of turns or until the function returns or pc leaves the code. */
    method Execute(turns: nat)
      requires TestsPaired(code)
      modifies this`pc, this`frame
      ensures (pc, frame) == Steps(code, m, old(pc), old(frame), turns)
    {
      var i := 0;
      while i < turns && 0 <= pc < |code| && !code[pc].Return?
        invariant i <= turns && Steps(code, m, pc, frame, turns - i) == Steps(code, m, old(pc), old(frame), turns)
        decreases turns - i
      {
        Turn();
        i := i + 1;
      }
    }

    /** OP_RETURN with luaD_poscall: the caller gets as many values as it wants, all when that is -1;
        those not returned are nil. */
    method PosCall(wanted: int) returns (res: seq<Value>)
      requires 0 <= pc < |code| && code[pc].Return? && wanted >= -1
      modifies this`top
      ensures var vals := HandedBack(code[pc], frame, old(top));
        && |res| == (if wanted == -1 then |vals| else wanted)
        && forall k :: 0 <= k < |res| ==> res[k] == if k < |vals| then vals[k] else Nil
    {
      var ra, b := code[pc].a, code[pc].b;
      ghost var vals := HandedBack(code[pc], frame, top);
      if b != 0 { top := ra + b - 1; }
      res := [];
      var i, firstResult := wanted, ra;
      while i != 0 && firstResult < top
        invariant |res| == firstResult - ra && |res| <= |vals| && i == (if wanted == -1 then -1 - |res| else wanted - |res|)
        invariant wanted >= 0 ==> |res| <= wanted
        invariant forall k :: 0 <= k < |res| ==> res[k] == vals[k]
        invariant |vals| == if top > ra then top - ra else 0
        decreases top - firstResult
      {
        res := res + [Get(frame, firstResult)];
        firstResult := firstResult + 1;
        i := i - 1;
      }
      while i > 0
        invariant wanted >= 0 ==> i == wanted - |res| >= 0 && |res| >= firstResult - ra
        invariant wanted == -1 ==> i < 0 && |res| == |vals|
        invariant firstResult - ra <= |res| && firstResult - ra <= |vals| && (|res| > firstResult - ra ==> firstResult - ra == |vals|)
        invariant i > 0 ==> firstResult - ra == |vals|
        invariant forall k :: 0 <= k < |res| ==> res[k] == if k < |vals| then vals[k] else Nil
      {
        res := res + [Nil];
        i := i - 1;
      }
    }
  }
}
