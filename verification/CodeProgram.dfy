/** The code the generator stores for a function, run on the machine. */
module CodeProgram {
  import opened CodeMachine
  import opened CodeSpec
  import opened CodeMeaning
  import opened CodeNeed
  import opened CodeGenerator
  import opened CodeTheorem
  import opened CodeVm

  /** From the first instruction the machine comes to the final OP_RETURN, which hands back v and
      nothing else, the parameters being unchanged. */
  ghost predicate Returns(code: seq<Instr>, m: Machine, nparams: int, r0: Regs, v: Value) {
    && |code| > 0 && code[|code| - 1].Return?
    && exists n: nat, r: Regs ::
         && Steps(code, m, 0, r0, n) == (|code| - 1, r) && n <= |code| && TestsPaired(code)
         && HandsBack(code[|code| - 1], r, [v]) && Same(r0, r, nparams, -1)
  }

  /** Parameters in the first registers, nil in every other. */
  ghost predicate Entry(r0: Regs, nparams: int) { forall i :: i >= nparams ==> Get(r0, i) == Nil }

  lemma EntryReturns(m: Machine, nparams: nat, x: Expr, r0: Regs)
    requires nparams < MAXSTACK && Scoped(x, nparams) && Entry(r0, nparams)
    requires var st' := CodeSpec.CompileReturn(NewFunction(nparams), x); !st'.err && st'.k == m.k
    ensures Returns(CodeSpec.CompileReturn(NewFunction(nparams), x).code, m, nparams, r0, Eval(m, x, r0))
  {
    hide CodeSpec.CompileReturn, Eval, Steps;
    var n, r := FunctionReturns(m, nparams, x, r0);
  }

  /** Generating `return x`: an error is raised when the parameters and the registers that the
      expression needs reach 250, and for code shorter than the reach of a jump only then; unless one
      was raised, the instructions in the code vector, jump lists threaded, patched and resolved in
      place, hand back the value of x on every machine and for all arguments. */
  method CompileFunction(nparams: nat, x: Expr) returns (fs: FuncState)
    requires nparams < MAXSTACK && Scoped(x, nparams)
    ensures nparams + Need(x) >= 250 ==> fs.err
    ensures fs.err ==> nparams + Need(x) >= 250 || |fs.code| >= 131071
    ensures !fs.err ==>
      forall m: Machine, r0: Regs :: m.k == fs.k && Entry(r0, nparams) ==> Returns(fs.code, m, nparams, r0, Eval(m, x, r0))
  {
    hide CodeSpec.CompileReturn, Returns, Eval, Entry, Need;
    ReturnNeed(nparams, x);
    fs := new FuncState(nparams);
    fs.CompileReturn(x, NewFunction(nparams));
    ghost var st' := CodeSpec.CompileReturn(NewFunction(nparams), x);
    if !fs.err {
      forall m: Machine, r0: Regs | m.k == fs.k && Entry(r0, nparams)
        ensures Returns(fs.code, m, nparams, r0, Eval(m, x, r0))
      {
        EntryReturns(m, nparams, x, r0);
      }
    }
  }

  /** The constants are not part of the meaning. */
  lemma {:induction false} EvalConstants(m: Machine, k: seq<Value>, x: Expr, r: Regs)
    ensures Eval(m.(k := k), x, r) == Eval(m, x, r)
    decreases x
  {
    match x
    case EParen(e) => EvalConstants(m, k, e, r);
    case ENot(e) => EvalConstants(m, k, e, r);
    case EAnd(a, b) => EvalConstants(m, k, a, r); EvalConstants(m, k, b, r);
    case EOr(a, b) => EvalConstants(m, k, a, r); EvalConstants(m, k, b, r);
    case ERel(_, a, b) => EvalConstants(m, k, a, r); EvalConstants(m, k, b, r);
    case _ =>
  }

  /** A function generated for `return x`, called with these arguments by a caller that wants some
      number of values, or all of them: unless generating it raised an error, which needs too many
      registers or code of the size of the reach of a jump, the interpreter loop runs the code to its OP_RETURN, and the
      caller gets the value of x, and nil for every further value it wants. */
  method CallFunction(nparams: nat, x: Expr, m: Machine, args: Regs, wanted: int)
    returns (err: bool, res: seq<Value>, size: nat)
    requires nparams < MAXSTACK && Scoped(x, nparams) && Entry(args, nparams) && wanted >= -1
    ensures nparams + Need(x) >= 250 ==> err
    ensures err ==> nparams + Need(x) >= 250 || size >= 131071
    ensures !err ==> |res| == (if wanted == -1 then 1 else wanted)
    ensures !err ==> forall k :: 0 <= k < |res| ==> res[k] == if k == 0 then Eval(m, x, args) else Nil
  {
    hide Eval, Entry, Need, Steps;
    var fs := CompileFunction(nparams, x);
    size := |fs.code|;
    if fs.err { return true, [], size; }
    var machine := m.(k := fs.k);
    EvalConstants(m, fs.k, x, args);
    assert Returns(fs.code, machine, nparams, args, Eval(m, x, args));
    var code := fs.code;
    ghost var n: nat, r: Regs :| Steps(code, machine, 0, args, n) == (|code| - 1, r) && n <= |code| && TestsPaired(code)
                                 && HandsBack(code[|code| - 1], r, [Eval(m, x, args)]);
    StepsStay(code, machine, 0, args, n, |code| - n);
    var l := new LuaState(code, machine, args);
    l.Execute(|code|);
    HandsWherever(code[|code| - 1], r, [Eval(m, x, args)], l.top);
    res := l.PosCall(wanted);
    err := false;
  }
}
