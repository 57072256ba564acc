/** The jump lists of lcode.c as they are stored: threaded through the offsets of the pending
    jumps and patched in place. Every method is proved against the plain sequences of CodeSpec. */
module CodeLists {
  import opened CodeMachine
  import opened CodeSpec
  import opened CodeMeaning
  import opened CodeRuns

  /** getjump: the next jump of the list; an offset of NO_JUMP ends it. */
  function GetJump(code: seq<Instr>, pc: int): int
    requires 0 <= pc < |code| && code[pc].Jmp?
  {
    if code[pc].sbx == NO_JUMP then NO_JUMP else pc + 1 + code[pc].sbx
  }

  /** getjumpcontrol: the test in front of a jump, or the jump itself. */
  function JumpControl(code: seq<Instr>, pc: int): int
    requires 0 <= pc < |code|
  {
    if pc >= 1 && code[pc - 1].IsTest() then pc - 1 else pc
  }

  function Head(l: seq<int>): int { if l == [] then NO_JUMP else l[0] }

  /** The list that starts at head is l. */
  ghost predicate IsList(code: seq<Instr>, head: int, l: seq<int>) {
    && head == Head(l)
    && (forall i :: 0 <= i < |l| ==> 0 <= l[i] < |code| && code[l[i]].Jmp?)
    && (forall i :: 0 <= i < |l| ==> GetJump(code, l[i]) == Head(l[i + 1..]))
    && (forall i, j :: 0 <= i < j < |l| ==> l[i] != l[j])
  }

  /** A list is independent of changes elsewhere. */
  lemma ListFrame(code: seq<Instr>, code': seq<Instr>, head: int, l: seq<int>)
    requires IsList(code, head, l) && |code| <= |code'|
    requires forall p :: p in l ==> code'[p] == code[p]
    ensures IsList(code', head, l)
  {
  }

  /** The stored code is the code of the specification, except that loose jumps, which have no
      target yet, hold links. */
  ghost predicate Stored(code: seq<Instr>, plain: seq<Instr>, loose: seq<int>) {
    && |code| == |plain|
    && (forall p :: p in loose ==> 0 <= p < |plain| && plain[p] == Jmp(NO_JUMP) && code[p].Jmp?)
    && (forall p :: 0 <= p < |code| ==> code[p] == plain[p] || p in loose)
  }

  /** The instructions at the positions of list are as they were. */
  ghost predicate Kept(code: seq<Instr>, code': seq<Instr>, list: seq<int>) {
    forall p :: p in list ==> 0 <= p < |code| && p < |code'| && code'[p] == code[p]
  }

  lemma KeptTwice(a: seq<Instr>, b: seq<Instr>, c: seq<Instr>, list: seq<int>)
    requires Kept(a, b, list) && Kept(b, c, list)
    ensures Kept(a, c, list)
  {
  }

  lemma KeptLess(a: seq<Instr>, b: seq<Instr>, list: seq<int>, more: seq<int>)
    requires Kept(a, b, more) && forall p :: p in list ==> p in more
    ensures Kept(a, b, list)
  {
  }

  /** Patching the jumps of l on both sides ties them down; rest stays loose. */
  lemma PatchStored(code: seq<Instr>, plain: seq<Instr>, loose: seq<int>, l: seq<int>, rest: seq<int>,
    vtarget: int, reg: int, dtarget: int)
    requires Stored(code, plain, loose) && Disjoint(l, rest)
    requires forall p :: p in loose <==> p in l || p in rest
    ensures Stored(PatchList(code, l, vtarget, reg, dtarget), PatchList(plain, l, vtarget, reg, dtarget), rest)
    ensures Kept(code, PatchList(code, l, vtarget, reg, dtarget), rest)
  {
    forall p | 0 <= p < |code|
      ensures PatchedAt(code, l, vtarget, reg, dtarget, p) == PatchedAt(plain, l, vtarget, reg, dtarget, p) || p in rest
    {
      assert p > 0 ==> code[p - 1] == plain[p - 1] || (plain[p - 1].Jmp? && code[p - 1].Jmp?);
    }
  }

  lemma AppendStored(code: seq<Instr>, plain: seq<Instr>, loose: seq<int>, i: Instr)
    requires Stored(code, plain, loose)
    ensures Stored(code + [i], plain + [i], loose) && Kept(code, code + [i], loose)
  {
  }

  /** Replacing an instruction that is no jump on both sides. */
  lemma ReplaceStored(code: seq<Instr>, plain: seq<Instr>, loose: seq<int>, p: int, i: Instr)
    requires Stored(code, plain, loose) && 0 <= p < |plain| && !plain[p].Jmp?
    ensures Stored(code[p := i], plain[p := i], loose) && Kept(code, code[p := i], loose)
  {
  }

  lemma CutStored(code: seq<Instr>, plain: seq<Instr>, loose: seq<int>, n: int)
    requires Stored(code, plain, loose) && 0 <= n == |plain| - 1 && !plain[n].Jmp?
    ensures Stored(code[..n], plain[..n], loose) && Kept(code, code[..n], loose)
  {
  }

  lemma RemoveStored(code: seq<Instr>, plain: seq<Instr>, loose: seq<int>, l: seq<int>)
    requires Stored(code, plain, loose)
    ensures Stored(CodeSpec.RemoveValues(code, l), CodeSpec.RemoveValues(plain, l), loose)
    ensures Kept(code, CodeSpec.RemoveValues(code, l), loose)
  {
  }

  lemma SameLoose(code: seq<Instr>, plain: seq<Instr>, loose: seq<int>, loose': seq<int>)
    requires Stored(code, plain, loose) && forall p :: p in loose <==> p in loose'
    ensures Stored(code, plain, loose')
  {
  }

  /** Nothing loose: the stored code is the code. */
  lemma NothingLoose(code: seq<Instr>, plain: seq<Instr>)
    requires Stored(code, plain, [])
    ensures code == plain
  {
  }

  // ---------------------------------------------------------------- the lists under change

  lemma ConcatLinks(code: seq<Instr>, code': seq<Instr>, a: seq<int>, b: seq<int>)
    requires IsList(code, Head(a), a) && IsList(code, Head(b), b) && Disjoint(a, b) && a != [] && b != []
    requires var last := a[|a| - 1]; code' == code[last := Jmp(b[0] - (last + 1))]
    ensures IsList(code', a[0], a + b)
  {
    var c := a + b;
    forall i | 0 <= i < |c| ensures 0 <= c[i] < |code'| && code'[c[i]].Jmp? && GetJump(code', c[i]) == Head(c[i + 1..]) {
      if i < |a| { ConcatLeft(code, code', a, b, i); } else { ConcatRight(code, code', a, b, i); }
    }
    ConcatDistinct(a, b);
  }

  lemma ConcatDistinct(a: seq<int>, b: seq<int>)
    requires Disjoint(a, b)
    requires (forall i, j :: 0 <= i < j < |a| ==> a[i] != a[j]) && (forall i, j :: 0 <= i < j < |b| ==> b[i] != b[j])
    ensures var c := a + b; forall i, j :: 0 <= i < j < |c| ==> c[i] != c[j]
  {
    var c := a + b;
    forall i, j | 0 <= i < j < |c| ensures c[i] != c[j] {
      if i < |a| <= j { assert c[i] in a && c[j] in b; }
    }
  }

  lemma ConcatLeft(code: seq<Instr>, code': seq<Instr>, a: seq<int>, b: seq<int>, i: int)
    requires IsList(code, Head(a), a) && IsList(code, Head(b), b) && Disjoint(a, b) && a != [] && b != []
    requires var last := a[|a| - 1]; code' == code[last := Jmp(b[0] - (last + 1))]
    requires 0 <= i < |a|
    ensures code'[a[i]].Jmp? && GetJump(code', a[i]) == Head((a + b)[i + 1..])
  {
    var last := a[|a| - 1];
    assert last in a && b[0] in b && last != b[0];
    if i < |a| - 1 {
      assert a[i + 1..][0] == a[i + 1] && (a + b)[i + 1..][0] == a[i + 1];
    } else {
      assert (a + b)[i + 1..] == b;
    }
  }

  lemma ConcatRight(code: seq<Instr>, code': seq<Instr>, a: seq<int>, b: seq<int>, i: int)
    requires IsList(code, Head(a), a) && IsList(code, Head(b), b) && Disjoint(a, b) && a != [] && b != []
    requires var last := a[|a| - 1]; code' == code[last := Jmp(b[0] - (last + 1))]
    requires |a| <= i < |a + b|
    ensures var p := (a + b)[i]; 0 <= p < |code'| && code'[p].Jmp? && GetJump(code', p) == Head((a + b)[i + 1..])
  {
    var k := i - |a|;
    assert (a + b)[i] == b[k] && b[k] in b && (a + b)[i + 1..] == b[k + 1..];
    assert b[k] != a[|a| - 1] by { assert a[|a| - 1] in a; }
  }

  lemma JumpStored(code: seq<Instr>, plain: seq<Instr>, loose: seq<int>, code': seq<Instr>)
    requires Stored(code, plain, loose) && |code'| == |code| + 1 && code'[|code|].Jmp?
    requires forall p :: 0 <= p < |code| ==> code'[p] == code[p]
    ensures Stored(code', plain + [Jmp(NO_JUMP)], [|code|] + loose) && Kept(code, code', loose)
  {
  }

  lemma ListHead(code: seq<Instr>, head: int, l: seq<int>)
    requires IsList(code, head, l)
    ensures l[0..] == l && head == Head(l)
  {
  }

  lemma ListEnd(code: seq<Instr>, head: int, l: seq<int>, i: nat)
    requires IsList(code, head, l) && i <= |l| && Head(l[i..]) == NO_JUMP
    ensures l[..i] == l
  {
  }

  /** The i-th jump of a list, seen from the jumps before it. */
  lemma ListStep(code: seq<Instr>, head: int, l: seq<int>, i: nat)
    requires IsList(code, head, l) && i <= |l| && Head(l[i..]) != NO_JUMP
    ensures i < |l| && Head(l[i..]) == l[i] && 0 <= l[i] < |code| && code[l[i]].Jmp?
    ensures GetJump(code, l[i]) == Head(l[i + 1..]) && l[i] !in l[..i] && l[..i + 1] == l[..i] + [l[i]]
    ensures forall x :: x in l[..i] ==> 0 <= x < |code| && code[x].Jmp?
  {
  }

  lemma PatchNone(code: seq<Instr>, vtarget: int, reg: int, dtarget: int)
    ensures PatchList(code, [], vtarget, reg, dtarget) == code
  {
  }

  lemma PatchKeepsLinks(code: seq<Instr>, l: seq<int>, vtarget: int, reg: int, dtarget: int, p: int)
    requires 0 <= p < |code| && code[p].Jmp? && p !in l && (forall x :: x in l ==> 0 <= x < |code| && code[x].Jmp?)
    ensures PatchList(code, l, vtarget, reg, dtarget)[p] == code[p]
    ensures TestSetJump(PatchList(code, l, vtarget, reg, dtarget), p) == TestSetJump(code, p)
  {
  }

  lemma PatchOne(code: seq<Instr>, l: seq<int>, vtarget: int, reg: int, dtarget: int, p: int)
    requires 0 <= p < |code| && code[p].Jmp? && p !in l && (forall x :: x in l ==> 0 <= x < |code| && code[x].Jmp?)
    ensures var code1 := PatchList(code, l, vtarget, reg, dtarget);
      var test := TestSetJump(code1, p);
      var code2 := if test then code1[p - 1 := PatchedTest(code1[p - 1], reg)] else code1;
      code2[p := Jmp((if test then vtarget else dtarget) - (p + 1))] == PatchList(code, l + [p], vtarget, reg, dtarget)
  {
  }

  lemma RemoveNone(code: seq<Instr>)
    ensures CodeSpec.RemoveValues(code, []) == code
  {
  }

  lemma RemoveKeepsLinks(code: seq<Instr>, l: seq<int>, p: int)
    requires 0 <= p < |code| && code[p].Jmp?
    ensures CodeSpec.RemoveValues(code, l)[p] == code[p]
  {
  }

  lemma RemoveKeepsList(code: seq<Instr>, head: int, l: seq<int>)
    requires IsList(code, head, l)
    ensures IsList(CodeSpec.RemoveValues(code, l), head, l)
  {
    forall p | p in l ensures CodeSpec.RemoveValues(code, l)[p] == code[p] { RemoveKeepsLinks(code, l, p); }
    ListFrame(code, CodeSpec.RemoveValues(code, l), head, l);
  }

  lemma RemoveOne(code: seq<Instr>, l: seq<int>, p: int)
    requires 0 <= p < |code| && code[p].Jmp?
    ensures var code1 := CodeSpec.RemoveValues(code, l);
      CodeSpec.RemoveValues(code, l + [p])
      == if TestSetJump(code1, p) then code1[p - 1 := PatchedTest(code1[p - 1], NO_REG)] else code1
  {
  }
}
