/** Function prototypes and the fields of their 32-bit instructions (lopcodes.h). */
module Bytecode {

  const WORDS := 0x1_0000_0000

  type Word = w: int | 0 <= w < WORDS

  type Byte = b: int | 0 <= b < 256

  /** A C string object, or none. */
  datatype Text = NoText | Text(s: seq<Byte>)

  /** Numbers by their bit pattern. */
  datatype Const = KNil | KBool(b: bool) | KNumber(bits: nat) | KString(s: Text)

  datatype OpCode =
    | OP_MOVE | OP_LOADK | OP_LOADBOOL | OP_LOADNIL | OP_GETUPVAL | OP_GETGLOBAL | OP_GETTABLE | OP_SETGLOBAL | OP_SETUPVAL
    | OP_SETTABLE | OP_NEWTABLE | OP_SELF | OP_ADD | OP_SUB | OP_MUL | OP_DIV | OP_MOD | OP_POW | OP_UNM | OP_NOT | OP_LEN
    | OP_CONCAT | OP_JMP | OP_EQ | OP_LT | OP_LE | OP_TEST | OP_TESTSET | OP_CALL | OP_TAILCALL | OP_RETURN | OP_FORLOOP
    | OP_FORPREP | OP_TFORLOOP | OP_SETLIST | OP_CLOSE | OP_CLOSURE | OP_VARARG | OP_NONE

  /** The operation with a number; those from 38 on are none. */
  function OpNumbered(n: nat): OpCode {
    match n
    case 0 => OP_MOVE
    case 1 => OP_LOADK
    case 2 => OP_LOADBOOL
    case 3 => OP_LOADNIL
    case 4 => OP_GETUPVAL
    case 5 => OP_GETGLOBAL
    case 6 => OP_GETTABLE
    case 7 => OP_SETGLOBAL
    case 8 => OP_SETUPVAL
    case 9 => OP_SETTABLE
    case 10 => OP_NEWTABLE
    case 11 => OP_SELF
    case 12 => OP_ADD
    case 13 => OP_SUB
    case 14 => OP_MUL
    case 15 => OP_DIV
    case 16 => OP_MOD
    case 17 => OP_POW
    case 18 => OP_UNM
    case 19 => OP_NOT
    case 20 => OP_LEN
    case 21 => OP_CONCAT
    case 22 => OP_JMP
    case 23 => OP_EQ
    case 24 => OP_LT
    case 25 => OP_LE
    case 26 => OP_TEST
    case 27 => OP_TESTSET
    case 28 => OP_CALL
    case 29 => OP_TAILCALL
    case 30 => OP_RETURN
    case 31 => OP_FORLOOP
    case 32 => OP_FORPREP
    case 33 => OP_TFORLOOP
    case 34 => OP_SETLIST
    case 35 => OP_CLOSE
    case 36 => OP_CLOSURE
    case 37 => OP_VARARG
    case _ => OP_NONE
  }

  function Op(w: Word): OpCode { OpNumbered(w % 64) }

  function ArgA(w: Word): (a: nat)
    ensures a <= 255
  {
    w / 64 % 256
  }

  function ArgC(w: Word): (c: nat)
    ensures c <= 511
  {
    w / 0x4000 % 512
  }

  function ArgB(w: Word): (b: nat)
    ensures b <= 511
  {
    w / 0x80_0000 % 512
  }

  const MAXARG_SBX := 131071

  function ArgBx(w: Word): nat { w / 0x4000 % 0x4_0000 }

  function ArgSBx(w: Word): int { ArgBx(w) - MAXARG_SBX }

  /** The layout of a word, from the lowest bit: operation, A, C and B, the last two together Bx. */
  lemma Layout(op: nat, a: nat, b: nat, c: nat)
    requires op < 64 && a < 256 && b < 512 && c < 512
    ensures var w := op + 64 * a + 16384 * c + 8388608 * b;
      w < 4294967296 && Op(w) == OpNumbered(op) && ArgA(w) == a && ArgB(w) == b && ArgC(w) == c
      && ArgBx(w) == 512 * b + c && ArgSBx(w) == 512 * b + c - 131071
  {
    hide OpNumbered;
    LowBits(op, a, c + 512 * b);
    HighBits(op + 64 * a + 16384 * (c + 512 * b), b, c);
  }

  lemma LowBits(op: nat, a: nat, high: nat)
    requires op < 64 && a < 256
    ensures var w := op + 64 * a + 16384 * high; w % 64 == op && w / 64 % 256 == a && w / 16384 == high
  {
    assert (op + 64 * a + 16384 * high) / 64 == a + 256 * high;
  }

  lemma HighBits(w: nat, b: nat, c: nat)
    requires w / 16384 == c + 512 * b && b < 512 && c < 512
    ensures w / 16384 % 512 == c && w / 8388608 % 512 == b && w / 16384 % 262144 == 512 * b + c && w < 4294967296
  {
    assert w / 8388608 == b;
  }

  /** The operations by their numbers. */
  lemma Opcodes0To15()
    ensures OpNumbered(0) == OP_MOVE && OpNumbered(1) == OP_LOADK && OpNumbered(2) == OP_LOADBOOL && OpNumbered(3) == OP_LOADNIL
    ensures OpNumbered(4) == OP_GETUPVAL && OpNumbered(5) == OP_GETGLOBAL && OpNumbered(6) == OP_GETTABLE && OpNumbered(7) == OP_SETGLOBAL
    ensures OpNumbered(8) == OP_SETUPVAL && OpNumbered(9) == OP_SETTABLE && OpNumbered(10) == OP_NEWTABLE && OpNumbered(11) == OP_SELF
    ensures OpNumbered(12) == OP_ADD && OpNumbered(13) == OP_SUB && OpNumbered(14) == OP_MUL && OpNumbered(15) == OP_DIV
  {
  }

  lemma Opcodes16To25()
    ensures OpNumbered(16) == OP_MOD && OpNumbered(17) == OP_POW && OpNumbered(18) == OP_UNM && OpNumbered(19) == OP_NOT
    ensures OpNumbered(20) == OP_LEN && OpNumbered(21) == OP_CONCAT && OpNumbered(22) == OP_JMP && OpNumbered(23) == OP_EQ
    ensures OpNumbered(24) == OP_LT && OpNumbered(25) == OP_LE
  {
  }

  lemma Opcodes26To31()
    ensures OpNumbered(26) == OP_TEST && OpNumbered(27) == OP_TESTSET && OpNumbered(28) == OP_CALL && OpNumbered(29) == OP_TAILCALL
    ensures OpNumbered(30) == OP_RETURN && OpNumbered(31) == OP_FORLOOP
  {
  }

  lemma Opcodes32To37()
    ensures OpNumbered(32) == OP_FORPREP && OpNumbered(33) == OP_TFORLOOP && OpNumbered(34) == OP_SETLIST && OpNumbered(35) == OP_CLOSE
    ensures OpNumbered(36) == OP_CLOSURE && OpNumbered(37) == OP_VARARG
  {
  }

  lemma NoOpcodes(n: nat)
    requires n >= 38
    ensures OpNumbered(n) == OP_NONE
  {
  }

  predicate IsK(rk: nat) { rk >= 256 }

  function IndexK(rk: nat): nat
    requires IsK(rk)
  {
    rk - 256
  }

  datatype LocVar = LocVar(varname: Text, startpc: int, endpc: int)

  datatype Proto = Proto(
    source: Text, linedefined: int, lastlinedefined: int, nups: int, numparams: int, vararg: int, maxstacksize: int,
    code: seq<Word>, k: seq<Const>, p: seq<Proto>, lineinfo: seq<int>, locvars: seq<LocVar>, upvalues: seq<Text>)

  predicate HasArg(vararg: int) { vararg % 2 == 1 }

  predicate IsVararg(vararg: int) { vararg / 2 % 2 == 1 }

  predicate NeedsArg(vararg: int) { vararg / 4 % 2 == 1 }
}
