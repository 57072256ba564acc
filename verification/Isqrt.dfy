/**
 * The integer square root of lmathlib.c, digit by digit, on signed numbers of a given width
 * (lua_Number is long there, so 32 or 64 bits).
 */
module Isqrt {
  import opened Powers

  /** n is a value of the signed type of that width. */
  predicate Fits(n: int, width: nat)
    requires width > 0
  {
    var half: int := Pow2(width - 1);
    -half <= n < half
  }

  ghost predicate IsRoot(r: int, x: int) { 0 <= r && r * r <= x < (r + 1) * (r + 1) }

  /** Between digits: root holds the digits above b, one is b squared, res the cross term. */
  ghost predicate Digits(x: int, op: int, res: int, one: int, root: int, b: int) {
    && 0 < b && 0 <= root && one == b * b && res == 2 * (root * b)
    && op == x - root * root && 0 <= op && x < (root + 2 * b) * (root + 2 * b)
  }

  lemma TakeDigit(x: int, op: int, res: int, one: int, root: int, b: int)
    requires Digits(x, op, res, one, root, b) && op >= res + one
    ensures op - (res + one) == x - (root + b) * (root + b)
    ensures res + 2 * one == 2 * ((root + b) * b)
    ensures (root + b) * (root + b) <= x < ((root + b) + b) * ((root + b) + b)
  {
    assert (root + b) * (root + b) == root * root + 2 * (root * b) + b * b;
    assert (root + b) * b == root * b + b * b;
  }

  lemma SkipDigit(x: int, op: int, res: int, one: int, root: int, b: int)
    requires Digits(x, op, res, one, root, b) && op < res + one
    ensures root * root <= x < (root + b) * (root + b)
  {
    assert (root + b) * (root + b) == root * root + 2 * (root * b) + b * b;
  }

  /** The next digit: both shifts halve exactly, and after digit 1 what is left is the root. */
  lemma NextDigit(x: int, op: int, res: int, one: int, root: int, k: nat)
    requires 0 <= root && one == Pow2(k) * Pow2(k) && res == 2 * (root * Pow2(k)) && op == x - root * root
    requires root * root <= x < (root + Pow2(k)) * (root + Pow2(k))
    ensures k > 0 ==> Digits(x, op, res / 2, one / 4, root, Pow2(k - 1))
    ensures k == 0 ==> one / 4 == 0 && res / 2 == root && IsRoot(root, x)
  {
    assert res / 2 == root * Pow2(k);
    if k > 0 {
      var h := Pow2(k - 1);
      assert Pow2(k) == 2 * h;
      assert (2 * h) * (2 * h) == 4 * (h * h);
      assert root * (2 * h) == 2 * (root * h);
    }
  }

  lemma Products(a: int, b: int, c: int, d: int)
    requires 0 <= a <= c && 0 <= b <= d
    ensures 0 <= a * b <= c * d
  {
    Scale(a, c, b);
    Scale(b, d, c);
  }

  lemma Scale(a: int, b: int, m: int)
    requires a <= b && 0 <= m
    ensures a * m <= b * m && m * a <= m * b
  {
  }

  lemma RootBound(root: int, x: int, top: int)
    requires 0 <= root && 0 < top && root * root <= x < 4 * (top * top)
    ensures root <= 2 * top - 1
  {
    assert (2 * top) * (2 * top) == 4 * (top * top);
    if root >= 2 * top { Products(2 * top, 2 * top, root, root); }
  }

  lemma NoOverflow(x: int, op: int, res: int, one: int, root: int, b: int, top: int, quad: int)
    requires Digits(x, op, res, one, root, b) && b <= top && x < quad && quad == 4 * (top * top)
    ensures 0 <= res && 4 * (res + one) < 5 * quad
    ensures op >= res + one ==> res + 2 * one < quad
  {
    OneBound(x, op, res, one, root, b, top, quad);
    if op >= res + one { SumBound(x, op, res, one, root, b, top, quad); }
  }

  lemma OneBound(x: int, op: int, res: int, one: int, root: int, b: int, top: int, quad: int)
    requires Digits(x, op, res, one, root, b) && b <= top && x < quad && quad == 4 * (top * top)
    ensures 0 <= res < quad && 4 * one <= quad
  {
    hide Digits;
    DigitsAre(x, op, res, one, root, b);
    Products(b, b, top, top);
    CrossBound(root, b, x, top);
  }

  lemma SumBound(x: int, op: int, res: int, one: int, root: int, b: int, top: int, quad: int)
    requires Digits(x, op, res, one, root, b) && b <= top && x < quad && quad == 4 * (top * top)
    requires op >= res + one
    ensures res + 2 * one < quad
  {
    hide Digits;
    DigitsAre(x, op, res, one, root, b);
    TakeDigit(x, op, res, one, root, b);
    CrossBound(root + b, b, x, top);
  }

  lemma DigitsAre(x: int, op: int, res: int, one: int, root: int, b: int)
    requires Digits(x, op, res, one, root, b)
    ensures 0 < b && 0 <= root && one == b * b && res == 2 * (root * b) && root * root <= x
  {
  }

  lemma CrossBound(root: int, b: int, x: int, top: int)
    requires 0 <= root && 0 < b <= top && root * root <= x < 4 * (top * top)
    ensures 0 <= 2 * (root * b) < 4 * (top * top)
  {
    RootBound(root, x, top);
    Products(root, b, 2 * top - 1, top);
    assert (2 * top - 1) * top == 2 * (top * top) - top;
  }

  /** One turn of the digit loop at digit 2 to the k. */
  lemma Turn(x: int, op: int, res: int, one: int, root: int, k: nat) returns (root': int)
    requires Digits(x, op, res, one, root, Pow2(k))
    ensures var take := op >= res + one;
      var op', res' := if take then op - (res + one) else op, if take then res + 2 * one else res;
      && (k > 0 ==> Digits(x, op', res' / 2, one / 4, root', Pow2(k - 1)))
      && (k == 0 ==> one / 4 == 0 && IsRoot(res' / 2, x))
  {
    if op >= res + one {
      TakeDigit(x, op, res, one, root, Pow2(k));
      root' := root + Pow2(k);
      NextDigit(x, op - (res + one), res + 2 * one, one, root', k);
    } else {
      SkipDigit(x, op, res, one, root, Pow2(k));
      root' := root;
      NextDigit(x, op, res, one, root', k);
    }
  }

  /** isqrt: the root, unless an intermediate result leaves the type, which for arguments below
      2 to the 31 happens exactly to 32-bit numbers from 2 to the 30 on. */
  method Isqrt(x: int, width: nat) returns (r: int, overflow: bool)
    requires 0 <= x < 0x8000_0000 && (width == 32 || width == 64)
    ensures overflow <==> width == 32 && x >= 0x4000_0000
    ensures !overflow ==> IsRoot(r, x)
  {
    hide Digits, IsRoot, Pow2;
    Constants();
    var op, res, one := x, 0, 0x4000_0000;
    ghost var k: nat := 15;
    while one > op
      invariant op == x && (one == 0 ==> x == 0) && (one > 0 ==> k <= 15 && one == Pow2(k) * Pow2(k) && x < 4 * one)
      invariant one >= 0 && (x >= 0x4000_0000 ==> k == 15 && one > 0) && (one > 0 && k == 15 ==> x < 0x8000_0000)
      decreases one
    {
      Quarter(k);
      k := if k > 0 then k - 1 else 0;
      one := one / 4;
    }
    if one == 0 { ZeroRoot(); return 0, false; }
    ghost var root := 0;
    FirstDigit(x, k);
    while one != 0
      invariant one >= 0 && (one == 0 ==> IsRoot(res, x))
      invariant one > 0 ==> k <= 15 && one == Pow2(k) * Pow2(k) && Digits(x, op, res, one, root, Pow2(k))
      invariant one > 0 && x < 0x4000_0000 ==> k <= 14
      invariant width == 32 && x >= 0x4000_0000 ==> one == 0x4000_0000 && res == 0 && op == x
      decreases one
    {
      ghost var top := if x < 0x4000_0000 then Pow2(14) else Pow2(15);
      Pow2Mono(k, if x < 0x4000_0000 then 14 else 15);
      NoOverflow(x, op, res, one, root, Pow2(k), top, 4 * (top * top));
      assert Fits(res + one, width);
      root := Turn(x, op, res, one, root, k);
      if op >= res + one {
        if !Fits(2 * one, width) || !Fits(res + 2 * one, width) { return 0, true; }
        op := op - (res + one);
        res := res + 2 * one;
      }
      res := res / 2;
      Quarter(k);
      one := one / 4;
      k := if k > 0 then k - 1 else 0;
    }
    r, overflow := res, false;
  }

  lemma Quarter(k: nat)
    ensures Pow2(k) * Pow2(k) > 0
    ensures k > 0 ==> Pow2(k) * Pow2(k) == 4 * (Pow2(k - 1) * Pow2(k - 1))
    ensures k == 0 ==> Pow2(k) * Pow2(k) == 1
  {
    if k > 0 { assert (2 * Pow2(k - 1)) * (2 * Pow2(k - 1)) == 4 * (Pow2(k - 1) * Pow2(k - 1)); }
  }

  lemma FirstDigit(x: int, k: nat)
    requires 0 <= x < 4 * (Pow2(k) * Pow2(k))
    ensures Digits(x, x, 0, Pow2(k) * Pow2(k), 0, Pow2(k))
  {
    assert (2 * Pow2(k)) * (2 * Pow2(k)) == 4 * (Pow2(k) * Pow2(k));
  }

  lemma ZeroRoot()
    ensures IsRoot(0, 0)
  {
  }

  lemma Constants()
    ensures Pow2(14) == 0x4000 && Pow2(15) == 0x8000 && Pow2(31) == 0x8000_0000 && Pow2(63) == 0x8000_0000_0000_0000
    ensures Pow2(15) * Pow2(15) == 0x4000_0000 && Pow2(14) * Pow2(14) == 0x1000_0000
  {
    assert Pow2(8) == 0x100;
    assert Pow2(15) == 0x8000;
    Double(15);
    Double(31);
  }

  lemma Double(n: nat)
    ensures Pow2(2 * n + 1) == 2 * (Pow2(n) * Pow2(n))
  {
    if n > 0 {
      Double(n - 1);
      assert Pow2(2 * n + 1) == 4 * Pow2(2 * n - 1);
      assert (2 * Pow2(n - 1)) * (2 * Pow2(n - 1)) == 4 * (Pow2(n - 1) * Pow2(n - 1));
    }
  }
}
