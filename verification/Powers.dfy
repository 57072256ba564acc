/** Powers of two and remainders. */
module Powers {

  function Pow2(n: nat): (r: nat)
    ensures r > 0
  {
    if n == 0 then 1 else 2 * Pow2(n - 1)
  }

  lemma {:induction false} Pow2Mono(a: nat, b: nat)
    requires a <= b
    ensures Pow2(a) <= Pow2(b)
    decreases b
  {
    if a < b { Pow2Mono(a, b - 1); }
  }

  lemma Pow2Less(a: nat, b: nat)
    ensures Pow2(a) <= Pow2(b) <==> a <= b
  {
    if a <= b { Pow2Mono(a, b); } else { Pow2Mono(b, a - 1); }
  }

  lemma {:induction false} Pow2Divides(a: nat, b: nat)
    requires a <= b
    ensures Pow2(b) == Pow2(b - a) * Pow2(a)
    decreases b
  {
    if a < b {
      Pow2Divides(a, b - 1);
      var q, m := Pow2(b - 1 - a), Pow2(a);
      assert (2 * q) * m == 2 * (q * m);
    }
  }

  lemma NoMultiple(d: int, m: int)
    requires -m < d * m < m
    ensures d == 0
  {
    assert d > 0 ==> d * m >= m;
    assert d < 0 ==> d * m <= -m;
  }

  lemma DivModUnique(x: int, m: nat, q: int, r: int)
    requires m > 0 && x == q * m + r && 0 <= r < m
    ensures x / m == q && x % m == r
  {
    var d := q - x / m;
    assert x == (x / m) * m + x % m;
    assert d * m == q * m - (x / m) * m;
    NoMultiple(d, m);
  }

  /** Reducing by a multiple first changes nothing. */
  lemma ModMod(h: nat, small: nat, k: nat)
    requires small > 0 && k > 0
    ensures k * small > 0 && (h % (k * small)) % small == h % small
  {
    var big := k * small;
    assert big > 0 by { if k > 1 { assert (k - 1) * small >= 0; } assert big == (k - 1) * small + small; }
    var q, r := h / big, h % big;
    var d := r / small;
    calc {
      h;
    ==
      big * q + r;
    ==
      (k * small) * q + r;
    ==
      (k * q) * small + (d * small + r % small);
    ==
      (k * q + d) * small + r % small;
    }
    DivModUnique(h, small, k * q + d, r % small);
  }
}
