/** Facts about products and remainders that the solver is told rather than left to find. */
module Arithmetic {
  lemma MulMono(a: int, b: int, m: int)
    requires a <= b && m >= 0
    ensures a * m <= b * m
  {}

  lemma MultipleMod(n: int, m: int, w: int)
    requires w > 0 && m % w == 0
    ensures (n * m) % w == 0
  {
    var d := m / w;
    assert m == d * w;
    assert n * m == (n * d) * w;
    ModOfMultiple(n * d, w);
  }

  lemma MultipleOfMultiple(n: int, m: int, w: int)
    requires w > 0 && m > 0 && n % m == 0 && m % w == 0
    ensures n % w == 0
  {
    MultipleMod(n / m, m, w);
  }

  lemma ModOfMultiple(a: int, w: int)
    requires w > 0
    ensures (a * w) % w == 0
  {
    DivModUnique(a, 0, w);
  }

  /** `a * w + r` splits back into `a` and `r`. */
  lemma DivModUnique(a: int, r: int, w: int)
    requires w > 0 && 0 <= r < w
    ensures (a * w + r) / w == a && (a * w + r) % w == r
  {
    var n := a * w + r;
    var d := n / w - a;
    assert n == n / w * w + n % w;
    assert d * w == r - n % w by { assert n / w * w - a * w == d * w; }
    if d >= 1 { MulMono(1, d, w); }
    if d <= -1 { MulMono(d, -1, w); }
    assert d == 0;
  }

  lemma SumMod(a: int, b: int, w: int)
    requires w > 0 && a % w == 0 && b % w == 0
    ensures (a + b) % w == 0
  {
    assert a + b == (a / w + b / w) * w;
    ModOfMultiple(a / w + b / w, w);
  }

  /** The next multiple of w after a is a + w. */
  lemma MultipleGap(a: int, b: int, w: int)
    requires w > 0 && a % w == 0 && b % w == 0 && a < b
    ensures a + w <= b
  {
    if b / w <= a / w { MulMono(b / w, a / w, w); }
    MulMono(a / w + 1, b / w, w);
  }
}
