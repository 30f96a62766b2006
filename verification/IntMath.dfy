/** Facts about products, quotients and remainders by a variable divisor. */
module IntMath {

  lemma MulMonotone(c: int, a: int, b: int)
    requires c >= 0 && a <= b
    ensures c * a <= c * b
  {
    assert c * b - c * a == c * (b - a);
  }

  /** A product strictly below one divisor and not negative is zero. */
  lemma SmallMultiple(c: int, m: int)
    requires c > 0 && 0 <= c * m < c
    ensures m == 0
  {
    if m >= 1 { MulMonotone(c, 1, m); }
    if m <= -1 { MulMonotone(c, m, -1); }
  }

  /** Quotient and remainder are determined by the division equation. */
  lemma DivModUnique(a: int, c: int, k: int, r: int)
    requires c > 0 && a == c * k + r && 0 <= r < c
    ensures a / c == k && a % c == r
  {
    var k', r' := a / c, a % c;
    assert a == c * k' + r';
    assert c * (k - k') == r' - r;
    if r' >= r {
      SmallMultiple(c, k - k');
    } else {
      assert c * (k' - k) == r - r';
      SmallMultiple(c, k' - k);
    }
  }

  lemma MultipleMod(c: int, n: int)
    requires c > 0
    ensures (c * n) % c == 0 && (c * n) / c == n
  {
    DivModUnique(c * n, c, n, 0);
  }

  /** Moving by a multiple keeps divisibility. */
  lemma ModDifference(t: int, s: int, c: int)
    requires c > 0 && s % c == 0
    ensures (t - s) % c == 0 <==> t % c == 0
  {
    var k := s / c;
    assert s == c * k;
    if t % c == 0 {
      var j := t / c;
      assert t - s == c * (j - k);
      MultipleMod(c, j - k);
    }
    if (t - s) % c == 0 {
      var j := (t - s) / c;
      assert t == c * (j + k);
      MultipleMod(c, j + k);
    }
  }

  /** Go's integer division truncates toward zero. */
  function TruncDiv(a: int, b: int): int
    requires b > 0
  {
    if a >= 0 then a / b else -((-a) / b)
  }

  /** The first multiple of `step` at or after `from`, computed with truncating division. */
  function AlignedStart(from: int, step: int): int
    requires step > 0
  {
    var s := step * TruncDiv(from, step);
    if s < from then s + step else s
  }

  lemma AlignedStartLeast(from: int, step: int)
    requires step > 0
    ensures var s := AlignedStart(from, step);
            from <= s < from + step && s % step == 0 && forall t :: from <= t && t % step == 0 ==> s <= t
  {
    var s := AlignedStart(from, step);
    var n := AlignedIndex(from, step);
    MultipleMod(step, n);
    forall t | from <= t && t % step == 0 ensures s <= t {
      var j := t / step;
      assert t == step * j;
      assert step * (n - 1) == step * n - step;
      if j <= n - 1 {
        MulMonotone(step, j, n - 1);
      } else {
        MulMonotone(step, n, j);
      }
    }
  }

  lemma AlignedIndex(from: int, step: int) returns (n: int)
    requires step > 0
    ensures var s := AlignedStart(from, step); s == step * n && from <= s < from + step
  {
    var k := TruncDiv(from, step);
    if from >= 0 {
      assert from == step * k + from % step;
    } else {
      var m := (-from) / step;
      assert -from == step * m + (-from) % step;
      assert step * k == -(step * m);
    }
    n := if step * k < from then k + 1 else k;
    assert step * (k + 1) == step * k + step;
  }
}
