/** Alignment arithmetic behind the unpacked and optimized layouts. */
module Alignment {

  /**
   * The smallest multiple of `a` that is at least `n`: a multiple of `a`
   * lying in the window `[n, n + a)`, of which there is exactly one.
   */
  function AlignUp(n: nat, a: nat): (r: nat)
    requires a >= 1
    ensures r % a == 0 && n <= r < n + a
  {
    var q := (n + a - 1) / a;
    MultipleMod(q, a);
    q * a
  }

  /** Two multiples of `a` in one window of width `a` coincide. */
  lemma {:induction false} UniqueMultiple(x: nat, y: nat, n: nat, a: nat)
    requires a >= 1 && x % a == 0 && y % a == 0
    requires n <= x < n + a && n <= y < n + a
    ensures x == y
  {
    var qx, qy := x / a, y / a;
    assert x == qx * a && y == qy * a;
    if qx < qy {
      MulMonotone(qx + 1, qy, a);
    } else if qy < qx {
      MulMonotone(qy + 1, qx, a);
    }
  }

  /** The characterisation of `AlignUp` as the least multiple at or above `n`. */
  lemma {:induction false} AlignUpIsLeast(n: nat, a: nat, m: nat)
    requires a >= 1 && m % a == 0 && n <= m
    ensures AlignUp(n, a) <= m
  {
    var r := AlignUp(n, a);
    if m < r {
      UniqueMultiple(m, r, n, a);
    }
  }

  /** Moving the cursor past a non-multiple does not change where it aligns up to. */
  lemma {:induction false} AlignUpStep(n: nat, a: nat)
    requires a >= 1 && n % a != 0
    ensures AlignUp(n + 1, a) == AlignUp(n, a)
  {
    UniqueMultiple(AlignUp(n + 1, a), AlignUp(n, a), n + 1, a);
  }

  lemma {:induction false} MultipleMod(q: nat, a: nat)
    requires a >= 1
    ensures (q * a) % a == 0 && (q * a) / a == q
  {
    DivModUnique(q * a, a, q, 0);
  }

  /** Quotient and remainder are determined by any decomposition `x == d * a + m` with `0 <= m < a`. */
  lemma {:induction false} DivModUnique(x: int, a: int, d: int, m: int)
    requires a >= 1 && x == d * a + m && 0 <= m < a
    ensures x / a == d && x % a == m
  {
    var d', m' := x / a, x % a;
    assert (d - d') * a == m' - m;
    if d - d' >= 1 {
      MulMonotone(1, d - d', a);
    } else if d' - d >= 1 {
      MulMonotone(1, d' - d, a);
    }
  }

  /** Below a multiple `q * a`, the next multiple after `j * a` is still at most `q * a`. */
  lemma {:induction false} NextMultiple(j: nat, q: nat, a: nat)
    requires a >= 1 && j * a < q * a
    ensures (j + 1) * a <= q * a
  {
    if q < j + 1 {
      MulMonotone(q, j, a);
    } else {
      MulMonotone(j + 1, q, a);
    }
  }

  lemma {:induction false} MulMonotone(i: nat, j: nat, a: nat)
    requires i <= j
    ensures i * a <= j * a
  {
  }

  /**
   * The scan of registers.ts:98-104 for an aligned start: try `a * i` for
   * `i = 0, 1, ...` until one is at least `n`.
   */
  method FirstMultipleAtLeast(n: nat, a: nat) returns (m: nat)
    requires a >= 1
    ensures m == AlignUp(n, a)
  {
    var i: nat := 0;
    while a * i < n
      invariant a * i < n + a
      decreases n - a * i
    {
      i := i + 1;
    }
    m := a * i;
    MultipleMod(i, a);
    UniqueMultiple(m, AlignUp(n, a), n, a);
  }

  /**
   * The divisibility test of registers.ts:172-178: try `a * j` for
   * `j = 0, 1, ...` while it does not exceed `c`, and report whether one equals `c`.
   */
  method IsMultiple(c: nat, a: nat) returns (fits: bool)
    requires a >= 1
    ensures fits <==> c % a == 0
  {
    var j: nat := 0;
    while a * j <= c
      invariant c % a == 0 ==> a * j <= c
      decreases c - a * j
    {
      var m := a * j;
      if m == c {
        MultipleMod(j, a);
        assert j * a == m;
        return true;
      }
      if c % a == 0 {
        var q := c / a;
        assert q * a == c && j * a == m;
        NextMultiple(j, q, a);
        assert a * (j + 1) == (j + 1) * a;
      }
      j := j + 1;
    }
    return false;
  }
}
