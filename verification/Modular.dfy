/**
 Remainders by repeated subtraction.  `RemIsMod` and `QuotIsDiv` tie them to
 the built-in operators; proofs about counters use these forms because they
 unfold one lap at a time.
 */
module Modular {

  function Rem(x: nat, m: nat): (r: nat)
    requires m > 0
    ensures r < m
    decreases x
  {
    if x < m then x else Rem(x - m, m)
  }

  function Quot(x: nat, m: nat): nat
    requires m > 0
    decreases x
  {
    if x < m then 0 else 1 + Quot(x - m, m)
  }

  lemma {:induction false} RemIsMod(x: nat, m: nat)
    requires m > 0
    ensures Rem(x, m) == x % m && Quot(x, m) == x / m
    decreases x
  {
    if x >= m {
      RemIsMod(x - m, m);
      var q, r := (x - m) / m, (x - m) % m;
      assert x == (q + 1) * m + r;
      DivModOf(q + 1, r, m);
    } else {
      DivModOf(0, x, m);
    }
  }

  lemma DivModOf(q: nat, r: nat, m: nat)
    requires r < m
    ensures (q * m + r) / m == q && (q * m + r) % m == r
  {
    var x := q * m + r;
    var a, b := x / m, x % m;
    assert x == a * m + b && b < m;
    Squeeze(a, q, b, r, m);
  }

  /** A number has one quotient and remainder. */
  lemma Squeeze(a: nat, q: nat, b: nat, r: nat, m: nat)
    requires a * m + b == q * m + r && b < m && r < m
    ensures a == q && b == r
  {
    assert (a - q) * m == r - b && (q - a) * m == b - r;
    if a > q { MulAtLeast(a - q, m); }
    if a < q { MulAtLeast(q - a, m); }
  }

  lemma MulAtLeast(k: nat, m: nat)
    requires k >= 1
    ensures k * m >= m
  {
    assert k * m == m + (k - 1) * m;
  }

  /** Before the next multiple of `m`, remainders count up. */
  lemma {:induction false} RemAdd(c: nat, k: nat, m: nat)
    requires m > 0 && Rem(c, m) + k < m
    ensures Rem(c + k, m) == Rem(c, m) + k
    decreases c
  {
    if c >= m { RemAdd(c - m, k, m); }
  }

  /** At it, they start over. */
  lemma {:induction false} RemWraps(c: nat, m: nat)
    requires m > 0
    ensures Rem(c + (m - Rem(c, m)), m) == 0
    decreases c
  {
    if c >= m { RemWraps(c - m, m); }
  }

  lemma {:induction false} RemDrop(x: nat, m: nat)
    requires m > 0
    ensures Rem(x, m) <= x && Rem(x - Rem(x, m), m) == 0
    decreases x
  {
    if x >= m { RemDrop(x - m, m); }
  }

  /** Adding a number that leaves no remainder changes no remainder. */
  lemma {:induction false} RemAddMultiple(x: nat, y: nat, m: nat)
    requires m > 0 && Rem(y, m) == 0
    ensures Rem(y + x, m) == Rem(x, m)
    decreases y
  {
    if y >= m { RemAddMultiple(x, y - m, m); }
  }

  /** Reducing first modulo a multiple of `w` is invisible modulo `w`. */
  lemma {:induction false} RemRem(x: nat, m: nat, w: nat)
    requires m > 0 && w > 0 && Rem(m, w) == 0
    ensures Rem(Rem(x, m), w) == Rem(x, w)
    decreases x
  {
    if x >= m {
      RemRem(x - m, m, w);
      RemAddMultiple(x - m, m, w);
    }
  }

  /** Splitting a stretch in two loses at most one full lap. */
  lemma {:induction false} QuotAdd(a: nat, b: nat, w: nat)
    requires w > 0
    ensures Quot(a + b, w) - 1 <= Quot(a, w) + Quot(b, w) <= Quot(a + b, w)
    decreases a + b
  {
    if a >= w {
      QuotAdd(a - w, b, w);
    } else if b >= w {
      QuotAdd(a, b - w, w);
    }
  }

  /** `k` times `w`, as a sum. */
  function Times(k: nat, w: nat): nat {
    if k == 0 then 0 else w + Times(k - 1, w)
  }

  lemma {:induction false} TimesIsMul(k: nat, w: nat)
    ensures Times(k, w) == k * w
  {
    if k > 0 {
      TimesIsMul(k - 1, w);
      assert k * w == w + (k - 1) * w;
    }
  }

  lemma {:induction false} TimesAdd(k: nat, l: nat, w: nat)
    ensures Times(k + l, w) == Times(k, w) + Times(l, w)
    decreases k
  {
    if k > 0 { TimesAdd(k - 1, l, w); }
  }
}
