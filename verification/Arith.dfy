/** Division, remainder and rounded-up quotient by an unknown positive number. */
module Arith {

  lemma {:induction false} MulMonotone(b: nat, p: nat, q: nat)
    requires p <= q
    ensures b * p <= b * q && b * (p + 1) == b * p + b
  {
    if p < q {
      MulMonotone(b, p, q - 1);
      assert b * q == b * (q - 1) + b;
    }
  }

  lemma DivModUnique(b: nat, q: nat, r: nat)
    requires r < b
    ensures (b * q + r) / b == q && (b * q + r) % b == r
  {
    var x := b * q + r;
    var q', r' := x / b, x % b;
    assert x == b * q' + r';
    if q < q' {
      MulMonotone(b, q, q);
      MulMonotone(b, q + 1, q');
    }
    if q' < q {
      MulMonotone(b, q', q');
      MulMonotone(b, q' + 1, q);
    }
  }

  /** ceil(static_cast<double>(want) / static_cast<double>(b)), on the reals. */
  function Ceil(want: nat, b: nat): nat
    requires b > 0
  {
    var q := want as real / b as real;
    var c := -((-q).Floor);
    assert c as real >= q >= 0.0;
    c
  }

  lemma ScaleLe(a: real, c: real, b: real)
    requires a <= c && b >= 0.0
    ensures b * a <= b * c
  {
    assert b * (c - a) >= 0.0;
  }

  lemma ScaleLt(a: real, c: real, b: real)
    requires a < c && b > 0.0
    ensures b * a < b * c
  {
    assert b * (c - a) > 0.0;
  }

  lemma {:induction false} CastProduct(b: nat, c: nat)
    ensures (b * c) as real == b as real * c as real
    decreases c
  {
    if c > 0 {
      CastProduct(b, c - 1);
      assert b * c == b * (c - 1) + b;
    }
  }

  /** The rounded-up quotient is the least number of blocks that is enough. */
  lemma CeilIsLeast(want: nat, b: nat)
    requires b > 0
    ensures want <= Times(b, Ceil(want, b))
    ensures Ceil(want, b) > 0 ==> Times(b, Ceil(want, b) - 1) < want
  {
    CeilProduct(want, b);
  }

  lemma CeilBounds(want: nat, b: nat)
    requires b > 0
    ensures var q := want as real / b as real;
      && q <= Ceil(want, b) as real
      && (Ceil(want, b) > 0 ==> (Ceil(want, b) - 1) as real < q)
  {
  }

  lemma Undivide(x: real, b: real)
    requires b > 0.0
    ensures b * (x / b) == x
  {
  }

  lemma Enough(want: nat, b: nat, q: real, c: nat)
    requires b as real * q == want as real && q <= c as real
    ensures want <= b * c
  {
    ScaleLe(q, c as real, b as real);
    CastProduct(b, c);
  }

  lemma NotEnough(want: nat, b: nat, q: real, c: nat)
    requires b > 0 && b as real * q == want as real && c as real < q
    ensures b * c < want
  {
    ScaleLt(c as real, q, b as real);
    CastProduct(b, c);
  }

  lemma CeilProduct(want: nat, b: nat)
    requires b > 0
    ensures want <= b * Ceil(want, b)
    ensures Ceil(want, b) > 0 ==> b * (Ceil(want, b) - 1) < want
  {
    CeilBounds(want, b);
    Undivide(want as real, b as real);
    var q, c := want as real / b as real, Ceil(want, b);
    Enough(want, b, q, c);
    if c > 0 {
      NotEnough(want, b, q, c - 1);
    }
  }

  /** The product, under a name that can be hidden from the verifier. */
  function Times(b: nat, n: nat): nat {
    b * n
  }

  lemma TimesSucc(b: nat, n: nat)
    ensures Times(b, n + 1) == Times(b, n) + b
  {
  }

  lemma {:induction false} TimesAdd(b: nat, m: nat, n: nat)
    ensures Times(b, m + n) == Times(b, m) + Times(b, n)
  {
    if n > 0 {
      TimesAdd(b, m, n - 1);
      TimesSucc(b, m + n - 1);
      TimesSucc(b, n - 1);
    }
  }

  /** Multiples of b at least one block apart. */
  lemma TimesMonotone(b: nat, p: nat, q: nat)
    ensures p <= q ==> Times(b, p) <= Times(b, q)
    ensures p < q ==> Times(b, p) + b <= Times(b, q)
  {
    if p < q {
      MulMonotone(b, p, p);
      MulMonotone(b, p + 1, q);
    }
  }
}
