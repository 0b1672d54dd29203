/** Bit masks over the natural numbers: the circular buffer of the work-stealing
    queue is indexed by `i & (capacity - 1)`, and `init` accepts a capacity when
    `capacity & (capacity - 1)` is zero. */
module Masks {

  /** Bitwise AND, one binary digit at a time. */
  function And(x: nat, y: nat): (r: nat)
    ensures r <= x && r <= y
  {
    if x == 0 || y == 0 then 0 else 2 * And(x / 2, y / 2) + (x % 2) * (y % 2)
  }

  function Pow2(k: nat): (r: nat)
    ensures r > 0
  {
    if k == 0 then 1 else 2 * Pow2(k - 1)
  }

  lemma {:induction false} AndSelf(x: nat)
    ensures And(x, x) == x
  {
    if x > 0 {
      AndSelf(x / 2);
    }
  }

  /** A non-zero mask test keeps no odd number above one. */
  lemma {:induction false} TestHalves(c: nat)
    requires c > 1 && And(c, c - 1) == 0
    ensures c % 2 == 0 && And(c / 2, c / 2 - 1) == 0
  {
    if c % 2 == 1 {
      assert c / 2 == (c - 1) / 2;
      AndSelf(c / 2);
    } else {
      assert (c - 1) / 2 == c / 2 - 1;
    }
  }

  /** With a capacity that `init` accepts, the mask is the remainder: it is the
      identity below the capacity and repeats with period `c`. */
  lemma {:induction false} MaskIsPeriodic(i: nat, c: nat)
    requires c > 0 && And(c, c - 1) == 0
    ensures i < c ==> And(i, c - 1) == i
    ensures And(i + c, c - 1) == And(i, c - 1) < c
    decreases c
  {
    assert c == 1 ==> And(i, 0) == 0 && And(i + 1, 0) == 0;
    if c > 1 {
      TestHalves(c);
      hide And;
      var h := c / 2;
      MaskIsPeriodic(i / 2, h);
      MaskStep(i, h);
      MaskStep(i + c, h);
      assert (i + c) / 2 == i / 2 + h;
    }
  }

  lemma MaskStep(i: nat, h: nat)
    requires h > 0
    ensures And(i, 2 * h - 1) == 2 * And(i / 2, h - 1) + i % 2
  {
    assert (2 * h - 1) / 2 == h - 1 && (2 * h - 1) % 2 == 1;
    assert (i % 2) * 1 == i % 2;
  }

  /** The test of `init` accepts exactly the powers of two. */
  lemma {:induction false} TestAcceptsPowersOfTwo(c: nat)
    requires c > 0
    ensures And(c, c - 1) == 0 <==> exists k: nat :: c == Pow2(k)
  {
    if And(c, c - 1) == 0 {
      if c == 1 {
        assert c == Pow2(0);
      } else {
        TestHalves(c);
        TestAcceptsPowersOfTwo(c / 2);
        var k: nat :| c / 2 == Pow2(k);
        assert c == Pow2(k + 1);
      }
    }
    if k: nat :| c == Pow2(k) {
      PowerPassesTest(k);
    }
  }

  lemma {:induction false} PowerPassesTest(k: nat)
    ensures And(Pow2(k), Pow2(k) - 1) == 0
  {
    if k > 0 {
      PowerPassesTest(k - 1);
      var h := Pow2(k - 1);
      assert Pow2(k) == 2 * h;
      MaskStep(2 * h, h);
      assert 2 * h / 2 == h;
    }
  }

  /** Indices less than one capacity apart use different slots. */
  lemma {:induction false} SlotsDiffer(i: nat, j: nat, c: nat)
    requires c > 0 && And(c, c - 1) == 0 && i < j < i + c
    ensures And(i, c - 1) != And(j, c - 1)
    decreases c
  {
    TestHalves(c);
    var h := c / 2;
    MaskStep(i, h);
    MaskStep(j, h);
    if i % 2 == j % 2 {
      SlotsDiffer(i / 2, j / 2, h);
    }
  }
}
