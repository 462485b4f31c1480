/** JavaScript's bit operators on non-negative integers, bit by bit. */
module Bits {

  function Pow2(k: nat): (p: nat)
    ensures p > 0
  {
    if k == 0 then 1 else 2 * Pow2(k - 1)
  }

  function And(a: nat, b: nat): nat
    decreases a
  {
    if a == 0 then 0 else (if a % 2 == 1 && b % 2 == 1 then 1 else 0) + 2 * And(a / 2, b / 2)
  }

  function Or(a: nat, b: nat): nat
    decreases a + b
  {
    if a + b == 0 then 0 else (if a % 2 == 1 || b % 2 == 1 then 1 else 0) + 2 * Or(a / 2, b / 2)
  }

  function ShiftLeft(a: nat, k: nat): nat { a * Pow2(k) }

  /** A mask of `k` ones keeps the low `k` bits. */
  lemma {:induction false} AndLowMask(a: nat, k: nat)
    ensures And(a, Pow2(k) - 1) == a % Pow2(k)
    decreases k
  {
    hide *;
    var d := Pow2(k);
    Pow2Step(k);
    if k == 0 {
      AndZero(a);
      ModOfSum(a, d, a, 0);
    } else if a == 0 {
      AndZero(d - 1);
      ModOfSum(a, d, 0, 0);
    } else {
      AndLowMask(a / 2, k - 1);
      MaskStep(a, Pow2(k - 1));
    }
  }

  lemma MaskStep(a: nat, p: nat)
    requires a > 0 && p > 0 && And(a / 2, p - 1) == (a / 2) % p
    ensures And(a, 2 * p - 1) == a % (2 * p)
  {
    AndOddMask(a, p);
    ModDouble(a, p);
  }

  lemma Pow2Step(k: nat)
    ensures Pow2(k) == if k == 0 then 1 else 2 * Pow2(k - 1)
  {
  }

  lemma AndOddMask(a: nat, p: nat)
    requires a > 0 && p > 0
    ensures And(a, 2 * p - 1) == a % 2 + 2 * And(a / 2, p - 1)
  {
  }

  lemma AndZero(a: nat)
    ensures And(a, 0) == 0 && And(0, a) == 0
  {
  }

  lemma ModDouble(a: nat, p: nat)
    requires p > 0
    ensures a % (2 * p) == a % 2 + 2 * ((a / 2) % p)
  {
    hide *;
    var q, r := (a / 2) / p, (a / 2) % p;
    assert a / 2 == q * p + r;
    assert a == 2 * (q * p + r) + a % 2;
    assert (2 * p) * q == 2 * (q * p);
    ModOfSum(a, 2 * p, q, 2 * r + a % 2);
  }

  lemma ModOfSum(a: nat, d: nat, q: int, r: nat)
    requires d > 0 && r < d && a == d * q + r
    ensures a % d == r && a / d == q
  {
    hide *;
    NoLess(d, q, a / d, r, a % d);
    NoLess(d, a / d, q, a % d, r);
  }

  lemma NoLess(d: nat, q: int, q': int, r: nat, r': nat)
    requires d * q + r == d * q' + r' && r < d && r' < d
    ensures q >= q'
  {
    assert q' >= q + 1 ==> d * q' >= d * (q + 1);
  }

  /** Bits that do not overlap are simply added. */
  lemma {:induction false} OrDisjoint(a: nat, k: nat, b: nat)
    requires b < Pow2(k)
    ensures Or(ShiftLeft(a, k), b) == ShiftLeft(a, k) + b
    decreases k
  {
    if k == 0 {
      OrZero(a);
    } else {
      var p := Pow2(k - 1);
      assert ShiftLeft(a, k) == 2 * (a * p);
      OrDisjoint(a, k - 1, b / 2);
    }
  }

  lemma OrZero(a: nat)
    ensures Or(a, 0) == a
  {
  }
}
