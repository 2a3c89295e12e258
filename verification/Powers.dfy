/** Products and powers of natural numbers. */
module Powers {

  lemma {:induction false} MulSuccessor(m: nat, w: nat)
    ensures (m + 1) * w == m * w + w
  {
  }

  lemma {:induction false} MulMonotone(x: nat, y: nat, z: nat)
    requires x <= y
    ensures x * z <= y * z
  {
  }

  /** base to the power k. */
  function Power(base: nat, k: nat): nat {
    if k == 0 then 1 else base * Power(base, k - 1)
  }

  lemma {:induction false} PowerPositive(base: nat, k: nat)
    requires base > 0
    ensures Power(base, k) > 0
    decreases k
  {
    if k == 0 {
    } else {
      PowerPositive(base, k - 1);
      ProductPositive(base, Power(base, k - 1));
    }
  }

  lemma {:induction false} ProductPositive(x: nat, y: nat)
    requires x > 0 && y > 0
    ensures x * y > 0
  {
  }
}
