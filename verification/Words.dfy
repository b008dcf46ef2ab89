/** Machine words and the small types that every part of the model uses. */
module Words {
  const BYTE: nat := 0x100
  const SHORT: nat := 0x1_0000
  const WORD: nat := 0x1_0000_0000
  const KERNEL_BASE: nat := 0xC000_0000   // where the kernel's gigabyte begins

  datatype Option<+T> = None | Some(value: T)

  function Least(a: nat, b: nat): (m: nat) {
    if a < b then a else b
  }

  function Pow2(k: nat): (p: nat) {
    if k == 0 then 1 else 2 * Pow2(k - 1)
  }

  /** Bitwise or. */
  function Or(a: nat, b: nat): (c: nat) {
    if a == 0 && b == 0 then 0 else 2 * Or(a / 2, b / 2) + if a % 2 == 1 || b % 2 == 1 then 1 else 0
  }

  /** Bitwise and. */
  function And(a: nat, b: nat): (c: nat) {
    if a == 0 || b == 0 then 0 else 2 * And(a / 2, b / 2) + if a % 2 == 1 && b % 2 == 1 then 1 else 0
  }

  /** And leaves the low bits out where the mask has none, and treats the rest alike. */
  lemma {:induction false} AndShifted(q: nat, r: nat, m: nat, k: nat)
    requires r < Pow2(k)
    ensures And(q * Pow2(k) + r, m * Pow2(k)) == And(q, m) * Pow2(k)
  {
    if k == 0 {
      assert Pow2(k) == 1 && r == 0;
    } else {
      var h, half, low := Pow2(k - 1), r / 2, r % 2;
      Doubled(q, h);
      Doubled(m, h);
      Doubled(And(q, m), h);
      AndShifted(q, half, m, k - 1);
      HalvesAnd(q * h + half, low, m * h);
      assert q * Pow2(k) + r == 2 * (q * h + half) + low;
    }
  }

  lemma Doubled(a: nat, h: nat)
    ensures a * (2 * h) == 2 * (a * h)
  {
  }

  lemma HalvesAnd(a: nat, low: nat, b: nat)
    requires low < 2
    ensures And(2 * a + low, 2 * b) == 2 * And(a, b)
  {
    assert (2 * a + low) / 2 == a && 2 * b / 2 == b && 2 * b % 2 == 0;
  }

  /** A mask of ones keeps every number that fits. */
  lemma {:induction false} AndOnes(q: nat, j: nat)
    requires q < Pow2(j)
    ensures And(q, Pow2(j) - 1) == q
  {
    if j > 0 {
      AndOnes(q / 2, j - 1);
      assert (Pow2(j) - 1) / 2 == Pow2(j - 1) - 1 && (Pow2(j) - 1) % 2 == 1;
    }
  }

  lemma {:induction false} OrZero(a: nat)
    ensures Or(a, 0) == a
  {
    if a > 0 {
      OrZero(a / 2);
    }
  }

  /** Or of numbers without common bits is their sum. */
  lemma {:induction false} OrDisjoint(q: nat, f: nat, k: nat)
    requires f < Pow2(k)
    ensures Or(q * Pow2(k), f) == q * Pow2(k) + f
  {
    if k == 0 {
      OrZero(q);
    } else {
      var a, h := q * Pow2(k), q * Pow2(k - 1);
      assert a == 2 * h;
      OrDisjoint(q, f / 2, k - 1);
    }
  }
}
