/** Powers of two, and the largest number that a 64-bit word holds. */
module Powers {
  function Pow2(n: nat): (p: nat)
    ensures p >= 1
  {
    if n == 0 then 1 else 2 * Pow2(n - 1)
  }

  const SIZE_LIMIT: nat := 0xFFFF_FFFF_FFFF_FFFF

  lemma Pow2Plus16(n: nat)
    ensures Pow2(n + 16) == 0x1_0000 * Pow2(n)
  {
    assert Pow2(n + 4) == 2 * Pow2(n + 3) && Pow2(n + 3) == 2 * Pow2(n + 2) && Pow2(n + 2) == 2 * Pow2(n + 1);
    assert Pow2(n + 8) == 2 * Pow2(n + 7) && Pow2(n + 7) == 2 * Pow2(n + 6) && Pow2(n + 6) == 2 * Pow2(n + 5);
    assert Pow2(n + 12) == 2 * Pow2(n + 11) && Pow2(n + 11) == 2 * Pow2(n + 10) && Pow2(n + 10) == 2 * Pow2(n + 9);
    assert Pow2(n + 16) == 2 * Pow2(n + 15) && Pow2(n + 15) == 2 * Pow2(n + 14) && Pow2(n + 14) == 2 * Pow2(n + 13);
  }

  lemma Pow2Large(n: nat)
    requires n >= 64
    ensures Pow2(n) > SIZE_LIMIT
  {
    Pow2Plus16(n - 16);
    Pow2Plus16(n - 32);
    Pow2Plus16(n - 48);
    Pow2Plus16(n - 64);
  }
}
