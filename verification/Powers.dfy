/** Powers of two, for the exponential backoffs. */
module Powers {
  function Pow2(k: nat): (p: nat)
    ensures p >= 1
  {
    if k == 0 then 1 else 2 * Pow2(k - 1)
  }

  function Min(x: int, y: int): int {
    if x <= y then x else y
  }
}
