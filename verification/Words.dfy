/** Machine words and the arithmetic on them. */
module Words {
  const U64: nat := 0x1_0000_0000_0000_0000
  const U256: nat := U64 * U64 * U64 * U64

  lemma MulMono(a: nat, b: nat, c: nat)
    requires b <= c
    ensures a * b <= a * c && b * a <= c * a
  {
  }
}
