/** Numbers below 256 as eight bits. */
module EightBits {

  lemma BitsBack(a: int)
    requires 0 <= a < 0x100
    ensures (a as bv8) as int == a
  {
  }
}
