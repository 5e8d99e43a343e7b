/** Bytes of memory, and the numbers they stand for. */
module Bytes {

  /** The low eight bits of a number. */
  function Byte(n: nat): bv8 {
    (n % 256) as bv8
  }

  lemma Back(m: nat)
    requires m < 256
    ensures (m as bv8) as int == m
  {
  }

  lemma ByteValue(n: nat)
    ensures Byte(n) as int == n % 256
  {
    Back(n % 256);
  }
}
