/** Conversions between numbers and machine bytes. */
module Casts {
  lemma ByteRoundTrip(x: nat)
    requires x < 256
    ensures (x as bv8) as nat == x
  {}
}
