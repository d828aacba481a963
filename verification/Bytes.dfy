// Bytes as bit vectors and as numbers.
module Bytes {
  type Byte = bv8

  lemma NatBack(x: Byte)
    ensures x as nat < 256 && (x as nat) as Byte == x
  {
  }

  lemma NibbleBack(n: nat)
    requires n < 16
    ensures n as Byte < 16 && (n as Byte) as nat == n
  {
  }

  lemma TwoNibbles(h: Byte, l: Byte)
    requires h < 16 && l < 16
    ensures ((h << 4) | l) as nat == 16 * (h as nat) + l as nat
  {
  }

  lemma ByteBack(n: nat)
    requires n < 256
    ensures (n as Byte) as nat == n
  {
    NibbleBack(n / 16);
    NibbleBack(n % 16);
    TwoNibbles((n / 16) as Byte, (n % 16) as Byte);
    NatBack(((n / 16) as Byte << 4) | (n % 16) as Byte);
  }
}
