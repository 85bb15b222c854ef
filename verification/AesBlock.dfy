/** AES as a block cipher on octets, for the cipher modes built on it. */
module AesBlock {
  import opened Common
  import opened Cbc
  import AesCipher
  import Aes

  function Bits(b: Bytes): (r: seq<bv8>)
    ensures |r| == |b|
  {
    seq(|b|, i requires 0 <= i < |b| => ToBits(b[i]))
  }

  function Octets(x: seq<bv8>): (r: Bytes)
    ensures |r| == |x|
  {
    seq(|x|, i requires 0 <= i < |x| => OfBits(x[i]))
  }

  lemma BitsOfOctets(x: seq<bv8>)
    ensures Bits(Octets(x)) == x
  {
    hide ToBits, OfBits;
    forall i | 0 <= i < |x| ensures Bits(Octets(x))[i] == x[i] {
      ToOfBits(x[i]);
    }
  }

  lemma OctetsOfBits(b: Bytes)
    ensures Octets(Bits(b)) == b
  {
    hide ToBits, OfBits;
    forall i | 0 <= i < |b| ensures Octets(Bits(b))[i] == b[i] {
      OfToBits(b[i]);
    }
  }

  function Encrypt(box: AesCipher.Box, key: Bytes, b: Bytes): Bytes
    requires |key| in {16, 24, 32}
  {
    if |b| == 16 then Octets(Aes.EncryptedBlock(box, Bits(key), Bits(b))) else b
  }

  function Decrypt(box: AesCipher.Box, key: Bytes, b: Bytes): Bytes
    requires |key| in {16, 24, 32}
  {
    if |b| == 16 then Octets(Aes.DecryptedBlock(box, Bits(key), Bits(b))) else b
  }

  function AesWith(box: AesCipher.Box, key: Bytes): Block
    requires |key| in {16, 24, 32}
  {
    Block(16, b => Encrypt(box, key, b), b => Decrypt(box, key, b))
  }

  /** On a block, what `Aes.AesKey` computes. */
  lemma AesComputes(box: AesCipher.Box, key: Bytes, b: Bytes)
    requires |key| in {16, 24, 32} && |b| == 16
    ensures AesWith(box, key).n == 16
    ensures Bits(AesWith(box, key).enc(b)) == Aes.EncryptedBlock(box, Bits(key), Bits(b))
    ensures Bits(AesWith(box, key).dec(b)) == Aes.DecryptedBlock(box, Bits(key), Bits(b))
  {
    hide Bits, Octets, Aes.EncryptedBlock, Aes.DecryptedBlock;
    BitsOfOctets(Aes.EncryptedBlock(box, Bits(key), Bits(b)));
    BitsOfOctets(Aes.DecryptedBlock(box, Bits(key), Bits(b)));
  }

  /** AES under any key meets what the modes ask of a block cipher. */
  lemma AesIsCipher(box: AesCipher.Box, key: Bytes)
    requires AesCipher.IsInverse(box) && |key| in {16, 24, 32}
    ensures IsCipher(AesWith(box, key))
  {
    hide Bits, Octets, Aes.EncryptedBlock, Aes.DecryptedBlock, AesCipher.IsInverse;
    forall b: Bytes | |b| == 16 ensures Decrypt(box, key, Encrypt(box, key, b)) == b {
      var y := Aes.EncryptedBlock(box, Bits(key), Bits(b));
      BitsOfOctets(y);
      Aes.DecryptionUndoes(box, Bits(key), Bits(b));
      OctetsOfBits(b);
    }
  }
}
