/** AES in CBC mode. */
module AesCbc {
  import opened Buffers
  import Fips197
  import Fips197Laws
  import opened Cbc
  import opened GaloisField

  /** The block functions that aes_desc offers for a key. */
  function AesCipher(key: seq<byte>): BlockCipher
    requires |key| in {16, 24, 32}
  {
    BlockCipher(16,
                b => if |b| == 16 then Fips197.Encrypt(key, b) else b,
                b => if |b| == 16 then Fips197.Decrypt(key, b) else b)
  }

  function AesSetup(key: seq<byte>, rounds: int): SetupResult {
    if |key| in {16, 24, 32} && rounds in {0, Fips197.NumRounds(|key|)} then Scheduled(AesCipher(key)) else Refused
  }

  /** aes_desc */
  function AesDescriptor(): CipherDescriptor {
    CipherDescriptor(16, AesSetup)
  }

  lemma AesIsInvertible(key: seq<byte>)
    requires |key| in {16, 24, 32}
    ensures IsCipher(AesCipher(key)) && Invertible(AesCipher(key))
  {
    hide Fips197.Encrypt, Fips197.Decrypt;
    forall b: seq<byte> | |b| == 16
      ensures AesCipher(key).decrypt(AesCipher(key).encrypt(b)) == b
    {
      Fips197Laws.DecryptOfEncrypt(key, b);
    }
  }

  /** What the cipher encrypts, AES decrypts; and what it decrypts, AES encrypts. */
  lemma CipherIsAes(key: seq<byte>, b: seq<byte>)
    requires |key| in {16, 24, 32} && |b| == 16
    ensures var c := AesCipher(key);
            && c.blockLength == 16 && |c.encrypt(b)| == 16 && |c.decrypt(b)| == 16
            && Fips197.Decrypt(key, c.encrypt(b)) == b && Fips197.Encrypt(key, c.decrypt(b)) == b
  {
    hide Fips197.Encrypt, Fips197.Decrypt;
    Fips197Laws.DecryptOfEncrypt(key, b);
    Fips197Laws.EncryptOfDecrypt(key, b);
  }

  /** The key sizes and numbers of rounds that the set-up accepts. */
  lemma SetupAccepts(key: seq<byte>, rounds: int)
    ensures AesDescriptor().setup(key, rounds)
         == if (|key| == 16 && rounds in {0, 10}) || (|key| == 24 && rounds in {0, 12})
               || (|key| == 32 && rounds in {0, 14})
            then Scheduled(AesCipher(key)) else Refused
  {
    hide AesCipher;
  }

  lemma AesIsDescriptor()
    ensures IsDescriptor(AesDescriptor())
  {
    hide Fips197.Encrypt, Fips197.Decrypt;
    var d := AesDescriptor();
    forall key: seq<byte>, rounds: int | d.setup(key, rounds).Scheduled?
      ensures IsCipher(d.setup(key, rounds).cipher) && d.setup(key, rounds).cipher.blockLength == 16
    {
      AesIsInvertible(key);
    }
  }

  /** Encrypting a buffer in place and decrypting it in place from the same IV restores it, and both sides end with the
      same chaining value. */
  method InPlaceRoundTrip(key: seq<byte>, iv: array<byte>, buffer: array<byte>, len: nat,
      sender: SymmetricCbc, receiver: SymmetricCbc)
    requires |key| in {16, 24, 32} && iv.Length >= 16 && len <= buffer.Length && len % 16 == 0
    requires sender.IV.Length == 144 && receiver.IV.Length == 144
    requires sender != receiver && sender.IV != receiver.IV
    requires iv != sender.IV && iv != receiver.IV && buffer != sender.IV && buffer != receiver.IV && iv != buffer
    modifies sender, sender.IV, receiver, receiver.IV, buffer
    ensures buffer[..] == old(buffer[..])
    ensures sender.Started() && receiver.Started() && sender.Chain() == receiver.Chain()
  {
    hide Fips197.Encrypt, Fips197.Decrypt, Encrypted, Decrypted, NextIv, XorBytes, AesCipher;
    AesIsDescriptor();
    AesIsInvertible(key);
    ghost var c, plain, before := AesCipher(key), buffer[..len], buffer[..];
    var status := sender.Start(AesDescriptor(), iv, key, 0);
    status := receiver.Start(AesDescriptor(), iv, key, 0);
    status := sender.Encrypt(buffer, 0, buffer, 0, len);
    ghost var cipherText := Encrypted(c, iv[..16], plain);
    ghost var middle := buffer[..];
    WrittenParts(middle, before, 0, cipherText, 0, 0);
    status := receiver.Decrypt(buffer, 0, buffer, 0, len);
    DecryptedOfEncrypted(c, iv[..16], plain);
    WrittenParts(buffer[..], middle, 0, plain, 0, 0);
  }
}
