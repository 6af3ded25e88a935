/**
 * The two WebCrypto primitives the vault calls, as an ideal model.
 *
 * PBKDF2 (section 5.2 of RFC 8018) with SHA-256, 10000 iterations and a 256-bit AES-GCM key
 * is deterministic; the model also treats it as collision-free, so a key is represented by
 * the inputs that determine it. AES-GCM (NIST SP 800-38D) is modelled as perfect
 * authenticated encryption: a ciphertext is a sealed term that only the same key and IV
 * open, and any byte string that was not produced by sealing fails authentication.
 */
module Crypto {
  import opened Common

  const Pbkdf2Iterations := 10000
  const AesKeyBits := 256

  datatype Hash = Sha256

  datatype Key = Pbkdf2Key(passphrase: string, salt: string, iterations: nat, hash: Hash, bits: nat)

  /** deriveKey: the salt is the hex text itself (its UTF-8 bytes), not the random bytes behind it. */
  function DeriveKey(passphrase: string, salt: string): Key {
    Pbkdf2Key(passphrase, salt, Pbkdf2Iterations, Sha256, AesKeyBits)
  }

  /** Same passphrase and salt, same key; a different passphrase or salt, a different key. */
  lemma DeriveKeyInjective(p1: string, s1: string, p2: string, s2: string)
    ensures DeriveKey(p1, s1) == DeriveKey(p2, s2) <==> p1 == p2 && s1 == s2
  {
  }

  datatype Ciphertext<P> = Sealed(key: Key, iv: seq<Byte>, plaintext: P) | Garbled(bytes: seq<Byte>)

  function Encrypt<P>(key: Key, iv: seq<Byte>, plaintext: P): Ciphertext<P> {
    Sealed(key, iv, plaintext)
  }

  /** The GCM tag check passes: the ciphertext was sealed under this key and this IV. */
  predicate Authentic<P>(key: Key, iv: seq<Byte>, ct: Ciphertext<P>) {
    ct.Sealed? && ct.key == key && ct.iv == iv
  }

  /** crypto.subtle.decrypt rejects with an OperationError when authentication fails. */
  datatype CryptoError = OperationError

  function Decrypt<P>(key: Key, iv: seq<Byte>, ct: Ciphertext<P>): (r: Result<P, CryptoError>)
    ensures r.Success? <==> Authentic(key, iv, ct)
    ensures r.Success? ==> ct == Encrypt(key, iv, r.value)
  {
    if Authentic(key, iv, ct) then Success(ct.plaintext) else Failure(OperationError)
  }
}
