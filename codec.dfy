/**
 * encryptData / decryptData and the shapes the vault slot can hold.
 *
 * JSON.stringify and JSON.parse are not modelled as text: a plaintext is the Document that
 * JSON.parse would return for it, and the stored slot is the StoredText whose parse it is.
 */
module Codec {
  import opened Common
  import opened Hex
  import opened Crypto
  import opened Records

  /** Length of the random AES-GCM IV. */
  const IvBytes := 12

  /** What JSON.parse makes of a decrypted plaintext. */
  datatype Document = CredentialArray(items: seq<Credential>) | NonArrayJson | NotJson

  /** The object encryptData returns: ciphertext, IV and the hex salt text. */
  datatype EncryptedData = EncryptedData(encrypted: Ciphertext<Document>, iv: seq<Byte>, salt: string)

  /** A parsed stored value: an encrypted record, or any other JSON value. */
  datatype JsonValue = VaultRecord(data: EncryptedData) | OtherValue

  /**
   * The text under "credstore_data": the empty string (falsy, like a missing item), text
   * that is not JSON at all, or JSON that parses to a value.
   */
  datatype StoredText = EmptyText | Unparsable | Parsed(value: JsonValue)

  /** The one message every decryption failure is reported with. */
  const DecryptError := "Invalid password or corrupted data"

  /** encryptData, with the random salt bytes and IV passed in. */
  function EncryptData(data: Document, passphrase: string, saltRandom: seq<Byte>, iv: seq<Byte>): (e: EncryptedData)
    requires |saltRandom| == SaltBytes && |iv| == IvBytes
    ensures e.salt == GenerateSalt(saltRandom) && e.iv == iv
    ensures DecryptData(VaultRecord(e), passphrase) == Success(data)
  {
    var salt := GenerateSalt(saltRandom);
    EncryptedData(Encrypt(DeriveKey(passphrase, salt), iv, data), iv, salt)
  }

  /** Why a decryption failed, before decryptData hides the cause. */
  datatype DecryptFault = NotAnEncryptedRecord | CipherRejected(cause: CryptoError)

  /** The body of decryptData's try block: derive the key from the stored salt, then open the ciphertext. */
  function DecryptRaw(v: JsonValue, passphrase: string): Result<Document, DecryptFault> {
    match v
    case OtherValue => Failure(NotAnEncryptedRecord)
    case VaultRecord(e) =>
      match Decrypt(DeriveKey(passphrase, e.salt), e.iv, e.encrypted)
      case Success(doc) => Success(doc)
      case Failure(f) => Failure(CipherRejected(f))
  }

  /**
   * decryptData: every failure, whatever its cause, becomes the same error; a success only
   * ever returns the plaintext that was sealed under this passphrase, this salt and this IV.
   */
  function DecryptData(v: JsonValue, passphrase: string): (r: Result<Document, string>)
    ensures r.Failure? ==> r.error == DecryptError
    ensures r.Success? <==> v.VaultRecord? && Authentic(DeriveKey(passphrase, v.data.salt), v.data.iv, v.data.encrypted)
    ensures r.Success? ==> v.data.encrypted == Encrypt(DeriveKey(passphrase, v.data.salt), v.data.iv, r.value)
  {
    match DecryptRaw(v, passphrase)
    case Success(doc) => Success(doc)
    case Failure(_) => Failure(DecryptError)
  }

  /** A wrong passphrase, a wrong shape and a forged ciphertext are indistinguishable to the caller. */
  lemma FailuresIndistinguishable(v1: JsonValue, p1: string, v2: JsonValue, p2: string)
    requires DecryptData(v1, p1).Failure? && DecryptData(v2, p2).Failure?
    ensures DecryptData(v1, p1) == DecryptData(v2, p2)
  {
  }

  /** A record sealed under one passphrase does not open under another. */
  lemma WrongPassphraseRejected(data: Document, p1: string, p2: string, saltRandom: seq<Byte>, iv: seq<Byte>)
    requires |saltRandom| == SaltBytes && |iv| == IvBytes
    requires p1 != p2
    ensures DecryptData(VaultRecord(EncryptData(data, p1, saltRandom, iv)), p2) == Failure(DecryptError)
  {
  }

  /** Replacing the ciphertext of a genuine record by bytes no sealing produced makes it fail. */
  lemma ForgedCiphertextRejected(data: Document, passphrase: string, saltRandom: seq<Byte>, iv: seq<Byte>, forged: seq<Byte>)
    requires |saltRandom| == SaltBytes && |iv| == IvBytes
    ensures DecryptData(VaultRecord(EncryptData(data, passphrase, saltRandom, iv).(encrypted := Garbled(forged))), passphrase)
            == Failure(DecryptError)
  {
  }

  /** Altering only the IV or only the salt of a genuine record always makes it fail. */
  lemma IvOrSaltChangeRejected(data: Document, passphrase: string, saltRandom: seq<Byte>, iv: seq<Byte>, iv': seq<Byte>, salt': string)
    requires |saltRandom| == SaltBytes && |iv| == IvBytes
    requires iv' != iv || salt' != GenerateSalt(saltRandom)
    ensures DecryptData(VaultRecord(EncryptData(data, passphrase, saltRandom, iv).(iv := iv', salt := salt')), passphrase)
            == Failure(DecryptError)
  {
  }
}
