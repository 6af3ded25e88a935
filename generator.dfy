/** generatePassword: twelve random bytes, each mapped into a 70-character alphabet by remainder. */
module Generator {
  import opened Common

  const Charset := "abcdefghijklmnopqrstuvwxyzABCDEFGHIJKLMNOPQRSTUVWXYZ0123456789!@#$%^&*"

  /** Number of random bytes, and so of characters, in a generated password. */
  const PasswordLength := 12

  /** Array.from(bytes, byte => charset[byte % charset.length]).join(""). */
  function MapToCharset(random: seq<Byte>): (pw: string)
    ensures |pw| == |random|
    ensures forall i :: 0 <= i < |pw| ==> pw[i] == Charset[random[i] % |Charset|]
  {
    if random == [] then "" else [Charset[random[0] % |Charset|]] + MapToCharset(random[1..])
  }

  /** generatePassword, with the output of crypto.getRandomValues passed in. */
  function GeneratePassword(random: seq<Byte>): (pw: string)
    requires |random| == PasswordLength
    ensures |pw| == PasswordLength
    ensures forall i :: 0 <= i < |pw| ==> pw[i] in Charset
  {
    MapToCharset(random)
  }

  /**
   * Modulo bias: 256 is not a multiple of 70, so the first 46 characters each have four
   * byte values mapping to them and the other 24 only three.
   */
  lemma ModuloBias(k: nat, b: Byte)
    requires k < 70
    ensures b % 70 == k <==> b == k || b == k + 70 || b == k + 140 || (k < 46 && b == k + 210)
  {
  }
}
