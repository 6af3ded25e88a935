/**
 * generateSalt: eight random bytes, each written as two lower-case hexadecimal digits
 * (toString(16) padded on the left with "0"), joined into one string.
 */
module Hex {
  import opened Common

  /** Number of random bytes behind one salt. */
  const SaltBytes := 8

  const HexDigits := "0123456789abcdef"

  /** Number.prototype.toString(16) for a value 0..255: one digit below 16, two otherwise. */
  function ToRadix16(b: Byte): string {
    if b < 16 then [HexDigits[b]] else [HexDigits[b / 16], HexDigits[b % 16]]
  }

  /** String.prototype.padStart with a one-character fill. */
  function PadStart(s: string, width: nat, fill: char): (r: string)
    ensures |r| == if |s| < width then width else |s|
    decreases width - |s|
  {
    if |s| >= width then s else PadStart([fill] + s, width, fill)
  }

  /** padStart keeps the text at the end and puts only fill characters before it. */
  lemma {:induction false} PadStartContents(s: string, width: nat, fill: char)
    ensures var r := PadStart(s, width, fill);
            r[|r| - |s|..] == s && forall i :: 0 <= i < |r| - |s| ==> r[i] == fill
    decreases width - |s|
  {
    if |s| < width {
      PadStartContents([fill] + s, width, fill);
    }
  }

  function ByteToHex(b: Byte): string {
    PadStart(ToRadix16(b), 2, '0')
  }

  /** Every byte becomes exactly its high and its low nibble as lower-case digits. */
  lemma ByteToHexDigits(b: Byte)
    ensures ByteToHex(b) == [HexDigits[b / 16], HexDigits[b % 16]]
  {
    if b < 16 {
      assert PadStart([HexDigits[b]], 2, '0') == PadStart(['0', HexDigits[b]], 2, '0');
      assert b / 16 == 0 && b % 16 == b;
    }
  }

  predicate IsHexText(s: string) {
    forall i :: 0 <= i < |s| ==> s[i] in HexDigits
  }

  /** Array.from(bytes, byteToHex).join(""). */
  function HexEncode(bytes: seq<Byte>): (s: string)
    ensures |s| == 2 * |bytes| && IsHexText(s)
  {
    if bytes == [] then "" else
      var head, tail := ByteToHex(bytes[0]), HexEncode(bytes[1..]);
      ByteToHexDigits(bytes[0]);
      HexTextConcat(head, tail);
      head + tail
  }

  lemma HexTextConcat(a: string, b: string)
    requires IsHexText(a) && IsHexText(b)
    ensures IsHexText(a + b)
  {
    forall i | 0 <= i < |a + b| ensures (a + b)[i] in HexDigits {
      if i >= |a| { assert (a + b)[i] == b[i - |a|]; }
    }
  }

  /** generateSalt, with the output of crypto.getRandomValues passed in. */
  function GenerateSalt(random: seq<Byte>): (salt: string)
    requires |random| == SaltBytes
    ensures |salt| == 16 && IsHexText(salt)
  {
    HexEncode(random)
  }

  type Nibble = n: nat | n < 16

  function NibbleOf(c: char): Option<Nibble> {
    if '0' <= c <= '9' then Some(c as int - '0' as int)
    else if 'a' <= c <= 'f' then Some(c as int - 'a' as int + 10)
    else None
  }

  /** The byte two hexadecimal digits stand for. */
  function PairValue(hi: char, lo: char): Option<Byte> {
    if NibbleOf(hi).Some? && NibbleOf(lo).Some? then Some(16 * NibbleOf(hi).value + NibbleOf(lo).value) else None
  }

  /** Reads a lower-case hexadecimal string back into bytes; None for odd length or a stray character. */
  function HexDecode(s: string): Option<seq<Byte>>
    decreases |s|
  {
    if |s| < 2 then (if s == [] then Some([]) else None)
    else
      var head, rest := PairValue(s[0], s[1]), HexDecode(s[2..]);
      if head.Some? && rest.Some? then Some([head.value] + rest.value) else None
  }

  lemma NibbleOfDigit(n: Nibble)
    ensures NibbleOf(HexDigits[n]) == Some(n)
  {
  }

  /** The two digits ByteToHex writes for a byte read back as that byte. */
  lemma PairValueOfDigits(b: Byte)
    ensures PairValue(HexDigits[b / 16], HexDigits[b % 16]) == Some(b)
  {
    NibbleOfDigit(b / 16);
    NibbleOfDigit(b % 16);
    assert 16 * (b / 16) + b % 16 == b;
  }

  /** The salt text decodes back to the bytes it was made from. */
  lemma {:induction false} HexRoundTrip(bytes: seq<Byte>)
    ensures HexDecode(HexEncode(bytes)) == Some(bytes)
  {
    if bytes != [] {
      var b := bytes[0];
      var s := HexEncode(bytes);
      ByteToHexDigits(b);
      assert s == [HexDigits[b / 16], HexDigits[b % 16]] + HexEncode(bytes[1..]);
      assert s[0] == HexDigits[b / 16] && s[1] == HexDigits[b % 16] && s[2..] == HexEncode(bytes[1..]);
      HexRoundTrip(bytes[1..]);
      PairValueOfDigits(b);
      assert bytes == [b] + bytes[1..];
    }
  }

  /** Distinct random bytes give distinct salts. */
  lemma HexInjective(a: seq<Byte>, b: seq<Byte>)
    ensures HexEncode(a) == HexEncode(b) <==> a == b
  {
    HexRoundTrip(a);
    HexRoundTrip(b);
  }
}
