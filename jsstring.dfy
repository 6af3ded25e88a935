/**
 * The few ECMAScript string operations the vault relies on: String.prototype.trim,
 * toLowerCase, includes, and Number.prototype.toString() for a non-negative integer.
 */
module JsString {

  /** WhiteSpace and LineTerminator code points, the characters trim removes at either end. */
  predicate IsJsSpace(c: char) {
    c == ' ' || c == '\t' || c == '\n' || c == '\r' || c == '\U{000B}' || c == '\U{000C}'
    || c == '\U{00A0}' || c == '\U{1680}' || ('\U{2000}' <= c <= '\U{200A}')
    || c == '\U{2028}' || c == '\U{2029}' || c == '\U{202F}' || c == '\U{205F}'
    || c == '\U{3000}' || c == '\U{FEFF}'
  }

  /** Empty, or made only of whitespace. */
  predicate Blank(s: string) {
    forall i :: 0 <= i < |s| ==> IsJsSpace(s[i])
  }

  function TrimStart(s: string): (r: string)
    ensures r != [] ==> !IsJsSpace(r[0])
    decreases |s|
  {
    if s != [] && IsJsSpace(s[0]) then TrimStart(s[1..]) else s
  }

  function TrimEnd(s: string): string
    decreases |s|
  {
    if s != [] && IsJsSpace(s[|s| - 1]) then TrimEnd(s[..|s| - 1]) else s
  }

  function Trim(s: string): string {
    TrimEnd(TrimStart(s))
  }

  lemma {:induction false} TrimStartEmptyIffBlank(s: string)
    ensures TrimStart(s) == [] <==> Blank(s)
    decreases |s|
  {
    if s != [] && IsJsSpace(s[0]) {
      TrimStartEmptyIffBlank(s[1..]);
      assert Blank(s) <==> Blank(s[1..]) by {
        if Blank(s[1..]) {
          forall i | 0 <= i < |s| ensures IsJsSpace(s[i]) {
            if i > 0 { assert s[i] == s[1..][i - 1]; }
          }
        }
      }
    } else if s != [] {
      assert !IsJsSpace(s[0]);
    }
  }

  lemma {:induction false} TrimEndEmptyIffBlank(s: string)
    ensures TrimEnd(s) == [] <==> Blank(s)
    decreases |s|
  {
    if s != [] && IsJsSpace(s[|s| - 1]) {
      var front := s[..|s| - 1];
      TrimEndEmptyIffBlank(front);
      assert Blank(s) <==> Blank(front) by {
        if Blank(front) {
          forall i | 0 <= i < |s| ensures IsJsSpace(s[i]) {
            if i < |s| - 1 { assert s[i] == front[i]; }
          }
        }
      }
    } else if s != [] {
      assert !IsJsSpace(s[|s| - 1]);
    }
  }

  /** Trimming leaves nothing exactly when the text is blank: the test `!masterPassword?.trim()`. */
  lemma TrimEmptyIffBlank(s: string)
    ensures Trim(s) == [] <==> Blank(s)
  {
    TrimStartEmptyIffBlank(s);
    TrimEndEmptyIffBlank(TrimStart(s));
    var t := TrimStart(s);
    if t != [] {
      assert !Blank(t) by { assert !IsJsSpace(t[0]); }
    }
  }

  /** toLowerCase on one code point: ASCII and Latin-1 capitals map to their small letters. */
  function LowerChar(c: char): char {
    if 'A' <= c <= 'Z' || ('\U{00C0}' <= c <= '\U{00DE}' && c != '\U{00D7}')
    then (c as int + 32) as char
    else c
  }

  function ToLower(s: string): string {
    seq(|s|, i requires 0 <= i < |s| => LowerChar(s[i]))
  }

  predicate StartsWith(s: string, prefix: string) {
    |prefix| <= |s| && s[..|prefix|] == prefix
  }

  /** String.prototype.includes: needle occurs somewhere in hay (the empty needle always does). */
  predicate Includes(hay: string, needle: string)
    decreases |hay|
  {
    StartsWith(hay, needle) || (hay != [] && Includes(hay[1..], needle))
  }

  /** Includes finds a needle wherever it sits, so it matches its usual definition. */
  lemma {:induction false} IncludesInfix(before: string, needle: string, after: string)
    ensures Includes(before + needle + after, needle)
    decreases |before|
  {
    var hay := before + needle + after;
    if before == [] {
      assert hay[..|needle|] == needle;
    } else {
      IncludesInfix(before[1..], needle, after);
      assert hay[1..] == before[1..] + needle + after;
    }
  }

  /** An occurrence found by Includes is a real one: some slice of hay equals needle. */
  lemma {:induction false} IncludesWitness(hay: string, needle: string) returns (at: nat)
    requires Includes(hay, needle)
    ensures at + |needle| <= |hay| && hay[at..at + |needle|] == needle
    decreases |hay|
  {
    if StartsWith(hay, needle) {
      at := 0;
    } else {
      var k := IncludesWitness(hay[1..], needle);
      assert hay[1..][k..k + |needle|] == hay[k + 1..k + 1 + |needle|];
      at := k + 1;
    }
  }

  const Digits := "0123456789"

  /** Number.prototype.toString() of a non-negative integer: decimal digits, no leading zero. */
  function DecimalString(n: nat): (s: string)
    ensures 1 <= |s| && forall i :: 0 <= i < |s| ==> s[i] in Digits
    ensures |s| > 1 ==> s[0] != '0'
  {
    if n < 10 then [Digits[n]] else DecimalString(n / 10) + [Digits[n % 10]]
  }

  function DigitValue(c: char): nat {
    if '0' <= c <= '9' then c as int - '0' as int else 0
  }

  /** Reads a run of decimal digits back as a number. */
  function DecimalValue(s: string): nat
    decreases |s|
  {
    if s == [] then 0 else DecimalValue(s[..|s| - 1]) * 10 + DigitValue(s[|s| - 1])
  }

  lemma DigitValueOf(d: nat)
    requires d < 10
    ensures DigitValue(Digits[d]) == d
  {
  }

  lemma {:induction false} DecimalRoundTrip(n: nat)
    ensures DecimalValue(DecimalString(n)) == n
  {
    var s := DecimalString(n);
    if n < 10 {
      DigitValueOf(n);
      assert s[..|s| - 1] == [];
    } else {
      var q, r := n / 10, n % 10;
      DecimalRoundTrip(q);
      DigitValueOf(r);
      assert s == DecimalString(q) + [Digits[r]];
      assert s[..|s| - 1] == DecimalString(q) && s[|s| - 1] == Digits[r];
      assert n == q * 10 + r;
    }
  }

  /** Two clock readings print the same decimal text exactly when they are equal. */
  lemma DecimalInjective(a: nat, b: nat)
    ensures DecimalString(a) == DecimalString(b) <==> a == b
  {
    DecimalRoundTrip(a);
    DecimalRoundTrip(b);
  }
}
