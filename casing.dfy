/** `toLowerCase` as the header and cookie code applies it: exact on Latin-1
    (code points up to U+00FF) and on the one character beyond it that
    lower-cases into ASCII. */
module Casing {

  /** U+212A KELVIN SIGN, whose lower case is the ASCII letter `k`. */
  const KelvinSign: char := '\U{212A}'

  /** The upper-case letters of Latin-1: A-Z and U+00C0-U+00DE except the
      multiplication sign U+00D7. */
  predicate IsUpper(c: char) {
    'A' <= c <= 'Z' || ('\U{00C0}' <= c <= '\U{00DE}' && c != '\U{00D7}')
  }

  /** Lower-casing of one character: each upper-case letter of Latin-1 maps to
      the letter 0x20 above it, the Kelvin sign to `k`, and every other
      character is kept. */
  function LowerChar(c: char): (r: char)
    ensures IsUpper(c) ==> r as int == c as int + 32
    ensures c == KelvinSign ==> r == 'k'
    ensures !IsUpper(c) && c != KelvinSign ==> r == c
  {
    if IsUpper(c) then (c as int + 32) as char
    else if c == KelvinSign then 'k'
    else c
  }

  /** `toLowerCase`: the length is kept and each character is lower-cased on
      its own. */
  function Lower(s: string): (r: string)
    ensures |r| == |s|
    ensures forall i :: 0 <= i < |s| ==> r[i] == LowerChar(s[i])
  {
    if s == [] then [] else [LowerChar(s[0])] + Lower(s[1..])
  }

  predicate NoUpper(s: string) {
    forall i :: 0 <= i < |s| ==> !IsUpper(s[i]) && s[i] != KelvinSign
  }

  /** Text without upper-case letters lower-cases to itself. */
  lemma LowerOfLowerCase(s: string)
    requires NoUpper(s)
    ensures Lower(s) == s
  {
  }

  /** Only ASCII and the Kelvin sign lower-case into ASCII, and a Latin-1
      character stays within Latin-1. */
  lemma LowerCharToAscii(c: char)
    ensures (LowerChar(c) as int < 128) <==> (c as int < 128 || c == KelvinSign)
    ensures c as int < 256 ==> LowerChar(c) as int < 256
  {
  }
}
