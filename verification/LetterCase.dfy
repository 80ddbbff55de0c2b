/** Lower-casing of ASCII letters. */
module LetterCase {
  function LowerChar(c: char): char {
    if 'A' <= c <= 'Z' then (c - 'A') + 'a' else c
  }

  /** Each of the 26 capital letters is replaced by the letter 32 places on; nothing else changes. */
  function ToLower(s: string): (lower: string)
    ensures |lower| == |s|
    ensures forall i :: 0 <= i < |s| ==>
      lower[i] as int == s[i] as int + (if 65 <= s[i] as int <= 90 then 32 else 0)
  {
    seq(|s|, i requires 0 <= i < |s| => LowerChar(s[i]))
  }
}
