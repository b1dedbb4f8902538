/** String helpers used by the log lines: JavaScript's `toUpperCase`,
    `toLowerCase` and `slice(0, n)`, restricted to the ASCII letters. */
module Text {

  function UpperChar(c: char): char
  {
    if 'a' <= c <= 'z' then (c as int - 'a' as int + 'A' as int) as char else c
  }

  function LowerChar(c: char): char
  {
    if 'A' <= c <= 'Z' then (c as int - 'A' as int + 'a' as int) as char else c
  }

  /** `s.toUpperCase()` on ASCII letters; every other character is kept. */
  function ToUpper(s: string): (r: string)
    ensures |r| == |s|
  {
    if s == [] then [] else [UpperChar(s[0])] + ToUpper(s[1..])
  }

  /** `s.toLowerCase()` on ASCII letters; every other character is kept. */
  function ToLower(s: string): (r: string)
    ensures |r| == |s|
  {
    if s == [] then [] else [LowerChar(s[0])] + ToLower(s[1..])
  }

  /** `s.slice(0, n)`: the first `n` characters, or all of `s` when it is shorter. */
  function Prefix(s: string, n: nat): (r: string)
    ensures |r| == if |s| < n then |s| else n
    ensures r <= s
  {
    if |s| < n then s else s[..n]
  }

  /** Upper-casing maps every character on its own, in place. */
  lemma {:induction false} ToUpperChars(s: string)
    ensures forall i :: 0 <= i < |s| ==> ToUpper(s)[i] == UpperChar(s[i])
  {
    if s != [] {
      ToUpperChars(s[1..]);
      assert forall i :: 1 <= i < |s| ==> ToUpper(s)[i] == ToUpper(s[1..])[i - 1];
    }
  }

  /** Lower-casing maps every character on its own, in place. */
  lemma {:induction false} ToLowerChars(s: string)
    ensures forall i :: 0 <= i < |s| ==> ToLower(s)[i] == LowerChar(s[i])
  {
    if s != [] {
      ToLowerChars(s[1..]);
      assert forall i :: 1 <= i < |s| ==> ToLower(s)[i] == ToLower(s[1..])[i - 1];
    }
  }
}
