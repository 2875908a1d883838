/** Capital and small letters, for the comparisons that do not tell them apart. */
module LetterCase {
  function LowerChar(c: char): char {
    if 'A' <= c <= 'Z' then (c as int + 32) as char else c
  }

  function Lower(s: string): (r: string)
    ensures |r| == |s| && forall i :: 0 <= i < |s| ==> r[i] == LowerChar(s[i])
  {
    seq(|s|, i requires 0 <= i < |s| => LowerChar(s[i]))
  }

  const UPPER: string := "ABCDEFGHIJKLMNOPQRSTUVWXYZ"
  const LOWER: string := "abcdefghijklmnopqrstuvwxyz"

  /** `d` is the small letter of `c`, or `c` itself when it is no capital. */
  predicate SmallOf(c: char, d: char) {
    if c in UPPER then exists k | 0 <= k < 26 :: UPPER[k] == c && LOWER[k] == d else c == d
  }

  /** The text is the word, in capitals or small letters. */
  predicate Spells(text: string, word: string) {
    |text| == |word| && forall i | 0 <= i < |text| :: SmallOf(text[i], word[i])
  }

  lemma {:induction false} LetterAt(k: nat)
    requires k < 26
    ensures UPPER[k] == (65 + k) as char && LOWER[k] == (97 + k) as char
  {
  }

  lemma {:induction false} SmallExactly(c: char, d: char)
    ensures SmallOf(c, d) <==> LowerChar(c) == d
  {
    forall k | 0 <= k < 26 ensures UPPER[k] == (65 + k) as char && LOWER[k] == (97 + k) as char {
      LetterAt(k);
    }
    if 'A' <= c <= 'Z' {
      LetterAt(c as int - 65);
    }
  }

  lemma {:induction false} SpellsExactly(s: string, word: string)
    ensures Spells(s, word) <==> Lower(s) == word
  {
    forall i | 0 <= i < |s| && i < |word| ensures SmallOf(s[i], word[i]) <==> Lower(s)[i] == word[i] {
      SmallExactly(s[i], word[i]);
    }
  }
}
