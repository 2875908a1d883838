/** Splitting a text at blanks, whatever counts as blank. */
module SplitWords {
  function WordLength(s: string, blank: char -> bool): (n: nat)
    ensures n <= |s|
  {
    if s == [] || blank(s[0]) then 0 else 1 + WordLength(s[1..], blank)
  }

  function Words(s: string, blank: char -> bool): seq<string>
    decreases |s|
  {
    if s == [] then []
    else if blank(s[0]) then Words(s[1..], blank)
    else
      var n := WordLength(s, blank);
      [s[..n]] + Words(s[n..], blank)
  }

  predicate NoBlanks(s: string, blank: char -> bool) {
    forall k | 0 <= k < |s| :: !blank(s[k])
  }

  /** A word of s: a run without blanks that no neighbour extends. */
  predicate WordAt(s: string, blank: char -> bool, i: nat, j: nat) {
    && i < j <= |s|
    && NoBlanks(s[i..j], blank)
    && (i == 0 || blank(s[i - 1])) && (j == |s| || blank(s[j]))
  }

  lemma {:induction false} WordLengthIs(s: string, blank: char -> bool)
    ensures var n := WordLength(s, blank); NoBlanks(s[..n], blank) && (n < |s| ==> blank(s[n]))
  {
    if s != [] && !blank(s[0]) {
      WordLengthIs(s[1..], blank);
      var n := WordLength(s[1..], blank);
      assert forall k | 0 < k < 1 + n :: s[k] == s[1..][..n][k - 1];
    }
  }

  /** A word begins at i, and goes on as far as WordLength says. */
  predicate Begins(s: string, blank: char -> bool, i: nat) {
    i < |s| && !blank(s[i]) && (i == 0 || blank(s[i - 1]))
  }

  function WordFrom(s: string, blank: char -> bool, i: nat): string
    requires i <= |s|
  {
    s[i..][..WordLength(s[i..], blank)]
  }

  lemma {:induction false} WordsBegin(s: string, blank: char -> bool, i: nat, j: nat)
    ensures WordAt(s, blank, i, j) <==> Begins(s, blank, i) && j == i + WordLength(s[i..], blank)
    ensures WordAt(s, blank, i, j) ==> s[i..j] == WordFrom(s, blank, i)
  {
    if i < |s| {
      var n := WordLength(s[i..], blank);
      WordLengthIs(s[i..], blank);
      assert s[i..][..n] == s[i..i + n];
      if WordAt(s, blank, i, j) {
        NoBlankInside(s, blank, i, j, i);
        NoBlankInside(s, blank, i, j, i + n);
        NoBlankInside(s, blank, i, i + n, j);
      }
    }
  }

  lemma {:induction false} NoBlankInside(s: string, blank: char -> bool, i: nat, j: nat, k: nat)
    ensures i <= k < j <= |s| && NoBlanks(s[i..j], blank) ==> !blank(s[k])
  {
    if i <= k < j <= |s| {
      assert s[i..j][k - i] == s[k];
    }
  }

  /** After a blank, or a word, the words of the rest are the rest of the words. */
  lemma {:induction false} RestBegins(s: string, blank: char -> bool, n: nat, i: nat)
    requires n <= i && n <= |s| && (0 < n < |s| ==> blank(s[n - 1]) || blank(s[n]))
    ensures Begins(s, blank, i) <==> Begins(s[n..], blank, i - n)
    ensures i <= |s| ==> WordFrom(s, blank, i) == WordFrom(s[n..], blank, i - n)
  {
    if i <= |s| {
      assert s[n..][i - n..] == s[i..];
    }
  }

  lemma {:induction false} FirstWord(s: string, blank: char -> bool)
    requires s != [] && !blank(s[0])
    ensures var n := WordLength(s, blank);
            && 0 < n <= |s| && (n < |s| ==> blank(s[n]))
            && WordFrom(s, blank, 0) == s[..n]
            && forall i | 0 < i < n :: !Begins(s, blank, i)
  {
    var n := WordLength(s, blank);
    WordLengthIs(s, blank);
    assert s[0..] == s;
    forall i | 0 < i < n ensures !Begins(s, blank, i) {
      assert s[..n][i - 1] == s[i - 1];
    }
  }

  /** Splitting finds the words and nothing else. */
  lemma {:induction false} FindsOnlyWords(s: string, blank: char -> bool, word: string) returns (i: nat, j: nat)
    requires word in Words(s, blank)
    ensures WordAt(s, blank, i, j) && s[i..j] == word
  {
    i := WordIsThere(s, blank, word);
    j := i + WordLength(s[i..], blank);
    WordsBegin(s, blank, i, j);
  }

  lemma {:induction false} WordIsThere(s: string, blank: char -> bool, word: string) returns (i: nat)
    requires word in Words(s, blank)
    ensures Begins(s, blank, i) && WordFrom(s, blank, i) == word
    decreases |s|
  {
    if blank(s[0]) {
      i := WordIsThere(s[1..], blank, word);
      RestBegins(s, blank, 1, 1 + i);
      i := 1 + i;
    } else {
      var n := WordLength(s, blank);
      FirstWord(s, blank);
      if word == s[..n] {
        return 0;
      }
      assert word in Words(s[n..], blank) by {
        assert Words(s, blank) == [s[..n]] + Words(s[n..], blank);
      }
      i := WordIsThere(s[n..], blank, word);
      RestBegins(s, blank, n, n + i);
      i := n + i;
    }
  }

  /** Splitting finds every word. */
  lemma {:induction false} FindsEveryWord(s: string, blank: char -> bool, i: nat, j: nat)
    requires WordAt(s, blank, i, j)
    ensures s[i..j] in Words(s, blank)
  {
    WordsBegin(s, blank, i, j);
    WordIsFound(s, blank, i);
  }

  lemma {:induction false} WordIsFound(s: string, blank: char -> bool, i: nat)
    requires Begins(s, blank, i)
    ensures WordFrom(s, blank, i) in Words(s, blank)
    decreases |s|
  {
    if blank(s[0]) {
      RestBegins(s, blank, 1, i);
      WordIsFound(s[1..], blank, i - 1);
    } else {
      var n := WordLength(s, blank);
      FirstWord(s, blank);
      if i > 0 {
        RestBegins(s, blank, n, i);
        WordIsFound(s[n..], blank, i - n);
      }
    }
  }
}
