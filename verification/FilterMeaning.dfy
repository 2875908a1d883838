/** What a filter asks for in the words of RFC 8621 section 4.4.1, and which error refuses it. */
module FilterMeaning {
  import opened Wrappers
  import opened SplitWords
  import opened SearchKeys
  import opened FilterCompiler

  // ----- one condition -----

  /** A keyword of RFC 8621 section 4.1.1 is a system flag of RFC 3501 section 2.3.2; any other is itself. */
  predicate HasKeyword(m: Mail, keyword: string) {
    if keyword == "$seen" then "\\Seen" in m.flags
    else if keyword == "$flagged" then "\\Flagged" in m.flags
    else if keyword == "$answered" then "\\Answered" in m.flags
    else if keyword == "$draft" then "\\Draft" in m.flags
    else keyword in m.flags
  }

  /** What Python's str.split() splits at. */
  const BLANKS := {'\t', '\n', '\U{B}', '\U{C}', '\r', '\U{1C}', '\U{1D}', '\U{1E}', '\U{1F}', ' ', '\U{85}', '\U{A0}',
                   '\U{1680}', '\U{2000}', '\U{2001}', '\U{2002}', '\U{2003}', '\U{2004}', '\U{2005}', '\U{2006}',
                   '\U{2007}', '\U{2008}', '\U{2009}', '\U{200A}', '\U{2028}', '\U{2029}', '\U{202F}', '\U{205F}',
                   '\U{3000}'}

  predicate Stands(text: string, i: nat, j: nat) {
    && i < j <= |text|
    && (forall k | i <= k < j :: text[k] !in BLANKS)
    && (i == 0 || text[i - 1] in BLANKS) && (j == |text| || text[j] in BLANKS)
  }

  /** The text asks for a word that stands in it between blanks, with or without a star after it. */
  ghost predicate Asks(text: string, word: string) {
    exists i: nat, j: nat :: Stands(text, i, j) && IsOrStarred(text[i..j], word)
  }

  predicate IsOrStarred(piece: string, word: string) {
    piece == word + "*" || (piece == word && (piece == "" || piece[|piece| - 1] != '*'))
  }

  ghost predicate FieldHas(m: Mail, field: string, text: Option<string>) {
    text.Some? ==> forall word | Asks(text.value, word) :: m.contains(field, word)
  }

  /** Every property the condition carries holds, but for `inMailbox`. */
  ghost predicate Asked(f: Filter, m: Mail, dates: Dates) {
    && (f.hasKeyword.Some? ==> HasKeyword(m, f.hasKeyword.value))
    && (f.notKeyword.Some? ==> !HasKeyword(m, f.notKeyword.value))
    && FieldHas(m, "SUBJECT", f.subject) && FieldHas(m, "TEXT", f.text) && FieldHas(m, "BODY", f.body)
    && FieldHas(m, "FROM", f.from) && FieldHas(m, "TO", f.to) && FieldHas(m, "CC", f.cc) && FieldHas(m, "BCC", f.bcc)
    && (f.header.Some? && f.header.value != [] ==>
          m.header(f.header.value[0], if |f.header.value| == 1 then "" else f.header.value[1]))
    && (f.before.Some? && f.before.value != "" ==>
          dates(f.before.value).Some? && m.before(dates(f.before.value).value))
    && (f.after.Some? && f.after.value != "" ==> dates(f.after.value).Some? && m.since(dates(f.after.value).value))
  }

  predicate HasTree(f: Filter) {
    f.operator != None || f.hasConditions || f.conditions != []
  }

  lemma {:induction false} BlanksExactly(c: char)
    ensures IsSpace(c) <==> c in BLANKS
  {
    var n := c as int;
    if 0x2000 <= n <= 0x200A {
      assert c in {'\U{2000}', '\U{2001}', '\U{2002}', '\U{2003}', '\U{2004}', '\U{2005}', '\U{2006}', '\U{2007}',
                   '\U{2008}', '\U{2009}', '\U{200A}'};
    }
  }

  lemma {:induction false} StandsExactly(text: string, i: nat, j: nat)
    ensures Stands(text, i, j) <==> WordAt(text, IsSpace, i, j)
  {
    forall c: char ensures IsSpace(c) <==> c in BLANKS { BlanksExactly(c); }
    if i < j <= |text| {
      if forall k | i <= k < j :: text[k] !in BLANKS {
        forall k | 0 <= k < j - i ensures !IsSpace(text[i..j][k]) { assert text[i..j][k] == text[i + k]; }
      }
      if NoBlanks(text[i..j], IsSpace) {
        forall k | i <= k < j ensures text[k] !in BLANKS { assert text[i..j][k - i] == text[k]; }
      }
    }
  }

  lemma {:induction false} StarExactly(piece: string, word: string)
    ensures IsOrStarred(piece, word) <==> word == StripStar(piece)
  {
    if piece != [] {
      var n := |piece| - 1;
      assert piece == piece[..n] + [piece[n]];
      assert piece[n..] == [piece[n]];
      assert (word + "*")[..|word|] == word;
    }
  }

  lemma {:induction false} FieldHasExactly(m: Mail, field: string, text: Option<string>)
    ensures FieldHas(m, field, text) <==> HasWords(field, text, m)
  {
    if text.Some? {
      var s := text.value;
      if HasWords(field, text, m) {
        forall word | Asks(s, word) ensures m.contains(field, word) {
          var i: nat, j: nat :| Stands(s, i, j) && IsOrStarred(s[i..j], word);
          StandsExactly(s, i, j);
          FindsEveryWord(s, IsSpace, i, j);
          StarExactly(s[i..j], word);
        }
      }
      if FieldHas(m, field, text) {
        forall piece | piece in Split(s) ensures m.contains(field, StripStar(piece)) {
          var i, j := FindsOnlyWords(s, IsSpace, piece);
          StandsExactly(s, i, j);
          StarExactly(s[i..j], StripStar(piece));
          assert Asks(s, StripStar(piece));
        }
      }
    }
  }

  lemma {:induction false} KeywordExactly(m: Mail, keyword: string)
    ensures HasKeyword(m, keyword) <==> KeywordFlag(keyword) in m.flags
  {
  }

  lemma {:induction false} AskedExactly(f: Filter, m: Mail, dates: Dates)
    requires !BadDate(f.before, dates) && !BadDate(f.after, dates)
    ensures Asked(f, m, dates) <==> ConditionHolds(f, m, dates)
  {
    FieldHasExactly(m, "SUBJECT", f.subject);
    FieldHasExactly(m, "TEXT", f.text);
    FieldHasExactly(m, "BODY", f.body);
    FieldHasExactly(m, "FROM", f.from);
    FieldHasExactly(m, "TO", f.to);
    FieldHasExactly(m, "CC", f.cc);
    FieldHasExactly(m, "BCC", f.bcc);
  }

  /** A condition is searched in the mailbox it names, or in all, and finds there exactly the messages it asks for. */
  lemma {:induction false} ConditionAsksExactly(f: Filter, m: Mail, dates: Dates)
    requires !HasTree(f) && Plan(f, dates).Ok?
    ensures var (mailbox, criteria) := Plan(f, dates).value;
            && mailbox == (if f.inMailbox == Some("") then None else f.inMailbox)
            && ParseKeys(criteria).Some?
            && (MatchesAll(ParseKeys(criteria).value, m) <==> Asked(f, m, dates))
  {
    TranslateMeansKept(f, m, dates);
    AskedExactly(f, m, dates);
    if Translate(f, dates).value == [] {
      VacuousContent(f, m, dates);
      OneKeyMeans([Atom("ALL")], m);
    }
    assert Means(Plan(f, dates).value.1, m, Asked(f, m, dates));
  }

  /** `hasKeyword` finds exactly the messages with the keyword, `notKeyword` exactly the others. */
  lemma {:induction false} KeywordIsAskedFor(keyword: string, m: Mail, dates: Dates)
    ensures var has := Plan(EMPTY_FILTER.(hasKeyword := Some(keyword)), dates);
            && has.Ok? && has.value.0 == None && ParseKeys(has.value.1).Some?
            && (MatchesAll(ParseKeys(has.value.1).value, m) <==> HasKeyword(m, keyword))
    ensures var hasNot := Plan(EMPTY_FILTER.(notKeyword := Some(keyword)), dates);
            && hasNot.Ok? && hasNot.value.0 == None && ParseKeys(hasNot.value.1).Some?
            && (MatchesAll(ParseKeys(hasNot.value.1).value, m) <==> !HasKeyword(m, keyword))
  {
    var has, hasNot := EMPTY_FILTER.(hasKeyword := Some(keyword)), EMPTY_FILTER.(notKeyword := Some(keyword));
    OneKeywordTokens(has, dates);
    OneKeywordTokens(hasNot, dates);
    ConditionAsksExactly(has, m, dates);
    ConditionAsksExactly(hasNot, m, dates);
  }

  /** The search key of RFC 3501 section 6.4.4 for a system flag, and the keyword it stands for. */
  const SYSTEM_KEYWORDS := [("$seen", "SEEN"), ("$flagged", "FLAGGED"), ("$answered", "ANSWERED"), ("$draft", "DRAFT")]

  /** On the wire the four keywords of RFC 8621 are the search keys of their flags. */
  lemma {:induction false} KeywordsOnTheWire(i: nat, dates: Dates)
    requires i < |SYSTEM_KEYWORDS|
    ensures var (keyword, key) := SYSTEM_KEYWORDS[i];
            && Plan(EMPTY_FILTER.(hasKeyword := Some(keyword)), dates) == Ok((None, [Atom(key)]))
            && Plan(EMPTY_FILTER.(notKeyword := Some(keyword)), dates) == Ok((None, [Atom("NOT"), Atom(key)]))
  {
    var (keyword, key) := SYSTEM_KEYWORDS[i];
    assert KeywordTerm(Some(keyword), false) + [] == [Atom(key)];
    assert [] + KeywordTerm(Some(keyword), true) == [Atom("NOT"), Atom(key)];
    OneKeywordTokens(EMPTY_FILTER.(hasKeyword := Some(keyword)), dates);
    OneKeywordTokens(EMPTY_FILTER.(notKeyword := Some(keyword)), dates);
  }

  lemma {:induction false} OneKeywordTokens(f: Filter, dates: Dates)
    requires f == EMPTY_FILTER.(hasKeyword := f.hasKeyword, notKeyword := f.notKeyword)
    requires f.hasKeyword.Some? || f.notKeyword.Some?
    ensures Plan(f, dates) == Ok((None, KeywordTerm(f.hasKeyword, false) + KeywordTerm(f.notKeyword, true)))
  {
    var ts := KeywordTerm(f.hasKeyword, false) + KeywordTerm(f.notKeyword, true);
    assert TextTerms(f) == [];
    assert ts + [] + [] + [] + [] == ts;
  }

  // ----- which error -----

  /** What is wrong with a node by itself. */
  function NodeError(f: Filter, dates: Dates): Option<FilterError> {
    if HasTree(f) then
      if f.operator !in {Some("AND"), Some("OR"), Some("NOT")} then Some(UnsupportedFilter)
      else if f.conditions == [] then Some(InvalidArguments)
      else None
    else if f.otherKeys != {} then Some(UnsupportedFilter)
    else if (f.before.Some? && f.before.value != "" && dates(f.before.value).None?)
            || (f.after.Some? && f.after.value != "" && dates(f.after.value).None?) then Some(InvalidArguments)
    else None
  }

  /** The tree, each node before its children and these from left to right. */
  function Nodes(f: Filter): seq<Filter>
    decreases f, 1
  {
    [f] + AllNodes(f.conditions)
  }

  function AllNodes(cs: seq<Filter>): seq<Filter>
    decreases cs, 0
  {
    if cs == [] then [] else Nodes(cs[0]) + AllNodes(cs[1..])
  }

  /** `e` is what the first node in error says. */
  ghost predicate FirstError(ns: seq<Filter>, dates: Dates, e: FilterError) {
    exists i: nat | i < |ns| :: NodeError(ns[i], dates) == Some(e) && NoErrors(ns[..i], dates)
  }

  predicate NoErrors(ns: seq<Filter>, dates: Dates) {
    forall n <- ns :: NodeError(n, dates) == None
  }

  lemma {:induction false} FirstErrorInFront(a: seq<Filter>, b: seq<Filter>, dates: Dates, e: FilterError)
    ensures NoErrors(a + b, dates) <==> NoErrors(a, dates) && NoErrors(b, dates)
    ensures FirstError(a, dates, e) ==> FirstError(a + b, dates, e)
    ensures NoErrors(a, dates) && FirstError(b, dates, e) ==> FirstError(a + b, dates, e)
  {
    if FirstError(a, dates, e) {
      var i: nat :| i < |a| && NodeError(a[i], dates) == Some(e) && NoErrors(a[..i], dates);
      assert (a + b)[i] == a[i] && (a + b)[..i] == a[..i];
    }
    if NoErrors(a, dates) && FirstError(b, dates, e) {
      var i: nat :| i < |b| && NodeError(b[i], dates) == Some(e) && NoErrors(b[..i], dates);
      assert (a + b)[|a| + i] == b[i] && (a + b)[..|a| + i] == a + b[..i];
    }
  }

  /** A filter is refused with the error of its first node in error, whatever is wrong further on. */
  lemma {:induction false} RefusedWithTheFirstError(f: Filter, dates: Dates)
    ensures match Translate(f, dates)
            case Ok(_) => NoErrors(Nodes(f), dates)
            case Err(e) => FirstError(Nodes(f), dates, e)
    decreases f, 1
  {
    ChildrenRefused(f.conditions, dates);
    NodeItself(f, dates);
    var e := if Translate(f, dates).Err? then Translate(f, dates).error else UnsupportedFilter;
    FirstErrorInFront([f], AllNodes(f.conditions), dates, e);
  }

  lemma {:induction false} NodeItself(f: Filter, dates: Dates)
    ensures NodeError(f, dates).Some? ==>
              Translate(f, dates) == Err(NodeError(f, dates).value) && FirstError([f], dates, NodeError(f, dates).value)
    ensures NodeError(f, dates).None? ==> NoErrors([f], dates)
    ensures NodeError(f, dates).None? ==>
              (Translate(f, dates).Err? <==> Groups(f.conditions, dates).Err?)
              && (Translate(f, dates).Err? ==> Translate(f, dates).error == Groups(f.conditions, dates).error)
  {
    if NodeError(f, dates).Some? {
      assert [f][..0] == [] && [f][0] == f;
    }
  }

  lemma {:induction false} ChildrenRefused(cs: seq<Filter>, dates: Dates)
    ensures match Groups(cs, dates)
            case Ok(_) => NoErrors(AllNodes(cs), dates)
            case Err(e) => FirstError(AllNodes(cs), dates, e)
    decreases cs, 0
  {
    if cs != [] {
      RefusedWithTheFirstError(cs[0], dates);
      ChildrenRefused(cs[1..], dates);
      var e := if Groups(cs, dates).Err? then Groups(cs, dates).error else UnsupportedFilter;
      FirstErrorInFront(Nodes(cs[0]), AllNodes(cs[1..]), dates, e);
    }
  }
}
