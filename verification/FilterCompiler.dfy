/** Email/query filters (RFC 8621 section 4.4.1) compiled to IMAP SEARCH criteria. */
module FilterCompiler {
  import opened Wrappers
  import opened SplitWords
  import opened SearchKeys

  /** The filter object: every property it may carry, None where the key is absent. It is a FilterOperator when it has
      `operator` or `conditions`, a FilterCondition otherwise; absent conditions are the empty list. */
  datatype Filter = Filter(
    operator: Option<string>, hasConditions: bool, conditions: seq<Filter>,
    inMailbox: Option<string>, hasKeyword: Option<string>, notKeyword: Option<string>,
    subject: Option<string>, text: Option<string>, body: Option<string>,
    from: Option<string>, to: Option<string>, cc: Option<string>, bcc: Option<string>,
    header: Option<seq<string>>, before: Option<string>, after: Option<string>,
    otherKeys: set<string>)

  datatype FilterError = UnsupportedFilter | InvalidArguments

  /** Reads a UTCDate as an IMAP date, None when it is malformed. Calendars are not part of this model. */
  type Dates = string -> Option<string>

  predicate IsOperator(f: Filter) {
    f.operator.Some? || f.hasConditions || f.conditions != []
  }

  function OperatorOf(f: Filter): string {
    if f.operator.Some? then f.operator.value else ""
  }

  /** Python's truth of an optional string or list. */
  predicate Given<T>(v: Option<seq<T>>) {
    v.Some? && v.value != []
  }

  // ----- leaf conditions -----

  const KEYWORD_FLAGS := map["$seen" := "\\Seen", "$flagged" := "\\Flagged", "$answered" := "\\Answered",
      "$draft" := "\\Draft"]
  const FLAG_TERMS := map["\\Seen" := "SEEN", "\\Flagged" := "FLAGGED", "\\Answered" := "ANSWERED",
                          "\\Draft" := "DRAFT", "\\Deleted" := "DELETED"]

  function KeywordFlag(keyword: string): string {
    if keyword in KEYWORD_FLAGS then KEYWORD_FLAGS[keyword] else keyword
  }

  function KeywordTerm(keyword: Option<string>, negate: bool): seq<Token> {
    if keyword.None? then []
    else
      var flag := KeywordFlag(keyword.value);
      if flag in FLAG_TERMS then
        if negate then [Atom("NOT"), Atom(FLAG_TERMS[flag])] else [Atom(FLAG_TERMS[flag])]
      else if negate then [Atom("UNKEYWORD"), Atom(flag)]
      else [Atom("KEYWORD"), Atom(flag)]
  }

  predicate IsSpace(c: char) {
    || c == ' ' || '\t' <= c <= '\r' || '\U{1C}' <= c <= '\U{1F}' || c == '\U{85}' || c == '\U{A0}' || c == '\U{1680}'
    || '\U{2000}' <= c <= '\U{200A}' || c == '\U{2028}' || c == '\U{2029}' || c == '\U{202F}' || c == '\U{205F}'
        || c == '\U{3000}'
  }

  /** Python's str.split(). */
  function Split(s: string): seq<string> {
    Words(s, IsSpace)
  }

  function StripStar(word: string): string {
    if word != [] && word[|word| - 1] == '*' then word[..|word| - 1] else word
  }

  function Terms(field: string, words: seq<string>): seq<Token> {
    if words == [] then [] else [Atom(field), Atom(StripStar(words[0]))] + Terms(field, words[1..])
  }

  method SearchTerms(field: string, value: string) returns (criteria: seq<Token>)
    ensures criteria == Terms(field, Split(value))
  {
    criteria := [];
    var words := Split(value);
    for i := 0 to |words|
      invariant criteria + Terms(field, words[i..]) == Terms(field, words)
    {
      criteria := criteria + [Atom(field), Atom(StripStar(words[i]))];
    }
  }

  function TextTerm(field: string, value: Option<string>): seq<Token> {
    if value.None? then [] else Terms(field, Split(value.value))
  }

  function HeaderTerm(header: Option<seq<string>>): seq<Token> {
    if !Given(header) then []
    else [Atom("HEADER"), Atom(header.value[0]), Atom(if 1 < |header.value| then header.value[1] else "")]
  }

  function DateTerm(word: string, date: Option<string>): seq<Token> {
    if date.None? then [] else [Atom(word), Atom(date.value)]
  }

  predicate BadDate(v: Option<string>, dates: Dates) {
    Given(v) && dates(v.value).None?
  }

  function DateOf(v: Option<string>, dates: Dates): Option<string> {
    if Given(v) then dates(v.value) else None
  }

  function TextTerms(f: Filter): seq<Token> {
    TextTerm("SUBJECT", f.subject) + TextTerm("TEXT", f.text) + TextTerm("BODY", f.body)
    + TextTerm("FROM", f.from) + TextTerm("TO", f.to) + TextTerm("CC", f.cc) + TextTerm("BCC", f.bcc)
  }

  function TranslateCondition(f: Filter, dates: Dates): Result<seq<Token>, FilterError> {
    if f.otherKeys != {} then Err(UnsupportedFilter)
    else if BadDate(f.before, dates) || BadDate(f.after, dates) then Err(InvalidArguments)
    else Ok(KeywordTerm(f.hasKeyword, false) + KeywordTerm(f.notKeyword, true) + TextTerms(f) + HeaderTerm(f.header)
            + DateTerm("BEFORE", DateOf(f.before, dates)) + DateTerm("SINCE", DateOf(f.after, dates)))
  }

  // ----- operators -----

  function Flatten(gs: seq<seq<Token>>): seq<Token> {
    if gs == [] then [] else gs[0] + Flatten(gs[1..])
  }

  function NotEach(gs: seq<seq<Token>>): seq<Token> {
    if gs == [] then [] else [Atom("NOT"), Group(gs[0])] + NotEach(gs[1..])
  }

  function OrFold(gs: seq<seq<Token>>): seq<Token>
    requires gs != []
  {
    if |gs| == 1 then gs[0] else [Atom("OR"), Group(gs[0]), Group(OrFold(gs[1..]))]
  }

  function Combine(operator: string, gs: seq<seq<Token>>): seq<Token> {
    if gs == [] then []
    else if operator == "AND" then Flatten(gs)
    else if operator == "NOT" then NotEach(gs)
    else OrFold(gs)
  }

  function Translate(f: Filter, dates: Dates): Result<seq<Token>, FilterError>
    decreases f, 1
  {
    if !IsOperator(f) then TranslateCondition(f, dates)
    else if OperatorOf(f) !in {"AND", "OR", "NOT"} then Err(UnsupportedFilter)
    else if f.conditions == [] then Err(InvalidArguments)
    else
      match Groups(f.conditions, dates)
      case Ok(gs) => Ok(Combine(OperatorOf(f), gs))
      case Err(e) => Err(e)
  }

  /** The children's criteria, without the children that compile to nothing. */
  function Groups(cs: seq<Filter>, dates: Dates): Result<seq<seq<Token>>, FilterError>
    decreases cs, 0
  {
    if cs == [] then Ok([])
    else
      match Translate(cs[0], dates)
      case Err(e) => Err(e)
      case Ok(g) =>
        match Groups(cs[1..], dates)
        case Err(e) => Err(e)
        case Ok(gs) => Ok(if g == [] then gs else [g] + gs)
  }

  method CombineGroups(operator: string, subGroups: seq<seq<Token>>) returns (r: Result<seq<Token>, FilterError>)
    ensures r == Ok(Combine(operator, subGroups))
  {
    if subGroups == [] {
      return Ok([]);
    }
    var result := [];
    if operator == "AND" {
      for i := 0 to |subGroups|
        invariant result + Flatten(subGroups[i..]) == Flatten(subGroups)
      {
        result := result + subGroups[i];
      }
      assert result == Flatten(subGroups);
    } else if operator == "NOT" {
      for i := 0 to |subGroups|
        invariant result + NotEach(subGroups[i..]) == NotEach(subGroups)
      {
        result := result + [Atom("NOT"), Group(subGroups[i])];
      }
      assert result == NotEach(subGroups);
    } else {
      var n := |subGroups| - 1;
      result := subGroups[n];
      assert subGroups[n..] == [subGroups[n]];
      for i := n downto 0
        invariant result == OrFold(subGroups[i..])
      {
        result := [Atom("OR"), Group(subGroups[i]), Group(result)];
        assert subGroups[i..][1..] == subGroups[i + 1..];
      }
      assert subGroups[0..] == subGroups;
    }
    return Ok(result);
  }

  method TranslateOperator(f: Filter, dates: Dates) returns (r: Result<seq<Token>, FilterError>)
    requires IsOperator(f)
    ensures r == Translate(f, dates)
    decreases f, 0
  {
    if OperatorOf(f) !in {"AND", "OR", "NOT"} {
      return Err(UnsupportedFilter);
    }
    var conditions := f.conditions;
    if conditions == [] {
      return Err(InvalidArguments);
    }
    var subGroups: seq<seq<Token>> := [];
    assert conditions[0..] == conditions;
    assert forall gs: seq<seq<Token>> :: subGroups + gs == gs;
    for i := 0 to |conditions|
      invariant match Groups(conditions[i..], dates)
                case Ok(gs) => Groups(conditions, dates) == Ok(subGroups + gs)
                case Err(e) => Groups(conditions, dates) == Err(e)
    {
      assert conditions[i..][1..] == conditions[i + 1..];
      var group := TranslateFilter(conditions[i], dates);
      if group.Err? {
        return group;
      }
      ghost var before := subGroups;
      if group.value != [] {
        subGroups := subGroups + [group.value];
        assert forall gs :: before + ([group.value] + gs) == subGroups + gs;
      }
    }
    assert subGroups + [] == subGroups;
    r := CombineGroups(OperatorOf(f), subGroups);
  }

  method TranslateFilter(f: Filter, dates: Dates) returns (r: Result<seq<Token>, FilterError>)
    ensures r == Translate(f, dates)
    decreases f, 1
  {
    if IsOperator(f) {
      r := TranslateOperator(f, dates);
    } else {
      r := TranslateCondition(f, dates);
    }
  }

  function BuildCriteria(criteria: seq<Token>): seq<Token> {
    if criteria == [] then [Atom("ALL")] else criteria
  }

  // ----- which mailbox is searched -----

  function FindInMailbox(f: Filter): Option<string>
    decreases f, 1
  {
    if Given(f.inMailbox) then f.inMailbox
    else if OperatorOf(f) == "AND" then FirstInMailbox(f.conditions)
    else None
  }

  function FirstInMailbox(cs: seq<Filter>): Option<string>
    decreases cs, 0
  {
    if cs == [] then None
    else if FindInMailbox(cs[0]).Some? then FindInMailbox(cs[0])
    else FirstInMailbox(cs[1..])
  }

  predicate HasAnyInMailbox(f: Filter) {
    Given(f.inMailbox) || exists c <- f.conditions :: HasAnyInMailbox(c)
  }

  /** Email/query: the mailbox to search (None for every one) and the criteria to search it with. */
  function Plan(f: Filter, dates: Dates): Result<(Option<string>, seq<Token>), FilterError> {
    var mailbox := FindInMailbox(f);
    if mailbox.None? && HasAnyInMailbox(f) then Err(InvalidArguments)
    else
      match Translate(f, dates)
      case Err(e) => Err(e)
      case Ok(criteria) => Ok((mailbox, BuildCriteria(criteria)))
  }

  // ----- what a filter means -----

  predicate HasWords(field: string, value: Option<string>, m: Mail) {
    value.Some? ==> forall word <- Split(value.value) :: m.contains(field, StripStar(word))
  }

  predicate HasAllWords(f: Filter, m: Mail) {
    && HasWords("SUBJECT", f.subject, m) && HasWords("TEXT", f.text, m) && HasWords("BODY", f.body, m)
    && HasWords("FROM", f.from, m) && HasWords("TO", f.to, m) && HasWords("CC", f.cc, m) && HasWords("BCC", f.bcc, m)
  }

  /** A FilterCondition: every property it carries holds. A text property asks for each of its words; dates have the day
      precision of IMAP. */
  predicate ConditionHolds(f: Filter, m: Mail, dates: Dates) {
    && (f.hasKeyword.Some? ==> KeywordFlag(f.hasKeyword.value) in m.flags)
    && (f.notKeyword.Some? ==> KeywordFlag(f.notKeyword.value) !in m.flags)
    && HasAllWords(f, m)
    && (Given(f.header) ==> m.header(f.header.value[0], if 1 < |f.header.value| then f.header.value[1] else ""))
    && (DateOf(f.before, dates).Some? ==> m.before(DateOf(f.before, dates).value))
    && (DateOf(f.after, dates).Some? ==> m.since(DateOf(f.after, dates).value))
  }

  /** The filter tree, apart from `inMailbox`. */
  predicate Content(f: Filter, m: Mail, dates: Dates) {
    if f.operator.None? && !f.hasConditions && f.conditions == [] then ConditionHolds(f, m, dates)
    else if f.operator == Some("AND") then forall c <- f.conditions :: Content(c, m, dates)
    else if f.operator == Some("OR") then exists c <- f.conditions :: Content(c, m, dates)
    else forall c <- f.conditions :: !Content(c, m, dates)
  }

  /** The filter tree with `inMailbox` read where it stands. */
  predicate Satisfies(f: Filter, m: Mail, dates: Dates) {
    && (Given(f.inMailbox) ==> f.inMailbox.value == m.mailbox)
    && if f.operator.None? && !f.hasConditions && f.conditions == [] then ConditionHolds(f, m, dates)
       else if f.operator == Some("AND") then forall c <- f.conditions :: Satisfies(c, m, dates)
       else if f.operator == Some("OR") then exists c <- f.conditions :: Satisfies(c, m, dates)
       else forall c <- f.conditions :: !Satisfies(c, m, dates)
  }

  predicate NoWords(value: Option<string>) {
    value.Some? ==> Split(value.value) == []
  }

  /** Asks nothing that SEARCH can express: such a filter compiles to no criteria at all. */
  predicate Vacuous(f: Filter) {
    if IsOperator(f) then forall c <- f.conditions :: Vacuous(c)
    else
      && f.hasKeyword.None? && f.notKeyword.None?
      && NoWords(f.subject) && NoWords(f.text) && NoWords(f.body)
      && NoWords(f.from) && NoWords(f.to) && NoWords(f.cc) && NoWords(f.bcc)
      && !Given(f.header) && !Given(f.before) && !Given(f.after)
  }

  /** What the compiled criteria mean, for every filter: vacuous children of OR and NOT are dropped. */
  predicate Kept(f: Filter, m: Mail, dates: Dates) {
    if !IsOperator(f) then ConditionHolds(f, m, dates)
    else if Vacuous(f) then true
    else if OperatorOf(f) == "AND" then forall c <- f.conditions :: Kept(c, m, dates)
    else if OperatorOf(f) == "OR" then exists c <- f.conditions :: !Vacuous(c) && Kept(c, m, dates)
    else forall c <- f.conditions :: !Vacuous(c) ==> !Kept(c, m, dates)
  }

  // ----- the compiler is right -----

  /** Criteria that may be empty; no criteria match everything. */
  ghost predicate Compiles(ts: seq<Token>, m: Mail, holds: bool) {
    if ts == [] then holds else Means(ts, m, holds)
  }

  lemma {:induction false} CompilesJuxtaposed(a: seq<Token>, b: seq<Token>, m: Mail, p: bool, q: bool)
    requires Compiles(a, m, p) && Compiles(b, m, q)
    ensures Compiles(a + b, m, p && q)
  {
    if a == [] {
      assert a + b == b;
    } else if b == [] {
      assert a + b == a;
    } else {
      JuxtaposedMeans(a, b, m, p, q);
    }
  }

  lemma {:induction false} KeywordTermCompiles(keyword: Option<string>, negate: bool, m: Mail)
    ensures Compiles(KeywordTerm(keyword, negate), m,
                     keyword.Some? ==> (KeywordFlag(keyword.value) in m.flags <==> !negate))
  {
    if keyword.Some? {
      var ts := KeywordTerm(keyword, negate);
      var flag := KeywordFlag(keyword.value);
      if flag in FLAG_TERMS && negate {
        assert ts[1..] == [Atom(FLAG_TERMS[flag])] && ts[1..][1..] == [];
        assert ParseKey(ts[1..]) == Some((HasFlag(flag), []));
        assert ParseKey(ts) == Some((Not(HasFlag(flag)), []));
        assert Matches(Not(HasFlag(flag)), m) <==> flag !in m.flags;
      }
      OneKeyMeans(ts, m);
    }
  }

  lemma {:induction false} TermsCompile(field: string, words: seq<string>, m: Mail)
    requires field in TEXT_KEYS
    ensures Compiles(Terms(field, words), m, forall word <- words :: m.contains(field, StripStar(word)))
  {
    if words != [] {
      var first := [Atom(field), Atom(StripStar(words[0]))];
      TextKeyMeans(field, StripStar(words[0]), m);
      TermsCompile(field, words[1..], m);
      CompilesJuxtaposed(first, Terms(field, words[1..]), m, m.contains(field, StripStar(words[0])),
                         forall word <- words[1..] :: m.contains(field, StripStar(word)));
      assert forall word :: word in words <==> word == words[0] || word in words[1..];
    }
  }

  lemma {:induction false} TextTermCompiles(field: string, value: Option<string>, m: Mail)
    requires field in TEXT_KEYS
    ensures Compiles(TextTerm(field, value), m, HasWords(field, value, m))
  {
    if value.Some? { TermsCompile(field, Split(value.value), m); }
  }

  lemma {:induction false} HeaderAndDatesCompile(f: Filter, m: Mail, dates: Dates)
    ensures Compiles(HeaderTerm(f.header), m,
                     Given(f.header) ==>
                       m.header(f.header.value[0], if 1 < |f.header.value| then f.header.value[1] else ""))
    ensures Compiles(DateTerm("BEFORE", DateOf(f.before, dates)), m,
                     DateOf(f.before, dates).Some? ==> m.before(DateOf(f.before, dates).value))
    ensures Compiles(DateTerm("SINCE", DateOf(f.after, dates)), m,
                     DateOf(f.after, dates).Some? ==> m.since(DateOf(f.after, dates).value))
  {
    if Given(f.header) { HeaderKeyMeans(f.header.value[0], if 1 < |f.header.value| then f.header.value[1] else "", m); }
    if DateOf(f.before, dates).Some? { DateKeyMeans(DateOf(f.before, dates).value, m); }
    if DateOf(f.after, dates).Some? { DateKeyMeans(DateOf(f.after, dates).value, m); }
  }

  lemma {:induction false} TextTermsCompile(f: Filter, m: Mail)
    ensures Compiles(TextTerms(f), m, HasAllWords(f, m))
  {
    TextTermCompiles("SUBJECT", f.subject, m);
    var ts, p := TextTerm("SUBJECT", f.subject), HasWords("SUBJECT", f.subject, m);
    ts, p := AlsoHasWords(ts, p, "TEXT", f.text, m);
    ts, p := AlsoHasWords(ts, p, "BODY", f.body, m);
    ts, p := AlsoHasWords(ts, p, "FROM", f.from, m);
    ts, p := AlsoHasWords(ts, p, "TO", f.to, m);
    ts, p := AlsoHasWords(ts, p, "CC", f.cc, m);
    ts, p := AlsoHasWords(ts, p, "BCC", f.bcc, m);
  }

  lemma {:induction false} ConditionCompiles(f: Filter, m: Mail, dates: Dates)
    requires TranslateCondition(f, dates).Ok?
    ensures Compiles(TranslateCondition(f, dates).value, m, ConditionHolds(f, m, dates))
  {
    KeywordTermCompiles(f.hasKeyword, false, m);
    KeywordTermCompiles(f.notKeyword, true, m);
    var ts := KeywordTerm(f.hasKeyword, false);
    var p := f.hasKeyword.Some? ==> KeywordFlag(f.hasKeyword.value) in m.flags;
    ts, p := AlsoCompiles(ts, p, KeywordTerm(f.notKeyword, true),
                          f.notKeyword.Some? ==> KeywordFlag(f.notKeyword.value) !in m.flags, m);
    TextTermsCompile(f, m);
    ts, p := AlsoCompiles(ts, p, TextTerms(f), HasAllWords(f, m), m);
    HeaderAndDatesCompile(f, m, dates);
    ts, p := AlsoCompiles(ts, p, HeaderTerm(f.header),
                          Given(f.header) ==>
                            m.header(f.header.value[0], if 1 < |f.header.value| then f.header.value[1] else ""), m);
    ts, p := AlsoCompiles(ts, p, DateTerm("BEFORE", DateOf(f.before, dates)),
                          DateOf(f.before, dates).Some? ==> m.before(DateOf(f.before, dates).value), m);
    ts, p := AlsoCompiles(ts, p, DateTerm("SINCE", DateOf(f.after, dates)),
                          DateOf(f.after, dates).Some? ==> m.since(DateOf(f.after, dates).value), m);
  }

  lemma {:induction false} AlsoCompiles(ts: seq<Token>, p: bool, more: seq<Token>, q: bool, m: Mail)
    returns (all: seq<Token>, r: bool)
    requires Compiles(ts, m, p) && Compiles(more, m, q)
    ensures all == ts + more && (r <==> p && q) && Compiles(all, m, r)
  {
    CompilesJuxtaposed(ts, more, m, p, q);
    return ts + more, p && q;
  }

  lemma {:induction false} AlsoHasWords(ts: seq<Token>, p: bool, field: string, value: Option<string>, m: Mail)
    returns (all: seq<Token>, r: bool)
    requires field in TEXT_KEYS && Compiles(ts, m, p)
    ensures all == ts + TextTerm(field, value) && (r <==> p && HasWords(field, value, m)) && Compiles(all, m, r)
  {
    TextTermCompiles(field, value, m);
    all, r := AlsoCompiles(ts, p, TextTerm(field, value), HasWords(field, value, m), m);
  }

  lemma {:induction false} ConditionEmptiness(f: Filter, dates: Dates)
    requires !IsOperator(f) && TranslateCondition(f, dates).Ok?
    ensures TranslateCondition(f, dates).value == [] <==> Vacuous(f)
  {
    var dated := DateTerm("BEFORE", DateOf(f.before, dates)) + DateTerm("SINCE", DateOf(f.after, dates));
    assert dated == [] <==> !Given(f.before) && !Given(f.after);
    assert HeaderTerm(f.header) == [] <==> !Given(f.header);
    var worded := TextTerms(f);
    assert |TranslateCondition(f, dates).value| ==
           |KeywordTerm(f.hasKeyword, false)| + |KeywordTerm(f.notKeyword, true)| + |worded| + |HeaderTerm(f.header)|
               + |dated|;
  }

  function NonEmpty(all: seq<seq<Token>>): seq<seq<Token>> {
    if all == [] then [] else if all[0] == [] then NonEmpty(all[1..]) else [all[0]] + NonEmpty(all[1..])
  }

  ghost predicate CompileTo(all: seq<seq<Token>>, holds: seq<bool>, m: Mail) {
    |all| == |holds| && forall i | 0 <= i < |all| :: Compiles(all[i], m, holds[i])
  }

  predicate AllHold(holds: seq<bool>) {
    forall i | 0 <= i < |holds| :: holds[i]
  }

  predicate SomeKeptHolds(all: seq<seq<Token>>, holds: seq<bool>)
    requires |all| == |holds|
  {
    exists i | 0 <= i < |all| :: all[i] != [] && holds[i]
  }

  lemma {:induction false} Shift(all: seq<seq<Token>>, holds: seq<bool>, m: Mail)
    requires all != [] && CompileTo(all, holds, m)
    ensures CompileTo(all[1..], holds[1..], m)
    ensures AllHold(holds) <==> holds[0] && AllHold(holds[1..])
    ensures SomeKeptHolds(all, holds) <==> (all[0] != [] && holds[0]) || SomeKeptHolds(all[1..], holds[1..])
  {
    var more, rest := all[1..], holds[1..];
    forall i | 0 <= i < |more| ensures Compiles(more[i], m, rest[i]) {
      assert Compiles(all[i + 1], m, holds[i + 1]);
    }
    if AllHold(rest) && holds[0] {
      forall i | 0 <= i < |holds| ensures holds[i] { assert i == 0 || rest[i - 1]; }
    }
    if AllHold(holds) {
      forall i | 0 <= i < |rest| ensures rest[i] { assert holds[i + 1]; }
    }
    if i :| 0 <= i < |more| && more[i] != [] && rest[i] {
      assert all[i + 1] != [] && holds[i + 1];
    }
    if i :| 0 <= i < |all| && all[i] != [] && holds[i] {
      assert i == 0 || (more[i - 1] != [] && rest[i - 1]);
    }
  }

  lemma {:induction false} FlattenCompiles(all: seq<seq<Token>>, holds: seq<bool>, m: Mail)
    requires CompileTo(all, holds, m)
    ensures Flatten(NonEmpty(all)) == [] <==> NonEmpty(all) == []
    ensures Compiles(Flatten(NonEmpty(all)), m, AllHold(holds))
  {
    if all != [] {
      Shift(all, holds, m);
      FlattenCompiles(all[1..], holds[1..], m);
      assert Compiles(all[0], m, holds[0]);
      CompilesJuxtaposed(all[0], Flatten(NonEmpty(all[1..])), m, holds[0], AllHold(holds[1..]));
      if all[0] != [] {
        assert NonEmpty(all)[1..] == NonEmpty(all[1..]);
      }
    }
  }

  lemma {:induction false} NotEachCompiles(all: seq<seq<Token>>, holds: seq<bool>, m: Mail)
    requires CompileTo(all, holds, m)
    ensures NotEach(NonEmpty(all)) == [] <==> NonEmpty(all) == []
    ensures Compiles(NotEach(NonEmpty(all)), m, !SomeKeptHolds(all, holds))
  {
    if all != [] {
      Shift(all, holds, m);
      NotEachCompiles(all[1..], holds[1..], m);
      assert Compiles(all[0], m, holds[0]);
      if all[0] != [] {
        assert NonEmpty(all)[1..] == NonEmpty(all[1..]);
        NotMeans(all[0], m, holds[0]);
        CompilesJuxtaposed([Atom("NOT"), Group(all[0])], NotEach(NonEmpty(all[1..])), m, !holds[0],
                           !SomeKeptHolds(all[1..], holds[1..]));
      }
    }
  }

  lemma {:induction false} OrFoldMeans(all: seq<seq<Token>>, holds: seq<bool>, m: Mail)
    requires CompileTo(all, holds, m) && NonEmpty(all) != []
    ensures OrFold(NonEmpty(all)) != []
    ensures Means(OrFold(NonEmpty(all)), m, SomeKeptHolds(all, holds))
  {
    Shift(all, holds, m);
    assert Compiles(all[0], m, holds[0]);
    if all[0] == [] {
      OrFoldMeans(all[1..], holds[1..], m);
    } else {
      assert NonEmpty(all)[1..] == NonEmpty(all[1..]);
      if NonEmpty(all[1..]) == [] {
        NothingKept(all[1..], holds[1..]);
      } else {
        OrFoldMeans(all[1..], holds[1..], m);
        OrMeans(all[0], OrFold(NonEmpty(all[1..])), m, holds[0], SomeKeptHolds(all[1..], holds[1..]));
      }
    }
  }

  lemma {:induction false} NothingKept(all: seq<seq<Token>>, holds: seq<bool>)
    requires |all| == |holds|
    ensures NonEmpty(all) == [] <==> forall i | 0 <= i < |all| :: all[i] == []
    ensures NonEmpty(all) == [] ==> !SomeKeptHolds(all, holds)
  {
    if all != [] {
      NothingKept(all[1..], holds[1..]);
      assert all == [all[0]] + all[1..];
    }
  }

  lemma {:induction false} GroupsAreNonEmpty(cs: seq<Filter>, dates: Dates)
    requires Groups(cs, dates).Ok?
    ensures forall i | 0 <= i < |cs| :: Translate(cs[i], dates).Ok?
    ensures Groups(cs, dates).value ==
              NonEmpty(seq(|cs|, i requires 0 <= i < |cs| && Translate(cs[i], dates).Ok? =>
                                   Translate(cs[i], dates).value))
  {
    if cs != [] {
      GroupsAreNonEmpty(cs[1..], dates);
      forall i | 0 <= i < |cs| ensures Translate(cs[i], dates).Ok? {
        assert i == 0 || cs[i] == cs[1..][i - 1];
      }
      var all := seq(|cs|, i requires 0 <= i < |cs| && Translate(cs[i], dates).Ok? => Translate(cs[i], dates).value);
      var rest := cs[1..];
      assert all[1..] ==
             seq(|rest|, i requires 0 <= i < |rest| && Translate(rest[i], dates).Ok? =>
                           Translate(rest[i], dates).value);
    }
  }

  /** For every filter that compiles, the criteria are read back completely and mean exactly Kept. */
  lemma {:induction false} TranslateMeansKept(f: Filter, m: Mail, dates: Dates)
    requires Translate(f, dates).Ok?
    ensures Translate(f, dates).value == [] <==> Vacuous(f)
    ensures Compiles(Translate(f, dates).value, m, Kept(f, m, dates))
    decreases f, 1
  {
    if !IsOperator(f) {
      ConditionCompiles(f, m, dates);
      ConditionEmptiness(f, dates);
    } else {
      OperatorMeansKept(f, m, dates);
    }
  }

  lemma {:induction false} OperatorMeansKept(f: Filter, m: Mail, dates: Dates)
    requires IsOperator(f) && Translate(f, dates).Ok?
    ensures Translate(f, dates).value == [] <==> Vacuous(f)
    ensures Compiles(Translate(f, dates).value, m, Kept(f, m, dates))
    decreases f, 0
  {
    var cs := f.conditions;
    GroupsAreNonEmpty(cs, dates);
    var all := seq(|cs|, i requires 0 <= i < |cs| && Translate(cs[i], dates).Ok? => Translate(cs[i], dates).value);
    var holds := seq(|cs|, i requires 0 <= i < |cs| => Kept(cs[i], m, dates));
    forall i | 0 <= i < |cs|
      ensures Compiles(all[i], m, holds[i])
      ensures all[i] == [] <==> Vacuous(cs[i])
      ensures all[i] == [] ==> holds[i]
    {
      assert cs[i] in cs;
      TranslateMeansKept(cs[i], m, dates);
    }
    NothingKept(all, holds);
    FlattenCompiles(all, holds, m);
    NotEachCompiles(all, holds, m);
    if NonEmpty(all) != [] { OrFoldMeans(all, holds, m); }
    KeptIsCombined(f, all, holds, m, dates);
  }

  lemma {:induction false} KeptIsCombined(f: Filter, all: seq<seq<Token>>, holds: seq<bool>, m: Mail, dates: Dates)
    requires IsOperator(f) && |all| == |holds| == |f.conditions|
    requires forall i | 0 <= i < |all| :: holds[i] <==> Kept(f.conditions[i], m, dates)
    requires forall i | 0 <= i < |all| :: all[i] == [] <==> Vacuous(f.conditions[i])
    ensures Vacuous(f) <==> forall i | 0 <= i < |all| :: all[i] == []
    ensures !Vacuous(f) ==>
              (Kept(f, m, dates) <==> if OperatorOf(f) == "AND" then AllHold(holds)
                                      else if OperatorOf(f) == "OR" then SomeKeptHolds(all, holds)
                                      else !SomeKeptHolds(all, holds))
  {
    var cs := f.conditions;
    if Vacuous(f) {
      forall i | 0 <= i < |all| ensures all[i] == [] { assert cs[i] in cs; }
    } else {
      if AllHold(holds) {
        forall c | c in cs ensures Kept(c, m, dates) {
          var i :| 0 <= i < |cs| && cs[i] == c;
          assert holds[i];
        }
      }
      if forall c <- cs :: Kept(c, m, dates) {
        forall i | 0 <= i < |holds| ensures holds[i] { assert cs[i] in cs; }
      }
      assert SomeKeptHolds(all, holds) <==> exists c <- cs :: !Vacuous(c) && Kept(c, m, dates);
    }
  }

  // ----- when that is what the filter asked -----

  /** No OR or NOT has a vacuous child to drop; an OR of nothing but vacuous children is vacuous itself, rightly. */
  predicate DropsNothing(f: Filter) {
    && (forall c <- f.conditions :: DropsNothing(c))
    && (IsOperator(f) ==>
          && (OperatorOf(f) == "NOT" ==> forall c <- f.conditions :: !Vacuous(c))
          && (OperatorOf(f) == "OR" ==> Vacuous(f) || forall c <- f.conditions :: !Vacuous(c)))
  }

  lemma {:induction false} VacuousContent(f: Filter, m: Mail, dates: Dates)
    requires Vacuous(f) && DropsNothing(f) && Translate(f, dates).Ok?
    ensures Content(f, m, dates)
  {
    if IsOperator(f) {
      GroupsAreNonEmpty(f.conditions, dates);
      forall c | c in f.conditions ensures Content(c, m, dates) {
        VacuousContent(c, m, dates);
      }
      assert f.conditions[0] in f.conditions;
    }
  }

  lemma {:induction false} KeptIsContent(f: Filter, m: Mail, dates: Dates)
    requires DropsNothing(f) && Translate(f, dates).Ok?
    ensures Kept(f, m, dates) <==> Content(f, m, dates)
  {
    if IsOperator(f) {
      if Vacuous(f) {
        VacuousContent(f, m, dates);
      } else {
        GroupsAreNonEmpty(f.conditions, dates);
        forall c | c in f.conditions ensures Kept(c, m, dates) <==> Content(c, m, dates) {
          KeptIsContent(c, m, dates);
        }
      }
    }
  }

  /** Where one level does drop a child, the message decides: the criteria are still right for it exactly when some
      child that is left matches it, or when an OR has none left. */
  lemma {:induction false} DroppedChildExactly(f: Filter, m: Mail, dates: Dates)
    requires IsOperator(f) && OperatorOf(f) in {"OR", "NOT"} && Translate(f, dates).Ok?
    requires forall c <- f.conditions :: DropsNothing(c)
    requires exists c <- f.conditions :: Vacuous(c)
    ensures (Kept(f, m, dates) <==> Content(f, m, dates)) <==>
              || (OperatorOf(f) == "OR" && Vacuous(f))
              || exists c <- f.conditions :: !Vacuous(c) && Content(c, m, dates)
  {
    GroupsAreNonEmpty(f.conditions, dates);
    var c :| c in f.conditions && Vacuous(c);
    VacuousChildDecides(f, c, m, dates);
    if !Vacuous(f) {
      KeptChildDecides(f, m, dates);
    }
  }

  lemma {:induction false} KeptChildDecides(f: Filter, m: Mail, dates: Dates)
    requires IsOperator(f) && OperatorOf(f) in {"OR", "NOT"} && Translate(f, dates).Ok? && !Vacuous(f)
    requires forall c <- f.conditions :: DropsNothing(c)
    ensures Kept(f, m, dates) <==>
              (OperatorOf(f) == "OR" <==> exists c <- f.conditions :: !Vacuous(c) && Content(c, m, dates))
  {
    GroupsAreNonEmpty(f.conditions, dates);
    var keptMatches := exists c <- f.conditions :: !Vacuous(c) && Kept(c, m, dates);
    assert keptMatches <==> exists c <- f.conditions :: !Vacuous(c) && Content(c, m, dates) by {
      forall c | c in f.conditions ensures Kept(c, m, dates) <==> Content(c, m, dates) {
        KeptIsContent(c, m, dates);
      }
    }
    assert Kept(f, m, dates) <==> if OperatorOf(f) == "OR" then keptMatches else !keptMatches;
  }

  lemma {:induction false} VacuousChildDecides(f: Filter, c: Filter, m: Mail, dates: Dates)
    requires IsOperator(f) && OperatorOf(f) in {"OR", "NOT"} && c in f.conditions
    requires Vacuous(c) && DropsNothing(c) && Translate(c, dates).Ok?
    ensures Content(f, m, dates) <==> OperatorOf(f) == "OR"
  {
    VacuousContent(c, m, dates);
  }

  /** Every mailbox named stands on a path of ANDs from the root, and they agree. */
  predicate Scoped(f: Filter, mailbox: string) {
    && (Given(f.inMailbox) ==> f.inMailbox.value == mailbox)
    && forall c <- f.conditions :: if OperatorOf(f) == "AND" then Scoped(c, mailbox) else !HasAnyInMailbox(c)
  }

  lemma {:induction false} UnscopedIsContent(f: Filter, m: Mail, dates: Dates)
    requires !HasAnyInMailbox(f)
    ensures Satisfies(f, m, dates) <==> Content(f, m, dates)
  {
    forall c | c in f.conditions ensures Satisfies(c, m, dates) <==> Content(c, m, dates) {
      UnscopedIsContent(c, m, dates);
    }
  }

  lemma {:induction false} ScopedInside(f: Filter, m: Mail, dates: Dates)
    requires Scoped(f, m.mailbox)
    ensures Satisfies(f, m, dates) <==> Content(f, m, dates)
  {
    forall c | c in f.conditions ensures Satisfies(c, m, dates) <==> Content(c, m, dates) {
      if OperatorOf(f) == "AND" { ScopedInside(c, m, dates); } else { UnscopedIsContent(c, m, dates); }
    }
  }

  lemma {:induction false} FirstIsAChilds(cs: seq<Filter>)
    requires FirstInMailbox(cs).Some?
    ensures exists c <- cs :: FindInMailbox(c) == FirstInMailbox(cs)
  {
    if FindInMailbox(cs[0]).None? {
      FirstIsAChilds(cs[1..]);
    }
  }

  lemma {:induction false} FoundOutside(f: Filter, m: Mail, dates: Dates)
    requires FindInMailbox(f).Some? && FindInMailbox(f).value != m.mailbox
    ensures !Satisfies(f, m, dates)
  {
    if !Given(f.inMailbox) {
      FirstIsAChilds(f.conditions);
      var c :| c in f.conditions && FindInMailbox(c) == FirstInMailbox(f.conditions);
      FoundOutside(c, m, dates);
    }
  }

  /** Email/query finds exactly the messages that satisfy the filter tree: a message is in a searched mailbox and
      matches the criteria, read back as RFC 3501 search keys, if and only if it satisfies the tree. */
  lemma {:induction false} CompiledQueryIsExact(f: Filter, m: Mail, dates: Dates)
    requires Plan(f, dates).Ok? && DropsNothing(f)
    requires FindInMailbox(f).Some? ==> Scoped(f, FindInMailbox(f).value)
    ensures var (mailbox, criteria) := Plan(f, dates).value;
            && ParseKeys(criteria).Some?
            && (Satisfies(f, m, dates) <==>
                  (mailbox.Some? ==> m.mailbox == mailbox.value) && MatchesAll(ParseKeys(criteria).value, m))
  {
    var (mailbox, criteria) := Plan(f, dates).value;
    TranslateMeansKept(f, m, dates);
    KeptIsContent(f, m, dates);
    if Translate(f, dates).value == [] {
      OneKeyMeans([Atom("ALL")], m);
    }
    assert Means(criteria, m, Content(f, m, dates));
    if mailbox.None? {
      UnscopedIsContent(f, m, dates);
    } else if m.mailbox == mailbox.value {
      ScopedInside(f, m, dates);
    } else {
      FoundOutside(f, m, dates);
    }
  }

  /** A filter is refused exactly for one of its nodes: an unknown operator, an operator over nothing, a property SEARCH
      cannot express, or a malformed date. */
  predicate BadNode(f: Filter, dates: Dates) {
    if IsOperator(f) then OperatorOf(f) !in {"AND", "OR", "NOT"} || f.conditions == []
    else f.otherKeys != {} || BadDate(f.before, dates) || BadDate(f.after, dates)
  }

  predicate HasBadNode(f: Filter, dates: Dates) {
    BadNode(f, dates) || exists c <- f.conditions :: HasBadNode(c, dates)
  }

  lemma {:induction false} RefusedExactly(f: Filter, dates: Dates)
    ensures Translate(f, dates).Err? <==> HasBadNode(f, dates)
    decreases f, 1
  {
    if IsOperator(f) {
      GroupsRefusedExactly(f.conditions, dates);
    } else {
      assert f.conditions == [];
    }
  }

  lemma {:induction false} GroupsRefusedExactly(cs: seq<Filter>, dates: Dates)
    ensures Groups(cs, dates).Err? <==> exists c <- cs :: HasBadNode(c, dates)
    decreases cs, 0
  {
    if cs != [] {
      RefusedExactly(cs[0], dates);
      GroupsRefusedExactly(cs[1..], dates);
      assert forall d :: d in cs <==> d == cs[0] || d in cs[1..];
    }
  }

  // ----- where it is not -----

  const EMPTY_FILTER := Filter(None, false, [], None, None, None, None, None, None, None, None, None, None, None, None,
      None, {})

  function Operator(operator: string, conditions: seq<Filter>): Filter {
    EMPTY_FILTER.(operator := Some(operator), hasConditions := true, conditions := conditions)
  }

  lemma {:induction false} VacuousCondition(f: Filter, dates: Dates)
    requires !IsOperator(f) && Vacuous(f) && f.otherKeys == {}
    ensures Translate(f, dates) == Ok([])
  {
    ConditionEmptiness(f, dates);
  }

  /** "Nothing that contains a blank": dropped, and every message is returned. */
  lemma {:induction false} BlankTextUnderNot(m: Mail, dates: Dates)
    ensures var f := Operator("NOT", [EMPTY_FILTER.(text := Some(" "))]);
            Plan(f, dates) == Ok((None, [Atom("ALL")])) && !Satisfies(f, m, dates)
  {
    var blank := EMPTY_FILTER.(text := Some(" "));
    var f := Operator("NOT", [blank]);
    assert " "[1..] == "";
    assert Split(" ") == Split("") == [];
    VacuousCondition(blank, dates);
    assert Groups(f.conditions[1..], dates) == Ok([]);
    assert Groups(f.conditions, dates) == Ok([]);
    assert Translate(f, dates) == Ok([]);
    assert !HasAnyInMailbox(blank) && !HasAnyInMailbox(f);
    assert blank in f.conditions && Satisfies(blank, m, dates);
  }

  function InMailbox(name: string): Filter {
    EMPTY_FILTER.(inMailbox := Some(name))
  }

  /** The mailbox of the first AND branch hides the one named under an OR. The query is accepted and returns all of
      mailbox A, where no message satisfies the filter. */
  lemma {:induction false} HiddenMailboxIsAccepted(dates: Dates)
    ensures var f := Operator("AND", [InMailbox("A"), Operator("OR", [InMailbox("B")])]);
            && Plan(f, dates) == Ok((Some("A"), [Atom("ALL")]))
            && forall m: Mail | m.mailbox == "A" :: !Satisfies(f, m, dates)
  {
    var a, b := InMailbox("A"), InMailbox("B");
    var inner := Operator("OR", [b]);
    var f := Operator("AND", [a, inner]);
    VacuousCondition(a, dates);
    VacuousCondition(b, dates);
    assert Groups([b][1..], dates) == Ok([]) && Groups([b], dates) == Ok([]);
    assert Translate(inner, dates) == Ok([]);
    assert [a, inner][1..] == [inner] && [inner][1..] == [];
    assert Groups([inner], dates) == Ok([]) && Groups([a, inner], dates) == Ok([]);
    assert Translate(f, dates) == Ok([]);
    assert FindInMailbox(a) == Some("A") && FirstInMailbox([a, inner]) == Some("A");
    forall m: Mail | m.mailbox == "A" ensures !Satisfies(f, m, dates) {
      assert inner in f.conditions;
      assert !Satisfies(inner, m, dates);
    }
  }
}
