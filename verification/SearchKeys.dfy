/**
  IMAP SEARCH criteria as nested token lists, read back as RFC 3501 search keys (sections 6.4.4 and 9).

  A nested list reaches the server in parentheses. A token is a keyword or an argument by its position alone, so a
  searched word may itself spell a keyword.
 */
module SearchKeys {
  import opened Wrappers

  datatype Token = Atom(text: string) | Group(tokens: seq<Token>)

  datatype Key =
    | All
    | HasFlag(flag: string)
    | LacksFlag(flag: string)
    | Contains(field: string, text: string)
    | Header(name: string, text: string)
    | Before(date: string)
    | Since(date: string)
    | Not(key: Key)
    | Or(left: Key, right: Key)
    | And(keys: seq<Key>)

  /** A message, as what it answers to the leaf questions. Character matching and dates stay the server's business. */
  datatype Mail = Mail(
    mailbox: string,
    flags: set<string>,
    contains: (string, string) -> bool,
    header: (string, string) -> bool,
    before: string -> bool,
    since: string -> bool)

  predicate Matches(k: Key, m: Mail) {
    match k
    case All => true
    case HasFlag(flag) => flag in m.flags
    case LacksFlag(flag) => flag !in m.flags
    case Contains(field, text) => m.contains(field, text)
    case Header(name, text) => m.header(name, text)
    case Before(date) => m.before(date)
    case Since(date) => m.since(date)
    case Not(key) => !Matches(key, m)
    case Or(left, right) => Matches(left, m) || Matches(right, m)
    case And(keys) => MatchesAll(keys, m)
  }

  predicate MatchesAll(ks: seq<Key>, m: Mail) {
    ks == [] || (Matches(ks[0], m) && MatchesAll(ks[1..], m))
  }

  const FLAG_KEYS := map["SEEN" := "\\Seen", "FLAGGED" := "\\Flagged", "ANSWERED" := "\\Answered",
                         "DRAFT" := "\\Draft", "DELETED" := "\\Deleted"]

  const TEXT_KEYS := {"SUBJECT", "TEXT", "BODY", "FROM", "TO", "CC", "BCC"}

  function Weight(ts: seq<Token>): nat {
    if ts == [] then 0
    else (match ts[0] case Atom(_) => 1 case Group(inner) => 1 + Weight(inner)) + Weight(ts[1..])
  }

  predicate IsAtom(ts: seq<Token>, i: nat) {
    i < |ts| && ts[i].Atom?
  }

  /** Reads one search key off the front. */
  function ParseKey(ts: seq<Token>): (r: Option<(Key, seq<Token>)>)
    ensures r.Some? ==> Weight(r.value.1) < Weight(ts)
    decreases Weight(ts), 0
  {
    if ts == [] then None
    else if ts[0].Group? then
      match ParseKeys(ts[0].tokens)
      case Some(keys) => Some((And(keys), ts[1..]))
      case None => None
    else
      var word := ts[0].text;
      if word == "ALL" then Some((All, ts[1..]))
      else if word in FLAG_KEYS then Some((HasFlag(FLAG_KEYS[word]), ts[1..]))
      else if word == "NOT" then
        match ParseKey(ts[1..])
        case Some((key, rest)) => Some((Not(key), rest))
        case None => None
      else if word == "OR" then
        match ParseKey(ts[1..])
        case None => None
        case Some((left, rest)) =>
          match ParseKey(rest)
          case None => None
          case Some((right, tail)) => Some((Or(left, right), tail))
      else if !IsAtom(ts, 1) then None
      else
        assert Weight(ts[1..]) == 1 + Weight(ts[1..][1..]) && ts[1..][1..] == ts[2..];
        var argument := ts[1].text;
        if word == "KEYWORD" then Some((HasFlag(argument), ts[2..]))
        else if word == "UNKEYWORD" then Some((LacksFlag(argument), ts[2..]))
        else if word in TEXT_KEYS then Some((Contains(word, argument), ts[2..]))
        else if word == "BEFORE" then Some((Before(argument), ts[2..]))
        else if word == "SINCE" then Some((Since(argument), ts[2..]))
        else if word == "HEADER" && IsAtom(ts, 2) then
          assert Weight(ts[2..]) == 1 + Weight(ts[2..][1..]) && ts[2..][1..] == ts[3..];
          Some((Header(argument, ts[2].text), ts[3..]))
        else None
  }

  /** Reads the whole list as one or more search keys, which IMAP joins by AND. */
  function ParseKeys(ts: seq<Token>): Option<seq<Key>>
    decreases Weight(ts), 1
  {
    match ParseKey(ts)
    case None => None
    case Some((key, rest)) =>
      if rest == [] then Some([key])
      else
        match ParseKeys(rest)
        case Some(keys) => Some([key] + keys)
        case None => None
  }

  /** What follows a key does not change how it is read. */
  lemma {:induction false} ParseKeyIgnoresTheRest(ts: seq<Token>, more: seq<Token>)
    requires ParseKey(ts).Some?
    ensures var (key, rest) := ParseKey(ts).value; ParseKey(ts + more) == Some((key, rest + more))
    decreases Weight(ts)
  {
    var all := ts + more;
    assert all[0] == ts[0];
    assert all[1..] == ts[1..] + more;
    if ts[0].Atom? {
      if ts[0].text == "NOT" {
        ParseKeyIgnoresTheRest(ts[1..], more);
      } else if ts[0].text == "OR" {
        var (left, rest) := ParseKey(ts[1..]).value;
        ParseKeyIgnoresTheRest(ts[1..], more);
        ParseKeyIgnoresTheRest(rest, more);
      } else if 2 <= |ts| {
        assert all[2..] == ts[2..] + more;
        if 3 <= |ts| { assert all[3..] == ts[3..] + more; }
      }
    }
  }

  /** Juxtaposed criteria are read one after the other. */
  lemma {:induction false} ParseKeysJuxtaposed(a: seq<Token>, b: seq<Token>)
    requires ParseKeys(a).Some? && ParseKeys(b).Some?
    ensures ParseKeys(a + b) == Some(ParseKeys(a).value + ParseKeys(b).value)
    decreases Weight(a)
  {
    var (key, rest) := ParseKey(a).value;
    ParseKeyIgnoresTheRest(a, b);
    if rest == [] {
      assert rest + b == b;
      assert b != [];
    } else {
      ParseKeysJuxtaposed(rest, b);
      var after := ParseKeys(rest).value;
      assert [key] + (after + ParseKeys(b).value) == ([key] + after) + ParseKeys(b).value;
      assert rest + b != [];
    }
  }

  lemma {:induction false} MatchesAllJuxtaposed(ks: seq<Key>, js: seq<Key>, m: Mail)
    ensures MatchesAll(ks + js, m) <==> MatchesAll(ks, m) && MatchesAll(js, m)
  {
    if ks == [] {
      assert ks + js == js;
    } else {
      assert (ks + js)[1..] == ks[1..] + js;
      MatchesAllJuxtaposed(ks[1..], js, m);
    }
  }

  /** `toks` is a list a server reads completely, and which matches just when `holds`. */
  ghost predicate Means(ts: seq<Token>, m: Mail, holds: bool) {
    ParseKeys(ts).Some? && (MatchesAll(ParseKeys(ts).value, m) <==> holds)
  }

  lemma {:induction false} JuxtaposedMeans(a: seq<Token>, b: seq<Token>, m: Mail, p: bool, q: bool)
    requires Means(a, m, p) && Means(b, m, q)
    ensures Means(a + b, m, p && q)
  {
    ParseKeysJuxtaposed(a, b);
    MatchesAllJuxtaposed(ParseKeys(a).value, ParseKeys(b).value, m);
  }

  lemma {:induction false} OneKeyMeans(ts: seq<Token>, m: Mail)
    requires ParseKey(ts).Some? && ParseKey(ts).value.1 == []
    ensures Means(ts, m, Matches(ParseKey(ts).value.0, m))
  {
    var key := ParseKey(ts).value.0;
    assert MatchesAll([key], m) <==> Matches(key, m) && MatchesAll([key][1..], m);
  }

  lemma {:induction false} NotMeans(g: seq<Token>, m: Mail, p: bool)
    requires Means(g, m, p)
    ensures Means([Atom("NOT"), Group(g)], m, !p)
  {
    var ts := [Atom("NOT"), Group(g)];
    assert ts[1..] == [Group(g)] && [Group(g)][1..] == [];
    var key := And(ParseKeys(g).value);
    assert ParseKey(ts[1..]) == Some((key, []));
    assert ParseKey(ts) == Some((Not(key), []));
    assert Matches(key, m) <==> p;
    OneKeyMeans(ts, m);
  }

  lemma {:induction false} OrMeans(g: seq<Token>, h: seq<Token>, m: Mail, p: bool, q: bool)
    requires Means(g, m, p) && Means(h, m, q)
    ensures Means([Atom("OR"), Group(g), Group(h)], m, p || q)
  {
    var ts := [Atom("OR"), Group(g), Group(h)];
    assert ts[1..] == [Group(g), Group(h)] && ts[1..][1..] == [Group(h)] && [Group(h)][1..] == [];
    var left, right := And(ParseKeys(g).value), And(ParseKeys(h).value);
    assert ParseKey(ts[1..]) == Some((left, [Group(h)]));
    assert ParseKey([Group(h)]) == Some((right, []));
    assert ParseKey(ts) == Some((Or(left, right), []));
    assert Matches(left, m) <==> p;
    assert Matches(right, m) <==> q;
    OneKeyMeans(ts, m);
  }

  lemma {:induction false} TextKeyMeans(field: string, text: string, m: Mail)
    requires field in TEXT_KEYS
    ensures Means([Atom(field), Atom(text)], m, m.contains(field, text))
  {
    var ts := [Atom(field), Atom(text)];
    assert ts[2..] == [];
    assert ParseKey(ts) == Some((Contains(field, text), []));
    OneKeyMeans(ts, m);
  }

  lemma {:induction false} HeaderKeyMeans(name: string, text: string, m: Mail)
    ensures Means([Atom("HEADER"), Atom(name), Atom(text)], m, m.header(name, text))
  {
    var ts := [Atom("HEADER"), Atom(name), Atom(text)];
    assert ts[3..] == [];
    assert ParseKey(ts) == Some((Header(name, text), []));
    OneKeyMeans(ts, m);
  }

  lemma {:induction false} DateKeyMeans(date: string, m: Mail)
    ensures Means([Atom("BEFORE"), Atom(date)], m, m.before(date))
    ensures Means([Atom("SINCE"), Atom(date)], m, m.since(date))
  {
    var before, since := [Atom("BEFORE"), Atom(date)], [Atom("SINCE"), Atom(date)];
    assert before[2..] == since[2..] == [];
    assert ParseKey(before) == Some((Before(date), []));
    assert ParseKey(since) == Some((Since(date), []));
    OneKeyMeans(before, m);
    OneKeyMeans(since, m);
  }
}
