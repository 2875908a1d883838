/** Thread/get: one targeted SEARCH per mailbox instead of a scan of every message. */
module ThreadSearch {
  import opened Wrappers
  import opened SearchKeys
  import opened ThreadIds
  import opened ObjectIds
  import opened EmailChanges
  import Json

  // ----- the criteria: a flat prefix OR -----

  function Clause(name: string, value: string): seq<Token> {
    [Atom("HEADER"), Atom(name), Atom(value)]
  }

  function ClausesOf(value: string): seq<seq<Token>> {
    [Clause("Message-Id", value), Clause("References", value), Clause("In-Reply-To", value)]
  }

  function Clauses(basis: seq<string>): (cs: seq<seq<Token>>)
    ensures |cs| == 3 * |basis|
  {
    if basis == [] then [] else Clauses(basis[..|basis| - 1]) + ClausesOf(basis[|basis| - 1])
  }

  /** `OR OR c1 c2 c3`: every OR in front, no parentheses. */
  function FlatOr(cs: seq<seq<Token>>): seq<Token>
    requires cs != []
  {
    if |cs| == 1 then cs[0] else [Atom("OR")] + FlatOr(cs[..|cs| - 1]) + cs[|cs| - 1]
  }

  method BuildOrCriteria(basis: seq<string>) returns (criteria: seq<Token>)
    requires basis != []
    ensures criteria == FlatOr(Clauses(basis))
  {
    var clauses: seq<seq<Token>> := [];
    for i := 0 to |basis|
      invariant clauses == Clauses(basis[..i])
    {
      clauses := clauses + [Clause("Message-Id", basis[i])];
      clauses := clauses + [Clause("References", basis[i])];
      clauses := clauses + [Clause("In-Reply-To", basis[i])];
      assert basis[..i + 1][..i] == basis[..i];
      assert clauses == Clauses(basis[..i]) + ClausesOf(basis[i]);
    }
    assert basis[..|basis|] == basis;
    criteria := clauses[0];
    assert clauses[..1] == [clauses[0]];
    for i := 1 to |clauses|
      invariant criteria == FlatOr(clauses[..i])
    {
      assert clauses[..i + 1][..i] == clauses[..i];
      criteria := [Atom("OR")] + criteria + clauses[i];
    }
    assert clauses[..|clauses|] == clauses;
  }

  lemma {:induction false} ClauseParses(name: string, value: string, more: seq<Token>)
    ensures ParseKey(Clause(name, value) + more) == Some((Header(name, value), more))
  {
    var ts := Clause(name, value) + more;
    assert ts[3..] == more;
  }

  predicate AllClauses(cs: seq<seq<Token>>) {
    forall i | 0 <= i < |cs| :: |cs[i]| == 3 && cs[i][1].Atom? && cs[i][2].Atom?
        && cs[i] == Clause(cs[i][1].text, cs[i][2].text)
  }

  predicate SomeClauseHolds(cs: seq<seq<Token>>, m: Mail)
    requires AllClauses(cs)
  {
    cs != [] && (SomeClauseHolds(cs[..|cs| - 1], m) || m.header(cs[|cs| - 1][1].text, cs[|cs| - 1][2].text))
  }

  lemma {:induction false} OrStep(left: seq<Token>, leftKey: Key, c: seq<Token>, name: string, value: string,
      more: seq<Token>)
    requires c == Clause(name, value) && ParseKey(left + (c + more)) == Some((leftKey, c + more))
    ensures ParseKey([Atom("OR")] + left + c + more) == Some((Or(leftKey, Header(name, value)), more))
  {
    var ts := [Atom("OR")] + left + c + more;
    assert ts[1..] == left + (c + more);
    ClauseParses(name, value, more);
  }

  lemma {:induction false} OneClauseParses(cs: seq<seq<Token>>, more: seq<Token>, m: Mail) returns (key: Key)
    requires |cs| == 1 && AllClauses(cs)
    ensures ParseKey(cs[0] + more) == Some((key, more))
    ensures Matches(key, m) <==> SomeClauseHolds(cs, m)
  {
    ClauseParses(cs[0][1].text, cs[0][2].text, more);
    key := Header(cs[0][1].text, cs[0][2].text);
    assert cs[..0] == [];
  }

  lemma {:induction false} OneMoreClause(cs: seq<seq<Token>>, left: Key, more: seq<Token>, m: Mail) returns (key: Key)
    requires |cs| > 1 && AllClauses(cs)
    requires ParseKey(FlatOr(cs[..|cs| - 1]) + (cs[|cs| - 1] + more)) == Some((left, cs[|cs| - 1] + more))
    requires Matches(left, m) <==> SomeClauseHolds(cs[..|cs| - 1], m)
    ensures ParseKey(FlatOr(cs) + more) == Some((key, more))
    ensures Matches(key, m) <==> SomeClauseHolds(cs, m)
  {
    var c := cs[|cs| - 1];
    OrStep(FlatOr(cs[..|cs| - 1]), left, c, c[1].text, c[2].text, more);
    key := Or(left, Header(c[1].text, c[2].text));
    assert Matches(key, m) <==> Matches(left, m) || m.header(c[1].text, c[2].text);
  }

  /** Read left to right as nested binary ORs, the flat list is one key: the disjunction of all its clauses. */
  lemma {:induction false} FlatOrParses(cs: seq<seq<Token>>, more: seq<Token>, m: Mail) returns (key: Key)
    requires cs != [] && AllClauses(cs)
    ensures ParseKey(FlatOr(cs) + more) == Some((key, more))
    ensures Matches(key, m) <==> SomeClauseHolds(cs, m)
    decreases |cs|
  {
    if |cs| == 1 {
      key := OneClauseParses(cs, more, m);
    } else {
      var left := FlatOrParses(cs[..|cs| - 1], cs[|cs| - 1] + more, m);
      key := OneMoreClause(cs, left, more, m);
    }
  }

  predicate InThreadHeaders(value: string, m: Mail) {
    m.header("Message-Id", value) || m.header("References", value) || m.header("In-Reply-To", value)
  }

  lemma {:induction false} AddClause(cs: seq<seq<Token>>, name: string, value: string, m: Mail)
    requires AllClauses(cs)
    ensures AllClauses(cs + [Clause(name, value)])
    ensures SomeClauseHolds(cs + [Clause(name, value)], m) <==> SomeClauseHolds(cs, m) || m.header(name, value)
  {
    var all := cs + [Clause(name, value)];
    assert all[..|all| - 1] == cs;
  }

  lemma {:induction false} AddValue(cs: seq<seq<Token>>, value: string, m: Mail)
    requires AllClauses(cs)
    ensures AllClauses(cs + ClausesOf(value))
    ensures SomeClauseHolds(cs + ClausesOf(value), m) <==> SomeClauseHolds(cs, m) || InThreadHeaders(value, m)
  {
    var one := cs + [Clause("Message-Id", value)];
    var two := one + [Clause("References", value)];
    AddClause(cs, "Message-Id", value, m);
    AddClause(one, "References", value, m);
    AddClause(two, "In-Reply-To", value, m);
    assert cs + ClausesOf(value) == two + [Clause("In-Reply-To", value)];
  }

  lemma {:induction false} ClausesHold(basis: seq<string>, m: Mail)
    ensures AllClauses(Clauses(basis))
    ensures SomeClauseHolds(Clauses(basis), m) <==> exists value <- basis :: InThreadHeaders(value, m)
  {
    if basis != [] {
      var n := |basis| - 1;
      ClausesHold(basis[..n], m);
      AddValue(Clauses(basis[..n]), basis[n], m);
      SomeOneMore(basis[..n], basis[n], m);
      assert basis == basis[..n] + [basis[n]];
    }
  }

  lemma {:induction false} SomeOneMore(basis: seq<string>, value: string, m: Mail)
    ensures (exists v <- basis + [value] :: InThreadHeaders(v, m))
            <==> (exists v <- basis :: InThreadHeaders(v, m)) || InThreadHeaders(value, m)
  {
    assert forall v :: v in basis + [value] <==> v in basis || v == value;
  }

  /** The criteria are read completely, and match just when some value occurs in one of the three headers. */
  lemma {:induction false} CriteriaMean(basis: seq<string>, m: Mail)
    requires basis != []
    ensures Means(FlatOr(Clauses(basis)), m, exists value <- basis :: InThreadHeaders(value, m))
  {
    ClausesHold(basis, m);
    var key := FlatOrParses(Clauses(basis), [], m);
    assert FlatOr(Clauses(basis)) + [] == FlatOr(Clauses(basis));
    OneKeyMeans(FlatOr(Clauses(basis)), m);
  }

  // ----- the search over every mailbox -----

  datatype Box = Box(uidvalidity: nat, messages: map<nat, Headers>)

  function HeaderNamed(h: Headers, name: string): Option<string> {
    if name == "Message-Id" then h.messageId
    else if name == "References" then h.references
    else if name == "In-Reply-To" then h.inReplyTo
    else None
  }

  /** A message as SEARCH sees it; only its headers matter to these criteria. */
  function AsMail(mailbox: string, h: Headers): Mail {
    Mail(mailbox, {}, (_, _) => false, (name, text) => HeaderContains(HeaderNamed(h, name), text), _ => false,
        _ => false)
  }

  function Search(mailbox: string, box: Box, criteria: seq<Token>): set<nat> {
    if ParseKeys(criteria).None? then {}
    else set u | u in box.messages && MatchesAll(ParseKeys(criteria).value, AsMail(mailbox, box.messages[u]))
  }

  function Fallback(mailbox: string, uidvalidity: nat, uid: nat): string {
    mailbox + [':'] + Json.Digits(uidvalidity) + [':'] + Json.Digits(uid)
  }

  function ThreadOf(mailbox: string, box: Box, uid: nat): string
    requires uid in box.messages
  {
    DeriveThreadId(box.messages[uid], Fallback(mailbox, box.uidvalidity, uid))
  }

  predicate Belongs(boxes: map<string, Box>, t: string, id: EmailId) {
    && id.mailbox in boxes && boxes[id.mailbox].uidvalidity == id.uidvalidity && id.uid in boxes[id.mailbox].messages
    && ThreadOf(id.mailbox, boxes[id.mailbox], id.uid) == t
  }

  /** The search finds every message of every thread it looks for. */
  lemma {:induction false} SearchMissesNothing(basis: seq<string>, mailbox: string, box: Box, uid: nat)
    requires basis != [] && uid in box.messages
    requires Root(box.messages[uid]).Some? && Root(box.messages[uid]).value in basis
    ensures uid in Search(mailbox, box, FlatOr(Clauses(basis)))
  {
    var h := box.messages[uid];
    var m := AsMail(mailbox, h);
    CriteriaMean(basis, m);
    RootIsFound(h);
    HeadersByName(h, mailbox, Root(h).value);
  }

  lemma {:induction false} HeadersByName(h: Headers, mailbox: string, text: string)
    ensures InThreadHeaders(text, AsMail(mailbox, h)) <==>
              HeaderContains(h.messageId, text) || HeaderContains(h.references, text)
                  || HeaderContains(h.inReplyTo, text)
  {
    assert "Message-Id"[0] != "References"[0] && "Message-Id"[0] != "In-Reply-To"[0]
        && "References"[0] != "In-Reply-To"[0];
    assert HeaderNamed(h, "References") == h.references;
    assert HeaderNamed(h, "In-Reply-To") == h.inReplyTo;
    assert HeaderNamed(h, "Message-Id") == h.messageId;
  }

  function HeaderId(root: string): string {
    "TH" + Base64Url.Token(root)
  }

  type Groups = map<string, seq<EmailId>>

  function AddTo(groups: Groups, t: string, id: EmailId): Groups {
    groups[t := (if t in groups then groups[t] else []) + [id]]
  }

  /** Each group lists, once each, members of its thread among `seen`; and no thread of `roots` lacks one of those. */
  ghost predicate Grouped(groups: Groups, boxes: map<string, Box>, basis: seq<string>, seen: iset<EmailId>) {
    && (forall t <- groups :: groups[t] != [] && Distinct(groups[t]) &&
          forall i | 0 <= i < |groups[t]| :: groups[t][i] in seen && Belongs(boxes, t, groups[t][i]))
    && (forall r, id | r in basis && id in seen && Belongs(boxes, HeaderId(r), id) ::
          HeaderId(r) in groups && id in groups[HeaderId(r)])
  }

  lemma {:induction false} AddToGrouped(groups: Groups, boxes: map<string, Box>, basis: seq<string>,
      seen: iset<EmailId>, t: string, id: EmailId)
    requires Grouped(groups, boxes, basis, seen) && id !in seen && Belongs(boxes, t, id)
    ensures Grouped(AddTo(groups, t, id), boxes, basis, seen + iset{id})
  {
    var now, more := AddTo(groups, t, id), seen + iset{id};
    forall s | s in now
      ensures now[s] != [] && Distinct(now[s])
      ensures forall i | 0 <= i < |now[s]| :: now[s][i] in more && Belongs(boxes, s, now[s][i])
    {
      if s == t && t in groups {
        forall i | 0 <= i < |groups[t]| ensures groups[t][i] != id { assert groups[t][i] in seen; }
      }
    }
    forall r, x | r in basis && x in more && Belongs(boxes, HeaderId(r), x)
      ensures HeaderId(r) in now && x in now[HeaderId(r)]
    {
      var s := HeaderId(r);
      if x == id {
        assert s == t && now[t][|now[t]| - 1] == id;
      } else {
        assert s in groups && x in groups[s];
        if s == t { assert forall y <- groups[t] :: y in groups[t] + [id]; }
      }
    }
  }

  lemma {:induction false} MemberHasRoot(boxes: map<string, Box>, root: string, id: EmailId)
    requires Belongs(boxes, HeaderId(root), id)
    ensures Root(boxes[id.mailbox].messages[id.uid]) == Some(root)
  {
    var h := boxes[id.mailbox].messages[id.uid];
    HeaderIdsAreInjective(root, Fallback(id.mailbox, id.uidvalidity, id.uid));
    if Root(h).Some? { HeaderIdsAreInjective(root, Root(h).value); }
  }

  function UidsOf(matches: seq<(string, EmailId)>): seq<nat> {
    seq(|matches|, i requires 0 <= i < |matches| => matches[i].1.uid)
  }

  method SearchOneMailbox(mailbox: string, box: Box, criteria: seq<Token>) returns (matches: seq<(string, EmailId)>)
    ensures Distinct(UidsOf(matches)) && Elements(UidsOf(matches)) == Search(mailbox, box, criteria)
    ensures forall i | 0 <= i < |matches| ::
              var uid := UidsOf(matches)[i];
              uid in box.messages && matches[i] == (ThreadOf(mailbox, box, uid), EmailId(mailbox, box.uidvalidity, uid))
  {
    matches := [];
    var fetched := Respond(Search(mailbox, box, criteria));
    for i := 0 to |fetched|
      invariant |matches| == i
      invariant forall j | 0 <= j < i ::
                  fetched[j] in box.messages &&
                  matches[j] == (ThreadOf(mailbox, box, fetched[j]), EmailId(mailbox, box.uidvalidity, fetched[j]))
    {
      assert fetched[i] in Elements(fetched);
      matches := matches + [(ThreadOf(mailbox, box, fetched[i]), EmailId(mailbox, box.uidvalidity, fetched[i]))];
    }
    assert UidsOf(matches) == fetched;
  }

  /** The members of thread t among all mailboxes, each once. */
  ghost predicate ExactThread(boxes: map<string, Box>, t: string, ids: seq<EmailId>) {
    ids != [] && Distinct(ids) && forall id :: id in ids <==> Belongs(boxes, t, id)
  }

  ghost predicate HasMembers(boxes: map<string, Box>, t: string) {
    exists id :: Belongs(boxes, t, id)
  }

  /** Thread t is answered as a scan of every message would answer it. */
  ghost predicate Answered(found: Groups, boxes: map<string, Box>, t: string) {
    && (t in found <==> HasMembers(boxes, t))
    && (t in found ==> ExactThread(boxes, t, found[t]))
  }

  /** Every message searched so far that belongs to a wanted thread has been seen. */
  ghost predicate Complete(boxes: map<string, Box>, basis: seq<string>, seen: iset<EmailId>, done: set<string>) {
    && (forall id <- seen :: id.mailbox in done)
    && (forall r, id: EmailId | r in basis && id.mailbox in done && Belongs(boxes, HeaderId(r), id) :: id in seen)
  }

  /** The first n of one mailbox's messages, by id. */
  ghost function Named(name: string, uidvalidity: nat, uids: seq<nat>, n: nat): iset<EmailId>
    requires n <= |uids|
  {
    iset j | 0 <= j < n :: EmailId(name, uidvalidity, uids[j])
  }

  lemma {:induction false} NotNamedYet(name: string, uidvalidity: nat, uids: seq<nat>, n: nat)
    requires n < |uids| && Distinct(uids)
    ensures EmailId(name, uidvalidity, uids[n]) !in Named(name, uidvalidity, uids, n)
    ensures Named(name, uidvalidity, uids, n + 1)
         == Named(name, uidvalidity, uids, n) + iset{EmailId(name, uidvalidity, uids[n])}
  {
  }

  method AddMatches(groups: Groups, boxes: map<string, Box>, ghost basis: seq<string>, ghost seen: iset<EmailId>,
                    name: string, matches: seq<(string, EmailId)>, ghost uids: seq<nat>) returns (byThread: Groups)
    requires name in boxes && |matches| == |uids| && Distinct(uids)
    requires forall i | 0 <= i < |uids| ::
               uids[i] in boxes[name].messages &&
               matches[i] == (ThreadOf(name, boxes[name], uids[i]), EmailId(name, boxes[name].uidvalidity, uids[i]))
    requires Grouped(groups, boxes, basis, seen) && forall id <- seen :: id.mailbox != name
    ensures Grouped(byThread, boxes, basis, seen + Named(name, boxes[name].uidvalidity, uids, |uids|))
  {
    byThread := groups;
    ghost var now := seen;
    for i := 0 to |matches|
      invariant Grouped(byThread, boxes, basis, now)
      invariant now == seen + Named(name, boxes[name].uidvalidity, uids, i)
    {
      var (t, id) := matches[i];
      NotNamedYet(name, boxes[name].uidvalidity, uids, i);
      AddToGrouped(byThread, boxes, basis, now, t, id);
      byThread := AddTo(byThread, t, id);
      now := now + iset{id};
    }
  }

  method ResolveHeaderBasedThreads(boxes: map<string, Box>, basis: seq<string>) returns (byThread: Groups)
    requires basis != []
    ensures forall r <- basis :: Answered(byThread, boxes, HeaderId(r))
    ensures forall t <- byThread :: HasMembers(boxes, t)
  {
    var criteria := BuildOrCriteria(basis);
    byThread := map[];
    var todo := boxes.Keys;
    ghost var seen: iset<EmailId> := iset{};
    while todo != {}
      invariant todo <= boxes.Keys
      invariant Grouped(byThread, boxes, basis, seen) && Complete(boxes, basis, seen, boxes.Keys - todo)
    {
      var name :| name in todo;
      var matches := SearchOneMailbox(name, boxes[name], criteria);
      ghost var uids := UidsOf(matches);
      ghost var before := seen;
      byThread := AddMatches(byThread, boxes, basis, before, name, matches, uids);
      seen := before + iset j | 0 <= j < |uids| :: EmailId(name, boxes[name].uidvalidity, uids[j]);
      SearchedCompletely(boxes, basis, before, boxes.Keys - todo, name, uids);
      assert boxes.Keys - (todo - {name}) == (boxes.Keys - todo) + {name};
      todo := todo - {name};
    }
    GroupedExactly(byThread, boxes, basis, seen);
  }

  lemma {:induction false} SearchedCompletely(boxes: map<string, Box>, basis: seq<string>, before: iset<EmailId>,
      done: set<string>, name: string, uids: seq<nat>)
    requires basis != [] && name in boxes && Complete(boxes, basis, before, done)
    requires Elements(uids) == Search(name, boxes[name], FlatOr(Clauses(basis)))
    ensures Complete(boxes, basis, before + iset j | 0 <= j < |uids| ::
        EmailId(name, boxes[name].uidvalidity, uids[j]), done + {name})
  {
    var seen := before + iset j | 0 <= j < |uids| :: EmailId(name, boxes[name].uidvalidity, uids[j]);
    forall r, id: EmailId | r in basis && id.mailbox in done + {name} && Belongs(boxes, HeaderId(r), id)
      ensures id in seen
    {
      if id.mailbox == name {
        MemberHasRoot(boxes, r, id);
        SearchMissesNothing(basis, name, boxes[name], id.uid);
        assert id.uid in Elements(uids);
        var j :| 0 <= j < |uids| && uids[j] == id.uid;
        assert id == EmailId(name, boxes[name].uidvalidity, uids[j]);
      }
    }
  }

  lemma {:induction false} GroupedExactly(groups: Groups, boxes: map<string, Box>, basis: seq<string>,
      seen: iset<EmailId>)
    requires Grouped(groups, boxes, basis, seen) && Complete(boxes, basis, seen, boxes.Keys)
    ensures forall r <- basis :: Answered(groups, boxes, HeaderId(r))
    ensures forall t <- groups :: HasMembers(boxes, t)
  {
    forall t | t in groups ensures HasMembers(boxes, t) {
      assert Belongs(boxes, t, groups[t][0]);
    }
    forall r | r in basis ensures Answered(groups, boxes, HeaderId(r)) {
      GroupIsExact(groups, boxes, basis, seen, r);
    }
  }

  lemma {:induction false} GroupIsExact(groups: Groups, boxes: map<string, Box>, basis: seq<string>,
      seen: iset<EmailId>, r: string)
    requires Grouped(groups, boxes, basis, seen) && Complete(boxes, basis, seen, boxes.Keys) && r in basis
    ensures Answered(groups, boxes, HeaderId(r))
  {
    var t := HeaderId(r);
    forall id | Belongs(boxes, t, id) ensures t in groups && id in groups[t] {
      assert id in seen;
    }
    if t in groups {
      forall id | id in groups[t] ensures Belongs(boxes, t, id) {
        var i :| 0 <= i < |groups[t]| && groups[t][i] == id;
      }
      assert Belongs(boxes, t, groups[t][0]);
    }
  }

  // ----- location ids -----

  function Before(s: string, c: char): (n: nat)
    ensures n <= |s| && (n < |s| ==> s[n] == c) && c !in s[..n]
  {
    if s == [] || s[0] == c then 0 else 1 + Before(s[1..], c)
  }

  function WholeNat(s: string): Option<nat> {
    match Json.ParseNat(s)
    case None => None
    case Some((n, rest)) => if rest == [] then Some(n) else None
  }

  /** Splits `mailbox:uidvalidity:uid` at its first two colons. */
  function LocationOf(basis: string): Option<(string, nat, nat)> {
    var i := Before(basis, ':');
    if i == |basis| then None
    else
      var rest := basis[i + 1..];
      var j := Before(rest, ':');
      if j == |rest| then None
      else
        match (WholeNat(rest[..j]), WholeNat(rest[j + 1..]))
        case (Some(uidvalidity), Some(uid)) => Some((basis[..i], uidvalidity, uid))
        case _ => None
  }

  lemma {:induction false} BeforeFirst(a: string, c: char, b: string)
    requires c !in a
    ensures Before(a + [c] + b, c) == |a|
  {
    var s := a + [c] + b;
    if a != [] {
      BeforeFirst(a[1..], c, b);
      assert s[1..] == a[1..] + [c] + b;
    }
  }

  lemma {:induction false} DigitsAreWhole(n: nat)
    ensures WholeNat(Json.Digits(n)) == Some(n) && ':' !in Json.Digits(n)
  {
    Json.NatRoundTrip(n, []);
    Json.DigitsAreRead(n);
    assert Json.Digits(n) + [] == Json.Digits(n);
  }

  lemma {:induction false} FallbackSplits(mailbox: string, uidvalidity: nat, uid: nat)
    requires ':' !in mailbox
    ensures LocationOf(Fallback(mailbox, uidvalidity, uid)) == Some((mailbox, uidvalidity, uid))
  {
    var v, u := Json.Digits(uidvalidity), Json.Digits(uid);
    var basis, rest := Fallback(mailbox, uidvalidity, uid), v + [':'] + u;
    assert basis == mailbox + [':'] + rest;
    BeforeFirst(mailbox, ':', rest);
    assert basis[|mailbox| + 1..] == rest && basis[..|mailbox|] == mailbox;
    DigitsAreWhole(uidvalidity);
    DigitsAreWhole(uid);
    BeforeFirst(v, ':', u);
    assert rest[..|v|] == v && rest[|v| + 1..] == u;
  }

  function ResolveLocation(boxes: map<string, Box>, location: (string, nat, nat), expected: string): Option<EmailId> {
    var (mailbox, uidvalidity, uid) := location;
    if mailbox !in boxes || boxes[mailbox].uidvalidity != uidvalidity || uid !in boxes[mailbox].messages then None
    else if ThreadOf(mailbox, boxes[mailbox], uid) != expected then None
    else Some(EmailId(mailbox, uidvalidity, uid))
  }

  predicate ColonFree(boxes: map<string, Box>) {
    forall n <- boxes :: ':' !in n
  }

  predicate IsHeaderId(t: string) {
    DecodeThreadId(t).Some? && DecodeThreadId(t).value.0 == 'H'
  }

  predicate IsLocationId(t: string) {
    DecodeThreadId(t).Some? && DecodeThreadId(t).value.0 == 'L'
  }

  lemma {:induction false} KindOfMember(boxes: map<string, Box>, t: string, id: EmailId)
    requires Belongs(boxes, t, id)
    ensures 2 <= |t| && t[1] == if Root(boxes[id.mailbox].messages[id.uid]).Some? then 'H' else 'L'
  {
  }

  /** A location id names at most the one message it was made from. */
  lemma {:induction false} LocationIsExact(boxes: map<string, Box>, t: string, id: EmailId)
    requires ColonFree(boxes) && IsLocationId(t) && Belongs(boxes, t, id)
    ensures var location := LocationOf(DecodeThreadId(t).value.1);
            location.Some? && ResolveLocation(boxes, location.value, t) == Some(id)
  {
    var h := boxes[id.mailbox].messages[id.uid];
    var fallback := Fallback(id.mailbox, id.uidvalidity, id.uid);
    KindOfMember(boxes, t, id);
    assert t == "TL" + Base64Url.Token(fallback) && t[2..] == Base64Url.Token(fallback);
    Base64Url.TokenRoundTrip(fallback);
    FallbackSplits(id.mailbox, id.uidvalidity, id.uid);
  }

  /** Every thread some message derives is of one of the two kinds, and decodes. */
  lemma {:induction false} MemberIdsDecode(boxes: map<string, Box>, t: string, id: EmailId)
    requires Belongs(boxes, t, id)
    ensures DecodeThreadId(t).Some?
    ensures DecodeThreadId(t).value.0 == 'H' ==> t == HeaderId(DecodeThreadId(t).value.1)
  {
    var h := boxes[id.mailbox].messages[id.uid];
    if Root(h).Some? {
      RootIsFound(h);
      ThreadIdRoundTrip('H', Root(h).value);
    } else {
      ThreadIdRoundTrip('L', Fallback(id.mailbox, id.uidvalidity, id.uid));
    }
  }

  // ----- Thread/get -----

  ghost function Found(ids: seq<string>, boxes: map<string, Box>): seq<string> {
    if ids == [] then []
    else Found(ids[..|ids| - 1], boxes) + if HasMembers(boxes, ids[|ids| - 1]) then [ids[|ids| - 1]] else []
  }

  ghost function NotFound(ids: seq<string>, boxes: map<string, Box>): seq<string> {
    if ids == [] then []
    else NotFound(ids[..|ids| - 1], boxes) + if HasMembers(boxes, ids[|ids| - 1]) then [] else [ids[|ids| - 1]]
  }

  function Names(list: seq<(string, seq<EmailId>)>): seq<string> {
    seq(|list|, i requires 0 <= i < |list| => list[i].0)
  }

  method HeaderThreads(ids: seq<string>, boxes: map<string, Box>) returns (found: Groups)
    ensures forall t <- ids :: IsHeaderId(t) ==> Answered(found, boxes, t)
    ensures forall t <- found :: IsHeaderId(t)
  {
    found := map[];
    var headerBasis: map<string, string> := map[];
    for i := 0 to |ids|
      invariant forall t :: t in headerBasis <==> t in ids[..i] && IsHeaderId(t)
      invariant forall t <- headerBasis :: headerBasis[t] == DecodeThreadId(t).value.1
    {
      var decoded := DecodeThreadId(ids[i]);
      if decoded.Some? && decoded.value.0 == 'H' {
        headerBasis := headerBasis[ids[i] := decoded.value.1];
      }
      assert forall t :: t in ids[..i + 1] <==> t in ids[..i] || t == ids[i];
    }
    assert ids[..|ids|] == ids;
    if headerBasis != map[] {
      var basis := OneEach(headerBasis.Values);
      var some :| some in headerBasis;
      assert headerBasis[some] in Elements(basis);
      var byThread := ResolveHeaderBasedThreads(boxes, basis);
      found := map t | t in headerBasis && t in byThread :: byThread[t];
      forall t | t in headerBasis ensures Answered(found, boxes, t) {
        assert headerBasis[t] in Elements(basis);
        if HasMembers(boxes, t) {
          var id :| Belongs(boxes, t, id);
          MemberIdsDecode(boxes, t, id);
        }
        assert t in byThread ==> HasMembers(boxes, t);
        assert t in byThread ==> Answered(byThread, boxes, HeaderId(headerBasis[t]));
      }
    }
  }

  /** A set as a list, in no particular order. */
  method OneEach(values: set<string>) returns (xs: seq<string>)
    ensures Elements(xs) == values
  {
    xs := [];
    var rest := values;
    while rest != {}
      invariant rest <= values && Elements(xs) == values - rest
    {
      var x :| x in rest;
      assert Elements(xs + [x]) == Elements(xs) + {x};
      xs, rest := xs + [x], rest - {x};
    }
  }

  /** The message a location id names, if it is still there and still derives that id. */
  function AtLocation(boxes: map<string, Box>, t: string): seq<EmailId> {
    if !IsLocationId(t) then []
    else
      var location := LocationOf(DecodeThreadId(t).value.1);
      if location.None? then []
      else
        var id := ResolveLocation(boxes, location.value, t);
        if id.None? then [] else [id.value]
  }

  lemma {:induction false} AtLocationIsExact(boxes: map<string, Box>, t: string)
    requires ColonFree(boxes) && IsLocationId(t)
    ensures AtLocation(boxes, t) != [] <==> HasMembers(boxes, t)
    ensures AtLocation(boxes, t) != [] ==> ExactThread(boxes, t, AtLocation(boxes, t))
  {
    var ids := AtLocation(boxes, t);
    forall x | Belongs(boxes, t, x) ensures ids == [x] {
      LocationIsExact(boxes, t, x);
    }
    assert ids != [] ==> Belongs(boxes, t, ids[0]);
  }

  function Collect(ids: seq<string>, lookUp: string -> seq<EmailId>): Groups {
    map t | t in ids && lookUp(t) != [] :: lookUp(t)
  }

  method LookUpEach(ids: seq<string>, lookUp: string -> seq<EmailId>) returns (found: Groups)
    ensures found == Collect(ids, lookUp)
  {
    found := map[];
    for i := 0 to |ids|
      invariant found == Collect(ids[..i], lookUp)
    {
      assert ids[..i + 1] == ids[..i] + [ids[i]];
      if lookUp(ids[i]) != [] {
        found := found[ids[i] := lookUp(ids[i])];
      }
    }
    assert ids[..|ids|] == ids;
  }

  method LocationThreads(ids: seq<string>, boxes: map<string, Box>) returns (found: Groups)
    ensures found == Collect(ids, t => AtLocation(boxes, t))
  {
    found := LookUpEach(ids, t => AtLocation(boxes, t));
  }

  lemma {:induction false} LocationsAnswered(ids: seq<string>, boxes: map<string, Box>, t: string)
    requires t in ids && ColonFree(boxes) && IsLocationId(t)
    ensures Answered(Collect(ids, s => AtLocation(boxes, s)), boxes, t)
  {
    AtLocationIsExact(boxes, t);
  }

  /** Thread/get answers what a scan of every message would: for each requested id, whatever string it is, exactly the
      messages whose own headers derive it. (Location ids need mailbox names without a colon.) */
  method ThreadGet(ids: seq<string>, boxes: map<string, Box>)
    returns (list: seq<(string, seq<EmailId>)>, notFound: seq<string>)
    ensures ColonFree(boxes) || (forall t <- ids :: !IsLocationId(t)) ==>
              && Names(list) == Found(ids, boxes) && notFound == NotFound(ids, boxes)
              && forall i | 0 <= i < |list| :: ExactThread(boxes, list[i].0, list[i].1)
  {
    var headers := HeaderThreads(ids, boxes);
    var locations := LocationThreads(ids, boxes);
    var found := headers + locations;
    if ColonFree(boxes) || (forall t <- ids :: !IsLocationId(t)) {
      forall t | t in ids ensures Answered(found, boxes, t) {
        if IsLocationId(t) { LocationsAnswered(ids, boxes, t); }
        MergedAnswer(headers, locations, boxes, t);
      }
    }
    list, notFound := ListFound(ids, found, boxes);
  }

  /** These ids are answered for as a scan of every message would. */
  ghost predicate AllListed(ids: seq<string>, list: seq<(string, seq<EmailId>)>, notFound: seq<string>,
                            boxes: map<string, Box>)
  {
    && Names(list) == Found(ids, boxes) && notFound == NotFound(ids, boxes)
    && forall i | 0 <= i < |list| :: ExactThread(boxes, list[i].0, list[i].1)
  }

  lemma {:induction false} OneMoreListed(ids: seq<string>, n: nat, list: seq<(string, seq<EmailId>)>,
                                         notFound: seq<string>, found: Groups, boxes: map<string, Box>)
    requires n < |ids| && AllListed(ids[..n], list, notFound, boxes) && Answered(found, boxes, ids[n])
    ensures var t := ids[n];
            if t in found then AllListed(ids[..n + 1], list + [(t, found[t])], notFound, boxes)
            else AllListed(ids[..n + 1], list, notFound + [t], boxes)
  {
    var t := ids[n];
    assert ids[..n + 1][..n] == ids[..n];
    if t in found {
      assert Names(list + [(t, found[t])]) == Names(list) + [t];
    }
  }

  method ListFound(ids: seq<string>, found: Groups, ghost boxes: map<string, Box>)
    returns (list: seq<(string, seq<EmailId>)>, notFound: seq<string>)
    ensures (forall i | 0 <= i < |ids| :: Answered(found, boxes, ids[i])) ==> AllListed(ids, list, notFound, boxes)
  {
    list, notFound := [], [];
    for i := 0 to |ids|
      invariant (forall k | 0 <= k < i :: Answered(found, boxes, ids[k])) ==> AllListed(ids[..i], list, notFound, boxes)
    {
      var t := ids[i];
      if forall k | 0 <= k < i + 1 :: Answered(found, boxes, ids[k]) {
        OneMoreListed(ids, i, list, notFound, found, boxes);
      }
      if t in found {
        list := list + [(t, found[t])];
      } else {
        notFound := notFound + [t];
      }
    }
    assert ids[..|ids|] == ids;
  }

  lemma {:induction false} MergedAnswer(headers: Groups, locations: Groups, boxes: map<string, Box>, t: string)
    requires t in headers ==> IsHeaderId(t)
    requires t in locations ==> IsLocationId(t)
    requires IsHeaderId(t) ==> Answered(headers, boxes, t)
    requires IsLocationId(t) ==> Answered(locations, boxes, t)
    ensures Answered(headers + locations, boxes, t)
  {
    assert !(IsHeaderId(t) && IsLocationId(t));
    if !IsHeaderId(t) && !IsLocationId(t) && HasMembers(boxes, t) {
      var id :| Belongs(boxes, t, id);
      MemberIdsDecode(boxes, t, id);
    }
  }
}
