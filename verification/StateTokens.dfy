/** Ids and state strings: JSON in base64url, decoded without any table. */
module StateTokens {
  import opened Wrappers
  import opened Base64Url
  import opened Json
  import opened ModseqState
  import opened ObjectIds

  // ----- email and blob ids -----

  function EncodeEmailId(id: EmailId): string {
    "E" + Token(Print(Arr([Str(id.mailbox), Num(id.uidvalidity), Num(id.uid)])))
  }

  function EncodeBlobId(id: BlobId): string {
    "B" + Token(Print(Arr([Str(id.mailbox), Num(id.uidvalidity), Num(id.uid), Num(id.part)])))
  }

  function FromJsonToken(token: string): Option<Value> {
    match FromToken(token)
    case None => None
    case Some(text) => ParseAll(text)
  }

  function DecodeEmailId(s: string): Option<EmailId> {
    if s == [] || s[0] != 'E' then None
    else
      match FromJsonToken(s[1..])
      case Some(Arr(items)) =>
        if |items| == 3 && items[0].Str? && items[1].Num? && items[2].Num? && 0 <= items[1].n && 0 <= items[2].n
        then Some(EmailId(items[0].s, items[1].n, items[2].n))
        else None
      case _ => None
  }

  function DecodeBlobId(s: string): Option<BlobId> {
    if s == [] || s[0] != 'B' then None
    else
      match FromJsonToken(s[1..])
      case Some(Arr(items)) =>
        if |items| == 4 && items[0].Str? && items[1].Num? && items[2].Num? && items[3].Num? && 0 <= items[1].n
            && 0 <= items[2].n
        then Some(BlobId(items[0].s, items[1].n, items[2].n, items[3].n))
        else None
      case _ => None
  }

  lemma {:induction false} JsonTokenRoundTrip(v: Value)
    ensures FromJsonToken(Token(Print(v))) == Some(v)
  {
    JsonRoundTrip(v);
    TokenRoundTrip(Print(v));
  }

  lemma {:induction false} EmailIdRoundTrip(id: EmailId)
    ensures DecodeEmailId(EncodeEmailId(id)) == Some(id)
  {
    var v := Arr([Str(id.mailbox), Num(id.uidvalidity), Num(id.uid)]);
    JsonTokenRoundTrip(v);
    assert EncodeEmailId(id)[1..] == Token(Print(v));
  }

  lemma {:induction false} BlobIdRoundTrip(id: BlobId)
    ensures DecodeBlobId(EncodeBlobId(id)) == Some(id)
  {
    var v := Arr([Str(id.mailbox), Num(id.uidvalidity), Num(id.uid), Num(id.part)]);
    JsonTokenRoundTrip(v);
    assert EncodeBlobId(id)[1..] == Token(Print(v));
  }

  // ----- sort_keys -----

  predicate Less(a: string, b: string) {
    b != [] && (a == [] || a[0] < b[0] || (a[0] == b[0] && Less(a[1..], b[1..])))
  }

  lemma {:induction false} LessIsTotal(a: string, b: string)
    ensures a == b || Less(a, b) || Less(b, a)
    ensures Less(a, b) ==> a != b && !Less(b, a)
  {
    if a != [] && b != [] {
      LessIsTotal(a[1..], b[1..]);
      assert a == [a[0]] + a[1..] && b == [b[0]] + b[1..];
    }
  }

  lemma {:induction false} LessIsTransitive(a: string, b: string, c: string)
    requires Less(a, b) && Less(b, c)
    ensures Less(a, c)
  {
    if a != [] && a[0] == b[0] == c[0] {
      LessIsTransitive(a[1..], b[1..], c[1..]);
    }
  }

  function InsertMember(m: Member, ms: seq<Member>): seq<Member> {
    if ms == [] || !Less(ms[0].key, m.key) then [m] + ms else [ms[0]] + InsertMember(m, ms[1..])
  }

  /** Sorts every object of a value by its keys. */
  function SortKeys(v: Value): Value {
    match v
    case Arr(items) => Arr(SortItems(items))
    case Obj(members) => Obj(SortMembers(members))
    case _ => v
  }

  function SortItems(items: seq<Value>): seq<Value> {
    if items == [] then [] else [SortKeys(items[0])] + SortItems(items[1..])
  }

  function SortMembers(ms: seq<Member>): seq<Member> {
    if ms == [] then [] else InsertMember(Member(ms[0].key, SortKeys(ms[0].value)), SortMembers(ms[1..]))
  }

  // ----- state tokens -----

  function EncodeState(kind: string, payload: seq<Member>): string {
    Token(Print(SortKeys(Obj([Member("v", Num(1)), Member("kind", Str(kind)), Member("payload", Obj(payload))]))))
  }

  /** The last value under a key, as a dict built from the members would have it. */
  function Lookup(ms: seq<Member>, key: string): Option<Value> {
    if ms == [] then None
    else if ms[|ms| - 1].key == key then Some(ms[|ms| - 1].value)
    else Lookup(ms[..|ms| - 1], key)
  }

  datatype StateError = InvalidStateToken

  function DecodeState(token: string, kind: string): Result<seq<Member>, StateError> {
    match FromJsonToken(token)
    case Some(Obj(ms)) =>
      if Lookup(ms, "v") != Some(Num(1)) || Lookup(ms, "kind") != Some(Str(kind)) then Err(InvalidStateToken)
      else
        (match Lookup(ms, "payload")
         case Some(Obj(payload)) => Ok(payload)
         case _ => Err(InvalidStateToken))
    case _ => Err(InvalidStateToken)
  }

  lemma {:induction false} KeyOrder()
    ensures Less("kind", "payload") && Less("payload", "v") && Less("kind", "v")
    ensures !Less("payload", "kind") && !Less("v", "payload") && !Less("v", "kind")
  {
    LessIsTotal("kind", "payload");
    LessIsTotal("payload", "v");
    LessIsTotal("kind", "v");
  }

  lemma {:induction false} EnvelopeOrder(kind: Value, payload: Value)
    ensures InsertMember(Member("v", Num(1)), InsertMember(Member("kind", kind), [Member("payload", payload)])) ==
            [Member("kind", kind), Member("payload", payload), Member("v", Num(1))]
  {
    KeyOrder();
    var k, p, v := Member("kind", kind), Member("payload", payload), Member("v", Num(1));
    assert InsertMember(k, [p]) == [k, p];
    assert [k, p][1..] == [p] && [p][1..] == [];
    assert InsertMember(v, []) == [v] && InsertMember(v, [p]) == [p] + InsertMember(v, []);
    assert InsertMember(v, [k, p]) == [k] + InsertMember(v, [p]);
  }

  lemma {:induction false} EnvelopeLookup(kind: Value, payload: Value, version: Value)
    ensures var ms := [Member("kind", kind), Member("payload", payload), Member("v", version)];
            Lookup(ms, "kind") == Some(kind) && Lookup(ms, "payload") == Some(payload)
                && Lookup(ms, "v") == Some(version)
  {
    var k, p, v := Member("kind", kind), Member("payload", payload), Member("v", version);
    assert [k, p, v][..2] == [k, p] && [k, p][..1] == [k];
    assert Lookup([k], "kind") == Some(kind);
    assert Lookup([k, p], "kind") == Some(kind) && Lookup([k, p], "payload") == Some(payload);
  }

  lemma {:induction false} SortedEnvelope(kind: Value, payload: seq<Member>)
    requires SortKeys(kind) == kind
    ensures SortKeys(Obj([Member("v", Num(1)), Member("kind", kind), Member("payload", Obj(payload))])) ==
            Obj([Member("kind", kind), Member("payload", Obj(SortMembers(payload))), Member("v", Num(1))])
  {
    var v, k, p := Member("v", Num(1)), Member("kind", kind), Member("payload", Obj(payload));
    var q := Member("payload", Obj(SortMembers(payload)));
    assert [v, k, p][1..] == [k, p] && [k, p][1..] == [p] && [p][1..] == [];
    assert SortMembers([p]) == InsertMember(q, SortMembers([])) == [q];
    assert SortMembers([k, p]) == InsertMember(k, [q]);
    assert SortMembers([v, k, p]) == InsertMember(v, InsertMember(k, [q]));
    EnvelopeOrder(kind, q.value);
  }

  /** A token decodes, under its own kind only, to the payload with its keys sorted. */
  lemma {:induction false} StateRoundTrip(kind: string, payload: seq<Member>, expected: string)
    ensures DecodeState(EncodeState(kind, payload), expected) ==
              if expected == kind then Ok(SortMembers(payload)) else Err(InvalidStateToken)
  {
    var sorted := [Member("kind", Str(kind)), Member("payload", Obj(SortMembers(payload))), Member("v", Num(1))];
    SortedEnvelope(Str(kind), payload);
    JsonTokenRoundTrip(Obj(sorted));
    EnvelopeLookup(Str(kind), Obj(SortMembers(payload)), Num(1));
  }

  // ----- the mail state: a cursor for each mailbox -----

  /** One entry of the cursor dict. A dict in insertion order is a list of entries with different names. */
  datatype Entry = Entry(name: string, cursor: Cursor)

  predicate IsDict(es: seq<Entry>) {
    forall i, j :: 0 <= i < j < |es| ==> es[i].name != es[j].name
  }

  function AsMap(es: seq<Entry>): map<string, Cursor> {
    if es == [] then map[] else AsMap(es[1..])[es[0].name := es[0].cursor]
  }

  function CursorMembers(c: Cursor): seq<Member> {
    [Member("uv", Num(c.uidvalidity)), Member("ms", Num(c.highestmodseq)),
     Member("un", Num(c.uidnext)), Member("ex", Num(c.messageCount))]
  }

  function SortedCursorMembers(c: Cursor): seq<Member> {
    [Member("ex", Num(c.messageCount)), Member("ms", Num(c.highestmodseq)),
     Member("un", Num(c.uidnext)), Member("uv", Num(c.uidvalidity))]
  }

  function Members(es: seq<Entry>): seq<Member> {
    if es == [] then [] else [Member(es[0].name, Obj(CursorMembers(es[0].cursor)))] + Members(es[1..])
  }

  const STATE_KIND := "mailstate"

  function EncodeMailState(es: seq<Entry>): string {
    EncodeState(STATE_KIND, [Member("mailboxes", Obj(Members(es)))])
  }

  function ReadNat(ms: seq<Member>, key: string): Option<nat> {
    match Lookup(ms, key)
    case Some(Num(n)) => if 0 <= n then Some(n) else None
    case _ => None
  }

  function ReadCursor(v: Value): Option<Cursor> {
    if !v.Obj? then None
    else
      match (ReadNat(v.members, "uv"), ReadNat(v.members, "ms"), ReadNat(v.members, "un"), ReadNat(v.members, "ex"))
      case (Some(uv), Some(ms), Some(un), Some(ex)) => Some(Cursor(uv, ms, un, ex))
      case _ => None
  }

  function ReadCursors(ms: seq<Member>): Option<map<string, Cursor>> {
    if ms == [] then Some(map[])
    else
      var last := ms[|ms| - 1];
      match (ReadCursors(ms[..|ms| - 1]), ReadCursor(last.value))
      case (Some(earlier), Some(cursor)) => Some(earlier[last.key := cursor])
      case _ => None
  }

  function MailboxesOf(token: string): Result<seq<Member>, StateError> {
    match DecodeState(token, STATE_KIND)
    case Err(e) => Err(e)
    case Ok(payload) =>
      match Lookup(payload, "mailboxes")
      case Some(Obj(ms)) => Ok(ms)
      case _ => Err(InvalidStateToken)
  }

  method DecodeMailState(token: string) returns (r: Result<map<string, Cursor>, StateError>)
    ensures r == match MailboxesOf(token)
                 case Err(e) => Err(e)
                 case Ok(ms) => if ReadCursors(ms).Some? then Ok(ReadCursors(ms).value) else Err(InvalidStateToken)
  {
    var mailboxes := MailboxesOf(token);
    if mailboxes.Err? {
      return Err(mailboxes.error);
    }
    var ms := mailboxes.value;
    var result: map<string, Cursor> := map[];
    for i := 0 to |ms|
      invariant ReadCursors(ms[..i]) == Some(result)
    {
      assert ms[..i + 1][..i] == ms[..i];
      var cursor := ReadCursor(ms[i].value);
      if cursor.None? {
        UnreadableCursors(ms, i);
        return Err(InvalidStateToken);
      }
      result := result[ms[i].key := cursor.value];
    }
    assert ms[..|ms|] == ms;
    return Ok(result);
  }

  lemma {:induction false} UnreadableCursors(ms: seq<Member>, i: nat)
    requires i < |ms| && ReadCursor(ms[i].value).None?
    ensures ReadCursors(ms).None?
  {
    if i < |ms| - 1 {
      UnreadableCursors(ms[..|ms| - 1], i);
    }
  }

  // Sorting the entries of a dict by name.

  function InsertEntry(e: Entry, es: seq<Entry>): seq<Entry> {
    if es == [] || !Less(es[0].name, e.name) then [e] + es else [es[0]] + InsertEntry(e, es[1..])
  }

  function SortEntries(es: seq<Entry>): seq<Entry> {
    if es == [] then [] else InsertEntry(es[0], SortEntries(es[1..]))
  }

  function SortedMembers(es: seq<Entry>): seq<Member> {
    if es == [] then [] else [Member(es[0].name, Obj(SortedCursorMembers(es[0].cursor)))] + SortedMembers(es[1..])
  }

  lemma {:induction false} CursorKeyOrder()
    ensures !Less("ex", "ex") && Less("ex", "ms") && Less("ms", "un") && Less("un", "uv")
    ensures !Less("ms", "ex") && !Less("un", "ms") && !Less("uv", "un") && Less("ex", "un") && Less("ex", "uv")
        && Less("ms", "uv")
  {
    LessIsTotal("ex", "ms");
    LessIsTotal("ms", "un");
    assert "un"[1..] == "n" && "uv"[1..] == "v" && Less("n", "v");
    LessIsTotal("un", "uv");
  }

  lemma {:induction false} CursorSorts(c: Cursor)
    ensures SortMembers(CursorMembers(c)) == SortedCursorMembers(c)
  {
    var m := CursorMembers(c);
    var uv, ms, un, ex := m[0], m[1], m[2], m[3];
    CursorKeyOrder();
    assert m[1..] == [ms, un, ex] && [ms, un, ex][1..] == [un, ex] && [un, ex][1..] == [ex] && [ex][1..] == [];
    assert SortMembers([ex]) == InsertMember(ex, []) == [ex];
    assert InsertMember(un, []) == [un] && InsertMember(un, [ex]) == [ex, un];
    assert SortMembers([un, ex]) == [ex, un];
    assert [ex, un][1..] == [un] && InsertMember(ms, [un]) == [ms, un];
    assert InsertMember(ms, [ex, un]) == [ex] + InsertMember(ms, [un]) == [ex, ms, un];
    assert SortMembers([ms, un, ex]) == [ex, ms, un];
    assert [un][1..] == [] && [ms, un][1..] == [un] && [ex, ms, un][1..] == [ms, un];
    assert InsertMember(uv, []) == [uv] && InsertMember(uv, [un]) == [un] + [uv];
    assert InsertMember(uv, [ms, un]) == [ms] + InsertMember(uv, [un]);
    assert InsertMember(uv, [ex, ms, un]) == [ex] + InsertMember(uv, [ms, un]);
  }

  lemma {:induction false} InsertCommutes(e: Entry, es: seq<Entry>)
    ensures InsertMember(Member(e.name, Obj(SortedCursorMembers(e.cursor))), SortedMembers(es))
        == SortedMembers(InsertEntry(e, es))
  {
    var m := Member(e.name, Obj(SortedCursorMembers(e.cursor)));
    if es == [] || !Less(es[0].name, e.name) {
      assert ([e] + es)[1..] == es;
    } else {
      InsertCommutes(e, es[1..]);
      assert SortedMembers(es)[1..] == SortedMembers(es[1..]);
      assert ([es[0]] + InsertEntry(e, es[1..]))[1..] == InsertEntry(e, es[1..]);
    }
  }

  lemma {:induction false} SortCommutes(es: seq<Entry>)
    ensures SortMembers(Members(es)) == SortedMembers(SortEntries(es))
  {
    if es != [] {
      SortCommutes(es[1..]);
      CursorSorts(es[0].cursor);
      assert Members(es)[1..] == Members(es[1..]);
      InsertCommutes(es[0], SortEntries(es[1..]));
    }
  }

  lemma {:induction false} NamesOfMap(es: seq<Entry>, n: string)
    ensures n in AsMap(es) <==> exists e <- es :: e.name == n
  {
    if es != [] {
      NamesOfMap(es[1..], n);
      assert forall e :: e in es <==> e == es[0] || e in es[1..];
    }
  }

  lemma {:induction false} InsertAsMap(e: Entry, es: seq<Entry>)
    requires e.name !in AsMap(es)
    ensures AsMap(InsertEntry(e, es)) == AsMap(es)[e.name := e.cursor]
  {
    if es == [] || !Less(es[0].name, e.name) {
      assert ([e] + es)[1..] == es;
    } else {
      InsertAsMap(e, es[1..]);
      assert ([es[0]] + InsertEntry(e, es[1..]))[1..] == InsertEntry(e, es[1..]);
    }
  }

  predicate Ascending(es: seq<Entry>) {
    |es| < 2 || (Less(es[0].name, es[1].name) && Ascending(es[1..]))
  }

  lemma {:induction false} InsertAscending(e: Entry, es: seq<Entry>)
    requires Ascending(es) && e.name !in AsMap(es)
    ensures Ascending(InsertEntry(e, es))
  {
    if es == [] {
    } else if !Less(es[0].name, e.name) {
      LessIsTotal(e.name, es[0].name);
      assert ([e] + es)[1..] == es;
    } else {
      InsertAscending(e, es[1..]);
      var rest := InsertEntry(e, es[1..]);
      assert ([es[0]] + rest)[1..] == rest;
    }
  }

  lemma {:induction false} SortEntriesKeepsTheMap(es: seq<Entry>)
    requires IsDict(es)
    ensures AsMap(SortEntries(es)) == AsMap(es) && Ascending(SortEntries(es))
  {
    if es != [] {
      SortEntriesKeepsTheMap(es[1..]);
      NamesOfMap(es[1..], es[0].name);
      InsertAsMap(es[0], SortEntries(es[1..]));
      InsertAscending(es[0], SortEntries(es[1..]));
    }
  }

  lemma {:induction false} FirstIsLeast(es: seq<Entry>, n: string)
    requires Ascending(es) && es != [] && n in AsMap(es)
    ensures n == es[0].name || Less(es[0].name, n)
  {
    if n != es[0].name {
      FirstIsLeast(es[1..], n);
      if n != es[1].name { LessIsTransitive(es[0].name, es[1].name, n); }
    }
  }

  lemma {:induction false} FirstIsAlone(es: seq<Entry>)
    requires Ascending(es) && es != []
    ensures es[0].name !in AsMap(es[1..]) && Ascending(es[1..])
    ensures AsMap(es[1..]) == AsMap(es) - {es[0].name}
  {
    if |es| > 1 && es[0].name in AsMap(es[1..]) {
      FirstIsLeast(es[1..], es[0].name);
      LessIsTotal(es[0].name, es[1].name);
    }
  }

  /** In ascending order a map has one listing. */
  lemma {:induction false} AscendingIsUnique(a: seq<Entry>, b: seq<Entry>)
    requires Ascending(a) && Ascending(b) && AsMap(a) == AsMap(b)
    ensures a == b
  {
    assert a != [] ==> a[0].name in AsMap(a);
    assert b != [] ==> b[0].name in AsMap(b);
    if a != [] && b != [] {
      FirstIsLeast(a, b[0].name);
      FirstIsLeast(b, a[0].name);
      LessIsTotal(a[0].name, b[0].name);
      assert a[0].cursor == AsMap(a)[a[0].name] == b[0].cursor;
      FirstIsAlone(a);
      FirstIsAlone(b);
      AscendingIsUnique(a[1..], b[1..]);
      assert a == [a[0]] + a[1..] && b == [b[0]] + b[1..];
    }
  }

  lemma {:induction false} CursorReads(c: Cursor)
    ensures ReadCursor(Obj(SortedCursorMembers(c))) == Some(c)
  {
    var s := SortedCursorMembers(c);
    assert s[..3][..2] == s[..2] && s[..2][..1] == s[..1];
    assert Lookup(s, "uv") == Some(Num(c.uidvalidity));
    assert Lookup(s, "un") == Lookup(s[..3], "un") == Some(Num(c.uidnext));
    assert Lookup(s, "ms") == Lookup(s[..3], "ms") == Lookup(s[..2], "ms") == Some(Num(c.highestmodseq));
    assert Lookup(s, "ex") == Lookup(s[..3], "ex") == Lookup(s[..2], "ex") == Lookup(s[..1], "ex")
        == Some(Num(c.messageCount));
  }

  lemma {:induction false} ReadPrefixed(first: Member, ms: seq<Member>)
    requires ReadCursor(first.value).Some? && ReadCursors(ms).Some? && first.key !in ReadCursors(ms).value
    ensures ReadCursors([first] + ms) == Some(ReadCursors(ms).value[first.key := ReadCursor(first.value).value])
    decreases |ms|
  {
    var all := [first] + ms;
    if ms == [] {
      assert all[..0] == [];
    } else {
      var n := |ms| - 1;
      var earlier, cursor, last := ReadCursors(ms[..n]).value, ReadCursor(first.value).value,
          ReadCursor(ms[n].value).value;
      assert ReadCursors(ms).value == earlier[ms[n].key := last];
      ReadPrefixed(first, ms[..n]);
      assert all[..|all| - 1] == [first] + ms[..n];
      assert earlier[first.key := cursor][ms[n].key := last] == earlier[ms[n].key := last][first.key := cursor];
    }
  }

  lemma {:induction false} SortedMembersRead(es: seq<Entry>)
    requires Ascending(es)
    ensures ReadCursors(SortedMembers(es)) == Some(AsMap(es))
  {
    if es != [] {
      FirstIsAlone(es);
      SortedMembersRead(es[1..]);
      CursorReads(es[0].cursor);
      ReadPrefixed(Member(es[0].name, Obj(SortedCursorMembers(es[0].cursor))), SortedMembers(es[1..]));
    }
  }

  lemma {:induction false} SortOne(m: Member)
    ensures SortMembers([m]) == [Member(m.key, SortKeys(m.value))]
  {
    assert [m][1..] == [];
    assert SortMembers([m]) == InsertMember(Member(m.key, SortKeys(m.value)), SortMembers([]));
  }

  lemma {:induction false} LookupOne(m: Member)
    ensures Lookup([m], m.key) == Some(m.value)
  {
  }

  lemma {:induction false} MailboxesRead(es: seq<Entry>)
    ensures MailboxesOf(EncodeMailState(es)) == Ok(SortedMembers(SortEntries(es)))
  {
    var m := Member("mailboxes", Obj(Members(es)));
    StateRoundTrip(STATE_KIND, [m], STATE_KIND);
    SortCommutes(es);
    SortOne(m);
    LookupOne(Member("mailboxes", Obj(SortedMembers(SortEntries(es)))));
  }

  /** What a client echoes as `sinceState` is read back as the cursors it was made from. */
  lemma {:induction false} MailStateRoundTrip(es: seq<Entry>)
    requires IsDict(es)
    ensures var ms := MailboxesOf(EncodeMailState(es));
            ms.Ok? && ReadCursors(ms.value) == Some(AsMap(es))
  {
    MailboxesRead(es);
    SortEntriesKeepsTheMap(es);
    SortedMembersRead(SortEntries(es));
  }

  /** Two state strings are equal exactly when the cursors are, in whatever order the dicts were filled. */
  lemma {:induction false} EqualTokensExactly(a: seq<Entry>, b: seq<Entry>)
    requires IsDict(a) && IsDict(b)
    ensures EncodeMailState(a) == EncodeMailState(b) <==> AsMap(a) == AsMap(b)
  {
    if AsMap(a) == AsMap(b) {
      SortEntriesKeepsTheMap(a);
      SortEntriesKeepsTheMap(b);
      AscendingIsUnique(SortEntries(a), SortEntries(b));
      SameSortedSameToken(a, b);
    }
    MailStateRoundTrip(a);
    MailStateRoundTrip(b);
  }

  lemma {:induction false} SameSortedSameToken(a: seq<Entry>, b: seq<Entry>)
    requires SortEntries(a) == SortEntries(b)
    ensures EncodeMailState(a) == EncodeMailState(b)
  {
    SortCommutes(a);
    SortCommutes(b);
    var m, n := Member("mailboxes", Obj(Members(a))), Member("mailboxes", Obj(Members(b)));
    assert [m][1..] == [n][1..] == [];
    assert SortMembers([m]) == SortMembers([n]);
    EncodedBySortedPayload(STATE_KIND, [m], [n]);
  }

  lemma {:induction false} EncodedBySortedPayload(kind: string, p: seq<Member>, q: seq<Member>)
    requires SortMembers(p) == SortMembers(q)
    ensures EncodeState(kind, p) == EncodeState(kind, q)
  {
    var v, k, x, y := Member("v", Num(1)), Member("kind", Str(kind)), Member("payload", Obj(p)),
        Member("payload", Obj(q));
    assert [v, k, x][1..] == [k, x] && [k, x][1..] == [x] && [x][1..] == [];
    assert [v, k, y][1..] == [k, y] && [k, y][1..] == [y] && [y][1..] == [];
    assert SortMembers([x]) == SortMembers([y]);
    assert SortMembers([k, x]) == SortMembers([k, y]);
    assert SortMembers([v, k, x]) == SortMembers([v, k, y]);
  }
}
