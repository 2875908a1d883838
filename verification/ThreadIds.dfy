/** Thread ids, derived from a message's own headers and reversible (RFC 8621 section 3). */
module ThreadIds {
  import opened Wrappers
  import opened LetterCase
  import opened Base64Url

  /** The three header fields a thread id is derived from, as raw text; None where absent. */
  datatype Headers = Headers(references: Option<string>, inReplyTo: Option<string>, messageId: Option<string>)

  predicate IsInner(c: char) {
    c != '<' && c != '>'
  }

  function InnerRun(s: string): (n: nat)
    ensures n <= |s|
    ensures n < |s| ==> !IsInner(s[n])
  {
    if s == [] || !IsInner(s[0]) then 0 else 1 + InnerRun(s[1..])
  }

  /** Every `<...>` of a header, left to right: the matches of `<([^<>]+)>`. */
  function MessageIds(s: string): seq<string>
    decreases |s|
  {
    if s == [] then []
    else if s[0] == '<' && 0 < InnerRun(s[1..]) && 1 + InnerRun(s[1..]) < |s| && s[1 + InnerRun(s[1..])] == '>' then
      var n := InnerRun(s[1..]);
      [s[..n + 2]] + MessageIds(s[n + 2..])
    else MessageIds(s[1..])
  }

  function IdsOf(header: Option<string>): seq<string> {
    if header.None? then [] else MessageIds(header.value)
  }

  /** The message id the conversation hangs from. */
  function Root(h: Headers): Option<string> {
    if IdsOf(h.references) != [] then Some(IdsOf(h.references)[0])
    else if IdsOf(h.inReplyTo) != [] then Some(IdsOf(h.inReplyTo)[0])
    else if IdsOf(h.messageId) != [] then Some(IdsOf(h.messageId)[0])
    else None
  }

  function DeriveThreadId(h: Headers, fallback: string): string {
    match Root(h)
    case Some(root) => "TH" + Token(root)
    case None => "TL" + Token(fallback)
  }

  function DecodeThreadId(id: string): Option<(char, string)> {
    if |id| < 3 || id[0] != 'T' || (id[1] != 'H' && id[1] != 'L') then None
    else
      match FromToken(id[2..])
      case None => None
      case Some(basis) => Some((id[1], basis))
  }

  lemma {:induction false} ThreadIdRoundTrip(kind: char, basis: string)
    requires kind in {'H', 'L'} && basis != []
    ensures DecodeThreadId(['T', kind] + Token(basis)) == Some((kind, basis))
  {
    TokenRoundTrip(basis);
    NonEmptyToken(basis);
    assert (['T', kind] + Token(basis))[2..] == Token(basis);
  }

  /** Threads are as distinct as their roots. */
  lemma {:induction false} HeaderIdsAreInjective(a: string, b: string)
    ensures "TH" + Token(a) == "TH" + Token(b) <==> a == b
    ensures "TH" + Token(a) != "TL" + Token(b)
  {
    TokenRoundTrip(a);
    TokenRoundTrip(b);
    assert ("TH" + Token(a))[2..] == Token(a) && ("TH" + Token(b))[2..] == Token(b);
    assert ("TH" + Token(a))[1] == 'H' && ("TL" + Token(b))[1] == 'L';
  }

  // ----- what HEADER search is guaranteed to find -----

  predicate OccursAt(t: string, s: string, i: nat) {
    i + |t| <= |s| && s[i..i + |t|] == t
  }

  /** Substring matching without regard to case, as SEARCH HEADER does (RFC 3501 section 6.4.4). */
  predicate HeaderContains(header: Option<string>, text: string) {
    header.Some? && exists i: nat | i <= |header.value| :: OccursAt(Lower(text), Lower(header.value), i)
  }

  lemma {:induction false} MessageIdOccurs(s: string, id: string)
    requires id in MessageIds(s)
    ensures id != [] && exists i: nat | i <= |s| :: OccursAt(id, s, i)
    decreases |s|
  {
    var hit := s[0] == '<' && 0 < InnerRun(s[1..]) && 1 + InnerRun(s[1..]) < |s| && s[1 + InnerRun(s[1..])] == '>';
    var n := if hit then InnerRun(s[1..]) + 2 else 1;
    if hit && id == s[..n] {
      assert OccursAt(id, s, 0);
    } else {
      MessageIdOccurs(s[n..], id);
      var i: nat :| i <= |s[n..]| && OccursAt(id, s[n..], i);
      assert s[n..][i..i + |id|] == s[n + i..n + i + |id|];
      assert OccursAt(id, s, n + i);
    }
  }

  /** A message's root occurs in one of its own three headers, so the search for it cannot miss the message. */
  lemma {:induction false} RootIsFound(h: Headers)
    requires Root(h).Some?
    ensures Root(h).value != []
    ensures var root := Root(h).value;
            HeaderContains(h.messageId, root) || HeaderContains(h.references, root) || HeaderContains(h.inReplyTo, root)
  {
    var root := Root(h).value;
    var header := if IdsOf(h.references) != [] then h.references
                  else if IdsOf(h.inReplyTo) != [] then h.inReplyTo else h.messageId;
    assert root in MessageIds(header.value);
    MessageIdOccurs(header.value, root);
    var i: nat :| i <= |header.value| && OccursAt(root, header.value, i);
    assert Lower(header.value)[i..i + |root|] == Lower(root);
    assert OccursAt(Lower(root), Lower(header.value), i);
  }

  // ----- conversations hold together -----

  predicate IsMessageId(s: string) {
    |s| > 2 && s[0] == '<' && s[|s| - 1] == '>' && forall i | 0 < i < |s| - 1 :: s[i] != '<' && s[i] != '>'
  }

  lemma {:induction false} InnerRunStops(s: string)
    ensures forall k | 0 <= k < InnerRun(s) :: s[k] != '<' && s[k] != '>'
  {
    if s != [] && IsInner(s[0]) {
      InnerRunStops(s[1..]);
    }
  }

  /** What is taken from a header, anything between, are ids. */
  lemma {:induction false} OnlyIdsAreTaken(s: string, id: string)
    requires id in MessageIds(s)
    ensures IsMessageId(id)
    decreases |s|
  {
    var n := InnerRun(s[1..]);
    var hit := s[0] == '<' && 0 < n && 1 + n < |s| && s[1 + n] == '>';
    if hit && id == s[..n + 2] {
      InnerRunStops(s[1..]);
      assert forall i | 0 < i < |id| - 1 :: id[i] == s[1..][i - 1];
    } else {
      OnlyIdsAreTaken(if hit then s[n + 2..] else s[1..], id);
    }
  }

  /** How much of the text is used up at its first character. */
  function FirstTaken(s: string): (m: nat)
    requires s != []
    ensures 0 < m <= |s|
    ensures forall id :: id in MessageIds(s[m..]) ==> id in MessageIds(s)
  {
    var n := InnerRun(s[1..]);
    if s[0] == '<' && 0 < n && 1 + n < |s| && s[1 + n] == '>' then n + 2 else 1
  }

  lemma {:induction false} NoneInside(s: string, i: nat)
    requires 0 < i < |s| && s[i] == '<'
    ensures FirstTaken(s) <= i
  {
    InnerRunStops(s[1..]);
    assert s[1..][i - 1] == '<';
  }

  /** And every id that stands in the header is taken. */
  lemma {:induction false} EveryIdIsTaken(s: string, i: nat, j: nat)
    requires i <= j <= |s| && IsMessageId(s[i..j])
    ensures s[i..j] in MessageIds(s)
    decreases |s|
  {
    if i == 0 {
      assert s == s[..j] + s[j..] && s[0..j] == s[..j];
      IdIsRead(s[..j], s[j..]);
    } else {
      assert s[i..j][0] == s[i];
      NoneInside(s, i);
      var m := FirstTaken(s);
      assert s[m..][i - m..j - m] == s[i..j];
      EveryIdIsTaken(s[m..], i - m, j - m);
    }
  }

  /** The text names these ids, in this order, with anything but angle brackets around them. */
  ghost predicate Lists(text: string, ids: seq<string>)
    decreases |ids|
  {
    if ids == [] then '<' !in text
    else exists gap: string, rest: string ::
           text == gap + ids[0] + rest && '<' !in gap && IsMessageId(ids[0]) && Lists(rest, ids[1..])
  }

  ghost predicate Names(header: Option<string>, ids: seq<string>) {
    if header.None? then ids == [] else Lists(header.value, ids)
  }

  lemma {:induction false} NoIdsWithout(s: string)
    requires '<' !in s
    ensures MessageIds(s) == []
  {
    if s != [] {
      NoIdsWithout(s[1..]);
    }
  }

  lemma {:induction false} InnerRunIs(inner: string, rest: string)
    requires forall i | 0 <= i < |inner| :: IsInner(inner[i])
    ensures InnerRun(inner + (['>'] + rest)) == |inner|
  {
    if inner == [] {
      assert inner + (['>'] + rest) == ['>'] + rest;
    } else {
      InnerRunIs(inner[1..], rest);
      assert (inner + (['>'] + rest))[1..] == inner[1..] + (['>'] + rest);
    }
  }

  lemma {:induction false} IdIsRead(id: string, rest: string)
    requires IsMessageId(id)
    ensures MessageIds(id + rest) == [id] + MessageIds(rest)
  {
    var s, inner := id + rest, id[1..|id| - 1];
    assert s[1..] == inner + (['>'] + rest);
    InnerRunIs(inner, rest);
    assert s[..|id|] == id && s[|id|..] == rest;
  }

  lemma {:induction false} GapIsSkipped(gap: string, rest: string)
    requires '<' !in gap
    ensures MessageIds(gap + rest) == MessageIds(rest)
  {
    if gap == [] {
      assert gap + rest == rest;
    } else {
      assert (gap + rest)[1..] == gap[1..] + rest;
      GapIsSkipped(gap[1..], rest);
    }
  }

  /** The ids a header names are the ids taken from it. */
  lemma {:induction false} ListedIdsAreRead(text: string, ids: seq<string>)
    requires Lists(text, ids)
    ensures MessageIds(text) == ids
    decreases |ids|
  {
    if ids == [] {
      NoIdsWithout(text);
    } else {
      var gap: string, rest: string :|
        text == gap + ids[0] + rest && '<' !in gap && IsMessageId(ids[0]) && Lists(rest, ids[1..]);
      assert text == gap + (ids[0] + rest);
      GapIsSkipped(gap, ids[0] + rest);
      IdIsRead(ids[0], rest);
      ListedIdsAreRead(rest, ids[1..]);
    }
  }

  /** The root is the first id of References, or of In-Reply-To when References names none, or the message's own. */
  lemma {:induction false} RootIsFirst(h: Headers, references: seq<string>, inReplyTo: seq<string>, own: seq<string>)
    requires Names(h.references, references) && Names(h.inReplyTo, inReplyTo) && Names(h.messageId, own)
    ensures Root(h) == if references != [] then Some(references[0])
                       else if inReplyTo != [] then Some(inReplyTo[0])
                       else if own != [] then Some(own[0])
                       else None
  {
    if h.references.Some? { ListedIdsAreRead(h.references.value, references); }
    if h.inReplyTo.Some? { ListedIdsAreRead(h.inReplyTo.value, inReplyTo); }
    if h.messageId.Some? { ListedIdsAreRead(h.messageId.value, own); }
  }

  /** A message that carries on its parent's References, or names the parent when it has none, is in the parent's
      thread, whatever else follows and whatever its other headers say. */
  lemma {:induction false} ReplyJoinsTheThread(parent: Headers, references: seq<string>, own: string, reply: Headers,
                                               more: seq<string>, f: string, g: string)
    requires Names(parent.references, references)
    requires references == [] ==> Names(parent.inReplyTo, []) && Names(parent.messageId, [own])
    requires Names(reply.references, (if references == [] then [own] else references) + more)
    ensures DeriveThreadId(reply, f) == DeriveThreadId(parent, g)
  {
    var named := (if references == [] then [own] else references) + more;
    ListedIdsAreRead(reply.references.value, named);
    if parent.references.Some? { ListedIdsAreRead(parent.references.value, references); }
    if references == [] {
      RootIsFirst(parent, [], [], [own]);
    }
  }

  /** When its References name nothing, an In-Reply-To that names a thread's root joins that thread. */
  lemma {:induction false} AnswerJoinsTheThread(h: Headers, reply: Headers, more: seq<string>, f: string, g: string)
    requires Root(h).Some? && Names(reply.references, []) && Names(reply.inReplyTo, [Root(h).value] + more)
    ensures DeriveThreadId(reply, f) == DeriveThreadId(h, g)
  {
    ListedIdsAreRead(reply.inReplyTo.value, [Root(h).value] + more);
    if reply.references.Some? { ListedIdsAreRead(reply.references.value, []); }
  }

  /** In general: two messages are in one thread of header ids if and only if their roots are equal. */
  lemma {:induction false} OneThreadExactly(a: Headers, b: Headers, f: string, g: string)
    requires Root(a).Some? && Root(b).Some?
    ensures DeriveThreadId(a, f) == DeriveThreadId(b, g) <==> Root(a) == Root(b)
  {
    HeaderIdsAreInjective(Root(a).value, Root(b).value);
  }

  /** A message of a conversation: its own id, its parent's place in the list, and the ids its References name. */
  datatype Post = Post(headers: Headers, own: string, parent: nat, references: seq<string>)

  /** As RFC 5322 section 3.6.4 has it: the first starts the conversation, and each other carries on the References
      of an earlier one and adds that one's id. */
  ghost predicate Conversation(posts: seq<Post>) {
    forall i | 0 <= i < |posts| :: Posted(posts, i)
  }

  ghost predicate Posted(posts: seq<Post>, i: nat)
    requires i < |posts|
  {
    var p := posts[i];
    && Names(p.headers.references, p.references) && Names(p.headers.messageId, [p.own])
    && if i == 0 then p.references == [] && Names(p.headers.inReplyTo, [])
       else p.parent < i && p.references == posts[p.parent].references + [posts[p.parent].own]
  }

  lemma {:induction false} CarryingOnJoins(parent: Headers, references: seq<string>, own: string, reply: Headers,
                                           f: string, g: string)
    requires Names(parent.references, references)
    requires references == [] ==> Names(parent.inReplyTo, []) && Names(parent.messageId, [own])
    requires Names(reply.references, references + [own])
    ensures DeriveThreadId(reply, f) == DeriveThreadId(parent, g)
  {
    var more := if references == [] then [] else [own];
    assert references + [own] == (if references == [] then [own] else references) + more;
    ReplyJoinsTheThread(parent, references, own, reply, more, f, g);
  }

  lemma {:induction false} LaterOnesHaveReferences(posts: seq<Post>, i: nat)
    requires Conversation(posts) && i < |posts|
    ensures posts[i].references == [] <==> i == 0
  {
    assert Posted(posts, i);
  }

  /** All of it is one thread. */
  lemma {:induction false} ConversationIsOneThread(posts: seq<Post>, i: nat, f: string, g: string)
    requires Conversation(posts) && i < |posts|
    ensures DeriveThreadId(posts[i].headers, f) == DeriveThreadId(posts[0].headers, g)
    decreases i
  {
    if i == 0 {
      assert Posted(posts, 0);
      RootIsFirst(posts[0].headers, [], [], [posts[0].own]);
    } else {
      var j := Parent(posts, i);
      ConversationIsOneThread(posts, j, f, g);
      CarryingOnJoins(posts[j].headers, posts[j].references, posts[j].own, posts[i].headers, f, f);
    }
  }

  lemma {:induction false} Parent(posts: seq<Post>, i: nat) returns (j: nat)
    requires Conversation(posts) && 0 < i < |posts|
    ensures j < i && Names(posts[i].headers.references, posts[j].references + [posts[j].own])
    ensures Names(posts[j].headers.references, posts[j].references)
    ensures posts[j].references == [] ==>
              Names(posts[j].headers.inReplyTo, []) && Names(posts[j].headers.messageId, [posts[j].own])
  {
    j := posts[i].parent;
    assert Posted(posts, i) && Posted(posts, j);
    LaterOnesHaveReferences(posts, j);
  }
}
