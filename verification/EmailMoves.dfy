/**
  Moving an email changes the name IMAP gives it; redirects keep its old ids working.

  A name (mailbox, UIDVALIDITY, UID) is never given twice. Renaming a mailbox is not part of this model.
 */
module EmailMoves {
  import opened Wrappers
  import opened ObjectIds
  import opened StateTokens
  import opened IdRedirect

  /** How names are written as ids: EncodeEmailId and DecodeEmailId, of which only the round trip is used. */
  datatype Codec = Codec(encode: EmailId -> string, decode: string -> Option<EmailId>)

  ghost predicate Sound(c: Codec) {
    forall a: EmailId :: c.decode(c.encode(a)) == Some(a)
  }

  lemma {:induction false} EmailIdCodecIsSound()
    ensures Sound(Codec(EncodeEmailId, DecodeEmailId))
  {
    forall a: EmailId ensures DecodeEmailId(EncodeEmailId(a)) == Some(a) {
      EmailIdRoundTrip(a);
    }
  }

  /** Which message a name was given to, and when. A copy is the same message. */
  datatype Birth = Birth(message: nat, at: nat)

  datatype Store = Store(
    born: map<EmailId, Birth>,
    live: set<EmailId>,
    validity: map<string, nat>,
    table: Table<string>,
    clock: nat)

  /** The mailboxIds part of an update: the whole set, single entries in order, or nothing. */
  datatype Patch = Replace(names: set<string>) | Edit(entries: seq<(string, bool)>) | Leave

  function Edited(names: set<string>, entries: seq<(string, bool)>): set<string>
    decreases entries
  {
    if entries == [] then names
    else Edited(if entries[0].1 then names + {entries[0].0} else names - {entries[0].0}, entries[1..])
  }

  function TargetNames(p: Patch, mailbox: string): Option<set<string>> {
    match p
    case Replace(names) => Some(names)
    case Edit(entries) => if entries == [] then None else Some(Edited({mailbox}, entries))
    case Leave => None
  }

  /** The entry is the last that names the mailbox. */
  predicate Decides(entries: seq<(string, bool)>, i: int, x: string) {
    0 <= i < |entries| && entries[i].0 == x && forall j | i < j < |entries| :: entries[j].0 != x
  }

  /** What the client asks for: the set it sends; or the mailboxes the last entry about each keeps, and the current
      one if no entry is about it. */
  ghost predicate AsksFor(p: Patch, mailbox: string, x: string) {
    match p
    case Replace(names) => x in names
    case Edit(entries) =>
      || (exists i :: Decides(entries, i, x) && entries[i].1)
      || (x == mailbox && forall i | 0 <= i < |entries| :: entries[i].0 != x)
    case Leave => x == mailbox
  }

  lemma {:induction false} EditedExactly(names: set<string>, entries: seq<(string, bool)>, x: string)
    ensures x in Edited(names, entries) <==>
              || (exists i :: Decides(entries, i, x) && entries[i].1)
              || (x in names && forall i | 0 <= i < |entries| :: entries[i].0 != x)
    decreases entries
  {
    if entries != [] {
      var (name, keep) := entries[0];
      var rest := entries[1..];
      EditedExactly(if keep then names + {name} else names - {name}, rest, x);
      forall i ensures Decides(rest, i, x) ==> Decides(entries, i + 1, x) {
      }
      if i :| Decides(entries, i, x) && entries[i].1 {
        assert i > 0 ==> Decides(rest, i - 1, x) && rest[i - 1].1;
      }
      if i :| Decides(rest, i, x) && rest[i].1 {
        assert Decides(entries, i + 1, x) && entries[i + 1].1;
      }
      assert forall i | 0 < i < |entries| :: entries[i] == rest[i - 1];
    }
  }

  /** The targets are what the client asks for. */
  lemma {:induction false} TargetsExactly(p: Patch, mailbox: string, x: string)
    ensures match TargetNames(p, mailbox)
            case Some(targets) => x in targets <==> AsksFor(p, mailbox, x)
            case None => AsksFor(p, mailbox, x) <==> x == mailbox
  {
    if p.Edit? {
      EditedExactly({mailbox}, p.entries, x);
    }
  }

  /** `copies` are the names the server gives to copies, by mailbox; `reported` is whether it says so (UIDPLUS). A COPY
      may fail when the message has been copied to the mailboxes `done`; and after all copies, with the redirect on
      file, the STORE or EXPUNGE that takes the message out may fail. */
  datatype Event =
    | Arrive(name: EmailId, message: nat)
    | Update(id: string, patch: Patch, copies: map<string, EmailId>, reported: bool)
    | CopyFails(id: string, patch: Patch, copies: map<string, EmailId>, done: set<string>)
    | RemovalFails(id: string, patch: Patch, copies: map<string, EmailId>, reported: bool)
    | Destroy(id: string)
    | Expunge(name: EmailId)
    | Recreate(mailbox: string, uidvalidity: nat)

  ghost function Resolved(m: map<string, string>, id: string): (r: string)
    ensures ResolvesTo(m, id, r)
  {
    if Ends(m, id) then
      var n: nat :| Hop(m, id, n) !in m;
      Hop(m, id, n)
    else id
  }

  /** The name an id leads to once its redirects are followed. */
  ghost function Aim(c: Codec, s: Store, id: string): EmailId
    requires c.decode(id).Some?
  {
    var resolved := Resolved(Links(s.table), id);
    if resolved != id && c.decode(resolved).Some? then c.decode(resolved).value else c.decode(id).value
  }

  /** The same if its mailbox can be selected and is still the one named; None is an error answer. */
  ghost function Locate(c: Codec, s: Store, id: string): Option<EmailId> {
    if c.decode(id).None? then None
    else
      var name := Aim(c, s, id);
      if name.mailbox in s.validity && s.validity[name.mailbox] == name.uidvalidity then Some(name) else None
  }

  /** SELECT fails on the mailbox an id leads to. */
  ghost predicate Unselectable(c: Codec, s: Store, id: string) {
    c.decode(id).Some? && Aim(c, s, id).mailbox !in s.validity
  }

  function MessageOf(s: Store, name: EmailId): nat {
    if name in s.born then s.born[name].message else 0
  }

  function Bear(s: Store, names: set<EmailId>, message: nat): Store {
    s.(born := map a | a in s.born.Keys + names :: if a in names then Birth(message, s.clock) else s.born[a],
       live := s.live + names,
       clock := s.clock + 1)
  }

  /** The copies an update makes. */
  function CopiesOf(s: Store, name: EmailId, destinations: set<string>, copies: map<string, EmailId>): set<EmailId>
    requires destinations <= copies.Keys
  {
    if name in s.live then set d | d in destinations :: copies[d] else {}
  }

  ghost predicate Moves(c: Codec, s: Store, e: Event) {
    && e.Update? && Locate(c, s, e.id).Some?
    && var name := Locate(c, s, e.id).value;
       var targets := TargetNames(e.patch, name.mailbox);
       targets.Some? && targets.value != {} && name.mailbox !in targets.value
  }

  ghost function Destinations(c: Codec, s: Store, e: Event): set<string>
    requires e.Update? && Locate(c, s, e.id).Some?
  {
    var name := Locate(c, s, e.id).value;
    match TargetNames(e.patch, name.mailbox)
    case None => {}
    case Some(targets) => targets - {name.mailbox}
  }

  /** The new names are new, and named after where they are. */
  ghost predicate Legal(c: Codec, s: Store, e: Event) {
    match e
    case Arrive(a, _) => a !in s.born && a.mailbox in s.validity && s.validity[a.mailbox] == a.uidvalidity
    case Update(id, _, copies, _) =>
      FreshCopies(s, copies) && (Locate(c, s, id).Some? ==> Destinations(c, s, e) <= copies.Keys)
    case CopyFails(id, patch, copies, done) =>
      && FreshCopies(s, copies) && Locate(c, s, id).Some?
      && done < Destinations(c, s, Update(id, patch, copies, false)) <= copies.Keys
    case RemovalFails(id, patch, copies, reported) =>
      && FreshCopies(s, copies) && Moves(c, s, Update(id, patch, copies, reported))
      && Destinations(c, s, Update(id, patch, copies, reported)) <= copies.Keys
    case _ => true
  }

  ghost predicate FreshCopies(s: Store, copies: map<string, EmailId>) {
    forall d <- copies :: copies[d] !in s.born && copies[d].mailbox == d
                          && d in s.validity && s.validity[d] == copies[d].uidvalidity
  }

  /** The move is to one place, and the server named it there. */
  ghost predicate Redirects(c: Codec, s: Store, e: Event) {
    Moves(c, s, e) && Locate(c, s, e.id).value in s.live && |Destinations(c, s, e)| == 1 && e.reported
  }

  ghost function NewName(c: Codec, s: Store, e: Event): EmailId
    requires Legal(c, s, e) && Redirects(c, s, e)
  {
    var d :| d in Destinations(c, s, e);
    e.copies[d]
  }

  ghost function Updated(c: Codec, s: Store, e: Event, max: nat): Store
    requires e.Update? && Legal(c, s, e)
  {
    match Locate(c, s, e.id)
    case None => s
    case Some(name) =>
      if TargetNames(e.patch, name.mailbox) == Some({}) then s
      else
      var filed := Filed(c, s, e, max);
      if Moves(c, s, e) then filed.(live := filed.live - {name}) else filed
  }

  /** An update up to the removal: the copies made, and the redirect on file if there is one. */
  ghost function Filed(c: Codec, s: Store, e: Event, max: nat): Store
    requires e.Update? && Legal(c, s, e) && Locate(c, s, e.id).Some?
  {
    var name := Locate(c, s, e.id).value;
    Bear(s, CopiesOf(s, name, Destinations(c, s, e), e.copies), MessageOf(s, name)).(
      table := if Redirects(c, s, e) then Recorded(s.table, e.id, c.encode(NewName(c, s, e)), max) else s.table)
  }

  ghost function Do(c: Codec, s: Store, e: Event, max: nat): Store
    requires Legal(c, s, e)
  {
    match e
    case Arrive(a, message) => Bear(s, {a}, message)
    case Update(_, _, _, _) => Updated(c, s, e, max)
    case CopyFails(id, _, copies, done) =>
      var name := Locate(c, s, id).value;
      Bear(s, CopiesOf(s, name, done, copies), MessageOf(s, name))
    case RemovalFails(id, patch, copies, reported) => Filed(c, s, Update(id, patch, copies, reported), max)
    case Destroy(id) => if Locate(c, s, id).None? then s else s.(live := s.live - {Locate(c, s, id).value})
    case Expunge(a) => s.(live := s.live - {a})
    case Recreate(mailbox, uidvalidity) =>
      s.(validity := s.validity[mailbox := uidvalidity], live := set a | a in s.live && a.mailbox != mailbox)
  }

  // ----- what a table's links are -----

  lemma {:induction false} LinksAreEntries(t: Table<string>)
    requires IsTable(t)
    ensures forall k <- Links(t) :: (k, Links(t)[k]) in t
    ensures forall e <- t :: e.0 in Links(t) && Links(t)[e.0] == e.1
  {
    if t != [] {
      var n := |t| - 1;
      LinksAreEntries(t[..n]);
      assert t == t[..n] + [t[n]];
      assert forall e <- t[..n] :: e.0 != t[n].0;
    }
  }

  lemma {:induction false} RecordedLinks(t: Table<string>, oldId: string, newId: string, max: nat)
    requires IsTable(t)
    ensures var r := Recorded(t, oldId, newId, max);
            && IsTable(r)
            && (forall k <- Links(r) :: if k == oldId && oldId != newId then Links(r)[k] == newId
                                        else k in Links(t) && Links(r)[k] == Links(t)[k])
            && (max > 0 && oldId != newId ==> oldId in Links(r))
  {
    if oldId != newId {
      WithoutKeys(t, oldId);
      var full := Without(t, oldId) + [(oldId, newId)];
      var r := Last(full, max);
      LinksAreEntries(t);
      LinksAreEntries(r);
      assert forall e <- r :: e in full;
      assert max > 0 ==> r[|r| - 1] == (oldId, newId);
    }
  }

  // ----- the invariant -----

  /** A redirect leads from a name of a message to a younger name of the same message, written as the bridge writes ids.
      The older name is dead, unless its removal failed. */
  ghost predicate Link(c: Codec, s: Store, k: string, v: string) {
    match (c.decode(k), c.decode(v))
    case (Some(a), Some(b)) =>
      && v == c.encode(b) && a in s.born && b in s.born
      && s.born[a].at < s.born[b].at && s.born[a].message == s.born[b].message
    case _ => false
  }

  ghost predicate Linked(c: Codec, s: Store) {
    forall k <- Links(s.table) :: Link(c, s, k, Links(s.table)[k])
  }

  ghost predicate Inv(c: Codec, s: Store) {
    && IsTable(s.table) && Linked(c, s)
    && s.live <= s.born.Keys
    && (forall a <- s.live :: a.mailbox in s.validity && s.validity[a.mailbox] == a.uidvalidity)
    && (forall a <- s.born :: s.born[a].at < s.clock)
  }

  /** The past stays as it was, and the dead stay dead. */
  ghost predicate Grows(s: Store, t: Store) {
    && s.born.Keys <= t.born.Keys
    && (forall a <- s.born :: t.born[a] == s.born[a])
    && (forall a <- t.live :: a in s.live || a !in s.born)
  }

  lemma {:induction false} LinksSurvive(c: Codec, s: Store, t: Store)
    requires Linked(c, s) && Grows(s, t) && t.table == s.table
    ensures Linked(c, t)
  {
    forall k | k in Links(s.table) ensures Link(c, t, k, Links(s.table)[k]) {
      assert Link(c, s, k, Links(s.table)[k]);
    }
  }

  lemma {:induction false} BearInv(c: Codec, s: Store, names: set<EmailId>, message: nat)
    requires Inv(c, s) && names !! s.born.Keys
    requires forall a <- names :: a.mailbox in s.validity && s.validity[a.mailbox] == a.uidvalidity
    ensures Inv(c, Bear(s, names, message)) && Grows(s, Bear(s, names, message))
  {
    LinksSurvive(c, s, Bear(s, names, message));
  }

  /** Both are names that were given, of one message, and `r` is no older. */
  ghost predicate Follows(c: Codec, s: Store, id: string, r: string) {
    match (c.decode(id), c.decode(r))
    case (Some(a), Some(b)) =>
      a in s.born && b in s.born && s.born[a].message == s.born[b].message && s.born[a].at <= s.born[b].at
    case _ => false
  }

  ghost function AgeOf(c: Codec, s: Store, id: string): nat {
    if c.decode(id).Some? && c.decode(id).value in s.born then s.born[c.decode(id).value].at else 0
  }

  lemma {:induction false} LinkFollows(c: Codec, s: Store, id: string)
    requires Linked(c, s) && id in Links(s.table)
    ensures var next := Links(s.table)[id];
            && Follows(c, s, id, next) && AgeOf(c, s, id) < AgeOf(c, s, next)
            && c.decode(next).Some? && next == c.encode(c.decode(next).value)
  {
    assert Link(c, s, id, Links(s.table)[id]);
  }

  lemma {:induction false} FollowsOn(c: Codec, s: Store, x: string, y: string, z: string)
    requires Follows(c, s, x, y) && Follows(c, s, y, z)
    ensures Follows(c, s, x, z) && AgeOf(c, s, x) <= AgeOf(c, s, y) <= AgeOf(c, s, z)
  {
  }

  /** Following redirects stays with the message, and every hop is to a younger name. */
  lemma {:induction false} HopsStay(c: Codec, s: Store, id: string, n: nat)
    requires Linked(c, s) && id in Links(s.table)
    ensures var m, r := Links(s.table), Hop(Links(s.table), id, n);
            && Follows(c, s, id, r)
            && (r in m ==> AgeOf(c, s, r) >= AgeOf(c, s, id) + n)
            && (n > 0 ==> r == c.encode(c.decode(r).value))
    decreases n
  {
    var m := Links(s.table);
    LinkFollows(c, s, id);
    if n > 0 {
      var next, r := m[id], Hop(m, id, n);
      assert r == Hop(m, next, n - 1);
      if next in m {
        HopsStay(c, s, next, n - 1);
        FollowsOn(c, s, id, next, r);
      } else {
        assert r == next;
      }
    }
  }

  /** The chain of every id ends, so the cycle guard never acts; and it ends on the message it began with. */
  lemma {:induction false} ResolvesWithinTheMessage(c: Codec, s: Store, id: string)
    requires Sound(c) && Inv(c, s)
    ensures Ends(Links(s.table), id) && Resolved(Links(s.table), id) !in Links(s.table)
    ensures var r := Resolved(Links(s.table), id);
            r != id ==>
              && c.decode(id).Some? && c.decode(r).Some? && r == c.encode(c.decode(r).value)
              && c.decode(id).value in s.born && c.decode(r).value in s.born
              && s.born[c.decode(r).value].message == s.born[c.decode(id).value].message
  {
    var m := Links(s.table);
    if id in m {
      HopsStay(c, s, id, s.clock);
      assert Ends(m, id);
      var n: nat :| Hop(m, id, n) == Resolved(m, id);
      HopsStay(c, s, id, n);
    } else {
      assert Hop(m, id, 0) !in m;
      var n: nat :| Hop(m, id, n) == Resolved(m, id);
    }
  }

  /** Whatever an id leads to, it is the message that id was given for. */
  lemma {:induction false} ActsOnItsOwnMessage(c: Codec, s: Store, id: string)
    requires Sound(c) && Inv(c, s) && Locate(c, s, id).Some?
    ensures var a, b := c.decode(id).value, Locate(c, s, id).value;
            a == b || (a in s.born && b in s.born && s.born[a].message == s.born[b].message)
  {
    ResolvesWithinTheMessage(c, s, id);
  }

  lemma {:induction false} CopiesAreNew(c: Codec, s: Store, e: Event)
    requires Inv(c, s) && e.Update? && Legal(c, s, e) && Locate(c, s, e.id).Some?
    ensures var copied := CopiesOf(s, Locate(c, s, e.id).value, Destinations(c, s, e), e.copies);
            && copied !! s.born.Keys
            && forall a <- copied :: a.mailbox in s.validity && s.validity[a.mailbox] == a.uidvalidity
  {
  }

  lemma {:induction false} UpdateInv(c: Codec, s: Store, e: Event, max: nat)
    requires Sound(c) && Inv(c, s) && e.Update? && Legal(c, s, e)
    ensures Inv(c, Updated(c, s, e, max)) && Grows(s, Updated(c, s, e, max))
  {
    var t := Updated(c, s, e, max);
    if t != s {
      var filed := Filed(c, s, e, max);
      FiledInv(c, s, e, max);
      LinksSurvive(c, filed, t);
    }
  }

  lemma {:induction false} FiledInv(c: Codec, s: Store, e: Event, max: nat)
    requires Sound(c) && Inv(c, s) && e.Update? && Legal(c, s, e) && Locate(c, s, e.id).Some?
    ensures Inv(c, Filed(c, s, e, max)) && Grows(s, Filed(c, s, e, max))
  {
    var name := Locate(c, s, e.id).value;
    CopiesAreNew(c, s, e);
    BearInv(c, s, CopiesOf(s, name, Destinations(c, s, e), e.copies), MessageOf(s, name));
    if Redirects(c, s, e) {
      RedirectLinked(c, s, e, max);
    }
  }

  /** The new redirect is a link like the others. */
  lemma {:induction false} RedirectLinked(c: Codec, s: Store, e: Event, max: nat)
    requires Sound(c) && Inv(c, s) && Legal(c, s, e) && Redirects(c, s, e)
    ensures var t := Filed(c, s, e, max);
            IsTable(t.table) && Linked(c, t)
  {
    var t := Filed(c, s, e, max);
    var name, new' := Locate(c, s, e.id).value, NewName(c, s, e);
    NewNameIsBorn(c, s, e, max);
    RecordedLinks(s.table, e.id, c.encode(new'), max);
    ResolvesWithinTheMessage(c, s, e.id);
    forall k | k in Links(t.table) ensures Link(c, t, k, Links(t.table)[k]) {
      if k in Links(s.table) && Links(t.table)[k] == Links(s.table)[k] {
        assert Link(c, s, k, Links(s.table)[k]);
      } else {
        assert k == e.id;
        if k in Links(s.table) {
          assert Link(c, s, k, Links(s.table)[k]);
        }
      }
    }
  }

  lemma {:induction false} NewNameIsBorn(c: Codec, s: Store, e: Event, max: nat)
    requires Inv(c, s) && Legal(c, s, e) && Redirects(c, s, e)
    ensures var a, t := NewName(c, s, e), Filed(c, s, e, max);
            && a !in s.born && a in t.born && a in t.live && a != Locate(c, s, e.id).value
            && t.born[a] == Birth(s.born[Locate(c, s, e.id).value].message, s.clock)
            && a.mailbox in t.validity && t.validity[a.mailbox] == a.uidvalidity
            && t.live == s.live + {a} && t.born.Keys == s.born.Keys + {a}
            && Destinations(c, s, e) == {a.mailbox} && e.copies[a.mailbox] == a
            && Grows(s, t)
  {
    var d :| d in Destinations(c, s, e) && NewName(c, s, e) == e.copies[d];
    OnlyOne(Destinations(c, s, e), d);
    assert CopiesOf(s, Locate(c, s, e.id).value, {d}, e.copies) == {e.copies[d]};
  }

  lemma {:induction false} OnlyOne(ds: set<string>, d: string)
    requires |ds| == 1 && d in ds
    ensures ds == {d}
  {
    assert |ds - {d}| == 0;
  }

  lemma {:induction false} StepInv(c: Codec, s: Store, e: Event, max: nat)
    requires Sound(c) && Inv(c, s) && Legal(c, s, e)
    ensures Inv(c, Do(c, s, e, max)) && Grows(s, Do(c, s, e, max))
  {
    match e
    case Arrive(a, message) => BearInv(c, s, {a}, message);
    case Update(_, _, _, _) => UpdateInv(c, s, e, max);
    case CopyFails(id, _, copies, done) =>
      var name := Locate(c, s, id).value;
      BearInv(c, s, CopiesOf(s, name, done, copies), MessageOf(s, name));
    case RemovalFails(id, patch, copies, reported) => FiledInv(c, s, Update(id, patch, copies, reported), max);
    case Destroy(id) => LinksSurvive(c, s, Do(c, s, e, max));
    case Expunge(a) => LinksSurvive(c, s, Do(c, s, e, max));
    case Recreate(_, _) => LinksSurvive(c, s, Do(c, s, e, max));
  }

  ghost predicate LegalRun(c: Codec, s: Store, run: seq<Event>, max: nat)
    decreases run
  {
    run == [] || (Legal(c, s, run[0]) && LegalRun(c, Do(c, s, run[0], max), run[1..], max))
  }

  ghost function Run(c: Codec, s: Store, run: seq<Event>, max: nat): Store
    requires LegalRun(c, s, run, max)
    decreases run
  {
    if run == [] then s else Run(c, Do(c, s, run[0], max), run[1..], max)
  }

  lemma {:induction false} RunInv(c: Codec, s: Store, run: seq<Event>, max: nat)
    requires Sound(c) && Inv(c, s) && LegalRun(c, s, run, max)
    ensures Inv(c, Run(c, s, run, max)) && Grows(s, Run(c, s, run, max))
    decreases run
  {
    if run != [] {
      StepInv(c, s, run[0], max);
      RunInv(c, Do(c, s, run[0], max), run[1..], max);
    }
  }

  function Empty(validity: map<string, nat>): Store {
    Store(map[], {}, validity, [], 0)
  }

  /** After any moves, copies, destroys, arrivals and evictions: every chain ends, on a name of the message it began
      with. */
  lemma {:induction false} RedirectsNeverLeaveTheMessage(c: Codec, validity: map<string, nat>, run: seq<Event>,
      max: nat, id: string)
    requires Sound(c) && LegalRun(c, Empty(validity), run, max)
    ensures var s := Run(c, Empty(validity), run, max);
            && Ends(Links(s.table), id)
            && (Locate(c, s, id).Some? ==>
                  var a, b := c.decode(id).value, Locate(c, s, id).value;
                  a == b || (a in s.born && b in s.born && s.born[a].message == s.born[b].message))
  {
    RunInv(c, Empty(validity), run, max);
    var s := Run(c, Empty(validity), run, max);
    ResolvesWithinTheMessage(c, s, id);
    if Locate(c, s, id).Some? {
      ActsOnItsOwnMessage(c, s, id);
    }
  }

  // ----- after a move -----

  lemma {:induction false} NewIdIsNoKey(c: Codec, s: Store, e: Event, max: nat)
    requires Sound(c) && Inv(c, s) && Legal(c, s, e) && Redirects(c, s, e)
    ensures e.id != c.encode(NewName(c, s, e))
    ensures c.encode(NewName(c, s, e)) !in Links(Filed(c, s, e, max).table)
  {
    NewNameIsBorn(c, s, e, max);
    ResolvesWithinTheMessage(c, s, e.id);
    RecordedLinks(s.table, e.id, c.encode(NewName(c, s, e)), max);
    var k := c.encode(NewName(c, s, e));
    KeyIsBorn(c, s, k);
  }

  lemma {:induction false} KeyIsBorn(c: Codec, s: Store, k: string)
    requires Linked(c, s)
    ensures k in Links(s.table) ==> c.decode(k).Some? && c.decode(k).value in s.born
  {
    if k in Links(s.table) {
      assert Link(c, s, k, Links(s.table)[k]);
    }
  }

  /** With its redirect on file, an id leads to the copy. */
  lemma {:induction false} FiledIdLeadsToTheCopy(c: Codec, s: Store, e: Event, max: nat)
    requires Sound(c) && Inv(c, s) && max > 0 && Legal(c, s, e) && Redirects(c, s, e)
    ensures Locate(c, Filed(c, s, e, max), e.id) == Some(NewName(c, s, e))
  {
    var new', m := NewName(c, s, e), Links(Filed(c, s, e, max).table);
    NewNameIsBorn(c, s, e, max);
    NewIdIsNoKey(c, s, e, max);
    RecordedLinks(s.table, e.id, c.encode(new'), max);
    assert Hop(m, e.id, 1) == Hop(m, c.encode(new'), 0) == c.encode(new');
    ResolvesToOne(m, e.id, c.encode(new'), Resolved(m, e.id));
  }

  /** An id just used for a move that takes the message out of its mailbox leads to a live message afterwards exactly
      when the move had one destination and the server named the copy; and then it leads to that copy. */
  lemma {:induction false} MovedIdStaysUsableExactly(c: Codec, s: Store, e: Event, max: nat)
    requires Sound(c) && Inv(c, s) && max > 0
    requires Legal(c, s, e) && Moves(c, s, e) && Locate(c, s, e.id).value in s.live
    ensures var t := Do(c, s, e, max);
            && Locate(c, t, e.id).Some?
            && (Locate(c, t, e.id).value in t.live <==> Redirects(c, s, e))
            && (Redirects(c, s, e) ==> Locate(c, t, e.id).value == NewName(c, s, e))
  {
    if Redirects(c, s, e) {
      NewNameIsBorn(c, s, e, max);
      FiledIdLeadsToTheCopy(c, s, e, max);
      SameTableSameAim(c, Filed(c, s, e, max), Updated(c, s, e, max), e.id);
    } else {
      CopiesAreNew(c, s, e);
    }
  }

  lemma {:induction false} SameTableSameAim(c: Codec, s: Store, t: Store, id: string)
    requires s.table == t.table && s.validity == t.validity
    ensures Locate(c, s, id) == Locate(c, t, id)
  {
  }

  /** The id is spelled as the bridge spells it. */
  ghost predicate WrittenHere(c: Codec, id: string) {
    c.decode(id).Some? && id == c.encode(c.decode(id).value)
  }

  /** All links but that of `id` are there too. */
  predicate SameButFor(m: map<string, string>, old': map<string, string>, id: string) {
    forall k <- m :: k != id ==> k in old' && m[k] == old'[k]
  }

  lemma {:induction false} OtherLinksAreOld(c: Codec, s: Store, e: Event, max: nat)
    requires Inv(c, s) && Legal(c, s, e) && Redirects(c, s, e)
    ensures SameButFor(Links(Filed(c, s, e, max).table), Links(s.table), e.id)
  {
    RecordedLinks(s.table, e.id, c.encode(NewName(c, s, e)), max);
  }

  /** No chain that begins with another id, as young as the redirected one, comes upon the new redirect. */
  lemma {:induction false} ChainPassesBy(c: Codec, s: Store, m: map<string, string>, id: string, y: string, n: nat)
    requires Linked(c, s) && SameButFor(m, Links(s.table), id)
    requires y != id && Follows(c, s, y, y) && AgeOf(c, s, y) >= AgeOf(c, s, id)
    ensures Follows(c, s, y, Hop(m, y, n))
    decreases n
  {
    if n > 0 && y in m {
      var next := m[y];
      LinkFollows(c, s, y);
      ChainPassesBy(c, s, m, id, next, n - 1);
      FollowsOn(c, s, y, next, Hop(m, next, n - 1));
    }
  }

  lemma {:induction false} AimIsYounger(c: Codec, s: Store, id: string)
    requires Sound(c) && Inv(c, s) && Locate(c, s, id).Some? && Locate(c, s, id).value in s.born
    ensures c.decode(id).value in s.born
    ensures s.born[c.decode(id).value].at <= s.born[Locate(c, s, id).value].at
    ensures c.encode(Locate(c, s, id).value) in Links(s.table) ==> !WrittenHere(c, id)
  {
    var m := Links(s.table);
    ResolvesWithinTheMessage(c, s, id);
    if id in m {
      var n: nat :| Hop(m, id, n) == Resolved(m, id);
      HopsStay(c, s, id, n);
    } else {
      NoHop(m, id);
    }
  }

  lemma {:induction false} NoHop(m: map<string, string>, id: string)
    requires id !in m
    ensures Resolved(m, id) == id
  {
    assert Hop(m, id, 0) == id;
    ResolvesToOne(m, id, id, Resolved(m, id));
  }

  /** But the redirect is filed under the id the client used. The id that named the message until now leads to the copy
      exactly when it is that id. Otherwise it leads nowhere, unless it has a redirect of its own, from a removal that
      failed, and the client used another spelling. */
  lemma {:induction false} CurrentIdFollowsExactly(c: Codec, s: Store, e: Event, max: nat)
    requires Sound(c) && Inv(c, s) && max > 0 && Legal(c, s, e) && Redirects(c, s, e)
    ensures var t, current := Do(c, s, e, max), c.encode(Locate(c, s, e.id).value);
            && (Locate(c, t, current) == Some(NewName(c, s, e)) <==> e.id == current)
            && (WrittenHere(c, e.id) || current !in Links(s.table) ==>
                  Locate(c, t, current).Some? && (Locate(c, t, current).value in t.live <==> e.id == current))
  {
    var name, t := Locate(c, s, e.id).value, Updated(c, s, e, max);
    var current := c.encode(name);
    AimIsYounger(c, s, e.id);
    NewNameIsBorn(c, s, e, max);
    if e.id == current {
      MovedIdStaysUsableExactly(c, s, e, max);
    } else {
      CurrentIdStays(c, s, e, max);
    }
  }

  lemma {:induction false} CurrentIdStays(c: Codec, s: Store, e: Event, max: nat)
    requires Sound(c) && Inv(c, s) && Legal(c, s, e) && Redirects(c, s, e)
    requires e.id != c.encode(Locate(c, s, e.id).value)
    ensures var t, name := Updated(c, s, e, max), Locate(c, s, e.id).value;
            && Locate(c, t, c.encode(name)) != Some(NewName(c, s, e))
            && (c.encode(name) !in Links(s.table) ==> Locate(c, t, c.encode(name)) == Some(name))
  {
    var t, name := Filed(c, s, e, max), Locate(c, s, e.id).value;
    var m, current := Links(t.table), c.encode(name);
    NewNameIsBorn(c, s, e, max);
    SameTableSameAim(c, t, Updated(c, s, e, max), current);
    if current in m {
      OtherLinksAreOld(c, s, e, max);
      CurrentChainIsOld(c, s, e, max);
    } else {
      NoHop(m, current);
    }
  }

  lemma {:induction false} CurrentChainIsOld(c: Codec, s: Store, e: Event, max: nat)
    requires Sound(c) && Inv(c, s) && Legal(c, s, e) && Redirects(c, s, e)
    requires e.id != c.encode(Locate(c, s, e.id).value)
    ensures var r := Resolved(Links(Filed(c, s, e, max).table), c.encode(Locate(c, s, e.id).value));
            c.decode(r).Some? && c.decode(r).value in s.born
  {
    var m, current := Links(Filed(c, s, e, max).table), c.encode(Locate(c, s, e.id).value);
    AimIsYounger(c, s, e.id);
    FiledInv(c, s, e, max);
    ResolvesWithinTheMessage(c, Filed(c, s, e, max), current);
    var n: nat :| Hop(m, current, n) == Resolved(m, current);
    OtherLinksAreOld(c, s, e, max);
    ChainPassesBy(c, s, m, e.id, current, n);
  }

  /** After an update that is carried out, a message that was there is in every other mailbox the client asks for,
      under a name of its own; and still in its own mailbox if and only if that is asked for. Nothing else comes or
      goes. */
  lemma {:induction false} UpdatePutsItWhereAsked(c: Codec, s: Store, e: Event, max: nat)
    requires e.Update? && Legal(c, s, e) && Locate(c, s, e.id).Some? && Locate(c, s, e.id).value in s.live
    requires TargetNames(e.patch, Locate(c, s, e.id).value.mailbox) != Some({})
    ensures var t, name := Do(c, s, e, max), Locate(c, s, e.id).value;
            && (forall d | AsksFor(e.patch, name.mailbox, d) && d != name.mailbox ::
                  d in e.copies && e.copies[d] in t.live && e.copies[d].mailbox == d
                  && e.copies[d] in t.born && t.born[e.copies[d]] == Birth(MessageOf(s, name), s.clock))
            && (name in t.live <==> AsksFor(e.patch, name.mailbox, name.mailbox))
            && (forall a | a != name :: a in t.live <==>
                  a in s.live || exists d :: AsksFor(e.patch, name.mailbox, d) && d != name.mailbox && d in e.copies
                                             && a == e.copies[d])
  {
    var t, name := Do(c, s, e, max), Locate(c, s, e.id).value;
    var ds := Destinations(c, s, e);
    forall d ensures d in ds <==> AsksFor(e.patch, name.mailbox, d) && d != name.mailbox {
      TargetsExactly(e.patch, name.mailbox, d);
    }
    TargetsExactly(e.patch, name.mailbox, name.mailbox);
    var copied := CopiesOf(s, name, ds, e.copies);
    assert forall d <- ds :: e.copies[d] in copied;
    assert name !in copied;
  }

  // ----- when the removal fails -----

  /** The message is then in both places, and the id leads to the copy. */
  lemma {:induction false} FailedRemovalKeepsBoth(c: Codec, s: Store, e: Event, max: nat)
    requires Sound(c) && Inv(c, s) && max > 0 && Legal(c, s, e) && Redirects(c, s, e)
    ensures var failed := RemovalFails(e.id, e.patch, e.copies, e.reported);
            && Legal(c, s, failed)
            && var t := Do(c, s, failed, max);
               && Inv(c, t) && t.live == s.live + {NewName(c, s, e)}
               && Locate(c, t, e.id) == Some(NewName(c, s, e))
  {
    NewNameIsBorn(c, s, e, max);
    FiledInv(c, s, e, max);
    FiledIdLeadsToTheCopy(c, s, e, max);
  }

  lemma {:induction false} LastEntryDecides(a: set<string>, b: set<string>, entries: seq<(string, bool)>, x: string)
    requires x in a <==> x in b
    ensures x in Edited(a, entries) <==> x in Edited(b, entries)
    decreases entries
  {
    if entries != [] {
      var (name, keep) := entries[0];
      LastEntryDecides(if keep then a + {name} else a - {name}, if keep then b + {name} else b - {name},
                       entries[1..], x);
    }
  }

  lemma {:induction false} UnnamedStays(a: set<string>, entries: seq<(string, bool)>, x: string)
    ensures (forall e <- entries :: e.0 != x) ==> (x in Edited(a, entries) <==> x in a)
    ensures (exists e <- entries :: e.0 == x) ==> forall b :: x in Edited(a, entries) <==> x in Edited(b, entries)
    decreases entries
  {
    if entries != [] {
      var (name, keep) := entries[0];
      var next := if keep then a + {name} else a - {name};
      UnnamedStays(next, entries[1..], x);
      forall b: set<string> | exists e <- entries :: e.0 == x
        ensures x in Edited(a, entries) <==> x in Edited(b, entries)
      {
        if name == x {
          LastEntryDecides(next, if keep then b + {name} else b - {name}, entries[1..], x);
        }
      }
      assert entries == [entries[0]] + entries[1..];
    }
  }

  /** A patch that moves a message to one mailbox leaves it there when it is there. */
  lemma {:induction false} MovingAgainIsStaying(p: Patch, mailbox: string, d: string)
    requires TargetNames(p, mailbox) == Some({d}) && d != mailbox
    ensures TargetNames(p, d) == Some({d})
  {
    if p.Edit? {
      forall x ensures x in Edited({d}, p.entries) <==> x == d {
        UnnamedStays({mailbox}, p.entries, x);
        UnnamedStays({d}, p.entries, x);
      }
      assert Edited({d}, p.entries) == {d};
    }
  }

  /** So when the client asks for the same move again, the copy is found where it is to go: nothing is done, no error is
      answered, and the message stays where it was to be taken from. */
  lemma {:induction false} RetryLeavesTheOriginal(c: Codec, s: Store, e: Event, again: Event, max: nat)
    requires Sound(c) && Inv(c, s) && max > 0 && Legal(c, s, e) && Redirects(c, s, e)
    requires again.Update? && again.id == e.id && again.patch == e.patch
    requires Legal(c, Do(c, s, RemovalFails(e.id, e.patch, e.copies, e.reported), max), again)
    ensures var t := Do(c, s, RemovalFails(e.id, e.patch, e.copies, e.reported), max);
            && Locate(c, t, again.id) == Some(NewName(c, s, e))
            && TargetNames(again.patch, NewName(c, s, e).mailbox) == Some({NewName(c, s, e).mailbox})
            && Destinations(c, t, again) == {}
            && Do(c, t, again, max).live == t.live && Do(c, t, again, max).table == t.table
            && Locate(c, s, e.id).value in Do(c, t, again, max).live
  {
    var name, new' := Locate(c, s, e.id).value, NewName(c, s, e);
    NewNameIsBorn(c, s, e, max);
    FailedRemovalKeepsBoth(c, s, e, max);
    assert TargetNames(e.patch, name.mailbox).value == {new'.mailbox};
    MovingAgainIsStaying(e.patch, name.mailbox, new'.mailbox);
    assert {new'.mailbox} - {new'.mailbox} == {};
  }

  const THREE_BOXES := map["A" := 1, "B" := 1, "C" := 1]

  function InBox(mailbox: string): EmailId {
    EmailId(mailbox, 1, 1)
  }

  /** The message of A's first name is moved to B and to C, both times under that name. */
  function TwoMoves(c: Codec): seq<Event> {
    [Arrive(InBox("A"), 1), MoveTo(c, "B"), MoveTo(c, "C")]
  }

  function MoveTo(c: Codec, mailbox: string): Event {
    Update(c.encode(InBox("A")), Replace({mailbox}), map[mailbox := InBox(mailbox)], true)
  }

  lemma {:induction false} OneMove(c: Codec, s: Store, mailbox: string, max: nat)
    requires Sound(c) && Inv(c, s) && max > 0 && s.validity == THREE_BOXES && mailbox in THREE_BOXES
    requires InBox(mailbox) !in s.born
    requires var at := Locate(c, s, c.encode(InBox("A"))); at.Some? && at.value in s.live && at.value.mailbox != mailbox
    ensures var e, id := MoveTo(c, mailbox), c.encode(InBox("A"));
            && Legal(c, s, e) && Redirects(c, s, e)
            && var t := Do(c, s, e, max);
               && Inv(c, t) && t.validity == THREE_BOXES
               && Locate(c, t, id) == Some(InBox(mailbox)) && InBox(mailbox) in t.live
               && t.born.Keys == s.born.Keys + {InBox(mailbox)}
  {
    var e := MoveTo(c, mailbox);
    assert Destinations(c, s, e) == {mailbox};
    assert NewName(c, s, e) == InBox(mailbox);
    StepInv(c, s, e, max);
    MovedIdStaysUsableExactly(c, s, e, max);
    assert CopiesOf(s, Locate(c, s, e.id).value, {mailbox}, e.copies) == {InBox(mailbox)};
  }

  lemma {:induction false} RunOfThree(c: Codec, s: Store, e1: Event, e2: Event, e3: Event, max: nat)
    requires Legal(c, s, e1) && Legal(c, Do(c, s, e1, max), e2)
    requires Legal(c, Do(c, Do(c, s, e1, max), e2, max), e3)
    ensures LegalRun(c, s, [e1, e2, e3], max)
    ensures Run(c, s, [e1, e2, e3], max) == Do(c, Do(c, Do(c, s, e1, max), e2, max), e3, max)
  {
    var s1 := Do(c, s, e1, max);
    var s2 := Do(c, s1, e2, max);
    assert [e1, e2, e3][1..] == [e2, e3] && [e2, e3][1..] == [e3] && [e3][1..] == [];
    assert LegalRun(c, s2, [e3], max) && Run(c, s2, [e3], max) == Do(c, s2, e3, max);
    assert LegalRun(c, s1, [e2, e3], max) && Run(c, s1, [e2, e3], max) == Do(c, s2, e3, max);
  }

  lemma {:induction false} OneArrives(c: Codec, max: nat)
    requires Sound(c)
    ensures var s, e, id := Empty(THREE_BOXES), Arrive(InBox("A"), 1), c.encode(InBox("A"));
            && Legal(c, s, e)
            && var t := Do(c, s, e, max);
               && Inv(c, t) && t.validity == THREE_BOXES && t.born.Keys == {InBox("A")}
               && Locate(c, t, id) == Some(InBox("A")) && InBox("A") in t.live
  {
    var s, e, id := Empty(THREE_BOXES), Arrive(InBox("A"), 1), c.encode(InBox("A"));
    StepInv(c, s, e, max);
    var t := Do(c, s, e, max);
    assert Hop(Links(t.table), id, 0) == id;
    ResolvesToOne(Links(t.table), id, id, Resolved(Links(t.table), id));
  }

  /** After that, the id made of its name in B, which was its current one between the moves, leads to no message. */
  lemma {:induction false} CurrentIdIsStranded(c: Codec, max: nat)
    requires Sound(c) && max > 0
    ensures LegalRun(c, Empty(THREE_BOXES), TwoMoves(c), max)
    ensures var s, id := Run(c, Empty(THREE_BOXES), TwoMoves(c), max), c.encode(InBox("B"));
            && Locate(c, s, id).Some? && Locate(c, s, id).value !in s.live
            && Locate(c, s, c.encode(InBox("A"))) == Some(InBox("C")) && InBox("C") in s.live
  {
    var first := Arrive(InBox("A"), 1);
    OneArrives(c, max);
    var s1 := Do(c, Empty(THREE_BOXES), first, max);
    OneMove(c, s1, "B", max);
    var s2 := Do(c, s1, MoveTo(c, "B"), max);
    OneMove(c, s2, "C", max);
    RunOfThree(c, Empty(THREE_BOXES), first, MoveTo(c, "B"), MoveTo(c, "C"), max);
    assert c.decode(c.encode(InBox("A"))) == Some(InBox("A")) && c.decode(c.encode(InBox("B"))) == Some(InBox("B"));
    CurrentIdFollowsExactly(c, s2, MoveTo(c, "C"), max);
  }

  // ----- the handler -----

  datatype UpdateError = InvalidArguments | InvalidProperties | ServerFail

  /** The account's mail, and the process-wide redirects, as Email/set changes them. */
  class MailAccount {
    const codec: Codec
    const key: AccountKey
    const redirects: IdRedirectCache<string>
    var born: map<EmailId, Birth>
    var live: set<EmailId>
    var validity: map<string, nat>
    var clock: nat

    constructor (codec: Codec, key: AccountKey, redirects: IdRedirectCache<string>, validity: map<string, nat>)
      ensures this.codec == codec && this.key == key && this.redirects == redirects
      ensures State() == Store(map[], {}, validity, redirects.TableOf(key), 0)
    {
      this.codec, this.key, this.redirects := codec, key, redirects;
      born, live, this.validity, clock := map[], {}, validity, 0;
    }

    function State(): Store
      reads this, redirects
    {
      Store(born, live, validity, redirects.TableOf(key), clock)
    }

    method Find(id: string) returns (r: Result<EmailId, UpdateError>)
      requires redirects.Valid()
      ensures r == match Locate(codec, State(), id)
                   case Some(name) => Ok(name)
                   case None => Err(if Unselectable(codec, State(), id) then ServerFail else InvalidArguments)
    {
      var decoded := codec.decode(id);
      if decoded.None? {
        return Err(InvalidArguments);
      }
      var name := decoded.value;
      var resolved := redirects.Resolve(key, id);
      ResolvesToOne(Links(redirects.TableOf(key)), id, resolved, Resolved(Links(redirects.TableOf(key)), id));
      if resolved != id {
        var redirected := codec.decode(resolved);
        if redirected.Some? {
          name := redirected.value;
        }
      }
      if name.mailbox !in validity {
        return Err(ServerFail);
      }
      if validity[name.mailbox] != name.uidvalidity {
        return Err(InvalidArguments);
      }
      return Ok(name);
    }

    /** The server's COPY, mailbox by mailbox, until one refuses. */
    method CopyTo(name: EmailId, destinations: set<string>, copies: map<string, EmailId>, refusing: set<string>)
      returns (ok: bool, ghost done: set<string>)
      requires destinations <= copies.Keys
      modifies this
      ensures ok <==> destinations !! refusing
      ensures if ok then done == destinations else done < destinations
      ensures validity == old(validity)
      ensures State() == Bear(old(State()), CopiesOf(old(State()), name, done, copies), MessageOf(old(State()), name))
    {
      ghost var before := State();
      var wasLive, message := name in live, MessageOf(State(), name);
      var todo := destinations;
      done, ok := {}, true;
      while todo != {} && ok
        invariant todo + done == destinations && todo !! done && done !! refusing
        invariant !ok ==> exists d <- todo :: d in refusing
        invariant validity == before.validity && clock == before.clock
        invariant CopiedTo(before, name, done, copies, born, live)
        decreases todo, ok
      {
        var d :| d in todo;
        if d in refusing {
          ok := false;
        } else {
          OneMoreCopy(before, name, done, copies, born, live, d);
          if wasLive {
            born := born[copies[d] := Birth(message, clock)];
            live := live + {copies[d]};
          }
          todo, done := todo - {d}, done + {d};
        }
      }
      clock := clock + 1;
    }

    /** The message leaves its mailbox: redirect, then flag and expunge, either of which may fail. */
    method TakeOut(id: string, name: EmailId, destinations: set<string>, copies: map<string, EmailId>, named: bool,
                   fails: bool)
      requires redirects.Valid() && destinations <= copies.Keys
      modifies this`live, redirects
      ensures redirects.Valid()
      ensures var s := old(State());
              && State() == s.(live := if fails then s.live else s.live - {name}, table := State().table)
              && (!(named && |destinations| == 1) ==> State().table == s.table)
              && (forall d | named && destinations == {d} ::
                    State().table == Recorded(s.table, id, codec.encode(copies[d]), redirects.maxEntries))
    {
      if |destinations| == 1 {
        var d :| d in destinations;
        OnlyOne(destinations, d);
        if named {
          redirects.Record(key, id, codec.encode(copies[d]));
        }
      }
      if !fails {
        live := live - {name};
      }
    }

    /** `refusing` are the mailboxes to which COPY fails; `stuck` is whether the STORE or EXPUNGE fails. */
    method ApplyEmailUpdate(id: string, patch: Patch, copies: map<string, EmailId>, reported: bool,
                            refusing: set<string>, stuck: bool)
      returns (r: Result<(), UpdateError>, ghost done: set<string>)
      requires redirects.Valid()
      requires Legal(codec, State(), Update(id, patch, copies, reported))
      modifies this, redirects
      ensures redirects.Valid()
      ensures var s, e := old(State()), Update(id, patch, copies, reported);
              var name := Locate(codec, s, id);
              if name.None? then
                r == Err(if Unselectable(codec, s, id) then ServerFail else InvalidArguments) && State() == s
              else if TargetNames(patch, name.value.mailbox) == Some({}) then
                r == Err(InvalidProperties) && State() == s
              else if !(Destinations(codec, s, e) !! refusing) then
                var e' := CopyFails(id, patch, copies, done);
                r == Err(ServerFail) && Legal(codec, s, e') && State() == Do(codec, s, e', redirects.maxEntries)
              else if stuck && Moves(codec, s, e) then
                var e' := RemovalFails(id, patch, copies, reported);
                r == Err(ServerFail) && Legal(codec, s, e') && State() == Do(codec, s, e', redirects.maxEntries)
              else r == Ok(()) && State() == Do(codec, s, e, redirects.maxEntries)
    {
      done := {};
      var found := Find(id);
      if found.Err? {
        return Err(found.error), {};
      }
      var name := found.value;
      var targets := TargetNames(patch, name.mailbox);
      if targets == Some({}) {
        return Err(InvalidProperties), {};
      }
      var destinations := if targets.Some? then targets.value - {name.mailbox} else {};
      var wasLive := name in live;
      ghost var s, e := State(), Update(id, patch, copies, reported);
      var ok;
      ok, done := CopyTo(name, destinations, copies, refusing);
      if !ok {
        assert Destinations(codec, s, Update(id, patch, copies, false)) == destinations;
        return Err(ServerFail), done;
      }
      if targets.Some? && name.mailbox !in targets.value {
        ghost var copied := State();
        TakeOut(id, name, destinations, copies, wasLive && reported, stuck);
        FiledIs(codec, s, e, redirects.maxEntries, copied.(table := State().table));
        if stuck {
          return Err(ServerFail), done;
        }
      }
      return Ok(()), done;
    }
  }

  /** What the copies to `done` have made of the account `s`. */
  ghost predicate CopiedTo(s: Store, name: EmailId, done: set<string>, copies: map<string, EmailId>,
                           born: map<EmailId, Birth>, live: set<EmailId>)
    requires done <= copies.Keys
  {
    var copied := CopiesOf(s, name, done, copies);
    live == s.live + copied && born == Bear(s, copied, MessageOf(s, name)).born
  }

  lemma {:induction false} OneMoreCopy(s: Store, name: EmailId, done: set<string>, copies: map<string, EmailId>,
                                       born: map<EmailId, Birth>, live: set<EmailId>, d: string)
    requires done + {d} <= copies.Keys && CopiedTo(s, name, done, copies, born, live)
    ensures if name in s.live then
              CopiedTo(s, name, done + {d}, copies, born[copies[d] := Birth(MessageOf(s, name), s.clock)],
                       live + {copies[d]})
            else CopiedTo(s, name, done + {d}, copies, born, live)
  {
    var copied := CopiesOf(s, name, done, copies);
    if name in s.live {
      assert CopiesOf(s, name, done + {d}, copies) == copied + {copies[d]};
      BearOneMore(s, copied, copies[d], MessageOf(s, name));
    }
  }

  lemma {:induction false} BearOneMore(s: Store, names: set<EmailId>, a: EmailId, message: nat)
    ensures Bear(s, names + {a}, message).born == Bear(s, names, message).born[a := Birth(message, s.clock)]
  {
  }

  /** What a move comes to before the removal, said of the state then. */
  lemma {:induction false} FiledIs(c: Codec, s: Store, e: Event, max: nat, t: Store)
    requires e.Update? && Legal(c, s, e) && Moves(c, s, e)
    requires var name, ds := Locate(c, s, e.id).value, Destinations(c, s, e);
             var s' := Bear(s, CopiesOf(s, name, ds, e.copies), MessageOf(s, name));
             var named := name in s.live && e.reported;
             && t == s'.(table := t.table)
             && (!(named && |ds| == 1) ==> t.table == s.table)
             && (forall d | named && ds == {d} :: t.table == Recorded(s.table, e.id, c.encode(e.copies[d]), max))
    ensures t == Filed(c, s, e, max)
  {
    if Redirects(c, s, e) {
      var d :| d in Destinations(c, s, e) && NewName(c, s, e) == e.copies[d];
      OnlyOne(Destinations(c, s, e), d);
    }
  }
}
