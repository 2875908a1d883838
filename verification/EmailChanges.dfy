/** Email/changes: a diff rebuilt from two cursor vectors, one UID range search and one CHANGEDSINCE fetch. */
module EmailChanges {
  import opened Wrappers
  import opened ObjectIds
  import opened ImapStore
  import opened ModseqState

  datatype BoxDiff = BoxDiff(created: set<nat>, updated: set<nat>)

  datatype Answer = Answer(created: seq<EmailId>, updated: seq<EmailId>, newState: map<string, Cursor>)

  /** One turn of the loop over mailboxes. `mb` is the mailbox when it is searched, which may differ from the one
      `now` was read from. */
  function DiffBox(since: Cursor, now: Cursor, mb: Mailbox): Result<BoxDiff, ChangesError> {
    if since.uidvalidity != now.uidvalidity then Err(CannotCalculateChanges)
    else if since.highestmodseq == now.highestmodseq then Ok(BoxDiff({}, {}))
    else
      var newUids := if since.uidnext < now.uidnext then SearchUidFrom(mb, since.uidnext) else {};
      if !NoMissingDestroys(since, now, |newUids|) then Err(CannotCalculateChanges)
      else Ok(BoxDiff(newUids, ChangedSince(mb, since.highestmodseq) - newUids))
  }

  // ----- the handler -----

  predicate Distinct<T(==)>(xs: seq<T>) {
    forall i, j :: 0 <= i < j < |xs| ==> xs[i] != xs[j]
  }

  function Elements<T>(xs: seq<T>): set<T> {
    set x | x in xs
  }

  /** A server response names each UID once, in an order of the server's choosing. */
  method Respond(uids: set<nat>) returns (xs: seq<nat>)
    ensures Distinct(xs) && Elements(xs) == uids && |xs| == |uids|
  {
    xs := [];
    var rest := uids;
    while rest != {}
      invariant rest <= uids && Distinct(xs) && Elements(xs) == uids - rest && |xs| + |rest| == |uids|
    {
      var u :| u in rest;
      assert Elements(xs + [u]) == Elements(xs) + {u};
      xs, rest := xs + [u], rest - {u};
    }
  }

  function Tagged(n: string, uidvalidity: nat, uids: set<nat>): set<EmailId> {
    set u | u in uids :: EmailId(n, uidvalidity, u)
  }

  function Ids(n: string, uidvalidity: nat, uids: seq<nat>): seq<EmailId> {
    seq(|uids|, i requires 0 <= i < |uids| => EmailId(n, uidvalidity, uids[i]))
  }

  predicate Covers(since: map<string, Cursor>, now: map<string, Cursor>) {
    since.Keys <= now.Keys
  }

  /** The mailbox selected for n, or an empty one where SELECT fails (see BoxAnswers). */
  function BoxOf(boxes: map<string, Mailbox>, n: string): Mailbox {
    if n in boxes then boxes[n] else Mailbox(0, 0, 0, map[])
  }

  /** No error for mailbox n: it was unknown before, or nothing changed in it, or SELECT and the count check succeed. */
  predicate BoxAnswers(since: map<string, Cursor>, now: map<string, Cursor>, boxes: map<string, Mailbox>, n: string)
    requires n in now
  {
    n in since ==>
      && DiffBox(since[n], now[n], BoxOf(boxes, n)).Ok?
      && (n in boxes || since[n].highestmodseq == now[n].highestmodseq)
  }

  function CreatedIn(since: map<string, Cursor>, now: map<string, Cursor>, boxes: map<string, Mailbox>,
                     names: set<string>): set<EmailId>
    requires names <= now.Keys
  {
    set n, u | n in names && n in since && DiffBox(since[n], now[n], BoxOf(boxes, n)).Ok? &&
               u in DiffBox(since[n], now[n], BoxOf(boxes, n)).value.created :: EmailId(n, now[n].uidvalidity, u)
  }

  function UpdatedIn(since: map<string, Cursor>, now: map<string, Cursor>, boxes: map<string, Mailbox>,
                     names: set<string>): set<EmailId>
    requires names <= now.Keys
  {
    set n, u | n in names && n in since && DiffBox(since[n], now[n], BoxOf(boxes, n)).Ok? &&
               u in DiffBox(since[n], now[n], BoxOf(boxes, n)).value.updated :: EmailId(n, now[n].uidvalidity, u)
  }

  predicate Answers(since: map<string, Cursor>, now: map<string, Cursor>, boxes: map<string, Mailbox>) {
    Covers(since, now) && forall n <- now :: BoxAnswers(since, now, boxes, n)
  }

  /** SELECT fails for a mailbox that has to be searched. */
  predicate SelectFails(since: map<string, Cursor>, now: map<string, Cursor>, boxes: map<string, Mailbox>, n: string) {
    && n in since && n in now && n !in boxes
    && since[n].uidvalidity == now[n].uidvalidity && since[n].highestmodseq != now[n].highestmodseq
  }

  /** The UID space is another one, or a destroyed message cannot be ruled out. */
  predicate Incomparable(since: map<string, Cursor>, now: map<string, Cursor>, boxes: map<string, Mailbox>, n: string) {
    && n in since && n in now
    && (since[n].uidvalidity != now[n].uidvalidity
        || (n in boxes && DiffBox(since[n], now[n], boxes[n]).Err?))
  }

  method EmailChanges(since: map<string, Cursor>, statuses: map<string, MailboxStatus>, boxes: map<string, Mailbox>)
    returns (r: Result<Answer, ChangesError>)
    ensures var now := CursorsFromStatuses(statuses);
            && (r.Ok? <==> Answers(since, now, boxes))
            && (r == Err(CannotCalculateChanges) ==>
                  !(since.Keys <= now.Keys) || exists n <- now :: Incomparable(since, now, boxes, n))
            && (r == Err(ServerFail) ==> since.Keys <= now.Keys && exists n <- now :: SelectFails(since, now, boxes, n))
            && (r.Ok? ==>
                  && r.value.newState == now
                  && Distinct(r.value.created) && Elements(r.value.created) == CreatedIn(since, now, boxes, now.Keys)
                  && Distinct(r.value.updated) && Elements(r.value.updated) == UpdatedIn(since, now, boxes, now.Keys))
  {
    var created, updated := [], [];
    var now := CursorsFromStatuses(statuses);
    if !(since.Keys <= now.Keys) {
      return Err(CannotCalculateChanges);
    }
    var todo := now.Keys;
    while todo != {}
      invariant todo <= now.Keys
      invariant forall n <- now.Keys - todo :: BoxAnswers(since, now, boxes, n)
      invariant Distinct(created) && Elements(created) == CreatedIn(since, now, boxes, now.Keys - todo)
      invariant Distinct(updated) && Elements(updated) == UpdatedIn(since, now, boxes, now.Keys - todo)
    {
      var n :| n in todo;
      ghost var done := now.Keys - todo;
      ExtendBox(since, now, boxes, done, n);
      if n in since {
        if since[n].uidvalidity != now[n].uidvalidity {
          assert Incomparable(since, now, boxes, n);
          return Err(CannotCalculateChanges);
        }
        if since[n].highestmodseq != now[n].highestmodseq {
          if n !in boxes {
            assert SelectFails(since, now, boxes, n);
            return Err(ServerFail);
          }
          var newUids := [];
          if since[n].uidnext < now[n].uidnext {
            newUids := Respond(SearchUidFrom(boxes[n], since[n].uidnext));
          }
          var changedUids := Respond(ChangedSince(boxes[n], since[n].highestmodseq) - Elements(newUids));
          if !NoMissingDestroys(since[n], now[n], |newUids|) {
            assert Incomparable(since, now, boxes, n);
            return Err(CannotCalculateChanges);
          }
          ExtendIds(created, CreatedIn(since, now, boxes, done), done, n, now[n].uidvalidity, newUids);
          ExtendIds(updated, UpdatedIn(since, now, boxes, done), done, n, now[n].uidvalidity, changedUids);
          created := created + Ids(n, now[n].uidvalidity, newUids);
          updated := updated + Ids(n, now[n].uidvalidity, changedUids);
        }
      }
      assert now.Keys - (todo - {n}) == (now.Keys - todo) + {n};
      todo := todo - {n};
    }
    assert now.Keys - todo == now.Keys;
    return Ok(Answer(created, updated, now));
  }

  lemma {:induction false} ExtendIds(ids: seq<EmailId>, known: set<EmailId>, names: set<string>, n: string,
      uidvalidity: nat, uids: seq<nat>)
    requires Distinct(ids) && Elements(ids) == known && Distinct(uids)
    requires n !in names && forall id <- known :: id.mailbox in names
    ensures var all := ids + Ids(n, uidvalidity, uids);
            Distinct(all) && Elements(all) == known + Tagged(n, uidvalidity, Elements(uids))
  {
    var more := Ids(n, uidvalidity, uids);
    forall u | u in uids ensures EmailId(n, uidvalidity, u) in more {
      var i :| 0 <= i < |uids| && uids[i] == u;
      assert more[i] == EmailId(n, uidvalidity, u);
    }
    forall i, j | 0 <= i < |ids| && 0 <= j < |more| ensures ids[i] != more[j] {
      assert ids[i] in known && more[j].mailbox == n;
    }
    assert Elements(ids + more) == Elements(ids) + Elements(more);
    assert Elements(more) == Tagged(n, uidvalidity, Elements(uids));
  }

  lemma {:induction false} ExtendBox(since: map<string, Cursor>, now: map<string, Cursor>, boxes: map<string, Mailbox>,
                  done: set<string>, n: string)
    requires done <= now.Keys && n in now && n !in done
    ensures forall id <- CreatedIn(since, now, boxes, done) :: id.mailbox in done
    ensures forall id <- UpdatedIn(since, now, boxes, done) :: id.mailbox in done
    ensures var more := n in since && DiffBox(since[n], now[n], BoxOf(boxes, n)).Ok?;
            var diff := if more then DiffBox(since[n], now[n], BoxOf(boxes, n)).value else BoxDiff({}, {});
            && CreatedIn(since, now, boxes, done + {n}) ==
                 CreatedIn(since, now, boxes, done) + Tagged(n, now[n].uidvalidity, diff.created)
            && UpdatedIn(since, now, boxes, done + {n}) ==
                 UpdatedIn(since, now, boxes, done) + Tagged(n, now[n].uidvalidity, diff.updated)
  {
  }

  // ----- what the answer says about the mailbox -----

  lemma {:induction false} SubsetCount<T>(a: set<T>, b: set<T>)
    requires a <= b
    ensures |a| <= |b| && (|a| == |b| ==> a == b)
  {
    if a != {} {
      var x :| x in a;
      SubsetCount(a - {x}, b - {x});
    }
  }

  function Newcomers(a: Mailbox, b: Mailbox): set<nat> {
    b.messages.Keys - a.messages.Keys
  }

  function Touched(a: Mailbox, b: Mailbox): set<nat> {
    set u | u in a.messages && u in b.messages && a.messages[u] != b.messages[u]
  }

  /** No message known before is gone, and UIDNEXT did not rise for messages that are all gone again (unless nothing is
      left to be mistaken for a new message). */
  ghost predicate KeptWhole(a: Mailbox, b: Mailbox) {
    && a.messages.Keys <= b.messages.Keys
    && (a.uidnext < b.uidnext ==> Newcomers(a, b) != {} || b.messages == map[])
  }

  lemma {:induction false} CountReconciles(a: Mailbox, b: Mailbox)
    ensures |b.messages| <= |a.messages| + |Newcomers(a, b)|
    ensures |b.messages| == |a.messages| + |Newcomers(a, b)| <==> a.messages.Keys <= b.messages.Keys
  {
    var survivors := a.messages.Keys * b.messages.Keys;
    assert b.messages.Keys == survivors + Newcomers(a, b);
    assert |b.messages.Keys| == |survivors| + |Newcomers(a, b)|;
    SubsetCount(survivors, a.messages.Keys);
    assert a.messages.Keys <= b.messages.Keys <==> survivors == a.messages.Keys;
  }

  lemma {:induction false} SearchFindsNewcomers(a: Mailbox, b: Mailbox)
    requires Evolved(a, b)
    ensures a.uidnext == b.uidnext ==> Newcomers(a, b) == {}
    ensures Newcomers(a, b) != {} || b.messages == map[] ==> SearchUidFrom(b, a.uidnext) == Newcomers(a, b)
    ensures Newcomers(a, b) == {} && b.messages != map[] ==> |SearchUidFrom(b, a.uidnext)| == 1
  {
    assert Newcomers(a, b) == set u | u in b.messages && a.uidnext <= u;
    SearchAlwaysHasTheLast(b, a.uidnext);
  }

  lemma {:induction false} ChangedSinceFindsTouched(a: Mailbox, b: Mailbox)
    requires Evolved(a, b)
    ensures ChangedSince(b, a.highestmodseq) - Newcomers(a, b) == Touched(a, b)
  {
  }

  /** The counting argument: when the count reconciles, nothing known before is gone and the search found exactly the
      newcomers. It fails exactly when a known message is gone, or UIDNEXT rose but every newcomer is gone again while
      the mailbox still has a last message, which the search then reports as new. */
  lemma {:induction false} DiffBoxIsExact(a: Mailbox, b: Mailbox)
    requires Evolved(a, b)
    ensures DiffBox(CursorOf(a), CursorOf(b), b) ==
              if KeptWhole(a, b) then Ok(BoxDiff(Newcomers(a, b), Touched(a, b))) else Err(CannotCalculateChanges)
  {
    SearchFindsNewcomers(a, b);
    CountReconciles(a, b);
    ChangedSinceFindsTouched(a, b);
    if a.highestmodseq == b.highestmodseq {
      assert Newcomers(a, b) == {} && Touched(a, b) == {};
    }
  }

  /** The same over every run: the mailbox may go through any appends, flag stores and expunges between the two
      cursors, and need only stay still from the sweep to the search. */
  lemma {:induction false} EmailChangesOverEveryRun(a: Mailbox, events: seq<Event>)
    requires WellFormed(a) && Legal(a, events)
    ensures var b := Run(a, events);
            var r := DiffBox(CursorOf(a), CursorOf(b), b);
            var newcomers := b.messages.Keys - a.messages.Keys;
            && (r.Err? <==> !(a.messages.Keys <= b.messages.Keys) ||
                            (a.uidnext < b.uidnext && newcomers == {} && b.messages != map[]))
            && (r.Ok? ==>
                  && r.value.created == newcomers
                  && (forall u :: u in r.value.updated <==>
                        u in a.messages && u in b.messages && a.messages[u].modseq < b.messages[u].modseq))
  {
    RunEvolves(a, a, events);
    DiffBoxIsExact(a, Run(a, events));
  }

  // ----- whole accounts, and a client that keeps a copy -----

  function Listed(boxes: map<string, Mailbox>): set<EmailId> {
    set n, u | n in boxes && u in boxes[n].messages :: EmailId(n, boxes[n].uidvalidity, u)
  }

  function MessageAt(boxes: map<string, Mailbox>, id: EmailId): Message
    requires id in Listed(boxes)
  {
    boxes[id.mailbox].messages[id.uid]
  }

  ghost predicate AccountKeptWhole(a: Account, b: Account) {
    forall n <- a.boxes ::
      n in b.boxes && a.boxes[n].uidvalidity == b.boxes[n].uidvalidity && KeptWhole(a.boxes[n], b.boxes[n])
  }

  lemma {:induction false} BoxAnswerIsExact(a: Account, b: Account, n: string)
    requires AccountEvolved(a, b) && n in a.boxes && n in b.boxes
    ensures var since, now := CursorsOf(a.boxes), CursorsOf(b.boxes);
            && since[n] == CursorOf(a.boxes[n]) && now[n] == CursorOf(b.boxes[n])
            && (DiffBox(since[n], now[n], b.boxes[n]).Ok? <==>
                  a.boxes[n].uidvalidity == b.boxes[n].uidvalidity && KeptWhole(a.boxes[n], b.boxes[n]))
            && (DiffBox(since[n], now[n], b.boxes[n]).Ok? ==>
                  DiffBox(since[n], now[n], b.boxes[n]).value ==
                    BoxDiff(Newcomers(a.boxes[n], b.boxes[n]), Touched(a.boxes[n], b.boxes[n])))
  {
    if a.boxes[n].uidvalidity == b.boxes[n].uidvalidity {
      DiffBoxIsExact(a.boxes[n], b.boxes[n]);
    }
  }

  lemma {:induction false} AnswersWhenKeptWhole(a: Account, b: Account)
    requires AccountEvolved(a, b)
    ensures Answers(CursorsOf(a.boxes), CursorsOf(b.boxes), b.boxes) <==> AccountKeptWhole(a, b)
  {
    var since, now := CursorsOf(a.boxes), CursorsOf(b.boxes);
    assert since.Keys == a.boxes.Keys && now.Keys == b.boxes.Keys;
    forall n | n in a.boxes && n in b.boxes
      ensures BoxAnswers(since, now, b.boxes, n) <==>
                a.boxes[n].uidvalidity == b.boxes[n].uidvalidity && KeptWhole(a.boxes[n], b.boxes[n])
    {
      BoxAnswerIsExact(a, b, n);
    }
    if Answers(since, now, b.boxes) {
      forall n | n in a.boxes
        ensures n in b.boxes && a.boxes[n].uidvalidity == b.boxes[n].uidvalidity && KeptWhole(a.boxes[n], b.boxes[n])
      {
        assert n in now && BoxAnswers(since, now, b.boxes, n);
      }
    }
  }

  lemma {:induction false} CreatedIsExact(a: Account, b: Account)
    requires AccountEvolved(a, b) && AccountKeptWhole(a, b)
    ensures CreatedIn(CursorsOf(a.boxes), CursorsOf(b.boxes), b.boxes, CursorsOf(b.boxes).Keys) ==
              set id | id in Listed(b.boxes) - Listed(a.boxes) && id.mailbox in a.boxes
  {
    var since, now := CursorsOf(a.boxes), CursorsOf(b.boxes);
    forall n | n in a.boxes { BoxAnswerIsExact(a, b, n); }
    forall id
      ensures id in CreatedIn(since, now, b.boxes, now.Keys) <==>
                id in Listed(b.boxes) && id !in Listed(a.boxes) && id.mailbox in a.boxes
    {
    }
  }

  lemma {:induction false} UpdatedIsExact(a: Account, b: Account)
    requires AccountEvolved(a, b) && AccountKeptWhole(a, b)
    ensures Listed(a.boxes) <= Listed(b.boxes)
    ensures UpdatedIn(CursorsOf(a.boxes), CursorsOf(b.boxes), b.boxes, CursorsOf(b.boxes).Keys) ==
              set id | id in Listed(a.boxes) && MessageAt(a.boxes, id) != MessageAt(b.boxes, id)
  {
    var since, now := CursorsOf(a.boxes), CursorsOf(b.boxes);
    forall n | n in a.boxes { BoxAnswerIsExact(a, b, n); }
    forall id
      ensures id in UpdatedIn(since, now, b.boxes, now.Keys) <==>
                id in Listed(a.boxes) && MessageAt(a.boxes, id) != MessageAt(b.boxes, id)
    {
    }
  }

  /** The whole answer, over any history of the account: mailboxes created, reset, renamed and deleted included. */
  lemma {:induction false} AnswerOverEveryAccountRun(a: Account, events: seq<AccountEvent>)
    requires WellFormedAccount(a) && AccountLegal(a, events)
    ensures var b := AccountRun(a, events);
            var since, now := CursorsOf(a.boxes), CursorsOf(b.boxes);
            && (Answers(since, now, b.boxes) <==> AccountKeptWhole(a, b))
            && (Answers(since, now, b.boxes) ==>
                  && Listed(a.boxes) <= Listed(b.boxes)
                  && (CreatedIn(since, now, b.boxes, now.Keys) ==
                        set id | id in Listed(b.boxes) - Listed(a.boxes) && id.mailbox in a.boxes)
                  && (UpdatedIn(since, now, b.boxes, now.Keys) ==
                        set id | id in Listed(a.boxes) && MessageAt(a.boxes, id) != MessageAt(b.boxes, id)))
  {
    AccountEvolvedReflexive(a);
    AccountRunEvolves(a, a, events);
    var b := AccountRun(a, events);
    AnswersWhenKeptWhole(a, b);
    if AccountKeptWhole(a, b) {
      CreatedIsExact(a, b);
      UpdatedIsExact(a, b);
    }
  }

  /** What a client that applies answers holds: the flags of each message it knows. It fetches what an answer names. */
  type View = map<EmailId, set<string>>

  function Listing(boxes: map<string, Mailbox>): View {
    map id | id in Listed(boxes) :: MessageAt(boxes, id).flags
  }

  function Follow(view: View, created: set<EmailId>, updated: set<EmailId>, boxes: map<string, Mailbox>): View {
    view + map id | id in created + updated && id in Listed(boxes) :: MessageAt(boxes, id).flags
  }

  /** Rounds of server activity, each ended by an Email/changes call that feeds the last `newState` back as
      `sinceState`. None once a call answers cannotCalculateChanges. */
  function Sync(a: Account, view: View, rounds: seq<seq<AccountEvent>>): Option<(Account, View)>
    decreases |rounds|
  {
    if rounds == [] then Some((a, view))
    else if !AccountLegal(a, rounds[0]) then None
    else
      var b := AccountRun(a, rounds[0]);
      var since, now := CursorsOf(a.boxes), CursorsOf(b.boxes);
      if !Answers(since, now, b.boxes) then None
      else
        var next := Follow(view, CreatedIn(since, now, b.boxes, now.Keys), UpdatedIn(since, now, b.boxes, now.Keys),
                           b.boxes);
        Sync(b, next, rounds[1..])
  }

  function Known(view: View, names: set<string>): View {
    map id | id in view && id.mailbox in names :: view[id]
  }

  /** Catching up on one exact diff: whatever was not named is still what it was. */
  lemma {:induction false} FollowExactDiff(view: View, before: View, after: View, created: set<EmailId>,
                                           updated: set<EmailId>, names: set<string>, boxes: map<string, Mailbox>)
    requires after == Listing(boxes) && Known(view, names) == Known(before, names)
    requires before.Keys <= after.Keys
    requires forall id <- after :: id.mailbox in names ==> (id in created <==> id !in before)
    requires forall id <- before :: id !in updated ==> before[id] == after[id]
    ensures Known(Follow(view, created, updated, boxes), names) == Known(after, names)
  {
    var next := Follow(view, created, updated, boxes);
    forall id: EmailId | id.mailbox in names
      ensures id in next <==> id in after
      ensures id in next ==> next[id] == after[id]
    {
      assert id in view <==> id in Known(view, names);
      assert id in before <==> id in Known(before, names);
      if id in view {
        assert view[id] == Known(view, names)[id] == before[id];
      }
    }
  }

  lemma {:induction false} FollowKeepsTheListing(a: Account, b: Account, view: View, names: set<string>)
    requires AccountEvolved(a, b) && AccountKeptWhole(a, b)
    requires names <= a.boxes.Keys && Known(view, names) == Known(Listing(a.boxes), names)
    ensures var since, now := CursorsOf(a.boxes), CursorsOf(b.boxes);
            var next := Follow(view, CreatedIn(since, now, b.boxes, now.Keys), UpdatedIn(since, now, b.boxes, now.Keys),
                b.boxes);
            Known(next, names) == Known(Listing(b.boxes), names)
  {
    CreatedIsExact(a, b);
    UpdatedIsExact(a, b);
    var since, now := CursorsOf(a.boxes), CursorsOf(b.boxes);
    var created, updated := CreatedIn(since, now, b.boxes, now.Keys), UpdatedIn(since, now, b.boxes, now.Keys);
    assert Listing(a.boxes).Keys == Listed(a.boxes) && Listing(b.boxes).Keys == Listed(b.boxes);
    forall id | id in Listing(a.boxes) && id !in updated
      ensures Listing(a.boxes)[id] == Listing(b.boxes)[id]
    {
      assert MessageAt(a.boxes, id) == MessageAt(b.boxes, id);
    }
    FollowExactDiff(view, Listing(a.boxes), Listing(b.boxes), created, updated, names, b.boxes);
  }

  /** After every successful answer the client holds exactly the server's messages, with their current flags, in every
      mailbox that existed when it started. */
  lemma {:induction false} ClientNeverDrifts(a: Account, view: View, names: set<string>, rounds: seq<seq<AccountEvent>>)
    requires WellFormedAccount(a) && names <= a.boxes.Keys && Known(view, names) == Known(Listing(a.boxes), names)
    ensures var end := Sync(a, view, rounds);
            end.Some? ==> Known(end.value.1, names) == Known(Listing(end.value.0.boxes), names)
    decreases |rounds|
  {
    if rounds != [] && AccountLegal(a, rounds[0]) {
      var b := AccountRun(a, rounds[0]);
      AccountEvolvedReflexive(a);
      AccountRunEvolves(a, a, rounds[0]);
      var since, now := CursorsOf(a.boxes), CursorsOf(b.boxes);
      if Answers(since, now, b.boxes) {
        AnswersWhenKeptWhole(a, b);
        FollowKeepsTheListing(a, b, view, names);
        var next := Follow(view, CreatedIn(since, now, b.boxes, now.Keys),
                           UpdatedIn(since, now, b.boxes, now.Keys), b.boxes);
        ClientNeverDrifts(b, next, names, rounds[1..]);
      }
    }
  }

  // ----- what CONDSTORE is for -----

  /** Without CONDSTORE every cursor has modseq 0, so the handler skips every mailbox that kept its UIDVALIDITY and
      answers "no changes" whatever happened. */
  lemma {:induction false} WithoutCondstoreNothingIsReported(a: Account, events: seq<AccountEvent>)
    requires WellFormedAccount(a) && AccountLegal(a, events)
    ensures var b := AccountRun(a, events);
            var since := CursorsFromStatuses(Sweep(a.boxes, false));
            var now := CursorsFromStatuses(Sweep(b.boxes, false));
            && (Answers(since, now, b.boxes) <==>
                  forall n <- a.boxes :: n in b.boxes && a.boxes[n].uidvalidity == b.boxes[n].uidvalidity)
            && (Answers(since, now, b.boxes) ==>
                  CreatedIn(since, now, b.boxes, now.Keys) == {} == UpdatedIn(since, now, b.boxes, now.Keys))
  {
    var b := AccountRun(a, events);
    var since := CursorsFromStatuses(Sweep(a.boxes, false));
    var now := CursorsFromStatuses(Sweep(b.boxes, false));
    assert since.Keys == a.boxes.Keys && now.Keys == b.boxes.Keys;
    forall n | n in a.boxes && n in b.boxes
      ensures BoxAnswers(since, now, b.boxes, n) <==> a.boxes[n].uidvalidity == b.boxes[n].uidvalidity
      ensures BoxAnswers(since, now, b.boxes, n) ==> DiffBox(since[n], now[n], b.boxes[n]).value == BoxDiff({}, {})
    {
    }
    if Answers(since, now, b.boxes) {
      forall n | n in a.boxes ensures n in b.boxes && a.boxes[n].uidvalidity == b.boxes[n].uidvalidity {
        assert n in now && BoxAnswers(since, now, b.boxes, n);
      }
    }
  }
}
