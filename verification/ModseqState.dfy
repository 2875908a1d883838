/** Per-mailbox cursors, the count check behind `destroyed: []`, and the Mailbox/changes diff. */
module ModseqState {
  import opened Wrappers
  import opened ImapStore

  /** What SELECT reports; HIGHESTMODSEQ only when the server has CONDSTORE. */
  datatype MailboxStatus = MailboxStatus(uidvalidity: nat, highestmodseq: Option<nat>, uidnext: nat, messageCount: nat)

  datatype Cursor = Cursor(uidvalidity: nat, highestmodseq: nat, uidnext: nat, messageCount: nat)

  function Select(mb: Mailbox, condstore: bool): MailboxStatus {
    MailboxStatus(mb.uidvalidity, if condstore then Some(mb.highestmodseq) else None, mb.uidnext, |mb.messages|)
  }

  function Sweep(boxes: map<string, Mailbox>, condstore: bool): map<string, MailboxStatus> {
    map n | n in boxes :: Select(boxes[n], condstore)
  }

  function CursorFromStatus(s: MailboxStatus): Cursor {
    Cursor(s.uidvalidity, if s.highestmodseq.Some? then s.highestmodseq.value else 0, s.uidnext, s.messageCount)
  }

  function CursorsFromStatuses(statuses: map<string, MailboxStatus>): map<string, Cursor> {
    map n | n in statuses :: CursorFromStatus(statuses[n])
  }

  function CursorOf(mb: Mailbox): Cursor {
    CursorFromStatus(Select(mb, true))
  }

  function CursorsOf(boxes: map<string, Mailbox>): map<string, Cursor> {
    CursorsFromStatuses(Sweep(boxes, true))
  }

  predicate NoMissingDestroys(since: Cursor, now: Cursor, createdCount: nat) {
    now.messageCount == since.messageCount + createdCount
  }

  datatype MailboxChanges = MailboxChanges(created: set<string>, updated: set<string>, destroyed: set<string>)

  datatype ChangesError = CannotCalculateChanges | ServerFail

  predicate Rotated(since: map<string, Cursor>, now: map<string, Cursor>, n: string) {
    n in since && n in now && since[n].uidvalidity != now[n].uidvalidity
  }

  function MailboxDiff(since: map<string, Cursor>, now: map<string, Cursor>): Result<MailboxChanges, ChangesError> {
    if exists n <- since :: Rotated(since, now, n) then Err(CannotCalculateChanges)
    else Ok(MailboxChanges(now.Keys - since.Keys,
                           (set n | n in now && n in since && since[n].highestmodseq != now[n].highestmodseq),
                           since.Keys - now.Keys))
  }

  method DiffMailboxState(since: map<string, Cursor>, now: map<string, Cursor>)
    returns (r: Result<MailboxChanges, ChangesError>)
    ensures r == MailboxDiff(since, now)
  {
    var created := set n | n in now && n !in since;
    var destroyed := set n | n in since && n !in now;
    assert created == now.Keys - since.Keys && destroyed == since.Keys - now.Keys;
    var updated := {};
    var common := now.Keys * since.Keys;
    var todo := common;
    while todo != {}
      invariant todo <= common
      invariant forall n <- common - todo :: !Rotated(since, now, n)
      invariant updated == set n | n in common - todo && since[n].highestmodseq != now[n].highestmodseq
    {
      var n :| n in todo;
      if now[n].uidvalidity != since[n].uidvalidity {
        assert Rotated(since, now, n);
        return Err(CannotCalculateChanges);
      }
      if now[n].highestmodseq != since[n].highestmodseq {
        updated := updated + {n};
      }
      todo := todo - {n};
    }
    assert common - todo == common;
    assert updated == set n | n in now && n in since && since[n].highestmodseq != now[n].highestmodseq;
    return Ok(MailboxChanges(created, updated, destroyed));
  }

  /** Over every history HIGHESTMODSEQ tells a touched mailbox from an untouched one. */
  lemma {:induction false} ModseqTellsMailboxesApart(a: Mailbox, b: Mailbox)
    requires Evolved(a, b)
    ensures CursorOf(a).highestmodseq == CursorOf(b).highestmodseq <==> a == b
  {
  }

  ghost predicate Replaced(a: Account, b: Account, n: string) {
    n in a.boxes && n in b.boxes && a.boxes[n].uidvalidity != b.boxes[n].uidvalidity
  }

  /** Mailbox/changes over any run of the account: it refuses exactly when some name now holds another mailbox, and
      otherwise lists as updated exactly the mailboxes that are no longer what they were. */
  lemma {:induction false} MailboxChangesOverEveryRun(a: Account, events: seq<AccountEvent>)
    requires WellFormedAccount(a) && AccountLegal(a, events)
    ensures var b := AccountRun(a, events);
            var r := MailboxDiff(CursorsOf(a.boxes), CursorsOf(b.boxes));
            && (r.Err? <==> exists n <- a.boxes :: Replaced(a, b, n))
            && (r.Ok? ==>
                  && r.value.created == b.boxes.Keys - a.boxes.Keys
                  && r.value.destroyed == a.boxes.Keys - b.boxes.Keys
                  && r.value.updated == set n | n in a.boxes && n in b.boxes && a.boxes[n] != b.boxes[n])
  {
    AccountEvolvedReflexive(a);
    AccountRunEvolves(a, a, events);
    MailboxDiffIsExact(a, AccountRun(a, events));
  }

  lemma {:induction false} MailboxDiffIsExact(a: Account, b: Account)
    requires AccountEvolved(a, b)
    ensures var r := MailboxDiff(CursorsOf(a.boxes), CursorsOf(b.boxes));
            && (r.Err? <==> exists n <- a.boxes :: Replaced(a, b, n))
            && (r.Ok? ==>
                  && r.value.created == b.boxes.Keys - a.boxes.Keys
                  && r.value.destroyed == a.boxes.Keys - b.boxes.Keys
                  && r.value.updated == set n | n in a.boxes && n in b.boxes && a.boxes[n] != b.boxes[n])
  {
    var since, now := CursorsOf(a.boxes), CursorsOf(b.boxes);
    assert since.Keys == a.boxes.Keys && now.Keys == b.boxes.Keys;
    forall n ensures Rotated(since, now, n) <==> Replaced(a, b, n) {
    }
    var r := MailboxDiff(since, now);
    if r.Ok? {
      forall n | n in a.boxes && n in b.boxes
        ensures n in r.value.updated <==> a.boxes[n] != b.boxes[n]
      {
        assert !Rotated(since, now, n);
        ModseqTellsMailboxesApart(a.boxes[n], b.boxes[n]);
      }
    } else {
      var n :| n in since && Rotated(since, now, n);
      assert n in a.boxes && Replaced(a, b, n);
    }
  }
}
