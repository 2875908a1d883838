/**
  The IMAP side of the bridge, as a step system.

  A mailbox changes by appends, flag stores and expunges; an account changes by changes inside a mailbox
  and by mailboxes being installed (created, or reset to a new UID space), deleted and renamed.
  Assumed of the server (RFC 3501 section 2.3.1.1, RFC 7162 section 3.1): UIDs ascend, every change raises
  HIGHESTMODSEQ (an expunge too), and a UIDVALIDITY value is never handed out twice in one account.
 */
module ImapStore {
  datatype Message = Message(flags: set<string>, modseq: nat)

  datatype Mailbox = Mailbox(uidvalidity: nat, uidnext: nat, highestmodseq: nat, messages: map<nat, Message>)

  datatype Event =
    | Append(uid: nat, flags: set<string>, modseq: nat)
    | Store(changes: map<nat, set<string>>, modseq: nat)
    | Expunge(uids: set<nat>, modseq: nat)

  predicate WellFormed(mb: Mailbox) {
    forall u <- mb.messages :: u < mb.uidnext && mb.messages[u].modseq <= mb.highestmodseq
  }

  predicate Enabled(mb: Mailbox, e: Event) {
    && mb.highestmodseq < e.modseq
    && match e
       case Append(uid, _, _) => mb.uidnext <= uid
       case Store(changes, _) => changes.Keys <= mb.messages.Keys
       case Expunge(uids, _) => uids <= mb.messages.Keys
  }

  function Apply(mb: Mailbox, e: Event): Mailbox {
    match e
    case Append(uid, flags, modseq) =>
      mb.(uidnext := if mb.uidnext <= uid then uid + 1 else mb.uidnext, highestmodseq := modseq,
          messages := mb.messages[uid := Message(flags, modseq)])
    case Store(changes, modseq) =>
      mb.(highestmodseq := modseq,
          messages := map u | u in mb.messages :: if u in changes then Message(changes[u], modseq) else mb.messages[u])
    case Expunge(uids, modseq) =>
      mb.(highestmodseq := modseq, messages := map u | u in mb.messages && u !in uids :: mb.messages[u])
  }

  predicate Legal(mb: Mailbox, events: seq<Event>)
    decreases |events|
  {
    events == [] || (Enabled(mb, events[0]) && Legal(Apply(mb, events[0]), events[1..]))
  }

  function Run(mb: Mailbox, events: seq<Event>): Mailbox
    decreases |events|
  {
    if events == [] then mb else Run(Apply(mb, events[0]), events[1..])
  }

  /** What can be said of two snapshots of one mailbox, the second reached from the first by any run. */
  ghost predicate Evolved(a: Mailbox, b: Mailbox) {
    && WellFormed(a) && WellFormed(b)
    && a.uidvalidity == b.uidvalidity
    && a.uidnext <= b.uidnext
    && a.highestmodseq <= b.highestmodseq
    && (a.highestmodseq == b.highestmodseq ==> a == b)
    && (forall u <- b.messages :: u < a.uidnext ==> u in a.messages)
    && (forall u <- b.messages :: b.messages[u].modseq <= a.highestmodseq ==>
        u in a.messages && a.messages[u] == b.messages[u])
  }

  lemma {:induction false} EvolvedStep(a: Mailbox, b: Mailbox, e: Event)
    requires Evolved(a, b) && Enabled(b, e)
    ensures Evolved(a, Apply(b, e))
  {
    var c := Apply(b, e);
    forall u | u in c.messages
      ensures u < c.uidnext && c.messages[u].modseq <= c.highestmodseq
      ensures u < a.uidnext ==> u in a.messages
      ensures c.messages[u].modseq <= a.highestmodseq ==> u in a.messages && a.messages[u] == c.messages[u]
    {
      assert (e.Append? && u == e.uid) || u in b.messages;
    }
  }

  /** Every legal run keeps the summary, whatever happened before it. */
  lemma {:induction false} RunEvolves(a: Mailbox, b: Mailbox, events: seq<Event>)
    requires Evolved(a, b) && Legal(b, events)
    ensures Evolved(a, Run(b, events))
    decreases |events|
  {
    if events != [] {
      EvolvedStep(a, b, events[0]);
      RunEvolves(a, Apply(b, events[0]), events[1..]);
    }
  }

  // ----- the account -----

  datatype Account = Account(boxes: map<string, Mailbox>, nextValidity: nat)

  datatype AccountEvent =
    | Within(name: string, event: Event)
    | Install(name: string, box: Mailbox)   // CREATE, or a UIDVALIDITY reset
    | Delete(name: string)
    | Rename(from: string, to: string)

  ghost predicate WellFormedAccount(a: Account) {
    && (forall n <- a.boxes :: WellFormed(a.boxes[n]) && a.boxes[n].uidvalidity < a.nextValidity)
    && (forall m, n | m in a.boxes && n in a.boxes && m != n :: a.boxes[m].uidvalidity != a.boxes[n].uidvalidity)
  }

  predicate AccountEnabled(a: Account, e: AccountEvent) {
    match e
    case Within(name, event) => name in a.boxes && Enabled(a.boxes[name], event)
    case Install(_, box) => WellFormed(box) && a.nextValidity <= box.uidvalidity
    case Delete(name) => name in a.boxes
    case Rename(from, to) => from in a.boxes && to !in a.boxes
  }

  function AccountApply(a: Account, e: AccountEvent): Account
    requires AccountEnabled(a, e)
  {
    match e
    case Within(name, event) => a.(boxes := a.boxes[name := Apply(a.boxes[name], event)])
    case Install(name, box) => Account(a.boxes[name := box], box.uidvalidity + 1)
    case Delete(name) => a.(boxes := a.boxes - {name})
    case Rename(from, to) => a.(boxes := (a.boxes - {from})[to := a.boxes[from]])
  }

  predicate AccountLegal(a: Account, events: seq<AccountEvent>)
    decreases |events|
  {
    events == [] || (AccountEnabled(a, events[0]) && AccountLegal(AccountApply(a, events[0]), events[1..]))
  }

  function AccountRun(a: Account, events: seq<AccountEvent>): Account
    requires AccountLegal(a, events)
    decreases |events|
  {
    if events == [] then a else AccountRun(AccountApply(a, events[0]), events[1..])
  }

  /** A mailbox found later under the same UIDVALIDITY is the earlier mailbox, evolved; under whatever name. */
  ghost predicate AccountEvolved(a: Account, b: Account) {
    && WellFormedAccount(a) && WellFormedAccount(b)
    && a.nextValidity <= b.nextValidity
    && (forall m, n | m in a.boxes && n in b.boxes && a.boxes[m].uidvalidity == b.boxes[n].uidvalidity ::
          Evolved(a.boxes[m], b.boxes[n]))
  }

  lemma {:induction false} AccountEvolvedReflexive(a: Account)
    requires WellFormedAccount(a)
    ensures AccountEvolved(a, a)
  {
  }

  lemma {:induction false} AccountEvolvedStep(a: Account, b: Account, e: AccountEvent)
    requires AccountEvolved(a, b) && AccountEnabled(b, e)
    ensures AccountEvolved(a, AccountApply(b, e))
  {
    var c := AccountApply(b, e);
    match e {
      case Within(name, event) =>
        EvolvedStep(b.boxes[name], b.boxes[name], event);
        forall m | m in a.boxes && a.boxes[m].uidvalidity == c.boxes[name].uidvalidity
          ensures Evolved(a.boxes[m], c.boxes[name])
        {
          EvolvedStep(a.boxes[m], b.boxes[name], event);
        }
      case Install(_, _) =>
      case Delete(_) =>
      case Rename(_, _) =>
    }
  }

  lemma {:induction false} AccountRunEvolves(a: Account, b: Account, events: seq<AccountEvent>)
    requires AccountEvolved(a, b) && AccountLegal(b, events)
    ensures AccountEvolved(a, AccountRun(b, events))
    decreases |events|
  {
    if events != [] {
      AccountEvolvedStep(a, b, events[0]);
      AccountRunEvolves(a, AccountApply(b, events[0]), events[1..]);
    }
  }

  // ----- what the bridge can ask a selected mailbox -----

  function LargestUid(mb: Mailbox): (uid: nat)
    requires mb.messages != map[]
    ensures uid in mb.messages && forall u <- mb.messages :: u <= uid
  {
    SetMaximumExists(mb.messages.Keys);
    var uid :| uid in mb.messages && forall u <- mb.messages :: u <= uid;
    uid
  }

  lemma {:induction false} SetMaximumExists(s: set<nat>)
    requires s != {}
    ensures exists m :: m in s && forall u <- s :: u <= m
  {
    var x :| x in s;
    if s != {x} {
      SetMaximumExists(s - {x});
      var m :| m in s - {x} && forall u <- s - {x} :: u <= m;
      var top := if m < x then x else m;
      assert forall u <- s :: u == x || u in s - {x};
      assert top in s && forall u <- s :: u <= top;
    }
  }

  /** `SEARCH UID n:*`. A range has no direction and `*` is the largest UID in use, so the last message is always
      in the answer, even when its UID is below n (RFC 3501 sections 6.4.8 and 9). */
  function SearchUidFrom(mb: Mailbox, n: nat): set<nat> {
    if mb.messages == map[] then {}
    else
      var star := LargestUid(mb);
      set u | u in mb.messages && ((n <= u <= star) || (star <= u <= n))
  }

  lemma {:induction false} SearchAlwaysHasTheLast(mb: Mailbox, n: nat)
    ensures var newer := set u | u in mb.messages && n <= u;
            SearchUidFrom(mb, n) ==
              if mb.messages == map[] then {} else if newer != {} then newer else {LargestUid(mb)}
  {
    if mb.messages != map[] {
      var newer := set u | u in mb.messages && n <= u;
      var star := LargestUid(mb);
      if star < n {
        assert newer == {};
        assert SearchUidFrom(mb, n) == {star};
      } else {
        assert star in newer;
        assert SearchUidFrom(mb, n) == newer;
      }
    }
  }

  /** `FETCH 1:* (UID) (CHANGEDSINCE m)` (RFC 7162 section 3.1.4.1). */
  function ChangedSince(mb: Mailbox, modseq: nat): set<nat> {
    set u | u in mb.messages && modseq < mb.messages[u].modseq
  }
}
