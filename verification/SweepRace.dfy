/**
  Email/changes takes its cursors from a sweep and searches each changed mailbox afterwards
  (src/jmap_bridge/types/email.py:738 and 757-768). Here things happen in between: `a` is the mailbox the client
  knows, `b` the one swept, and `late` leads on from `b` to the one searched.
 */
module SweepRace {
  import opened Wrappers
  import opened ImapStore
  import opened ModseqState
  import opened EmailChanges

  function Gone(a: Mailbox, b: Mailbox): set<nat> {
    a.messages.Keys - b.messages.Keys
  }

  /** What the range search answers in `c`; there is none when UIDNEXT had not risen by the sweep. */
  function Found(a: Mailbox, b: Mailbox, c: Mailbox): set<nat> {
    if a.uidnext < b.uidnext then SearchUidFrom(c, a.uidnext) else {}
  }

  lemma {:induction false} TwoCounts(a: Mailbox, b: Mailbox)
    ensures |b.messages| + |Gone(a, b)| == |a.messages| + |Newcomers(a, b)|
  {
    var survivors := a.messages.Keys * b.messages.Keys;
    assert b.messages.Keys == survivors + Newcomers(a, b) && a.messages.Keys == survivors + Gone(a, b);
    assert |b.messages.Keys| == |survivors| + |Newcomers(a, b)| && |a.messages.Keys| == |survivors| + |Gone(a, b)|;
  }

  lemma {:induction false} ChangedSinceSplit(a: Mailbox, c: Mailbox)
    requires Evolved(a, c)
    ensures ChangedSince(c, a.highestmodseq) == Touched(a, c) + Newcomers(a, c)
  {
  }

  lemma {:induction false} SearchedAnswer(a: Mailbox, b: Mailbox, c: Mailbox)
    requires Evolved(a, b) && Evolved(a, c) && a.highestmodseq != b.highestmodseq
    ensures var r, found := DiffBox(CursorOf(a), CursorOf(b), c), Found(a, b, c);
            if |found| + |Gone(a, b)| == |Newcomers(a, b)|
            then r == Ok(BoxDiff(found, (Touched(a, c) + Newcomers(a, c)) - found))
            else r == Err(CannotCalculateChanges)
  {
    TwoCounts(a, b);
    ChangedSinceSplit(a, c);
  }

  /** Whatever happens in the gap: the answer is given exactly when the messages found and those gone by the sweep make
      up the newcomers of the sweep; then a message gone by the sweep goes unreported exactly when fewer are found than
      had come. What was found is listed as created, and every other message that changed or came as updated; these are
      messages the client knows exactly if UIDNEXT had risen by the sweep or nothing new is there. */
  lemma {:induction false} LateAnswerExactly(a: Mailbox, b: Mailbox, late: seq<Event>)
    requires Evolved(a, b) && Legal(b, late) && a.highestmodseq != b.highestmodseq
    ensures var c := Run(b, late);
            var r, found := DiffBox(CursorOf(a), CursorOf(b), c), Found(a, b, c);
            && (r.Ok? <==> |found| + |Gone(a, b)| == |Newcomers(a, b)|)
            && (r.Ok? ==>
                  && (Gone(a, b) != {} <==> |found| < |Newcomers(a, b)|)
                  && r.value.created == found
                  && r.value.updated == (Touched(a, c) + Newcomers(a, c)) - found
                  && (r.value.updated <= a.messages.Keys <==> a.uidnext < b.uidnext || Newcomers(a, c) == {}))
  {
    var c := Run(b, late);
    RunEvolves(a, b, late);
    SearchedAnswer(a, b, c);
    SearchFindsNewcomers(a, c);
    assert Touched(a, c) <= a.messages.Keys && Newcomers(a, c) !! a.messages.Keys;
    if a.uidnext < b.uidnext {
      assert Newcomers(a, c) <= Found(a, b, c);
    } else {
      assert Found(a, b, c) == {};
    }
  }

  // ----- nothing is expunged in the gap -----

  lemma {:induction false} KeysGrow(b: Mailbox, late: seq<Event>)
    requires WellFormed(b) && Legal(b, late) && forall e <- late :: !e.Expunge?
    ensures b.messages.Keys <= Run(b, late).messages.Keys
    ensures b.messages.Keys == Run(b, late).messages.Keys <==> forall e <- late :: !e.Append?
    decreases |late|
  {
    if late != [] {
      var e, rest := late[0], late[1..];
      var next := Apply(b, e);
      assert late == [e] + rest && e in late;
      EvolvedStep(b, b, e);
      KeysGrow(next, rest);
      assert !e.Expunge?;
      if e.Append? {
        assert e.uid in next.messages && e.uid !in b.messages;
      } else {
        assert next.messages.Keys == b.messages.Keys;
      }
    }
  }

  lemma {:induction false} NothingLeft<T>(x: set<T>, y: set<T>)
    ensures x - y == {} <==> x <= y
  {
    if x - y == {} {
      forall u | u in x ensures u in y { assert u in y || u in x - y; }
    }
  }

  lemma {:induction false} FoundAllTheNewcomers(a: Mailbox, b: Mailbox, c: Mailbox)
    requires Evolved(a, b) && Evolved(a, c) && b.messages.Keys <= c.messages.Keys
    ensures Newcomers(a, b) <= Newcomers(a, c)
    ensures Newcomers(a, b) <= Found(a, b, c)
    ensures |Found(a, b, c)| + |Gone(a, b)| == |Newcomers(a, b)| <==>
              a.messages.Keys <= b.messages.Keys && Found(a, b, c) == Newcomers(a, b)
  {
    SearchFindsNewcomers(a, b);
    SearchFindsNewcomers(a, c);
    SubsetCount(Newcomers(a, b), Found(a, b, c));
    NothingLeft(a.messages.Keys, b.messages.Keys);
  }

  lemma {:induction false} LateComersAreUpdated(a: Mailbox, b: Mailbox, c: Mailbox)
    requires a.messages.Keys <= b.messages.Keys <= c.messages.Keys
    ensures var late := c.messages.Keys - b.messages.Keys;
            && (Touched(a, c) + Newcomers(a, c)) - Newcomers(a, b) == Touched(a, c) + late
            && (Touched(a, c) + late <= a.messages.Keys <==> c.messages.Keys == b.messages.Keys)
  {
    var late := c.messages.Keys - b.messages.Keys;
    assert late !! a.messages.Keys && Touched(a, c) <= a.messages.Keys;
    NothingLeft(c.messages.Keys, b.messages.Keys);
  }

  /** Unless something is expunged in the gap, no destroy goes unreported and `created` is exact as of the sweep; what
      is appended in the gap is either refused or listed as updated, though the client never heard of it. So what is
      reported is true exactly when nothing is appended in the gap. */
  lemma {:induction false} WithoutLateExpunges(a: Mailbox, b: Mailbox, late: seq<Event>)
    requires Evolved(a, b) && Legal(b, late) && a.highestmodseq != b.highestmodseq
    requires forall e <- late :: !e.Expunge?
    ensures var c := Run(b, late);
            var r := DiffBox(CursorOf(a), CursorOf(b), c);
            && (r.Ok? <==> a.messages.Keys <= b.messages.Keys && Found(a, b, c) == Newcomers(a, b))
            && (r.Ok? ==>
                  && a.messages.Keys <= c.messages.Keys
                  && r.value.created == Newcomers(a, b)
                  && r.value.updated == Touched(a, c) + (c.messages.Keys - b.messages.Keys)
                  && (r.value.updated <= a.messages.Keys <==> forall e <- late :: !e.Append?))
  {
    var c := Run(b, late);
    KeysGrow(b, late);
    RunEvolves(a, b, late);
    FoundAllTheNewcomers(a, b, c);
    SearchedAnswer(a, b, c);
    if DiffBox(CursorOf(a), CursorOf(b), c).Ok? {
      LateComersAreUpdated(a, b, c);
    }
  }

  /** Stores that land between the sweep and the search do no harm: nothing is missed, and what they touched is reported
      early. */
  lemma {:induction false} StoresAfterTheSweepAreHarmless(a: Mailbox, b: Mailbox, late: seq<Event>)
    requires Evolved(a, b) && Legal(b, late) && forall e <- late :: e.Store?
    requires a.highestmodseq != b.highestmodseq
    ensures var c := Run(b, late);
            DiffBox(CursorOf(a), CursorOf(b), c) ==
              if KeptWhole(a, b) then Ok(BoxDiff(Newcomers(a, b), Touched(a, c))) else Err(CannotCalculateChanges)
  {
    var c := Run(b, late);
    StoresKeepUids(b, late);
    RunEvolves(a, b, late);
    assert Newcomers(a, c) == Newcomers(a, b);
    assert KeptWhole(a, b) <==> KeptWhole(a, c);
    SearchFindsNewcomers(a, c);
    CountReconciles(a, b);
    ChangedSinceFindsTouched(a, c);
  }

  lemma {:induction false} StoresKeepUids(b: Mailbox, late: seq<Event>)
    requires Legal(b, late) && forall e <- late :: e.Store?
    ensures var c := Run(b, late); c.messages.Keys == b.messages.Keys && c.uidnext == b.uidnext
    decreases |late|
  {
    if late != [] {
      assert late[0].Store?;
      StoresKeepUids(Apply(b, late[0]), late[1..]);
    }
  }

  // ----- cases -----

  function Plain(uids: set<nat>): map<nat, Message> {
    map u | u in uids :: Message({}, 1)
  }

  const FOUR_MESSAGES := Mailbox(7, 5, 1, Plain({1, 2, 3, 4}))
  const BEFORE_SWEEP := [Append(5, {}, 2), Append(6, {}, 3), Expunge({1}, 4)]
  const AFTER_SWEEP := [Expunge({5}, 5)]

  lemma {:induction false} RunOfThree(mb: Mailbox, e1: Event, e2: Event, e3: Event)
    requires Enabled(mb, e1) && Enabled(Apply(mb, e1), e2) && Enabled(Apply(Apply(mb, e1), e2), e3)
    ensures Legal(mb, [e1, e2, e3]) && Run(mb, [e1, e2, e3]) == Apply(Apply(Apply(mb, e1), e2), e3)
  {
    assert [e1, e2, e3][1..] == [e2, e3] && [e2, e3][1..] == [e3] && [e3][1..] == [];
    assert Legal(Apply(Apply(mb, e1), e2), [e3])
        && Run(Apply(Apply(mb, e1), e2), [e3]) == Apply(Apply(Apply(mb, e1), e2), e3);
    assert Legal(Apply(mb, e1), [e2, e3]);
  }

  /** A flag is set on message 1 before the sweep and message 2 arrives after it: 2 is listed as updated. */
  lemma {:induction false} AppendAfterTheSweepIsMistaken()
    ensures var a := Mailbox(7, 2, 1, Plain({1}));
            var b := Run(a, [Store(map[1 := {"\\Seen"}], 2)]);
            && WellFormed(a) && Legal(a, [Store(map[1 := {"\\Seen"}], 2)]) && Legal(b, [Append(2, {}, 3)])
            && DiffBox(CursorOf(a), CursorOf(b), Run(b, [Append(2, {}, 3)])) == Ok(BoxDiff({}, {1, 2}))
  {
    var a := Mailbox(7, 2, 1, Plain({1}));
    var store, append := Store(map[1 := {"\\Seen"}], 2), Append(2, {}, 3);
    RunOfOne(a, store);
    var b := Run(a, [store]);
    RunOfOne(b, append);
    assert a.messages.Keys == {1};
    assert |a.messages| == |a.messages.Keys| == 1 && b.messages.Keys == {1};
    assert |b.messages| == |b.messages.Keys| == 1;
    var c := Run(b, [append]);
    assert c.messages == map[1 := Message({"\\Seen"}, 2), 2 := Message({}, 3)];
    assert ChangedSince(c, 1) - {} == {1, 2};
  }

  lemma {:induction false} RunOfOne(mb: Mailbox, e: Event)
    requires Enabled(mb, e)
    ensures Legal(mb, [e]) && Run(mb, [e]) == Apply(mb, e)
  {
    assert [e][1..] == [];
  }

  lemma {:induction false} FourMessagesSwept()
    ensures WellFormed(FOUR_MESSAGES) && Legal(FOUR_MESSAGES, BEFORE_SWEEP)
    ensures var swept := Run(FOUR_MESSAGES, BEFORE_SWEEP);
            && swept.messages.Keys == {2, 3, 4, 5, 6} && |swept.messages| == 5
            && swept.uidvalidity == 7 && swept.uidnext == 7 && swept.highestmodseq == 4
  {
    RunOfThree(FOUR_MESSAGES, BEFORE_SWEEP[0], BEFORE_SWEEP[1], BEFORE_SWEEP[2]);
    var b := Run(FOUR_MESSAGES, BEFORE_SWEEP);
    assert b.messages.Keys == {2, 3, 4, 5, 6};
    assert |b.messages| == |b.messages.Keys| == 5;
  }

  /** An expunge in that gap is not harmless: messages 5 and 6 arrive and 1 goes before the sweep, 5 goes after it, and
      the counts reconcile although message 1 was destroyed. */
  lemma {:induction false} ExpungeAfterTheSweepIsMissed()
    ensures WellFormed(FOUR_MESSAGES) && Legal(FOUR_MESSAGES, BEFORE_SWEEP)
    ensures var swept := Run(FOUR_MESSAGES, BEFORE_SWEEP);
            && Legal(swept, AFTER_SWEEP)
            && 1 in FOUR_MESSAGES.messages && 1 !in Run(swept, AFTER_SWEEP).messages
            && DiffBox(CursorOf(FOUR_MESSAGES), CursorOf(swept), Run(swept, AFTER_SWEEP)).Ok?
  {
    FourMessagesSwept();
    var b := Run(FOUR_MESSAGES, BEFORE_SWEEP);
    RunOfOne(b, AFTER_SWEEP[0]);
    var c := Run(b, AFTER_SWEEP);
    assert FOUR_MESSAGES.messages.Keys == {1, 2, 3, 4};
    assert |FOUR_MESSAGES.messages| == |FOUR_MESSAGES.messages.Keys| == 4;
    assert c.messages.Keys == {2, 3, 4, 6};
    SearchAlwaysHasTheLast(c, 5);
    var newer := set u | u in c.messages && 5 <= u;
    assert newer == {6};
    assert SearchUidFrom(c, 5) == {6};
  }
}
