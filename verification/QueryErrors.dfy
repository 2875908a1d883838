/**
  Where Email/query answers what the filter did not ask.

  Three things in the compiler can make the answer differ from the filter tree: a child that compiles to nothing is
  dropped (src/jmap_bridge/types/email.py:478-495), a mailbox is taken from the first AND path that names one and every
  other `inMailbox` is ignored (src/jmap_bridge/types/email.py:355-387), and both can happen at any depth, under any
  number of NOTs.
 */
module QueryErrors {
  import opened Wrappers
  import opened SearchKeys
  import opened FilterCompiler

  // ----- which filters are accepted -----

  /** Some `inMailbox` stands on a path of ANDs from the root. */
  predicate AndNamed(f: Filter) {
    Given(f.inMailbox) || (OperatorOf(f) == "AND" && exists c <- f.conditions :: AndNamed(c))
  }

  /** Some `inMailbox` stands under an operator that is not AND. */
  predicate Misplaced(f: Filter) {
    exists c <- f.conditions :: if OperatorOf(f) == "AND" then Misplaced(c) else HasAnyInMailbox(c)
  }

  lemma {:induction false} FoundExactly(f: Filter)
    ensures FindInMailbox(f).Some? <==> AndNamed(f)
    decreases f, 1
  {
    FirstFoundExactly(f.conditions);
  }

  lemma {:induction false} FirstFoundExactly(cs: seq<Filter>)
    ensures FirstInMailbox(cs).Some? <==> exists c <- cs :: AndNamed(c)
    decreases cs, 0
  {
    if cs != [] {
      FoundExactly(cs[0]);
      FirstFoundExactly(cs[1..]);
      assert forall d :: d in cs <==> d == cs[0] || d in cs[1..];
    }
  }

  lemma {:induction false} MisplacedIsNamed(f: Filter)
    requires Misplaced(f)
    ensures HasAnyInMailbox(f)
  {
    var c :| c in f.conditions && if OperatorOf(f) == "AND" then Misplaced(c) else HasAnyInMailbox(c);
    if OperatorOf(f) == "AND" {
      MisplacedIsNamed(c);
    }
  }

  /** A filter that names a mailbox is accepted if and only if it translates and one of the names is on an AND path; so
      a name under OR or NOT, which is to be rejected, is accepted exactly beside such another one. */
  lemma {:induction false} AcceptedExactly(f: Filter, dates: Dates)
    ensures Plan(f, dates).Ok? <==> !HasBadNode(f, dates) && (HasAnyInMailbox(f) ==> AndNamed(f))
    ensures Misplaced(f) ==> (Plan(f, dates).Ok? <==> !HasBadNode(f, dates) && AndNamed(f))
  {
    FoundExactly(f);
    RefusedExactly(f, dates);
    if Misplaced(f) {
      MisplacedIsNamed(f);
    }
  }

  // ----- for which messages the answer is wrong -----

  predicate Elsewhere(f: Filter, m: Mail) {
    Given(f.inMailbox) && f.inMailbox.value != m.mailbox
  }

  /** What the criteria of `f` wrongly let through: the operator's own doing, or a mailbox they do not ask for. */
  predicate TooWide(f: Filter, m: Mail, dates: Dates)
    decreases f, 2
  {
    || OperatorTooWide(f, m, dates)
    || (Elsewhere(f, m) && TreeSatisfied(f, m, dates) && !OperatorTooNarrow(f, m, dates))
  }

  /** What the criteria of `f` wrongly keep out. */
  predicate TooNarrow(f: Filter, m: Mail, dates: Dates)
    decreases f, 2
  {
    !Elsewhere(f, m) && OperatorTooNarrow(f, m, dates)
  }

  /** Satisfies, but for the mailbox this node names. */
  predicate TreeSatisfied(f: Filter, m: Mail, dates: Dates) {
    Satisfies(f.(inMailbox := None), m, dates)
  }

  /** A child that is asked for does not let the message through. */
  predicate ShutOut(c: Filter, m: Mail, dates: Dates)
    decreases c, 3
  {
    TooNarrow(c, m, dates) || (!Satisfies(c, m, dates) && !TooWide(c, m, dates))
  }

  /** AND passes a child's mistake on unless another child makes up for it; OR and NOT pass on that of the children
      left, and lose what only the dropped ones, or nothing, would say. */
  predicate OperatorTooWide(f: Filter, m: Mail, dates: Dates)
    decreases f, 1
  {
    if !IsOperator(f) then false
    else if OperatorOf(f) == "AND" then
      && (exists c <- f.conditions :: TooWide(c, m, dates))
      && (forall c <- f.conditions :: !ShutOut(c, m, dates))
    else if OperatorOf(f) == "OR" then
      && (forall c <- f.conditions :: !Satisfies(c, m, dates))
      && (Vacuous(f) || exists c <- f.conditions :: !Vacuous(c) && TooWide(c, m, dates))
    else
      && (exists c <- f.conditions :: Satisfies(c, m, dates))
      && (forall c <- f.conditions :: Vacuous(c) || ShutOut(c, m, dates))
  }

  predicate OperatorTooNarrow(f: Filter, m: Mail, dates: Dates)
    decreases f, 1
  {
    if !IsOperator(f) then false
    else if OperatorOf(f) == "AND" then
      && (forall c <- f.conditions :: Satisfies(c, m, dates))
      && (exists c <- f.conditions :: TooNarrow(c, m, dates))
    else if OperatorOf(f) == "OR" then
      && !Vacuous(f)
      && (exists c <- f.conditions :: Satisfies(c, m, dates))
      && (forall c <- f.conditions :: Vacuous(c) || ShutOut(c, m, dates))
    else
      && (forall c <- f.conditions :: !Satisfies(c, m, dates))
      && (exists c <- f.conditions :: !Vacuous(c) && TooWide(c, m, dates))
  }

  lemma {:induction false} VacuousIsKept(f: Filter, m: Mail, dates: Dates)
    requires Vacuous(f)
    ensures Kept(f, m, dates)
  {
    if !IsOperator(f) {
      assert HasAllWords(f, m);
    }
  }

  /** The criteria are wrong for a message exactly where the tree says so, for every filter and message. */
  lemma {:induction false} TreeIsWrongExactly(f: Filter, m: Mail, dates: Dates)
    ensures Kept(f, m, dates) && !Satisfies(f, m, dates) <==> TooWide(f, m, dates)
    ensures !Kept(f, m, dates) && Satisfies(f, m, dates) <==> TooNarrow(f, m, dates)
    decreases f, 1
  {
    OperatorIsWrongExactly(f, m, dates);
    assert Satisfies(f, m, dates) <==> !Elsewhere(f, m) && TreeSatisfied(f, m, dates);
  }

  lemma {:induction false} OperatorIsWrongExactly(f: Filter, m: Mail, dates: Dates)
    ensures Kept(f, m, dates) && !TreeSatisfied(f, m, dates) <==> OperatorTooWide(f, m, dates)
    ensures !Kept(f, m, dates) && TreeSatisfied(f, m, dates) <==> OperatorTooNarrow(f, m, dates)
    decreases f, 0
  {
    forall c | c in f.conditions
      ensures Kept(c, m, dates) && !Satisfies(c, m, dates) <==> TooWide(c, m, dates)
      ensures !Kept(c, m, dates) && Satisfies(c, m, dates) <==> TooNarrow(c, m, dates)
      ensures ShutOut(c, m, dates) <==> !Kept(c, m, dates)
      ensures Vacuous(c) ==> Kept(c, m, dates)
    {
      TreeIsWrongExactly(c, m, dates);
      if Vacuous(c) { VacuousIsKept(c, m, dates); }
    }
  }

  /** Email/query returns a message that does not satisfy the filter exactly where its tree is too wide in the searched
      mailbox, and misses one that does exactly where it is too narrow there. */
  lemma {:induction false} QueryIsWrongExactly(f: Filter, m: Mail, dates: Dates)
    requires Plan(f, dates).Ok?
    ensures var (mailbox, criteria) := Plan(f, dates).value;
            var searched := mailbox.Some? ==> m.mailbox == mailbox.value;
            && ParseKeys(criteria).Some?
            && (searched && MatchesAll(ParseKeys(criteria).value, m) && !Satisfies(f, m, dates) <==>
                  searched && TooWide(f, m, dates))
            && (!(searched && MatchesAll(ParseKeys(criteria).value, m)) && Satisfies(f, m, dates) <==>
                  searched && TooNarrow(f, m, dates))
  {
    var (mailbox, criteria) := Plan(f, dates).value;
    TranslateMeansKept(f, m, dates);
    if Translate(f, dates).value == [] {
      VacuousIsKept(f, m, dates);
      OneKeyMeans([Atom("ALL")], m);
    }
    assert Means(criteria, m, Kept(f, m, dates));
    TreeIsWrongExactly(f, m, dates);
    if mailbox.Some? && m.mailbox != mailbox.value {
      FoundOutside(f, m, dates);
    }
  }

  // ----- cases -----

  /** Two mailboxes that no message is in at once: accepted, and all of the first is returned. */
  lemma {:induction false} SecondMailboxIsIgnored(m: Mail, dates: Dates)
    ensures var f := Operator("AND", [InMailbox("A"), InMailbox("B")]);
            Plan(f, dates) == Ok((Some("A"), [Atom("ALL")])) && !Satisfies(f, m, dates)
  {
    var a, b := InMailbox("A"), InMailbox("B");
    var f := Operator("AND", [a, b]);
    VacuousCondition(a, dates);
    VacuousCondition(b, dates);
    assert Groups([b][1..], dates) == Ok([]) && Groups([b], dates) == Ok([]);
    assert [a, b][1..] == [b];
    assert Groups([a, b], dates) == Ok([]);
    assert Translate(f, dates) == Ok([]);
    assert FindInMailbox(a) == Some("A") && FirstInMailbox([a, b]) == Some("A");
    assert a in f.conditions && b in f.conditions;
    assert Satisfies(a, m, dates) ==> m.mailbox == "A";
  }
}
