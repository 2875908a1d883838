/**
  Computing something once per request, and whether what was computed still holds.

  Each await is a step. Within one batch the calls run one after another; nobody else writes to the account meanwhile.
 */
module RequestCache {
  import opened Wrappers
  import Dispatch

  // ----- one key, many tasks -----

  /** A task asking for the key: before the first look, waiting for the lock, computing with the lock, or answered. */
  datatype Phase<V> = Asking | Waiting | Computing | Answered(value: V) | Failed

  datatype Memo<!T, V> = Memo(value: Option<V>, holder: Option<T>, tasks: map<T, Phase<V>>, computed: nat)

  /** Raise is an exception or a cancellation, while computing or while waiting. */
  datatype Action<T, V> = Look(t: T) | Lock(t: T) | Finish(t: T, v: V) | Raise(t: T)

  predicate Enabled<T(==), V>(s: Memo<T, V>, a: Action<T, V>) {
    a.t in s.tasks &&
    match a
    case Look(t) => s.tasks[t].Asking?
    case Lock(t) => s.tasks[t].Waiting? && s.holder.None?
    case Finish(t, _) => s.tasks[t].Computing?
    case Raise(t) => s.tasks[t].Computing? || s.tasks[t].Waiting?
  }

  function Do<T(==), V>(s: Memo<T, V>, a: Action<T, V>): Memo<T, V>
    requires Enabled(s, a)
  {
    match a
    case Look(t) =>
      s.(tasks := s.tasks[t := if s.value.Some? then Answered(s.value.value) else Waiting])
    case Lock(t) =>
      if s.value.Some? then s.(tasks := s.tasks[t := Answered(s.value.value)])
      else s.(holder := Some(t), tasks := s.tasks[t := Computing])
    case Finish(t, v) =>
      s.(value := Some(v), holder := None, tasks := s.tasks[t := Answered(v)], computed := s.computed + 1)
    case Raise(t) => s.(holder := if s.tasks[t].Computing? then None else s.holder, tasks := s.tasks[t := Failed])
  }

  ghost predicate Inv<T, V>(s: Memo<T, V>) {
    && (forall t <- s.tasks :: s.tasks[t].Computing? <==> s.holder == Some(t))
    && (s.holder.Some? ==> s.value.None? && s.holder.value in s.tasks)
    && (forall t <- s.tasks :: s.tasks[t].Answered? ==> s.value == Some(s.tasks[t].value))
    && s.computed == if s.value.Some? then 1 else 0
  }

  ghost predicate Legal<T, V>(s: Memo<T, V>, run: seq<Action<T, V>>)
    decreases run
  {
    run == [] || (Enabled(s, run[0]) && Legal(Do(s, run[0]), run[1..]))
  }

  ghost function Run<T, V>(s: Memo<T, V>, run: seq<Action<T, V>>): Memo<T, V>
    requires Legal(s, run)
    decreases run
  {
    if run == [] then s else Run(Do(s, run[0]), run[1..])
  }

  lemma {:induction false} RunInv<T, V>(s: Memo<T, V>, run: seq<Action<T, V>>)
    requires Inv(s) && Legal(s, run)
    ensures Inv(Run(s, run))
    decreases run
  {
    if run != [] {
      RunInv(Do(s, run[0]), run[1..]);
    }
  }

  /** However the tasks interleave, the value is computed at most once, and every task that gets an answer gets that
      one. */
  lemma {:induction false} ComputedOnce<T, V>(tasks: map<T, Phase<V>>, run: seq<Action<T, V>>)
    requires forall t <- tasks :: tasks[t].Asking?
    requires Legal(Memo(None, None, tasks, 0), run)
    ensures var s := Run(Memo(None, None, tasks, 0), run);
            && s.computed <= 1
            && forall t, u | t in s.tasks && u in s.tasks && s.tasks[t].Answered? && s.tasks[u].Answered? ::
                 s.tasks[t] == s.tasks[u]
  {
    RunInv(Memo(None, None, tasks, 0), run);
  }

  /** No task is stuck: one that waits is two steps from its answer at most, those of whoever holds the lock and its
      own. */
  lemma {:induction false} NobodyIsStuck<T, V>(s: Memo<T, V>, t: T, v: V)
    requires Inv(s) && t in s.tasks && s.tasks[t].Waiting?
    ensures var run := if s.holder.Some? then [Finish(s.holder.value, v), Lock(t)]
                       else if s.value.Some? then [Lock(t)]
                       else [Lock(t), Finish(t, v)];
            Legal(s, run) && t in Run(s, run).tasks &&
            Run(s, run).tasks[t] == Answered(if s.value.Some? then s.value.value else v)
  {
    var first := if s.holder.Some? then Finish(s.holder.value, v) else Lock(t);
    var next := Do(s, first);
    if s.value.None? {
      var second := if s.holder.Some? then Lock(t) else Finish(t, v);
      assert [first, second][1..] == [second];
      OneStep(next, second);
    } else {
      OneStep(s, first);
    }
  }

  lemma {:induction false} OneStep<T, V>(s: Memo<T, V>, a: Action<T, V>)
    requires Enabled(s, a)
    ensures Legal(s, [a]) && Run(s, [a]) == Do(s, a)
  {
    assert [a][1..] == [];
  }

  // ----- the mail sweep, over a batch -----

  /** What a handler does with the account's mail: change it, ask for the memoised sweep, or file under the sweep's key
      one it has made itself (Thread/get). */
  datatype Op<!S> = Change(effect: S -> S) | Ask | Donate

  /** One call: what its handler does up to where it returns or raises. What it does and what it is called have nothing
      to do with each other; the memo is cleared by name. */
  datatype Call<!S> = Call(name: string, ops: seq<Op<S>>, raised: bool)

  /** The mail store, and the memoised sweep of it if there is one. */
  datatype Mail<S, W> = Mail(store: S, memo: Option<W>)

  predicate Clears<S>(c: Call<S>) {
    !c.raised && Dispatch.IsSet(c.name)
  }

  function Memoised<S, W>(m: Mail<S, W>, sweep: S -> W): Mail<S, W> {
    if m.memo.Some? then m else m.(memo := Some(sweep(m.store)))
  }

  function AfterOps<S, W>(m: Mail<S, W>, ops: seq<Op<S>>, sweep: S -> W): Mail<S, W> {
    if ops == [] then m
    else
      var n := |ops| - 1;
      var before := AfterOps(m, ops[..n], sweep);
      match ops[n]
      case Change(effect) => before.(store := effect(before.store))
      case Ask => Memoised(before, sweep)
      case Donate => Memoised(before, sweep)
  }

  function AfterCall<S, W>(m: Mail<S, W>, c: Call<S>, sweep: S -> W): Mail<S, W> {
    var after := AfterOps(m, c.ops, sweep);
    if Clears(c) then after.(memo := None) else after
  }

  ghost function AfterCalls<S, W>(m: Mail<S, W>, calls: seq<Call<S>>, sweep: S -> W): Mail<S, W> {
    if calls == [] then m
    else AfterCall(AfterCalls(m, calls[..|calls| - 1], sweep), calls[|calls| - 1], sweep)
  }

  /** What the last Ask of these was answered, from which the handler makes its state string. */
  function Reported<S, W>(m: Mail<S, W>, ops: seq<Op<S>>, sweep: S -> W): Option<W> {
    if ops == [] then None
    else
      var n := |ops| - 1;
      if ops[n].Ask? then AfterOps(m, ops, sweep).memo else Reported(m, ops[..n], sweep)
  }

  class RequestContext<S, W> {
    const sweep: S -> W
    var store: S
    var values: map<string, W>

    constructor (sweep: S -> W, store: S)
      ensures this.sweep == sweep && State() == Mail(store, None)
    {
      this.sweep, this.store, values := sweep, store, map[];
    }

    function State(): Mail<S, W>
      reads this
    {
      Mail(store, if "mail_sweep" in values then Some(values["mail_sweep"]) else None)
    }

    method GetOrCompute(key: string, compute: S -> W) returns (v: W)
      modifies this`values
      ensures v == if key in old(values) then old(values)[key] else compute(store)
      ensures values == old(values)[key := v]
    {
      if key in values {
        v := values[key];
        assert values == values[key := v];
        return;
      }
      v := compute(store);
      values := values[key := v];
    }

    method InvalidateCache()
      modifies this`values
      ensures values == map[]
    {
      values := map[];
    }

    method Perform(c: Call<S>) returns (reported: Option<W>)
      modifies this
      ensures State() == AfterCall(old(State()), c, sweep)
      ensures reported == Reported(old(State()), c.ops, sweep)
    {
      reported := None;
      for i := 0 to |c.ops|
        invariant State() == AfterOps(old(State()), c.ops[..i], sweep)
        invariant reported == Reported(old(State()), c.ops[..i], sweep)
      {
        assert c.ops[..i + 1][..i] == c.ops[..i];
        match c.ops[i]
        case Change(effect) =>
          store := effect(store);
        case Ask =>
          var w := GetOrCompute("mail_sweep", sweep);
          reported := Some(w);
        case Donate =>
          var already := sweep(store);
          var kept := GetOrCompute("mail_sweep", _ => already);
      }
      assert c.ops[..|c.ops|] == c.ops;
      if Clears(c) {
        InvalidateCache();
      }
    }
  }

  // ----- which sweep is held -----

  /** What was done since the memo was last cleared. */
  function Since<S>(calls: seq<Call<S>>): seq<Op<S>> {
    if calls == [] then []
    else
      var n := |calls| - 1;
      if Clears(calls[n]) then [] else Since(calls[..n]) + calls[n].ops
  }

  function Stored<S>(store: S, ops: seq<Op<S>>): S {
    if ops == [] then store
    else
      var n := |ops| - 1;
      var before := Stored(store, ops[..n]);
      if ops[n].Change? then ops[n].effect(before) else before
  }

  /** The store when the memo was last cleared, or when the batch began. */
  function StoreThen<S>(store: S, calls: seq<Call<S>>): S {
    if calls == [] then store
    else
      var n := |calls| - 1;
      var start := StoreThen(store, calls[..n]);
      if Clears(calls[n]) then Stored(start, Since(calls[..n]) + calls[n].ops) else start
  }

  /** How much was done before the sweep was first asked for or filed; all of it if it was not. */
  function Unswept<S>(ops: seq<Op<S>>): (k: nat)
    ensures k <= |ops|
  {
    if ops == [] then 0
    else
      var n := |ops| - 1;
      var k := Unswept(ops[..n]);
      if k == n && ops[n].Change? then n + 1 else k
  }

  predicate Fresh<S, W(==)>(m: Mail<S, W>, sweep: S -> W) {
    m.memo.None? || m.memo.value == sweep(m.store)
  }

  function Held<S, W>(store: S, ops: seq<Op<S>>, sweep: S -> W): Mail<S, W> {
    Mail(Stored(store, ops),
         if Unswept(ops) == |ops| then None else Some(sweep(Stored(store, ops[..Unswept(ops)]))))
  }

  lemma {:induction false} HeldWithin<S, W>(store: S, before: seq<Op<S>>, ops: seq<Op<S>>, sweep: S -> W)
    ensures AfterOps(Held(store, before, sweep), ops, sweep) == Held(store, before + ops, sweep)
  {
    if ops == [] {
      assert before + ops == before;
    } else {
      var n := |ops| - 1;
      HeldWithin(store, before, ops[..n], sweep);
      var all := before + ops;
      assert all[..|all| - 1] == before + ops[..n] && all[|all| - 1] == ops[n];
      var k := Unswept(before + ops[..n]);
      assert all[..k] == (before + ops[..n])[..k];
    }
  }

  /** After every batch the sweep held is the one first made since the memo was last cleared, of the store as it was
      then. */
  lemma {:induction false} HeldAfter<S, W>(store: S, calls: seq<Call<S>>, sweep: S -> W)
    ensures AfterCalls(Mail(store, None), calls, sweep) == Held(StoreThen(store, calls), Since(calls), sweep)
  {
    if calls != [] {
      var n := |calls| - 1;
      HeldAfter(store, calls[..n], sweep);
      HeldWithin(StoreThen(store, calls[..n]), Since(calls[..n]), calls[n].ops, sweep);
    }
  }

  /** Whatever the handlers do: the memo is fresh after a batch if and only if nothing changed by calls that did not
      clear it, since the sweep was made, shows in a sweep. */
  lemma {:induction false} FreshExactly<S, W>(store: S, calls: seq<Call<S>>, sweep: S -> W)
    ensures var ops, start := Since(calls), StoreThen(store, calls);
            Fresh(AfterCalls(Mail(store, None), calls, sweep), sweep)
            <==> sweep(Stored(start, ops[..Unswept(ops)])) == sweep(Stored(start, ops))
  {
    HeldAfter(store, calls, sweep);
    var ops := Since(calls);
    assert ops[..|ops|] == ops;
  }

  /** The same for a handler that asks after `ops` of its own: it reports the sweep first made since the memo was last
      cleared, by whichever call, of the store as it was then, whatever has been changed since. */
  lemma {:induction false} ReportsWhatWasSwept<S, W>(store: S, calls: seq<Call<S>>, ops: seq<Op<S>>, sweep: S -> W)
    ensures var before := AfterCalls(Mail(store, None), calls, sweep);
            var all, start := Since(calls) + ops, StoreThen(store, calls);
            && AfterOps(before, ops, sweep).store == Stored(start, all)
            && Reported(before, ops + [Ask], sweep) == Some(sweep(Stored(start, all[..Unswept(all)])))
  {
    HeldAfter(store, calls, sweep);
    var all, start := Since(calls) + ops, StoreThen(store, calls);
    HeldWithin(start, Since(calls), ops, sweep);
    HeldWithin(start, Since(calls), ops + [Ask], sweep);
    assert (ops + [Ask])[..|ops|] == ops;
    assert Since(calls) + (ops + [Ask]) == all + [Ask] && (all + [Ask])[..|all|] == all;
    assert (all + [Ask])[..Unswept(all)] == all[..Unswept(all)];
  }

  // ----- while only Foo/set and Email/import write -----

  ghost predicate Writes<S>(ops: seq<Op<S>>) {
    exists op <- ops :: op.Change?
  }

  /** No handler but that of a Foo/set or of Email/import changes anything, and none that did raises. */
  ghost predicate WritesAreCleared<S>(calls: seq<Call<S>>) {
    forall c <- calls :: Writes(c.ops) ==> Dispatch.IsSet(c.name) && !c.raised
  }

  lemma {:induction false} NothingUncleared<S>(calls: seq<Call<S>>)
    requires WritesAreCleared(calls)
    ensures !Writes(Since(calls))
  {
    if calls != [] {
      var n := |calls| - 1;
      assert forall c <- calls[..n] :: c in calls;
      NothingUncleared(calls[..n]);
      assert calls[n] in calls;
    }
  }

  lemma {:induction false} NothingStored<S>(store: S, ops: seq<Op<S>>, more: seq<Op<S>>)
    requires !Writes(more)
    ensures Stored(store, ops + more) == Stored(store, ops)
  {
    if more == [] {
      assert ops + more == ops;
    } else {
      var n := |more| - 1;
      assert forall op <- more[..n] :: op in more;
      NothingStored(store, ops, more[..n]);
      assert (ops + more)[..|ops + more| - 1] == ops + more[..n];
      assert more[n] in more;
    }
  }

  lemma {:induction false} NothingUnswept<S>(ops: seq<Op<S>>)
    requires !Writes(ops)
    ensures Unswept(ops) == 0
  {
    if ops != [] {
      var n := |ops| - 1;
      assert forall op <- ops[..n] :: op in ops;
      NothingUnswept(ops[..n]);
      assert ops[n] in ops;
    }
  }

  /** Then every handler that writes nothing reports the sweep of the store as it is: what it would report had nothing
      been memoised. */
  lemma {:induction false} ReadsAreUncached<S, W>(store: S, calls: seq<Call<S>>, ops: seq<Op<S>>, sweep: S -> W)
    requires WritesAreCleared(calls) && !Writes(ops)
    ensures var before := AfterCalls(Mail(store, None), calls, sweep);
            && Fresh(before, sweep)
            && Reported(before, ops + [Ask], sweep) == Some(sweep(before.store))
            && AfterOps(before, ops, sweep).store == before.store
  {
    var since := Since(calls);
    NothingUncleared(calls);
    NothingUnswept(since);
    NothingUnswept(since + ops);
    NothingStored(StoreThen(store, calls), [], since);
    NothingStored(StoreThen(store, calls), [], since + ops);
    assert [] + since == since && [] + (since + ops) == since + ops;
    HeldAfter(store, calls, sweep);
    FreshExactly(store, calls, sweep);
    ReportsWhatWasSwept(store, calls, ops, sweep);
  }

  /** A handler that changes things and then asks does so before the sweep is dropped. Its newState is the state it
      leaves exactly when no call since the last write had swept, or its changes do not show in a sweep. */
  lemma {:induction false} NewStateIsNewExactly<S, W>(store: S, calls: seq<Call<S>>, ops: seq<Op<S>>, sweep: S -> W)
    requires WritesAreCleared(calls) && forall op <- ops :: op.Change?
    ensures var before := AfterCalls(Mail(store, None), calls, sweep);
            var after := AfterOps(before, ops + [Ask], sweep);
            Reported(before, ops + [Ask], sweep) == Some(sweep(after.store))
            <==> before.memo.None? || sweep(after.store) == sweep(before.store)
  {
    ReadsAreUncached(store, calls, [], sweep);
    var before := AfterCalls(Mail(store, None), calls, sweep);
    KeepsItsMemo(before, ops, sweep);
    assert (ops + [Ask])[..|ops|] == ops;
  }

  lemma {:induction false} KeepsItsMemo<S, W>(m: Mail<S, W>, ops: seq<Op<S>>, sweep: S -> W)
    requires forall op <- ops :: op.Change?
    ensures AfterOps(m, ops, sweep).memo == m.memo
  {
    if ops != [] {
      var n := |ops| - 1;
      assert forall op <- ops[..n] :: op in ops;
      KeepsItsMemo(m, ops[..n], sweep);
      assert ops[n] in ops;
    }
  }

  // ----- cases -----

  /** A store that only counts messages, and a sweep that reads the count. */
  const COUNT: nat -> nat := n => n
  const ADD: Op<nat> := Change(n => n + 1)
  const GET: Call<nat> := Call("Email/get", [Ask], false)

  lemma {:induction false} GetMemoises()
    ensures AfterCalls(Mail(0, None), [GET], COUNT) == Mail(0, Some(0))
  {
    assert [GET][..0] == [] && GET.ops[..0] == [];
    assert AfterOps(Mail(0, None), GET.ops, COUNT) == Mail(0, Some(0));
  }

  lemma {:induction false} AddIsNotSwept()
    ensures AfterOps(Mail(0, Some(0)), [ADD], COUNT) == Mail(1, Some(0))
  {
    assert [ADD][..0] == [];
  }

  /** Email/get, then an Email/import: its newState is the old one. */
  lemma {:induction false} NewStateIsOld()
    ensures var before := AfterCalls(Mail(0, None), [GET], COUNT);
            && Reported(before, [ADD, Ask], COUNT) == Some(0)
            && AfterOps(before, [ADD, Ask], COUNT).store == 1
  {
    GetMemoises();
    AddIsNotSwept();
    assert [ADD, Ask][..1] == [ADD];
  }

  /** Email/get, then an Email/set that changes something and raises: the next Email/get reports the state before. */
  lemma {:induction false} RaisedWriteIsNotSeen()
    ensures var calls := [GET, Call("Email/set", [ADD], true)];
            var after := AfterCalls(Mail(0, None), calls, COUNT);
            after.store == 1 && !Fresh(after, COUNT) && Reported(after, GET.ops, COUNT) == Some(0)
  {
    GetMemoises();
    AddIsNotSwept();
    var calls := [GET, Call("Email/set", [ADD], true)];
    assert calls[..1] == [GET] && GET.ops[..0] == [];
    assert AfterCalls(Mail(0, None), calls, COUNT) == Mail(1, Some(0));
  }
}
