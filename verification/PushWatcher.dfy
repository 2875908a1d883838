/**
  Watching an account for open event streams: who gets told of which change, and which watcher is on file.

  Polls come at intervals. A poll brings a cursor vector, or fails with an ImapError (or cannot connect), or fails with
  anything else: the loop survives the second and not the third, and the first command of every poll, LIST, is one
  that does not turn a lost connection into an ImapError (src/jmap_bridge/backends/imap/client.py:108-118). Sending is
  not part of this model; a queue's items are all that was ever put into it.
 */
module PushWatcher {
  import opened Wrappers

  datatype AccountKey = AccountKey(domain: string, email: string)

  class Queue<C> {
    var items: seq<C>

    constructor ()
      ensures items == []
    {
      items := [];
    }
  }

  // ----- what a subscriber should have been told -----

  /** Of the polls from index `from` on, those that differ from the one before. */
  function Changes<C(==)>(polls: seq<C>, from: nat): seq<C> {
    if |polls| <= from then []
    else
      var n := |polls| - 1;
      Changes(polls[..n], from) + (if n > 0 && polls[n] != polls[n - 1] then [polls[n]] else [])
  }

  lemma {:induction false} OneMorePoll<C>(polls: seq<C>, c: C, from: nat)
    requires from <= |polls|
    ensures Changes(polls + [c], from)
         == Changes(polls, from) + (if polls != [] && c != polls[|polls| - 1] then [c] else [])
  {
    assert (polls + [c])[..|polls|] == polls;
  }

  /** What was told last is how the last poll found things, and when nothing was told nothing had changed since the poll
      before the subscription, or the first one after it. */
  lemma {:induction false} ToldLastIsLatest<C>(polls: seq<C>, from: nat)
    requires from < |polls|
    ensures var told := Changes(polls, from);
            if told == [] then polls[|polls| - 1] == polls[if from == 0 then 0 else from - 1]
            else told[|told| - 1] == polls[|polls| - 1]
  {
    var n := |polls| - 1;
    if from < n {
      ToldLastIsLatest(polls[..n], from);
    } else {
      assert Changes(polls[..n], from) == [];
    }
  }

  /** Nothing is told twice in a row. */
  lemma {:induction false} NothingToldTwice<C>(polls: seq<C>, from: nat)
    ensures var told := Changes(polls, from); forall i | 0 <= i < |told| - 1 :: told[i] != told[i + 1]
  {
    if |polls| <= from {
      assert Changes(polls, from) == [];
    } else {
      var n := |polls| - 1;
      NothingToldTwice(polls[..n], from);
      if from < n {
        ToldLastIsLatest(polls[..n], from);
      } else {
        assert Changes(polls[..n], from) == [];
      }
    }
  }

  // ----- what a poll can come to -----

  /** What a poll at that moment brings, or how it fails. */
  datatype Tick<C> = Brought(cursors: C) | ImapFails | OtherFails

  /** The vectors the polls bring up to the first failure the loop does not catch. */
  function Heard<C(==)>(ticks: seq<Tick<C>>): seq<C> {
    if ticks == [] then []
    else
      var n := |ticks| - 1;
      Heard(ticks[..n]) + (if ticks[n].Brought? && OtherFails !in ticks[..n] then [ticks[n].cursors] else [])
  }

  /** The vectors there were to be brought. */
  function Standing<C>(ticks: seq<Tick<C>>): seq<C> {
    if ticks == [] then []
    else
      var n := |ticks| - 1;
      Standing(ticks[..n]) + (if ticks[n].Brought? then [ticks[n].cursors] else [])
  }

  lemma {:induction false} OneMoreTick<C>(ticks: seq<Tick<C>>, t: Tick<C>)
    ensures Heard(ticks + [t]) == Heard(ticks) + (if t.Brought? && OtherFails !in ticks then [t.cursors] else [])
    ensures Standing(ticks + [t]) == Standing(ticks) + (if t.Brought? then [t.cursors] else [])
  {
    assert (ticks + [t])[..|ticks|] == ticks;
  }

  /** Whatever fails with an ImapError, everything is heard. */
  lemma {:induction false} AllHeard<C>(ticks: seq<Tick<C>>)
    requires OtherFails !in ticks
    ensures Heard(ticks) == Standing(ticks)
  {
    if ticks != [] {
      AllHeard(ticks[..|ticks| - 1]);
    }
  }

  /** After the first other failure nothing is heard any more. */
  lemma {:induction false} HeardIsPrefix<C>(ticks: seq<Tick<C>>)
    ensures Heard(ticks) <= Standing(ticks)
  {
    if ticks != [] {
      var n := |ticks| - 1;
      HeardIsPrefix(ticks[..n]);
      if OtherFails !in ticks[..n] {
        AllHeard(ticks[..n]);
      }
    }
  }

  lemma {:induction false} NothingAfterIt<C>(ticks: seq<Tick<C>>, more: seq<Tick<C>>)
    requires OtherFails in ticks
    ensures Heard(ticks + more) == Heard(ticks)
  {
    if more == [] {
      assert ticks + more == ticks;
    } else {
      var n := |more| - 1;
      NothingAfterIt(ticks, more[..n]);
      assert ticks + more == (ticks + more[..n]) + [more[n]];
      OneMoreTick(ticks + more[..n], more[n]);
    }
  }

  lemma {:induction false} ChangesSplit<C>(p: seq<C>, q: seq<C>, from: nat)
    ensures Changes(p + q, from) == Changes(p, from) + Changes(p + q, if from < |p| then |p| else from)
  {
    if q == [] {
      assert p + q == p;
    } else {
      var n := |q| - 1;
      assert (p + q)[..|p + q| - 1] == p + q[..n];
      ChangesSplit(p, q[..n], from);
      if |p + q| <= from {
        assert Changes(p, from) == [];
      }
    }
  }

  lemma {:induction false} NoChanges<C>(polls: seq<C>, from: nat)
    ensures Changes(polls, from) == [] <==> forall k | from <= k < |polls| && 0 < k :: polls[k] == polls[k - 1]
  {
    if |polls| > from {
      var n := |polls| - 1;
      NoChanges(polls[..n], from);
      assert forall k | 0 <= k < n :: polls[..n][k] == polls[k];
    }
  }

  /** A queue has been told everything exactly when no vector that came after the loop had ended differs from the one
      before it. */
  lemma {:induction false} ToldEverythingExactly<C>(past: seq<C>, ticks: seq<Tick<C>>, from: nat)
    ensures var heard, all := past + Heard(ticks), past + Standing(ticks);
            var end := if from < |heard| then |heard| else from;
            Changes(heard, from) == Changes(all, from)
            <==> forall k | end <= k < |all| && 0 < k :: all[k] == all[k - 1]
  {
    var heard, all := past + Heard(ticks), past + Standing(ticks);
    HeardIsPrefix(ticks);
    var rest := Standing(ticks)[|Heard(ticks)|..];
    assert Standing(ticks) == Heard(ticks) + rest;
    assert heard + rest == all;
    ChangesSplit(heard, rest, from);
    NoChanges(all, if from < |heard| then |heard| else from);
  }

  /** A connection lost between two polls, found out by LIST: the change after it reaches nobody. */
  lemma {:induction false} ChangeAfterFailedListIsLost<C>(was: C, now: C)
    requires was != now
    ensures var ticks := [Brought(was), OtherFails, Brought(now)];
            Changes(Heard(ticks), 0) == [] && Changes(Standing(ticks), 0) == [now]
  {
    var one, two := [Brought(was)], [Brought(was), OtherFails];
    assert two == one + [OtherFails] && [Brought(was), OtherFails, Brought(now)] == two + [Brought(now)];
    assert one == [] + [Brought(was)];
    OneMoreTick([], Brought(was));
    OneMoreTick(one, OtherFails);
    OneMoreTick(two, Brought(now));
    assert OtherFails in two;
    OneMorePoll([], was, 0);
    OneMorePoll([was], now, 0);
    assert [] + [was] == [was];
  }

  lemma {:induction false} PollsWith<C>(past: seq<C>, ticks: seq<Tick<C>>, tick: Tick<C>)
    ensures past + Heard(ticks + [tick])
         == if tick.Brought? && OtherFails !in ticks then past + Heard(ticks) + [tick.cursors] else past + Heard(ticks)
    ensures |Standing(ticks)| <= |Standing(ticks + [tick])|
    ensures OtherFails !in ticks ==> Heard(ticks) == Standing(ticks)
  {
    OneMoreTick(ticks, tick);
    assert Heard(ticks) + [] == Heard(ticks);
    if OtherFails !in ticks {
      AllHeard(ticks);
    }
  }

  /** `task` is whether `_task` is set, `alive` whether that task is still in its loop. */
  class AccountWatcher<C(==)> {
    const key: AccountKey
    var subscribers: set<Queue<C>>
    var task: bool
    var alive: bool
    var lastCursors: Option<C>
    /** The polls heard before the task started, and what polls there were to be since. */
    ghost var past: seq<C>
    ghost var ticks: seq<Tick<C>>
    /** How many vectors there had been when a queue subscribed. */
    ghost var joined: map<Queue<C>, nat>

    ghost function Polls(): seq<C>
      reads this
    {
      past + Heard(ticks)
    }

    /** Every subscriber has been told exactly what changed in these polls since it subscribed. */
    ghost predicate Told(polls: seq<C>)
      reads this, subscribers
    {
      && lastCursors == (if polls == [] then None else Some(polls[|polls| - 1]))
      && forall q <- subscribers :: q in joined && q.items == Changes(polls, joined[q])
    }

    /** Every subscriber has been told what was heard; the task is set while there are subscribers, and polls until a
        poll fails outside ImapError. */
    ghost predicate Valid()
      reads this, subscribers
    {
      && Told(Polls())
      && (task <==> subscribers != {})
      && (alive <==> task && OtherFails !in ticks)
      && (forall q <- subscribers :: q in joined && joined[q] <= |past + Standing(ticks)|)
    }

    /** All is well: polling goes on and every queue holds all the changes there were since it subscribed. */
    ghost predicate TellsAll()
      reads this, subscribers
    {
      alive && forall q <- subscribers :: q in joined && q.items == Changes(past + Standing(ticks), joined[q])
    }

    constructor (key: AccountKey)
      ensures Valid() && this.key == key && subscribers == {} && Polls() == [] && ticks == []
    {
      this.key := key;
      subscribers, task, alive, lastCursors, past, ticks, joined := {}, false, false, None, [], [], map[];
    }

    /** Only a watcher without a task gets one: a task that has ended is not started again. */
    method Subscribe() returns (queue: Queue<C>)
      requires Valid()
      modifies this
      ensures Valid() && fresh(queue) && subscribers == old(subscribers) + {queue}
      ensures alive == (old(alive) || !old(task)) && Polls() == old(Polls())
      ensures if old(task) then past == old(past) && ticks == old(ticks) else ticks == []
      ensures joined == old(joined)[queue := |past + Standing(ticks)|]
    {
      queue := new Queue<C>();
      if !task {
        past, ticks := Polls(), [];
        assert past == old(Polls()) && Polls() == past;
        task, alive := true, true;
      }
      joined := joined[queue := |past + Standing(ticks)|];
      subscribers := subscribers + {queue};
      HeardIsPrefix(ticks);
    }

    /** True once nobody is left. */
    method Unsubscribe(queue: Queue<C>) returns (nobodyLeft: bool)
      requires Valid()
      modifies this
      ensures Valid() && subscribers == old(subscribers) - {queue} && (nobodyLeft <==> subscribers == {})
      ensures past == old(past) && ticks == old(ticks) && joined == old(joined)
      ensures alive == (old(alive) && !nobodyLeft)
    {
      subscribers := subscribers - {queue};
      if subscribers == {} && task {
        task, alive := false, false;
      }
      return subscribers == {};
    }

    method Notify(cursors: C)
      modifies subscribers
      ensures forall q <- subscribers :: q.items == old(q.items) + [cursors]
    {
      var todo := subscribers;
      while todo != {}
        invariant todo <= subscribers
        invariant forall q <- subscribers :: q.items == if q in todo then old(q.items) else old(q.items) + [cursors]
        decreases todo
      {
        var q :| q in todo;
        q.items := q.items + [cursors];
        todo := todo - {q};
      }
    }

    /** The rest of a turn once the vector is there. */
    method Compare(cursors: C, ghost polls: seq<C>)
      requires Told(polls) && forall q <- subscribers :: joined[q] <= |polls|
      modifies this`lastCursors, subscribers
      ensures Told(polls + [cursors])
      ensures forall q <- subscribers :: old(q.items) <= q.items
    {
      forall q <- subscribers
        ensures Changes(polls + [cursors], joined[q])
             == if polls != [] && cursors != polls[|polls| - 1] then q.items + [cursors] else q.items
      {
        OneMorePoll(polls, cursors, joined[q]);
        assert q.items + [] == q.items;
      }
      if lastCursors.Some? && cursors != lastCursors.value {
        Notify(cursors);
      }
      lastCursors := Some(cursors);
    }

    /** An interval goes by while the task is set: one turn of the loop if it still runs, nothing if it has ended. */
    method Poll(tick: Tick<C>)
      requires Valid() && task
      modifies this`alive, this`lastCursors, this`ticks, subscribers
      ensures Valid()
      ensures ticks == old(ticks) + [tick]
      ensures alive <==> old(alive) && !tick.OtherFails?
      ensures forall q <- subscribers :: old(q.items) <= q.items && (!old(alive) ==> q.items == old(q.items))
    {
      PollsWith(past, ticks, tick);
      if alive {
        match tick
        case ImapFails =>
        case OtherFails =>
          alive := false;
        case Brought(cursors) =>
          Compare(cursors, Polls());
      }
      ticks := ticks + [tick];
    }
  }

  /** All is well if and only if no poll since the task started failed with anything but an ImapError. */
  lemma {:induction false} TellsAllExactly<C>(watcher: AccountWatcher<C>)
    requires watcher.Valid() && watcher.task
    ensures watcher.TellsAll() <==> OtherFails !in watcher.ticks
  {
    if OtherFails !in watcher.ticks {
      AllHeard(watcher.ticks);
    }
  }

  class AccountWatcherRegistry<C(==)> {
    var watchers: map<AccountKey, AccountWatcher<C>>
    /** Every watcher there has been. */
    ghost var known: set<AccountWatcher<C>>

    /** A watcher is on file, under its key, exactly while it has subscribers. */
    ghost predicate Valid()
      reads this, known
    {
      && (forall k <- watchers :: watchers[k] in known && watchers[k].key == k)
      && (forall w <- known :: w.subscribers != {} <==> w.key in watchers && watchers[w.key] == w)
    }

    constructor ()
      ensures Valid() && watchers == map[] && known == {}
    {
      watchers, known := map[], {};
    }

    method Subscribe(key: AccountKey) returns (watcher: AccountWatcher<C>, queue: Queue<C>)
      requires Valid() && (key in watchers ==> watchers[key].Valid())
      modifies this, if key in watchers then {watchers[key]} else {}
      ensures Valid() && watcher.Valid()
      ensures key in watchers && watchers[key] == watcher && queue in watcher.subscribers && fresh(queue)
      ensures if key in old(watchers) then watcher == old(watchers[key]) && known == old(known)
              else fresh(watcher) && known == old(known) + {watcher}
      ensures watcher.subscribers == (if key in old(watchers) then old(watchers[key].subscribers) else {}) + {queue}
      ensures watcher.alive == (key in old(watchers) ==> old(watchers[key].alive))
    {
      if key in watchers {
        watcher := watchers[key];
      } else {
        watcher := new AccountWatcher<C>(key);
        watchers := watchers[key := watcher];
        known := known + {watcher};
      }
      queue := watcher.Subscribe();
    }

    /** Also called again for a queue that is gone, and for a watcher that is no longer on file. */
    method Unsubscribe(watcher: AccountWatcher<C>, queue: Queue<C>)
      requires Valid() && watcher in known && watcher.Valid()
      modifies this`watchers, watcher
      ensures Valid() && watcher.Valid() && watcher.subscribers == old(watcher.subscribers) - {queue}
      ensures watchers - {watcher.key} == old(watchers) - {watcher.key}
    {
      var nobodyLeft := watcher.Unsubscribe(queue);
      if nobodyLeft && watcher.key in watchers && watchers[watcher.key] == watcher {
        watchers := watchers - {watcher.key};
      }
    }
  }
}
