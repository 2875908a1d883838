/**
  The credential-passthrough IMAP connection pool: one lock, one condition variable.

  A section that holds the lock runs as one step. Between sections tasks wait, connect, or use what they were lent,
  in any interleaving. Time is a number handed to the steps that read the clock.
 */
module ConnectionPool {
  datatype Key = Key(domain: string, username: string)
  type Hash = string
  type Task = nat
  type Connection = nat

  datatype Entry = Entry(connection: Connection, passwordHash: Hash, lastUsed: int)

  datatype Request = Request(key: Key, hash: Hash)

  /** Where a task stands between two sections. */
  datatype Phase =
    | Waiting(request: Request, notified: bool)
    | Connecting(request: Request)
    | Using(request: Request, connection: Connection)

  /** The pool's fields, the tasks around it, the slots lost per key, and, for every connection ever made, the key and
      hash that opened it. */
  datatype State = State(
    idle: map<Key, seq<Entry>>, openCount: map<Key, int>, tasks: map<Task, Phase>, openers: map<Connection, Request>,
    lost: map<Key, nat>)

  type Limits = Key -> nat
  type Thresholds = map<Key, int>

  const DEFAULT_IDLE_EVICTION_SECONDS := 300

  datatype Action =
    | Begin(task: Task, request: Request)
    | Retry(task: Task)
    | GiveUp(task: Task)                             // the wait timed out, or was cancelled
    | Connected(task: Task, connection: Connection)
    | ConnectFailed(task: Task)
    | Release(task: Task, ok: bool, now: int)
    | Cancelled(task: Task)                          // inside the connect, or while the release waits for the lock
    | Sweep(now: int, thresholds: Thresholds)

  function Idle(s: State, k: Key): seq<Entry> {
    if k in s.idle then s.idle[k] else []
  }

  function Count(counts: map<Key, int>, k: Key, default: int): int {
    if k in counts then counts[k] else default
  }

  function Open(s: State, k: Key): int {
    Count(s.openCount, k, 0)
  }

  predicate Enabled(s: State, a: Action) {
    match a
    case Begin(t, _) => t !in s.tasks
    case Retry(t) => t in s.tasks && s.tasks[t].Waiting? && s.tasks[t].notified
    case GiveUp(t) => t in s.tasks && s.tasks[t].Waiting?
    case Connected(t, c) => t in s.tasks && s.tasks[t].Connecting? && c !in s.openers
    case ConnectFailed(t) => t in s.tasks && s.tasks[t].Connecting?
    case Release(t, _, _) => t in s.tasks && s.tasks[t].Using?
    case Cancelled(t) => t in s.tasks && !s.tasks[t].Waiting?
    case Sweep(_, _) => true
  }

  // ----- the sections -----

  function FirstMatch(entries: seq<Entry>, hash: Hash): (i: nat)
    ensures i <= |entries|
    ensures i < |entries| ==> entries[i].passwordHash == hash
    ensures forall j | 0 <= j < i :: entries[j].passwordHash != hash
  {
    if entries == [] || entries[0].passwordHash == hash then 0 else 1 + FirstMatch(entries[1..], hash)
  }

  function NotifyAll(tasks: map<Task, Phase>): map<Task, Phase> {
    map t | t in tasks :: if tasks[t].Waiting? then Waiting(tasks[t].request, true) else tasks[t]
  }

  /** One turn of the acquire loop: reuse an idle connection of the same password, or drop every idle one and take a
      slot, or wait. */
  function Attempt(s: State, t: Task, r: Request, limit: nat): State {
    var i := FirstMatch(Idle(s, r.key), r.hash);
    if i < |Idle(s, r.key)| then Reuse(s, t, r, i)
    else if Open(s, r.key) - |Idle(s, r.key)| < limit then TakeSlot(s, t, r)
    else Sleep(s, t, r)
  }

  function Reuse(s: State, t: Task, r: Request, i: nat): State
    requires i < |Idle(s, r.key)|
  {
    var entries := s.idle[r.key];
    s.(idle := s.idle[r.key := entries[..i] + entries[i + 1..]], tasks := s.tasks[t := Using(r, entries[i].connection)])
  }

  /** Drops the idle connections of k, all of a rotated password, and their slots. Nobody is notified. */
  function Evict(s: State, k: Key): State {
    s.(idle := s.idle[k := []],
       openCount := if Idle(s, k) == [] then s.openCount else s.openCount[k := Open(s, k) - |Idle(s, k)|])
  }

  function TakeSlot(s: State, t: Task, r: Request): State {
    var e := Evict(s, r.key);
    e.(openCount := e.openCount[r.key := Open(e, r.key) + 1], tasks := e.tasks[t := Connecting(r)])
  }

  function Sleep(s: State, t: Task, r: Request): State {
    var e := Evict(s, r.key);
    e.(tasks := e.tasks[t := Waiting(r, false)])
  }

  function Returned(s: State, t: Task, ok: bool, now: int): State
    requires t in s.tasks && s.tasks[t].Using?
  {
    var r, c := s.tasks[t].request, s.tasks[t].connection;
    var rest := NotifyAll(s.tasks - {t});
    if ok then s.(idle := s.idle[r.key := Idle(s, r.key) + [Entry(c, r.hash, now)]], tasks := rest)
    else s.(openCount := s.openCount[r.key := Count(s.openCount, r.key, 1) - 1], tasks := rest)
  }

  function Failed(s: State, t: Task): State
    requires t in s.tasks && s.tasks[t].Connecting?
  {
    var k := s.tasks[t].request.key;
    s.(openCount := s.openCount[k := Count(s.openCount, k, 1) - 1], tasks := NotifyAll(s.tasks - {t}))
  }

  function Lost(s: State, k: Key): nat {
    if k in s.lost then s.lost[k] else 0
  }

  /** A cancelled task leaves without giving its slot back: CancelledError is no Exception. */
  function Lose(s: State, t: Task): State
    requires t in s.tasks && !s.tasks[t].Waiting?
  {
    var k := s.tasks[t].request.key;
    s.(tasks := s.tasks - {t}, lost := s.lost[k := Lost(s, k) + 1])
  }

  function Fresh(entries: seq<Entry>, now: int, threshold: int): (kept: seq<Entry>)
    ensures |kept| <= |entries|
  {
    if entries == [] then []
    else if now - entries[|entries| - 1].lastUsed > threshold then Fresh(entries[..|entries| - 1], now, threshold)
    else Fresh(entries[..|entries| - 1], now, threshold) + [entries[|entries| - 1]]
  }

  /** The connections Fresh leaves out. */
  function Overdue(entries: seq<Entry>, now: int, threshold: int): (cs: seq<Connection>)
    ensures |cs| == |entries| - |Fresh(entries, now, threshold)|
  {
    if entries == [] then []
    else
      var rest := Overdue(entries[..|entries| - 1], now, threshold);
      if now - entries[|entries| - 1].lastUsed > threshold then rest + [entries[|entries| - 1].connection] else rest
  }

  function AllOverdue(idle: map<Key, seq<Entry>>, keys: set<Key>, now: int, thresholds: Thresholds): set<Connection> {
    set k, c | k in keys && k in idle && c in Overdue(idle[k], now, Threshold(thresholds, k)) :: c
  }

  function Elements(cs: seq<Connection>): set<Connection> {
    set c | c in cs
  }

  lemma {:induction false} OverdueOneMore(idle: map<Key, seq<Entry>>, done: set<Key>, key: Key, now: int,
      thresholds: Thresholds, expired: seq<Connection>)
    requires key in idle && Elements(expired) == AllOverdue(idle, done, now, thresholds)
    ensures Elements(expired + Overdue(idle[key], now, Threshold(thresholds, key))) ==
            AllOverdue(idle, done + {key}, now, thresholds)
  {
    var more := Overdue(idle[key], now, Threshold(thresholds, key));
    assert Elements(expired + more) == Elements(expired) + Elements(more);
    assert AllOverdue(idle, done + {key}, now, thresholds) == AllOverdue(idle, done, now, thresholds) + Elements(more);
  }

  function Threshold(thresholds: Thresholds, k: Key): int {
    if k in thresholds then thresholds[k] else DEFAULT_IDLE_EVICTION_SECONDS
  }

  function Expired(s: State, k: Key, now: int, thresholds: Thresholds): nat {
    |Idle(s, k)| - |Fresh(Idle(s, k), now, Threshold(thresholds, k))|
  }

  function SweptIdle(s: State, keys: set<Key>, now: int, thresholds: Thresholds): map<Key, seq<Entry>> {
    map k | k in s.idle :: if k in keys then Fresh(s.idle[k], now, Threshold(thresholds, k)) else s.idle[k]
  }

  function SweptCount(s: State, k: Key, now: int, thresholds: Thresholds): int {
    Count(s.openCount, k, 1) - Expired(s, k, now, thresholds)
  }

  predicate Loses(s: State, keys: set<Key>, k: Key, now: int, thresholds: Thresholds) {
    k in keys && Expired(s, k, now, thresholds) > 0
  }

  function SweptCounts(s: State, keys: set<Key>, now: int, thresholds: Thresholds): map<Key, int> {
    map k | k in s.openCount.Keys + keys && (k in s.openCount || Loses(s, keys, k, now, thresholds)) ::
      if Loses(s, keys, k, now, thresholds) then SweptCount(s, k, now, thresholds) else Count(s.openCount, k, 0)
  }

  function Do(s: State, a: Action, limits: Limits): State
    requires Enabled(s, a)
  {
    match a
    case Begin(t, r) => Attempt(s, t, r, limits(r.key))
    case Retry(t) => Attempt(s, t, s.tasks[t].request, limits(s.tasks[t].request.key))
    case GiveUp(t) => s.(tasks := s.tasks - {t})
    case Connected(t, c) =>
      s.(tasks := s.tasks[t := Using(s.tasks[t].request, c)], openers := s.openers[c := s.tasks[t].request])
    case ConnectFailed(t) => Failed(s, t)
    case Release(t, ok, now) => Returned(s, t, ok, now)
    case Cancelled(t) => Lose(s, t)
    case Sweep(now, thresholds) =>
      State(SweptIdle(s, s.idle.Keys, now, thresholds), SweptCounts(s, s.idle.Keys, now, thresholds),
            NotifyAll(s.tasks), s.openers, s.lost)
  }

  // ----- the invariant -----

  predicate Holds(p: Phase, k: Key) {
    !p.Waiting? && p.request.key == k
  }

  /** The tasks that have taken a slot of k: connecting, or using a connection. */
  function Busy(tasks: map<Task, Phase>, k: Key): set<Task> {
    set t | t in tasks && Holds(tasks[t], k)
  }

  /** Slots are counted exactly: idle, lent, connecting and lost; and never more than allowed. */
  predicate CountedAt(s: State, limits: Limits, k: Key) {
    Open(s, k) == |Idle(s, k)| + |Busy(s.tasks, k)| + Lost(s, k) <= limits(k)
  }

  ghost predicate Counted(s: State, limits: Limits) {
    forall k: Key :: CountedAt(s, limits, k)
  }

  /** Every idle entry was opened under its key by its hash, and is listed once. */
  ghost predicate IdleOwned(s: State) {
    && (forall k, i | k in s.idle && 0 <= i < |s.idle[k]| ::
          var e := s.idle[k][i]; e.connection in s.openers && s.openers[e.connection] == Request(k, e.passwordHash))
    && (forall k, i, j | k in s.idle && 0 <= i < j < |s.idle[k]| :: s.idle[k][i].connection != s.idle[k][j].connection)
  }

  /** Every borrower uses a connection opened by its own key and password; no connection is lent twice, or lent and
      idle. */
  ghost predicate LentOwned(s: State) {
    && (forall t | t in s.tasks && s.tasks[t].Using? ::
          s.tasks[t].connection in s.openers && s.openers[s.tasks[t].connection] == s.tasks[t].request)
    && (forall t, u | t in s.tasks && u in s.tasks && t != u && s.tasks[t].Using? && s.tasks[u].Using? ::
          s.tasks[t].connection != s.tasks[u].connection)
    && (forall t, k, i | t in s.tasks && s.tasks[t].Using? && k in s.idle && 0 <= i < |s.idle[k]| ::
          s.idle[k][i].connection != s.tasks[t].connection)
  }

  /** Nobody sleeps beside a free slot. */
  ghost predicate NoLostWakeUp(s: State, limits: Limits) {
    forall t | t in s.tasks && s.tasks[t].Waiting? && !s.tasks[t].notified ::
      Idle(s, s.tasks[t].request.key) == [] && Open(s, s.tasks[t].request.key) >= limits(s.tasks[t].request.key)
  }

  ghost predicate Inv(s: State, limits: Limits) {
    Counted(s, limits) && IdleOwned(s) && LentOwned(s) && NoLostWakeUp(s, limits)
  }

  const EMPTY := State(map[], map[], map[], map[], map[])

  lemma {:induction false} EmptyInv(limits: Limits)
    ensures Inv(EMPTY, limits)
  {
    assert forall k: Key :: Busy(EMPTY.tasks, k) == {};
  }

  lemma {:induction false} BusyMember(tasks: map<Task, Phase>, t: Task, k: Key)
    ensures t in Busy(tasks, k) <==> t in tasks && Holds(tasks[t], k)
  {
  }

  lemma {:induction false} BusyAfterChange(tasks: map<Task, Phase>, t: Task, p: Phase, k: Key)
    ensures Busy(tasks[t := p], k) == if Holds(p, k) then Busy(tasks, k) + {t} else Busy(tasks, k) - {t}
  {
    var now := tasks[t := p];
    forall u ensures u in Busy(now, k) <==> if u == t then Holds(p, k) else u in Busy(tasks, k) {
      BusyMember(now, u, k);
      BusyMember(tasks, u, k);
    }
  }

  lemma {:induction false} BusyAfterLeaving(tasks: map<Task, Phase>, t: Task, k: Key)
    ensures Busy(tasks - {t}, k) == Busy(tasks, k) - {t}
  {
    var now := tasks - {t};
    forall u ensures u in Busy(now, k) <==> u != t && u in Busy(tasks, k) {
      BusyMember(now, u, k);
      BusyMember(tasks, u, k);
    }
  }

  lemma {:induction false} BusyAfterNotify(tasks: map<Task, Phase>, k: Key)
    ensures Busy(NotifyAll(tasks), k) == Busy(tasks, k)
  {
    var now := NotifyAll(tasks);
    forall u ensures u in Busy(now, k) <==> u in Busy(tasks, k) {
      BusyMember(now, u, k);
      BusyMember(tasks, u, k);
    }
  }

  lemma {:induction false} BusyWithout(tasks: map<Task, Phase>, t: Task, k: Key)
    requires t in tasks
    ensures var freed := if Holds(tasks[t], k) then 1 else 0;
            && |Busy(tasks - {t}, k)| == |Busy(tasks, k)| - freed
            && |Busy(NotifyAll(tasks - {t}), k)| == |Busy(tasks, k)| - freed
  {
    BusyMember(tasks, t, k);
    BusyAfterLeaving(tasks, t, k);
    BusyAfterNotify(tasks - {t}, k);
  }

  lemma {:induction false} BusyWith(tasks: map<Task, Phase>, t: Task, p: Phase, k: Key)
    ensures |Busy(tasks[t := p], k)|
         == |Busy(tasks, k)| + (if Holds(p, k) then 1 else 0) - (if t in tasks && Holds(tasks[t], k) then 1 else 0)
  {
    BusyMember(tasks, t, k);
    BusyAfterChange(tasks, t, p, k);
  }

  // ----- every step keeps it -----

  predicate MayAttempt(s: State, t: Task) {
    t in s.tasks ==> s.tasks[t].Waiting? && s.tasks[t].notified
  }

  lemma {:induction false} ReuseInv(s: State, t: Task, r: Request, i: nat, limits: Limits)
    requires Inv(s, limits) && MayAttempt(s, t) && i < |Idle(s, r.key)| && Idle(s, r.key)[i].passwordHash == r.hash
    ensures Inv(Reuse(s, t, r, i), limits)
  {
    var n := Reuse(s, t, r, i);
    var entries, rest, p := s.idle[r.key], n.idle[r.key], n.tasks[t];
    var c := entries[i].connection;
    forall k ensures CountedAt(n, limits, k) {
      assert CountedAt(s, limits, k);
      BusyAfterChange(s.tasks, t, p, k);
    }
    ReuseIdleOwned(s, t, r, i);
    ReuseLentOwned(s, t, r, i);
  }

  lemma {:induction false} ReuseLentOwned(s: State, t: Task, r: Request, i: nat)
    requires IdleOwned(s) && LentOwned(s) && MayAttempt(s, t) && i < |Idle(s, r.key)|
        && Idle(s, r.key)[i].passwordHash == r.hash
    ensures LentOwned(Reuse(s, t, r, i))
  {
    var n := Reuse(s, t, r, i);
    var e := s.idle[r.key][i];
    forall u, k, a | u in n.tasks && n.tasks[u].Using? && k in n.idle && 0 <= a < |n.idle[k]|
      ensures n.idle[k][a].connection != n.tasks[u].connection
    {
      var x := if k == r.key && i <= a then a + 1 else a;
      assert n.idle[k][a] == s.idle[k][x];
      if u == t {
        assert s.openers[s.idle[k][x].connection].key == k;
        assert k == r.key ==> s.idle[k][x].connection != e.connection;
      }
    }
  }

  lemma {:induction false} ReuseIdleOwned(s: State, t: Task, r: Request, i: nat)
    requires IdleOwned(s) && i < |Idle(s, r.key)|
    ensures IdleOwned(Reuse(s, t, r, i))
  {
    var n := Reuse(s, t, r, i);
    forall k, a, b | k in n.idle && 0 <= a < b < |n.idle[k]|
      ensures n.idle[k][a].connection != n.idle[k][b].connection
    {
      var x := if k == r.key && i <= a then a + 1 else a;
      var y := if k == r.key && i <= b then b + 1 else b;
      assert n.idle[k][a] == s.idle[k][x] && n.idle[k][b] == s.idle[k][y];
    }
    forall k, a | k in n.idle && 0 <= a < |n.idle[k]|
      ensures var e := n.idle[k][a]; e.connection in n.openers && n.openers[e.connection] == Request(k, e.passwordHash)
    {
      var x := if k == r.key && i <= a then a + 1 else a;
      assert n.idle[k][a] == s.idle[k][x];
    }
  }

  lemma {:induction false} EvictCount(s: State, k: Key, limits: Limits)
    requires Counted(s, limits)
    ensures Idle(Evict(s, k), k) == [] && Open(Evict(s, k), k) == |Busy(s.tasks, k)| + Lost(s, k)
        == Open(s, k) - |Idle(s, k)|
    ensures forall j | j != k :: Idle(Evict(s, k), j) == Idle(s, j) && Open(Evict(s, k), j) == Open(s, j)
  {
    assert CountedAt(s, limits, k);
  }

  lemma {:induction false} TakeSlotCounted(s: State, t: Task, r: Request, limits: Limits)
    requires Inv(s, limits) && MayAttempt(s, t) && Open(s, r.key) - |Idle(s, r.key)| < limits(r.key)
    ensures Counted(TakeSlot(s, t, r), limits)
  {
    EvictCount(s, r.key, limits);
    forall k ensures CountedAt(TakeSlot(s, t, r), limits, k) {
      assert CountedAt(s, limits, k);
      BusyWith(s.tasks, t, Connecting(r), k);
    }
  }

  lemma {:induction false} TakeSlotInv(s: State, t: Task, r: Request, limits: Limits)
    requires Inv(s, limits) && MayAttempt(s, t) && Open(s, r.key) - |Idle(s, r.key)| < limits(r.key)
    ensures Inv(TakeSlot(s, t, r), limits)
  {
    var n := TakeSlot(s, t, r);
    TakeSlotCounted(s, t, r, limits);
    EvictCount(s, r.key, limits);
    assert IdleOwned(n) && LentOwned(n);
    assert NoLostWakeUp(n, limits);
  }

  lemma {:induction false} SleepCounted(s: State, t: Task, r: Request, limits: Limits)
    requires Inv(s, limits) && MayAttempt(s, t)
    ensures Counted(Sleep(s, t, r), limits)
  {
    EvictCount(s, r.key, limits);
    forall k ensures CountedAt(Sleep(s, t, r), limits, k) {
      assert CountedAt(s, limits, k);
      BusyWith(s.tasks, t, Waiting(r, false), k);
    }
  }

  lemma {:induction false} SleepInv(s: State, t: Task, r: Request, limits: Limits)
    requires Inv(s, limits) && MayAttempt(s, t) && Open(s, r.key) - |Idle(s, r.key)| >= limits(r.key)
    ensures Inv(Sleep(s, t, r), limits)
  {
    var n := Sleep(s, t, r);
    SleepCounted(s, t, r, limits);
    EvictCount(s, r.key, limits);
    assert IdleOwned(n) && LentOwned(n);
    assert NoLostWakeUp(n, limits);
  }

  lemma {:induction false} AttemptInv(s: State, t: Task, r: Request, limits: Limits)
    requires Inv(s, limits) && MayAttempt(s, t)
    ensures Inv(Attempt(s, t, r, limits(r.key)), limits)
  {
    var i := FirstMatch(Idle(s, r.key), r.hash);
    if i < |Idle(s, r.key)| {
      ReuseInv(s, t, r, i, limits);
    } else if Open(s, r.key) - |Idle(s, r.key)| < limits(r.key) {
      TakeSlotInv(s, t, r, limits);
    } else {
      SleepInv(s, t, r, limits);
    }
  }

  lemma {:induction false} ReturnedCounted(s: State, t: Task, ok: bool, now: int, limits: Limits)
    requires Inv(s, limits) && Enabled(s, Release(t, ok, now))
    ensures Counted(Returned(s, t, ok, now), limits)
  {
    forall k ensures CountedAt(Returned(s, t, ok, now), limits, k) {
      ReturnedCountedAt(s, t, ok, now, limits, k);
    }
  }

  lemma {:induction false} ReturnedCountedAt(s: State, t: Task, ok: bool, now: int, limits: Limits, k: Key)
    requires CountedAt(s, limits, k) && Enabled(s, Release(t, ok, now))
    ensures CountedAt(Returned(s, t, ok, now), limits, k)
  {
    BusyWithout(s.tasks, t, k);
    BusyMember(s.tasks, t, k);
    assert Holds(s.tasks[t], k) ==> |Busy(s.tasks, k)| > 0;
  }

  lemma {:induction false} ReturnedOwned(s: State, t: Task, ok: bool, now: int)
    requires IdleOwned(s) && LentOwned(s) && Enabled(s, Release(t, ok, now))
    ensures IdleOwned(Returned(s, t, ok, now)) && LentOwned(Returned(s, t, ok, now))
  {
    var n := Returned(s, t, ok, now);
    if ok {
      var k := s.tasks[t].request.key;
      assert n.idle[k] == Idle(s, k) + [Entry(s.tasks[t].connection, s.tasks[t].request.hash, now)];
      assert IdleOwned(n);
    }
  }

  lemma {:induction false} ReturnedInv(s: State, t: Task, ok: bool, now: int, limits: Limits)
    requires Inv(s, limits) && Enabled(s, Release(t, ok, now))
    ensures Inv(Returned(s, t, ok, now), limits)
  {
    ReturnedCounted(s, t, ok, now, limits);
    ReturnedOwned(s, t, ok, now);
  }

  lemma {:induction false} FailedCounted(s: State, t: Task, limits: Limits)
    requires Inv(s, limits) && Enabled(s, ConnectFailed(t))
    ensures Counted(Failed(s, t), limits)
  {
    forall k ensures CountedAt(Failed(s, t), limits, k) {
      FailedCountedAt(s, t, limits, k);
    }
  }

  lemma {:induction false} FailedCountedAt(s: State, t: Task, limits: Limits, k: Key)
    requires CountedAt(s, limits, k) && Enabled(s, ConnectFailed(t))
    ensures CountedAt(Failed(s, t), limits, k)
  {
    BusyWithout(s.tasks, t, k);
    BusyMember(s.tasks, t, k);
    assert Holds(s.tasks[t], k) ==> |Busy(s.tasks, k)| > 0;
  }

  lemma {:induction false} FailedInv(s: State, t: Task, limits: Limits)
    requires Inv(s, limits) && Enabled(s, ConnectFailed(t))
    ensures Inv(Failed(s, t), limits)
  {
    var n := Failed(s, t);
    FailedCounted(s, t, limits);
    assert IdleOwned(n) && LentOwned(n);
  }

  lemma {:induction false} LoseInv(s: State, t: Task, limits: Limits)
    requires Inv(s, limits) && Enabled(s, Cancelled(t))
    ensures Inv(Lose(s, t), limits)
  {
    forall k ensures CountedAt(Lose(s, t), limits, k) {
      LoseCountedAt(s, t, limits, k);
    }
  }

  lemma {:induction false} LoseCountedAt(s: State, t: Task, limits: Limits, k: Key)
    requires CountedAt(s, limits, k) && Enabled(s, Cancelled(t))
    ensures CountedAt(Lose(s, t), limits, k)
  {
    BusyWithout(s.tasks, t, k);
  }

  lemma {:induction false} GiveUpInv(s: State, t: Task, limits: Limits)
    requires Inv(s, limits) && Enabled(s, GiveUp(t))
    ensures Inv(s.(tasks := s.tasks - {t}), limits)
  {
    forall k ensures CountedAt(s.(tasks := s.tasks - {t}), limits, k) {
      assert CountedAt(s, limits, k);
      BusyAfterLeaving(s.tasks, t, k);
      BusyMember(s.tasks, t, k);
    }
  }

  lemma {:induction false} ConnectedCounted(s: State, t: Task, c: Connection, limits: Limits)
    requires Inv(s, limits) && Enabled(s, Connected(t, c))
    ensures Counted(Do(s, Connected(t, c), limits), limits)
  {
    var n := Do(s, Connected(t, c), limits);
    forall k ensures CountedAt(n, limits, k) {
      assert CountedAt(s, limits, k);
      BusyWith(s.tasks, t, n.tasks[t], k);
    }
  }

  lemma {:induction false} ConnectedInv(s: State, t: Task, c: Connection, limits: Limits)
    requires Inv(s, limits) && Enabled(s, Connected(t, c))
    ensures Inv(Do(s, Connected(t, c), limits), limits)
  {
    var n := Do(s, Connected(t, c), limits);
    ConnectedCounted(s, t, c, limits);
    assert IdleOwned(n) && LentOwned(n);
  }

  lemma {:induction false} FreshKeeps(entries: seq<Entry>, now: int, threshold: int) returns (at: seq<nat>)
    ensures |at| == |Fresh(entries, now, threshold)|
    ensures forall i | 0 <= i < |at| :: at[i] < |entries| && Fresh(entries, now, threshold)[i] == entries[at[i]]
    ensures forall i, j | 0 <= i < j < |at| :: at[i] < at[j]
  {
    at := [];
    if entries != [] {
      var n := |entries| - 1;
      at := FreshKeeps(entries[..n], now, threshold);
      if now - entries[n].lastUsed <= threshold {
        at := at + [n];
      }
    }
  }

  lemma {:induction false} SweepIdleOwned(s: State, now: int, thresholds: Thresholds)
    requires IdleOwned(s)
    ensures IdleOwned(s.(idle := SweptIdle(s, s.idle.Keys, now, thresholds)))
    ensures forall k, i | k in s.idle && 0 <= i < |SweptIdle(s, s.idle.Keys, now, thresholds)[k]| ::
              SweptIdle(s, s.idle.Keys, now, thresholds)[k][i] in s.idle[k]
  {
    var n := s.(idle := SweptIdle(s, s.idle.Keys, now, thresholds));
    forall k | k in n.idle
      ensures forall i | 0 <= i < |n.idle[k]| :: n.idle[k][i] in s.idle[k]
      ensures forall i, j | 0 <= i < j < |n.idle[k]| :: n.idle[k][i].connection != n.idle[k][j].connection
    {
      var at := FreshKeeps(s.idle[k], now, Threshold(thresholds, k));
    }
  }

  lemma {:induction false} SweepCounted(s: State, now: int, thresholds: Thresholds, limits: Limits)
    requires Counted(s, limits)
    ensures Counted(Do(s, Sweep(now, thresholds), limits), limits)
  {
    var n := Do(s, Sweep(now, thresholds), limits);
    forall k ensures CountedAt(n, limits, k) {
      assert CountedAt(s, limits, k);
      BusyAfterNotify(s.tasks, k);
      assert Open(n, k) == Open(s, k) - Expired(s, k, now, thresholds);
    }
  }

  lemma {:induction false} SweepLentOwned(s: State, now: int, thresholds: Thresholds)
    requires IdleOwned(s) && LentOwned(s)
    ensures LentOwned(s.(idle := SweptIdle(s, s.idle.Keys, now, thresholds)))
  {
    var n := s.(idle := SweptIdle(s, s.idle.Keys, now, thresholds));
    SweepIdleOwned(s, now, thresholds);
    forall t, k, i | t in n.tasks && n.tasks[t].Using? && k in n.idle && 0 <= i < |n.idle[k]|
      ensures n.idle[k][i].connection != n.tasks[t].connection
    {
      var j :| 0 <= j < |s.idle[k]| && s.idle[k][j] == n.idle[k][i];
    }
  }

  lemma {:induction false} NotifyOwned(s: State)
    requires LentOwned(s)
    ensures LentOwned(s.(tasks := NotifyAll(s.tasks)))
  {
  }

  lemma {:induction false} SweepInv(s: State, now: int, thresholds: Thresholds, limits: Limits)
    requires Inv(s, limits)
    ensures Inv(Do(s, Sweep(now, thresholds), limits), limits)
  {
    SweepCounted(s, now, thresholds, limits);
    SweepIdleOwned(s, now, thresholds);
    SweepLentOwned(s, now, thresholds);
    NotifyOwned(s.(idle := SweptIdle(s, s.idle.Keys, now, thresholds)));
  }

  lemma {:induction false} StepInv(s: State, a: Action, limits: Limits)
    requires Inv(s, limits) && Enabled(s, a)
    ensures Inv(Do(s, a, limits), limits)
  {
    match a
    case Begin(t, r) => AttemptInv(s, t, r, limits);
    case Retry(t) => AttemptInv(s, t, s.tasks[t].request, limits);
    case GiveUp(t) => GiveUpInv(s, t, limits);
    case Connected(t, c) => ConnectedInv(s, t, c, limits);
    case ConnectFailed(t) => FailedInv(s, t, limits);
    case Release(t, ok, now) => ReturnedInv(s, t, ok, now, limits);
    case Cancelled(t) => LoseInv(s, t, limits);
    case Sweep(now, thresholds) => SweepInv(s, now, thresholds, limits);
  }

  // ----- every run -----

  predicate Legal(s: State, run: seq<Action>, limits: Limits)
    decreases |run|
  {
    run == [] || (Enabled(s, run[0]) && Legal(Do(s, run[0], limits), run[1..], limits))
  }

  function Run(s: State, run: seq<Action>, limits: Limits): State
    requires Legal(s, run, limits)
    decreases |run|
  {
    if run == [] then s else Run(Do(s, run[0], limits), run[1..], limits)
  }

  lemma {:induction false} RunInv(s: State, run: seq<Action>, limits: Limits)
    requires Inv(s, limits) && Legal(s, run, limits)
    ensures Inv(Run(s, run, limits), limits)
    decreases |run|
  {
    if run != [] {
      StepInv(s, run[0], limits);
      RunInv(Do(s, run[0], limits), run[1..], limits);
    }
  }

  /** The cancellations of a run that hit a task of k while it connected or released. */
  function Cancellations(s: State, run: seq<Action>, limits: Limits, k: Key): nat
    requires Legal(s, run, limits)
    decreases |run|
  {
    if run == [] then 0
    else
      Cancellations(Do(s, run[0], limits), run[1..], limits, k)
      + if run[0].Cancelled? && s.tasks[run[0].task].request.key == k then 1 else 0
  }

  lemma {:induction false} StepLost(s: State, a: Action, limits: Limits, k: Key)
    requires Enabled(s, a)
    ensures Lost(Do(s, a, limits), k) ==
            Lost(s, k) + if a.Cancelled? && s.tasks[a.task].request.key == k then 1 else 0
  {
  }

  lemma {:induction false} LostIsCancelled(s: State, run: seq<Action>, limits: Limits, k: Key)
    requires Legal(s, run, limits)
    ensures Lost(Run(s, run, limits), k) == Lost(s, k) + Cancellations(s, run, limits, k)
    decreases |run|
  {
    if run != [] {
      StepLost(s, run[0], limits, k);
      LostIsCancelled(Do(s, run[0], limits), run[1..], limits, k);
    }
  }

  /** In every interleaving, for every key: the count stays within the limit, and it is exactly the idle, lent and
      connecting connections if and only if no task of the key was cancelled while it connected or released. */
  lemma {:induction false} CountIsExact(run: seq<Action>, limits: Limits, k: Key)
    requires Legal(EMPTY, run, limits)
    ensures var s := Run(EMPTY, run, limits);
            && Open(s, k) <= limits(k)
            && Open(s, k) == |Idle(s, k)| + |Busy(s.tasks, k)| + Cancellations(EMPTY, run, limits, k)
            && (Open(s, k) == |Idle(s, k)| + |Busy(s.tasks, k)| <==> Cancellations(EMPTY, run, limits, k) == 0)
  {
    EmptyInv(limits);
    RunInv(EMPTY, run, limits);
    LostIsCancelled(EMPTY, run, limits, k);
    assert CountedAt(Run(EMPTY, run, limits), limits, k);
  }

  /** With one slot: a connect is cancelled, and the next task sleeps though nothing is idle, in use or connecting. */
  lemma {:induction false} SlotIsLost(limits: Limits, r: Request)
    requires limits(r.key) == 1
    ensures var run := [Begin(1, r), Cancelled(1), Begin(2, r)];
            && Legal(EMPTY, run, limits)
            && var s := Run(EMPTY, run, limits);
               Idle(s, r.key) == [] && Busy(s.tasks, r.key) == {} && s.tasks == map[2 := Waiting(r, false)]
  {
    var s1 := Do(EMPTY, Begin(1, r), limits);
    assert s1.tasks == map[1 := Connecting(r)] && Open(s1, r.key) == 1;
    var s2 := Do(s1, Cancelled(1), limits);
    assert s2.tasks == map[] && Open(s2, r.key) == 1 && Idle(s2, r.key) == [];
    RunOfThree(EMPTY, Begin(1, r), Cancelled(1), Begin(2, r), limits);
  }

  lemma {:induction false} RunOfThree(s: State, a: Action, b: Action, c: Action, limits: Limits)
    requires Enabled(s, a) && Enabled(Do(s, a, limits), b) && Enabled(Do(Do(s, a, limits), b, limits), c)
    ensures Legal(s, [a, b, c], limits)
    ensures Run(s, [a, b, c], limits) == Do(Do(Do(s, a, limits), b, limits), c, limits)
  {
    var s1 := Do(s, a, limits);
    var s2 := Do(s1, b, limits);
    assert [a, b, c][1..] == [b, c] && [b, c][1..] == [c] && [c][1..] == [];
    assert Legal(Do(s2, c, limits), [], limits);
    assert Legal(s2, [c], limits) && Run(s2, [c], limits) == Do(s2, c, limits);
    assert Legal(s1, [b, c], limits) && Run(s1, [b, c], limits) == Do(s2, c, limits);
  }

  /** In every interleaving: nobody uses a connection another password or account opened, no two tasks share one, and
      none in use is idle. */
  lemma {:induction false} ConnectionsAreOwned(run: seq<Action>, limits: Limits)
    requires Legal(EMPTY, run, limits)
    ensures var s := Run(EMPTY, run, limits);
            && (forall t | t in s.tasks && s.tasks[t].Using? ::
                  s.tasks[t].connection in s.openers && s.openers[s.tasks[t].connection] == s.tasks[t].request)
            && (forall t, u | t in s.tasks && u in s.tasks && t != u && s.tasks[t].Using? && s.tasks[u].Using? ::
                  s.tasks[t].connection != s.tasks[u].connection)
            && (forall t, k, i | t in s.tasks && s.tasks[t].Using? && k in s.idle && 0 <= i < |s.idle[k]| ::
                  s.idle[k][i].connection != s.tasks[t].connection)
  {
    EmptyInv(limits);
    RunInv(EMPTY, run, limits);
  }

  /** No lost wake-up, in every interleaving: a task sleeps unnotified only while no connection of its key is idle and
      every slot is taken by a task at work or was lost to a cancellation. */
  lemma {:induction false} SleepersAreRightToSleep(run: seq<Action>, limits: Limits, t: Task)
    requires Legal(EMPTY, run, limits)
    ensures var s := Run(EMPTY, run, limits);
            t in s.tasks && s.tasks[t].Waiting? && !s.tasks[t].notified ==>
              var k := s.tasks[t].request.key;
              Idle(s, k) == [] && |Busy(s.tasks, k)| + Cancellations(EMPTY, run, limits, k) == limits(k)
  {
    EmptyInv(limits);
    RunInv(EMPTY, run, limits);
    var s := Run(EMPTY, run, limits);
    if t in s.tasks && s.tasks[t].Waiting? && !s.tasks[t].notified {
      CountIsExact(run, limits, s.tasks[t].request.key);
    }
  }

  /** What one turn of the loop does, in any reachable state: it reuses exactly when some idle connection of the key was
      opened with the same password; otherwise it waits exactly when tasks at work and lost slots make up the limit. */
  lemma {:induction false} AttemptDecides(s: State, t: Task, r: Request, limits: Limits)
    requires Inv(s, limits) && MayAttempt(s, t)
    ensures var n := Attempt(s, t, r, limits(r.key));
            var matching := exists e <- Idle(s, r.key) :: e.passwordHash == r.hash;
            && (n.tasks[t].Using? <==> matching)
            && (n.tasks[t].Waiting? <==> !matching && |Busy(s.tasks, r.key)| + Lost(s, r.key) == limits(r.key))
            && (n.tasks[t].Waiting? ==> !n.tasks[t].notified)
            && (!matching ==> Idle(n, r.key) == [])
  {
    assert CountedAt(s, limits, r.key);
    var i := FirstMatch(Idle(s, r.key), r.hash);
    if i < |Idle(s, r.key)| {
      assert Idle(s, r.key)[i] in Idle(s, r.key);
    }
  }

  /** Opened, but neither idle nor in use. */
  ghost predicate Gone(s: State, c: Connection) {
    && c in s.openers
    && (forall t | t in s.tasks && s.tasks[t].Using? :: s.tasks[t].connection != c)
    && (forall k, i | k in s.idle && 0 <= i < |s.idle[k]| :: s.idle[k][i].connection != c)
  }

  lemma {:induction false} StepKeepsGone(s: State, a: Action, limits: Limits, c: Connection)
    requires Gone(s, c) && Enabled(s, a)
    ensures Gone(Do(s, a, limits), c)
  {
    match a
    case Begin(t, r) => AttemptKeepsGone(s, t, r, limits(r.key), c);
    case Retry(t) => AttemptKeepsGone(s, t, s.tasks[t].request, limits(s.tasks[t].request.key), c);
    case GiveUp(t) =>
    case Connected(t, d) =>
    case ConnectFailed(t) =>
    case Release(t, ok, now) =>
    case Cancelled(t) =>
    case Sweep(now, thresholds) =>
      var n := Do(s, a, limits);
      forall k, i | k in n.idle && 0 <= i < |n.idle[k]| ensures n.idle[k][i].connection != c {
        var at := FreshKeeps(s.idle[k], now, Threshold(thresholds, k));
        assert n.idle[k][i] == s.idle[k][at[i]];
      }
  }

  lemma {:induction false} AttemptKeepsGone(s: State, t: Task, r: Request, limit: nat, c: Connection)
    requires Gone(s, c)
    ensures Gone(Attempt(s, t, r, limit), c)
  {
    var n := Attempt(s, t, r, limit);
    var i := FirstMatch(Idle(s, r.key), r.hash);
    forall k, j | k in n.idle && 0 <= j < |n.idle[k]| ensures n.idle[k][j].connection != c {
      var x := if k == r.key && i < |Idle(s, k)| && i <= j then j + 1 else j;
      assert n.idle[k][j] == s.idle[k][x];
    }
  }

  /** Connections that leave the pool never come back: over every run from there, none is idle or lent again. */
  lemma {:induction false} GoneStaysGone(s: State, run: seq<Action>, limits: Limits, c: Connection)
    requires Gone(s, c) && Legal(s, run, limits)
    ensures Gone(Run(s, run, limits), c)
    decreases |run|
  {
    if run != [] {
      StepKeepsGone(s, run[0], limits, c);
      GoneStaysGone(Do(s, run[0], limits), run[1..], limits, c);
    }
  }

  /** A connection whose borrower's body raised, or was cancelled while it held it, is never idle or lent again. */
  lemma {:induction false} DamagedNeverComesBack(before: seq<Action>, t: Task, now: int, after: seq<Action>,
                                                 limits: Limits)
    requires Legal(EMPTY, before, limits)
    requires var s := Run(EMPTY, before, limits); t in s.tasks && s.tasks[t].Using?
    ensures var s := Run(EMPTY, before, limits);
            var c := s.tasks[t].connection;
            && (Legal(Do(s, Release(t, false, now), limits), after, limits) ==>
                  Gone(Run(Do(s, Release(t, false, now), limits), after, limits), c))
            && (Legal(Do(s, Cancelled(t), limits), after, limits) ==>
                  Gone(Run(Do(s, Cancelled(t), limits), after, limits), c))
  {
    var s := Run(EMPTY, before, limits);
    EmptyInv(limits);
    RunInv(EMPTY, before, limits);
    DroppedIsGone(s, t, now, limits);
    if Legal(Do(s, Release(t, false, now), limits), after, limits) {
      GoneStaysGone(Do(s, Release(t, false, now), limits), after, limits, s.tasks[t].connection);
    }
    if Legal(Do(s, Cancelled(t), limits), after, limits) {
      GoneStaysGone(Do(s, Cancelled(t), limits), after, limits, s.tasks[t].connection);
    }
  }

  lemma {:induction false} DroppedIsGone(s: State, t: Task, now: int, limits: Limits)
    requires Inv(s, limits) && t in s.tasks && s.tasks[t].Using?
    ensures Gone(Do(s, Release(t, false, now), limits), s.tasks[t].connection)
    ensures Gone(Do(s, Cancelled(t), limits), s.tasks[t].connection)
  {
  }

  /** A connection given back sound is idle under the key and with the password that opened it, last of all and last
      used now; no slot changes hands, and whoever waits is told. */
  lemma {:induction false} SoundComesBack(s: State, t: Task, now: int, limits: Limits)
    requires Inv(s, limits) && t in s.tasks && s.tasks[t].Using?
    ensures var n, c := Do(s, Release(t, true, now), limits), s.tasks[t].connection;
            && c in s.openers
            && var opener := s.openers[c];
               && Idle(n, opener.key) == Idle(s, opener.key) + [Entry(c, opener.hash, now)]
               && (forall k | k != opener.key :: Idle(n, k) == Idle(s, k))
               && n.openCount == s.openCount && t !in n.tasks
               && (forall u | u in n.tasks && n.tasks[u].Waiting? :: n.tasks[u].notified)
  {
  }

  // ----- which connections a sweep drops -----

  /** A sweep keeps, in order, exactly the entries used no longer ago than the threshold. */
  lemma {:induction false} FreshExactly(entries: seq<Entry>, now: int, threshold: int)
    ensures forall e :: e in Fresh(entries, now, threshold) <==> e in entries && now <= e.lastUsed + threshold
    ensures forall c :: c in Overdue(entries, now, threshold) <==>
                          exists e <- entries :: e.connection == c && e.lastUsed + threshold < now
  {
    if entries != [] {
      var n := |entries| - 1;
      FreshExactly(entries[..n], now, threshold);
      assert entries == entries[..n] + [entries[n]];
    }
  }

  /** So an overdue connection is gone after it, for ever, and any other stays idle under its key. A key nobody has
      set an age for goes by 300 seconds. */
  lemma {:induction false} SweptExactly(s: State, now: int, thresholds: Thresholds, limits: Limits, k: Key, i: nat)
    requires Inv(s, limits) && k in s.idle && i < |s.idle[k]|
    ensures var n, e := Do(s, Sweep(now, thresholds), limits), s.idle[k][i];
            var age := if k in thresholds then thresholds[k] else 300;
            if e.lastUsed + age < now then Gone(n, e.connection) else e in Idle(n, k)
  {
    var n, e := Do(s, Sweep(now, thresholds), limits), s.idle[k][i];
    FreshExactly(s.idle[k], now, Threshold(thresholds, k));
    if e.lastUsed + Threshold(thresholds, k) < now {
      forall j, x | j in n.idle && 0 <= x < |n.idle[j]| ensures n.idle[j][x].connection != e.connection {
        var at := FreshKeeps(s.idle[j], now, Threshold(thresholds, j));
        assert n.idle[j][x] == s.idle[j][at[x]];
        FreshExactly(s.idle[j], now, Threshold(thresholds, j));
        assert n.idle[j][x] in Fresh(s.idle[j], now, Threshold(thresholds, j));
        EachOnce(s, k, i, j, at[x]);
      }
    }
  }

  lemma {:induction false} EachOnce(s: State, k: Key, i: nat, j: Key, x: nat)
    requires IdleOwned(s) && k in s.idle && j in s.idle && i < |s.idle[k]| && x < |s.idle[j]|
    ensures s.idle[k][i].connection == s.idle[j][x].connection ==> k == j && i == x
  {
  }

  // ----- the class -----

  datatype Outcome = Reused(connection: Connection) | Slot(stale: seq<Entry>) | MustWait

  class ImapConnectionPool {
    var idle: map<Key, seq<Entry>>
    var openCount: map<Key, int>
    var maxPerUser: map<Key, int>
    var idleEvictionSeconds: map<Key, int>
    ghost var tasks: map<Task, Phase>
    ghost var openers: map<Connection, Request>
    ghost var lost: map<Key, nat>

    ghost function View(): State
      reads this
    {
      State(idle, openCount, tasks, openers, lost)
    }

    constructor ()
      ensures View() == EMPTY && idleEvictionSeconds == map[] && maxPerUser == map[]
    {
      idle, openCount, maxPerUser, idleEvictionSeconds := map[], map[], map[], map[];
      tasks, openers, lost := map[], map[], map[];
    }

    /** The limits a caller brings, noted on entry. */
    method Configure(key: Key, limit: nat, evictionSeconds: int)
      modifies this`maxPerUser, this`idleEvictionSeconds
      ensures maxPerUser == old(maxPerUser)[key := limit]
          && idleEvictionSeconds == old(idleEvictionSeconds)[key := evictionSeconds]
    {
      maxPerUser := maxPerUser[key := limit];
      idleEvictionSeconds := idleEvictionSeconds[key := evictionSeconds];
    }

    static method FindIdle(entries: seq<Entry>, hash: Hash) returns (i: nat)
      ensures i == FirstMatch(entries, hash)
    {
      i := 0;
      while i < |entries|
        invariant i <= |entries|
        invariant FirstMatch(entries, hash) == i + FirstMatch(entries[i..], hash)
      {
        if entries[i].passwordHash == hash {
          return;
        }
        i := i + 1;
      }
    }

    /** One turn of the acquire loop, under the lock. The stale connections are logged out once the lock is free. */
    method AcquireTurn(ghost t: Task, key: Key, hash: Hash, limit: nat) returns (outcome: Outcome)
      modifies this`idle, this`openCount, this`tasks
      ensures View() == Attempt(old(View()), t, Request(key, hash), limit)
      ensures match outcome
              case Reused(c) => tasks[t] == Using(Request(key, hash), c)
              case Slot(stale) => tasks[t] == Connecting(Request(key, hash)) && stale == Idle(old(View()), key)
              case MustWait => tasks[t] == Waiting(Request(key, hash), false)
    {
      var entries := if key in idle then idle[key] else [];
      idle := idle[key := entries];
      var i := FindIdle(entries, hash);
      if i < |entries| {
        idle := idle[key := entries[..i] + entries[i + 1..]];
        tasks := tasks[t := Using(Request(key, hash), entries[i].connection)];
        assert idle == old(idle)[key := entries[..i] + entries[i + 1..]];
        return Reused(entries[i].connection);
      }
      var stale := [];
      if entries != [] {
        stale := entries;
        openCount := openCount[key := Count(openCount, key, 0) - |entries|];
        idle := idle[key := []];
      }
      ghost var evicted := Evict(old(View()), key);
      assert idle == evicted.idle && openCount == evicted.openCount;
      if Count(openCount, key, 0) < limit {
        openCount := openCount[key := Count(openCount, key, 0) + 1];
        tasks := tasks[t := Connecting(Request(key, hash))];
        return Slot(stale);
      }
      tasks := tasks[t := Waiting(Request(key, hash), false)];
      return MustWait;
    }

    method NotifyWaiters()
      modifies this`tasks
      ensures tasks == NotifyAll(old(tasks))
    {
      tasks := NotifyAll(tasks);
    }

    method ConnectFailure(ghost t: Task, key: Key)
      requires t in tasks && tasks[t].Connecting? && tasks[t].request.key == key
      modifies this`openCount, this`tasks
      ensures View() == Failed(old(View()), t)
    {
      openCount := openCount[key := Count(openCount, key, 1) - 1];
      tasks := tasks - {t};
      NotifyWaiters();
    }

    /** The `finally` of a checkout: an undamaged connection becomes idle, any other gives its slot up. */
    method GiveBack(ghost t: Task, key: Key, hash: Hash, connection: Connection, ok: bool, now: int)
      requires t in tasks && tasks[t] == Using(Request(key, hash), connection)
      modifies this`idle, this`openCount, this`tasks
      ensures View() == Returned(old(View()), t, ok, now)
      ensures ok ==> openCount == old(openCount) && key in idle && |idle[key]| > 0
                     && idle[key][|idle[key]| - 1] == Entry(connection, hash, now)
      ensures !ok ==> idle == old(idle)
    {
      if ok {
        idle := idle[key := (if key in idle then idle[key] else []) + [Entry(connection, hash, now)]];
      } else {
        openCount := openCount[key := Count(openCount, key, 1) - 1];
      }
      tasks := tasks - {t};
      NotifyWaiters();
    }

    /** Drops, and returns for logout, the connections of one key that have been idle too long. */
    method SweepKey(key: Key, now: int, threshold: int) returns (expired: seq<Connection>)
      requires key in idle
      modifies this`idle, this`openCount
      ensures idle == old(idle)[key := Fresh(old(idle[key]), now, threshold)]
      ensures expired == Overdue(old(idle[key]), now, threshold)
      ensures openCount == if expired == [] then old(openCount)
                           else old(openCount)[key := Count(old(openCount), key, 1) - |expired|]
    {
      expired := [];
      var entries, keep := idle[key], [];
      for i := 0 to |entries|
        invariant idle == old(idle)
        invariant keep == Fresh(entries[..i], now, threshold) && expired == Overdue(entries[..i], now, threshold)
        invariant openCount == if expired == [] then old(openCount)
                               else old(openCount)[key := Count(old(openCount), key, 1) - |expired|]
      {
        assert entries[..i + 1][..i] == entries[..i];
        if now - entries[i].lastUsed > threshold {
          expired := expired + [entries[i].connection];
          openCount := openCount[key := Count(openCount, key, 1) - 1];
        } else {
          keep := keep + [entries[i]];
        }
      }
      assert entries[..|entries|] == entries;
      idle := idle[key := keep];
    }

    /** The outer loop's body: one more key of those there were at the start. */
    method SweepNext(key: Key, now: int, expired: seq<Connection>, ghost s: State, ghost done: set<Key>)
      returns (more: seq<Connection>)
      requires key in s.idle && key !in done && Swept(s, done, idle, openCount, expired, now, idleEvictionSeconds)
      modifies this`idle, this`openCount
      ensures Swept(s, done + {key}, idle, openCount, more, now, idleEvictionSeconds)
    {
      SweptOneMore(s, done, key, idle, openCount, expired, now, idleEvictionSeconds);
      var dropped := SweepKey(key, now, Threshold(idleEvictionSeconds, key));
      more := expired + dropped;
    }

    method SweepEveryKey(now: int) returns (expired: seq<Connection>)
      modifies this`idle, this`openCount
      ensures Swept(old(View()), old(idle).Keys, idle, openCount, expired, now, idleEvictionSeconds)
    {
      expired := [];
      ghost var s, done := View(), {};
      var todo := idle.Keys;
      NothingSwept(s, now, idleEvictionSeconds);
      while todo != {}
        invariant todo + done == s.idle.Keys && todo !! done
        invariant Swept(s, done, idle, openCount, expired, now, idleEvictionSeconds)
      {
        var key :| key in todo;
        expired := SweepNext(key, now, expired, s, done);
        todo, done := todo - {key}, done + {key};
      }
    }

    method SweepOnce(now: int) returns (expired: seq<Connection>)
      modifies this`idle, this`openCount, this`tasks
      ensures View() == Do(old(View()), Sweep(now, idleEvictionSeconds), _ => 0)
      ensures Elements(expired) == AllOverdue(old(idle), old(idle).Keys, now, idleEvictionSeconds)
    {
      expired := SweepEveryKey(now);
      NotifyWaiters();
    }
  }

  /** What a sweep has done once it is through with some keys. */
  ghost predicate Swept(s: State, done: set<Key>, idle: map<Key, seq<Entry>>, openCount: map<Key, int>,
                        expired: seq<Connection>, now: int, thresholds: Thresholds)
  {
    && idle == SweptIdle(s, done, now, thresholds)
    && openCount == SweptCounts(s, done, now, thresholds)
    && Elements(expired) == AllOverdue(s.idle, done, now, thresholds)
  }

  lemma {:induction false} NothingSwept(s: State, now: int, thresholds: Thresholds)
    ensures Swept(s, {}, s.idle, s.openCount, [], now, thresholds)
  {
  }

  lemma {:induction false} SweptOneMore(s: State, done: set<Key>, key: Key, idle: map<Key, seq<Entry>>,
                                        openCount: map<Key, int>, expired: seq<Connection>, now: int,
                                        thresholds: Thresholds)
    requires key in s.idle && key !in done && Swept(s, done, idle, openCount, expired, now, thresholds)
    ensures key in idle
    ensures var threshold := Threshold(thresholds, key);
            var dropped := Overdue(idle[key], now, threshold);
            var counts := if dropped == [] then openCount
                          else openCount[key := Count(openCount, key, 1) - |dropped|];
            Swept(s, done + {key}, idle[key := Fresh(idle[key], now, threshold)], counts, expired + dropped, now,
                  thresholds)
  {
    SweepIdleOneMore(s, done, key, now, thresholds);
    SweepCountsOneMore(s, done, key, now, thresholds);
    OverdueOneMore(s.idle, done, key, now, thresholds, expired);
  }

  lemma {:induction false} SweepIdleOneMore(s: State, done: set<Key>, key: Key, now: int, thresholds: Thresholds)
    requires key in s.idle && key !in done
    ensures SweptIdle(s, done, now, thresholds)[key] == s.idle[key]
    ensures SweptIdle(s, done + {key}, now, thresholds) ==
            SweptIdle(s, done, now, thresholds)[key := Fresh(s.idle[key], now, Threshold(thresholds, key))]
  {
  }

  lemma {:induction false} SweepCountsOneMore(s: State, done: set<Key>, key: Key, now: int, thresholds: Thresholds)
    requires key !in done
    ensures Count(SweptCounts(s, done, now, thresholds), key, 1) == Count(s.openCount, key, 1)
    ensures SweptCounts(s, done + {key}, now, thresholds) ==
              if Expired(s, key, now, thresholds) == 0 then SweptCounts(s, done, now, thresholds)
              else SweptCounts(s, done, now, thresholds)[key := SweptCount(s, key, now, thresholds)]
  {
    var before, after := SweptCounts(s, done, now, thresholds), SweptCounts(s, done + {key}, now, thresholds);
    forall k | k != key
      ensures k in before <==> k in after
      ensures k in before ==> before[k] == after[k]
    {
      assert Loses(s, done + {key}, k, now, thresholds) <==> Loses(s, done, k, now, thresholds);
    }
    assert !Loses(s, done, key, now, thresholds);
    if Expired(s, key, now, thresholds) > 0 {
      assert Loses(s, done + {key}, key, now, thresholds);
    } else {
      assert !Loses(s, done + {key}, key, now, thresholds);
      assert key in before <==> key in after;
    }
  }
}
