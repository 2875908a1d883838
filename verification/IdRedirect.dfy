/** Old ids and where they lead: a bounded table per account, in order of recording. */
module IdRedirect {
  datatype AccountKey = AccountKey(domain: string, username: string)

  /** A Python dict: entries in insertion order, keys distinct. */
  type Table<K> = seq<(K, K)>

  function Keys<K(==)>(t: Table<K>): set<K> {
    set e | e in t :: e.0
  }

  predicate IsTable<K(==)>(t: Table<K>) {
    forall i, j | 0 <= i < j < |t| :: t[i].0 != t[j].0
  }

  function Links<K(==)>(t: Table<K>): (m: map<K, K>)
    ensures m.Keys == Keys(t)
  {
    if t == [] then map[]
    else
      assert t == t[..|t| - 1] + [t[|t| - 1]];
      Links(t[..|t| - 1])[t[|t| - 1].0 := t[|t| - 1].1]
  }

  function Without<K(==)>(t: Table<K>, k: K): Table<K>
  {
    if t == [] then []
    else if t[0].0 == k then Without(t[1..], k)
    else [t[0]] + Without(t[1..], k)
  }

  lemma {:induction false} WithoutKeys<K>(t: Table<K>, k: K)
    ensures forall e <- Without(t, k) :: e in t && e.0 != k
    ensures forall e <- t :: e.0 != k ==> e in Without(t, k)
    ensures IsTable(t) ==> IsTable(Without(t, k))
  {
    if t != [] {
      WithoutKeys(t[1..], k);
      assert t == [t[0]] + t[1..];
      if IsTable(t) {
        assert IsTable(t[1..]);
        var rest := Without(t[1..], k);
        forall j | 0 <= j < |rest| ensures rest[j].0 != t[0].0 {
          assert rest[j] in rest;
          var i :| 0 <= i < |t[1..]| && t[1..][i] == rest[j];
          assert t[0].0 != t[i + 1].0;
        }
      }
    }
  }

  function Last<K(==)>(t: Table<K>, n: nat): (r: Table<K>)
    ensures |r| <= n
  {
    if |t| <= n then t else t[|t| - n..]
  }

  function Recorded<K(==)>(t: Table<K>, oldId: K, newId: K, max: nat): Table<K> {
    if oldId == newId then t else Last(Without(t, oldId) + [(oldId, newId)], max)
  }

  // ----- following redirects -----

  /** Where `n` redirects lead; an id without one stays where it is. */
  function Hop<K(==)>(m: map<K, K>, id: K, n: nat): K
    decreases n
  {
    if n == 0 || id !in m then id else Hop(m, m[id], n - 1)
  }

  ghost predicate Ends<K>(m: map<K, K>, id: K) {
    exists n: nat :: Hop(m, id, n) !in m
  }

  /** `r` is the first id on the chain with no redirect of its own; or the chain never ends and `r` is `id` itself. */
  ghost predicate ResolvesTo<K>(m: map<K, K>, id: K, r: K) {
    if Ends(m, id) then r !in m && exists n: nat :: Hop(m, id, n) == r else r == id
  }

  class IdRedirectCache<K(==)> {
    const maxEntries: nat
    var byAccount: map<AccountKey, Table<K>>

    ghost predicate Valid()
      reads this
    {
      forall a <- byAccount.Keys :: IsTable(byAccount[a]) && |byAccount[a]| <= maxEntries
    }

    function TableOf(account: AccountKey): Table<K>
      reads this
    {
      if account in byAccount then byAccount[account] else []
    }

    constructor (maxEntries: nat)
      ensures Valid() && byAccount == map[] && this.maxEntries == maxEntries
    {
      this.maxEntries, byAccount := maxEntries, map[];
    }

    method Record(account: AccountKey, oldId: K, newId: K)
      requires Valid()
      modifies this`byAccount
      ensures Valid()
      ensures TableOf(account) == Recorded(old(TableOf(account)), oldId, newId, maxEntries)
      ensures forall other | other != account :: TableOf(other) == old(TableOf(other))
    {
      if oldId == newId {
        return;
      }
      var table := Without(TableOf(account), oldId) + [(oldId, newId)];
      WithoutKeys(TableOf(account), oldId);
      ghost var full, dropped := table, 0;
      while |table| > maxEntries
        invariant dropped <= |full| && table == full[dropped..]
        invariant |table| >= maxEntries || dropped == 0
      {
        table := table[1..];
        dropped := dropped + 1;
      }
      assert table == Last(full, maxEntries);
      byAccount := byAccount[account := table];
    }

    method Resolve(account: AccountKey, requested: K) returns (r: K)
      requires Valid()
      ensures ResolvesTo(Links(TableOf(account)), requested, r)
    {
      r := Follow(Links(TableOf(account)), requested);
    }
  }

  method Follow<K(==)>(table: map<K, K>, requested: K) returns (r: K)
    ensures ResolvesTo(table, requested, r)
  {
    var seen := {requested};
    var current := requested;
    ghost var n := 0;
    while current in table
      invariant requested in seen && current in seen
      invariant forall id {:trigger Stays(table, seen, id)} | id in seen && id != current :: Stays(table, seen, id)
      invariant Hop(table, requested, n) == current
      decreases |table.Keys - (seen - {current})|
    {
      var next := table[current];
      if next in seen {
        assert Stays(table, seen, current);
        StaysInside(table, seen, requested);
        return requested;
      }
      HopStep(table, requested, n);
      OneFewer(table.Keys, seen, current, next);
      forall id | id in seen ensures Stays(table, seen + {next}, id) {
        assert id != current ==> Stays(table, seen, id);
      }
      seen := seen + {next};
      current := next;
      n := n + 1;
    }
    assert Ends(table, requested);
    return current;
  }

  lemma {:induction false} OneFewer<K>(keys: set<K>, seen: set<K>, current: K, next: K)
    requires current in keys && current in seen && next !in seen
    ensures |keys - (seen + {next} - {next})| < |keys - (seen - {current})|
  {
    assert seen + {next} - {next} == seen;
    assert keys - (seen - {current}) == keys - seen + {current};
  }

  lemma {:induction false} HopStep<K>(m: map<K, K>, id: K, n: nat)
    requires Hop(m, id, n) in m
    ensures Hop(m, id, n + 1) == m[Hop(m, id, n)]
    decreases n
  {
    if n > 0 {
      HopStep(m, m[id], n - 1);
    }
  }

  predicate Stays<K(==)>(m: map<K, K>, ids: set<K>, x: K) {
    x in m && m[x] in ids
  }

  lemma {:induction false} StaysInside<K>(m: map<K, K>, ids: set<K>, id: K)
    requires id in ids && forall x {:trigger Stays(m, ids, x)} | x in ids :: Stays(m, ids, x)
    ensures !Ends(m, id)
  {
    forall n: nat ensures Hop(m, id, n) in m {
      HopInside(m, ids, id, n);
      assert Stays(m, ids, Hop(m, id, n));
    }
  }

  lemma {:induction false} HopInside<K>(m: map<K, K>, ids: set<K>, id: K, n: nat)
    requires id in ids && forall x {:trigger Stays(m, ids, x)} | x in ids :: Stays(m, ids, x)
    ensures Hop(m, id, n) in ids
    decreases n
  {
    if n > 0 {
      assert Stays(m, ids, id);
      HopInside(m, ids, m[id], n - 1);
    }
  }

  /** Every table, cyclic ones included, settles what an id resolves to. */
  lemma {:induction false} ResolvesToOne<K>(m: map<K, K>, id: K, r: K, q: K)
    requires ResolvesTo(m, id, r) && ResolvesTo(m, id, q)
    ensures r == q
    ensures r == id || r !in m
  {
    if Ends(m, id) {
      var i: nat :| Hop(m, id, i) == r;
      var j: nat :| Hop(m, id, j) == q;
      if i <= j { HopStops(m, id, i, j); } else { HopStops(m, id, j, i); }
    }
  }

  lemma {:induction false} HopStops<K>(m: map<K, K>, id: K, i: nat, j: nat)
    requires i <= j && Hop(m, id, i) !in m
    ensures Hop(m, id, j) == Hop(m, id, i)
    decreases i
  {
    if i > 0 && id in m {
      HopStops(m, m[id], i - 1, j - 1);
    }
  }

  // ----- what a table holds after any number of recordings -----

  /** The table after recordings, the latest of them first in the list. */
  function RecordAll<K(==)>(history: seq<(K, K)>, max: nat): Table<K> {
    if history == [] then [] else Recorded(RecordAll(history[1..], max), history[0].0, history[0].1, max)
  }

  /** The latest `max` redirects whose old ids are distinct and not in `skip`, oldest first. */
  function Recent<K(==)>(history: seq<(K, K)>, max: nat, skip: set<K>): (r: Table<K>)
    ensures |r| <= max
  {
    if history == [] || max == 0 then []
    else if Skipped(history[0], skip) then Recent(history[1..], max, skip)
    else Recent(history[1..], max - 1, skip + {history[0].0}) + [history[0]]
  }

  /** A redirect to itself is not recorded. */
  predicate Skipped<K(==)>(e: (K, K), skip: set<K>) {
    e.0 == e.1 || e.0 in skip
  }

  lemma {:induction false} WithoutJoin<K>(a: Table<K>, b: Table<K>, k: K)
    ensures Without(a + b, k) == Without(a, k) + Without(b, k)
  {
    if a == [] {
      assert a + b == b;
    } else {
      assert (a + b)[1..] == a[1..] + b;
      WithoutJoin(a[1..], b, k);
    }
  }

  lemma {:induction false} WithoutAbsent<K>(t: Table<K>, k: K)
    requires forall e <- t :: e.0 != k
    ensures Without(t, k) == t
  {
    if t != [] {
      assert t[0] in t;
      WithoutAbsent(t[1..], k);
    }
  }

  lemma {:induction false} RecentAvoids<K>(history: seq<(K, K)>, max: nat, skip: set<K>)
    ensures forall e <- Recent(history, max, skip) :: e.0 !in skip
  {
    if history != [] && max > 0 {
      if Skipped(history[0], skip) {
        RecentAvoids(history[1..], max, skip);
      } else {
        RecentAvoids(history[1..], max - 1, skip + {history[0].0});
      }
    }
  }

  lemma {:induction false} LastGrows<K>(t: Table<K>, e: (K, K), max: nat)
    ensures Last(t + [e], max) == if max == 0 then [] else Last(t, max - 1) + [e]
  {
  }

  lemma {:induction false} StrikeOther<K>(t: Table<K>, e: (K, K), k: K, max: nat)
    requires e.0 != k
    ensures Last(Without(t + [e], k), max) == if max == 0 then [] else Last(Without(t, k), max - 1) + [e]
  {
    WithoutJoin(t, [e], k);
    assert Without([e], k) == [e];
    LastGrows(Without(t, k), e, max);
  }

  lemma {:induction false} StrikeSame<K>(t: Table<K>, e: (K, K), max: nat)
    requires |t| <= max && forall f <- t :: f.0 != e.0
    ensures Last(Without(t + [e], e.0), max) == t
  {
    WithoutJoin(t, [e], e.0);
    assert Without([e], e.0) == [];
    WithoutAbsent(t, e.0);
  }

  /** Skipping one more id is taking one more entry and then striking it out. */
  lemma {:induction false} RecentSkips<K>(history: seq<(K, K)>, max: nat, skip: set<K>, more: set<K>, k: K)
    requires k !in skip && more == skip + {k}
    ensures Recent(history, max, more) == Last(Without(Recent(history, max + 1, skip), k), max)
  {
    if history != [] {
      var e := history[0];
      if Skipped(e, skip) {
        RecentSkips(history[1..], max, skip, more, k);
      } else if e.0 == k {
        RecentAvoids(history[1..], max, more);
        StrikeSame(Recent(history[1..], max, more), e, max);
      } else {
        StrikeOther(Recent(history[1..], max, skip + {e.0}), e, k, max);
        if max > 0 {
          assert more + {e.0} == skip + {e.0} + {k};
          RecentSkips(history[1..], max - 1, skip + {e.0}, more + {e.0}, k);
        }
      }
    }
  }

  /** After any recordings the table is exactly the latest `max` distinct old ids, each with its latest target. */
  lemma {:induction false} TableIsRecent<K>(history: seq<(K, K)>, max: nat)
    ensures RecordAll(history, max) == Recent(history, max, {})
  {
    if history != [] {
      var e := history[0];
      TableIsRecent(history[1..], max);
      if e.0 != e.1 {
        LastGrows(Without(Recent(history[1..], max, {}), e.0), e, max);
        if max > 0 {
          RecentSkips(history[1..], max - 1, {}, {e.0}, e.0);
          assert {} + {e.0} == {e.0};
        }
      }
    }
  }
}
