/**
  Sweeping an account's mailboxes over several pooled connections, and the query that needs every mailbox.

  Each connection works through its own chunk, so no two touch one mailbox; `work` is what one SELECT, SEARCH and FETCH
  return for an entry. Connections that fail are not part of this model.
 */
module ParallelMap {
  import opened Wrappers
  import opened ObjectIds
  import opened EmailChanges
  import opened StateTokens
  import opened Sorting
  import opened Permutations

  /** The slice xs[start::step]. */
  function Stride<T>(xs: seq<T>, start: nat, step: nat): seq<T>
    requires step > 0
    decreases |xs| - start
  {
    if start >= |xs| then [] else [xs[start]] + Stride(xs, start + step, step)
  }

  function Map<T, U>(f: T -> U, xs: seq<T>): seq<U> {
    seq(|xs|, i requires 0 <= i < |xs| => f(xs[i]))
  }

  function MapEach<T, U>(f: T -> U, xss: seq<seq<T>>): seq<seq<U>> {
    seq(|xss|, i requires 0 <= i < |xss| => Map(f, xss[i]))
  }

  function Flatten<T>(xss: seq<seq<T>>): seq<T> {
    if xss == [] then [] else xss[0] + Flatten(xss[1..])
  }

  function Chunks<T>(xs: seq<T>, step: nat, n: nat): seq<seq<T>>
    requires n > 0 ==> step > 0
  {
    seq(n, i requires 0 <= i < n => Stride(xs, i, step))
  }

  function Min(a: int, b: int): int { if a < b then a else b }

  /** How many connections a sweep uses when the caller does not say: with the caller's own there is one to spare from a
      pool of three up. */
  function DefaultConcurrency(poolMax: int): (n: nat)
    ensures 1 <= n <= 2 && (1 + n < poolMax <==> poolMax >= 3) && (n == 2 <==> poolMax >= 4)
  {
    if poolMax - 2 < 1 then 1 else Min(2, poolMax - 2)
  }

  function Concurrency(maxConcurrency: Option<int>, poolMax: int, n: nat): int {
    Min(if maxConcurrency.Some? then maxConcurrency.value else DefaultConcurrency(poolMax), n)
  }

  method RunChunk<E, R>(chunk: seq<E>, work: E -> R) returns (out: seq<R>)
    ensures out == Map(work, chunk)
  {
    out := [];
    for i := 0 to |chunk|
      invariant out == Map(work, chunk[..i])
    {
      out := out + [work(chunk[i])];
    }
    assert chunk[..|chunk|] == chunk;
  }

  method ImapParallelMap<E(!new), R>(entries: seq<E>, work: E -> R, maxConcurrency: Option<int>, poolMax: int)
    returns (results: seq<R>)
    ensures var c := Concurrency(maxConcurrency, poolMax, |entries|);
            results == if c <= 0 then [] else Flatten(MapEach(work, Chunks(entries, c, c)))
    ensures multiset(results) == multiset(Map(work, entries))
            <==> entries == [] || maxConcurrency.None? || maxConcurrency.value >= 1
  {
    if entries == [] {
      return [];
    }
    var concurrency := Concurrency(maxConcurrency, poolMax, |entries|);
    if concurrency <= 0 {
      assert work(entries[0]) == Map(work, entries)[0];
      assert work(entries[0]) in multiset(Map(work, entries));
      return [];
    }
    var chunks := Chunks(entries, concurrency, concurrency);
    var chunkResults := [];
    for i := 0 to |chunks|
      invariant chunkResults == MapEach(work, chunks[..i])
    {
      StrideStarts(entries, i, concurrency);
      if chunks[i] != [] {
        var result := RunChunk(chunks[i], work);
        chunkResults := chunkResults + [result];
      }
    }
    assert chunks[..|chunks|] == chunks;
    results := Flatten(chunkResults);
    FlattenMaps(work, chunks);
    ChunksPartition(entries, concurrency);
    MapPermutes(work, Flatten(chunks), entries);
  }

  lemma {:induction false} StrideStarts<T>(xs: seq<T>, start: nat, step: nat)
    requires start < |xs| && step > 0
    ensures Stride(xs, start, step) != []
  {
  }

  // ----- the chunks partition the entries -----

  /** The slice from `start` takes index `n`. */
  predicate Meets(n: nat, start: nat, step: nat)
    requires step > 0
    decreases n - start
  {
    n == start || (start < n && Meets(n, start + step, step))
  }

  /** The chunk that takes index `n`. */
  function Slot(n: nat, step: nat): (k: nat)
    requires step > 0
    ensures k < step
  {
    if n < step then n else Slot(n - step, step)
  }

  /** How often the slice holds `y`. */
  ghost function StrideCount<T>(xs: seq<T>, start: nat, step: nat, y: T): nat
    requires step > 0
    decreases |xs| - start
  {
    if start >= |xs| then 0 else (if xs[start] == y then 1 else 0) + StrideCount(xs, start + step, step, y)
  }

  lemma {:induction false} StrideCounts<T>(xs: seq<T>, start: nat, step: nat, y: T)
    requires step > 0
    ensures multiset(Stride(xs, start, step))[y] == StrideCount(xs, start, step, y)
    decreases |xs| - start
  {
    if start < |xs| {
      StrideCounts(xs, start + step, step, y);
      CountFirst(xs[start], Stride(xs, start + step, step), y);
    }
  }

  lemma {:induction false} CountFirst<T>(x: T, rest: seq<T>, y: T)
    ensures multiset([x] + rest)[y] == (if x == y then 1 else 0) + multiset(rest)[y]
  {
    assert multiset([x] + rest) == multiset{x} + multiset(rest);
  }

  /** One more element lands in the slices that take its index. */
  lemma {:induction false} StrideGrows<T>(xs: seq<T>, x: T, start: nat, step: nat, y: T)
    requires step > 0
    ensures StrideCount(xs + [x], start, step, y)
         == StrideCount(xs, start, step, y) + (if Meets(|xs|, start, step) && x == y then 1 else 0)
    decreases |xs| - start
  {
    if start < |xs| {
      StrideGrows(xs, x, start + step, step, y);
    } else if start == |xs| {
      assert StrideCount(xs + [x], start + step, step, y) == 0;
    }
  }

  lemma {:induction false} MeetsShifts(n: nat, start: nat, step: nat)
    requires step > 0
    ensures Meets(n + step, start + step, step) <==> Meets(n, start, step)
    decreases n - start
  {
    if start < n {
      MeetsShifts(n, start + step, step);
    }
  }

  lemma {:induction false} MeetsOne(n: nat, start: nat, step: nat)
    requires start < step
    ensures Meets(n, start, step) <==> Slot(n, step) == start
  {
    if n >= step {
      MeetsShifts(n - step, start, step);
      MeetsOne(n - step, start, step);
    }
  }

  lemma {:induction false} FlattenJoin<T>(a: seq<seq<T>>, b: seq<seq<T>>)
    ensures Flatten(a + b) == Flatten(a) + Flatten(b)
  {
    if a == [] {
      assert a + b == b;
    } else {
      assert (a + b)[1..] == a[1..] + b;
      FlattenJoin(a[1..], b);
    }
  }

  lemma {:induction false} FlattenOneMore<T>(xss: seq<seq<T>>, xs: seq<T>)
    ensures Flatten(xss + [xs]) == Flatten(xss) + xs
  {
    FlattenJoin(xss, [xs]);
    assert [xs][1..] == [];
  }

  /** How often the first `n` chunks hold `y` between them. */
  ghost function Held<T>(xs: seq<T>, step: nat, n: nat, y: T): nat
    requires n <= step
  {
    if n == 0 then 0 else Held(xs, step, n - 1, y) + StrideCount(xs, n - 1, step, y)
  }

  lemma {:induction false} OneMoreChunk<T>(xs: seq<T>, step: nat, n: nat)
    requires n < step
    ensures Flatten(Chunks(xs, step, n + 1)) == Flatten(Chunks(xs, step, n)) + Stride(xs, n, step)
  {
    assert Chunks(xs, step, n + 1) == Chunks(xs, step, n) + [Stride(xs, n, step)];
    FlattenOneMore(Chunks(xs, step, n), Stride(xs, n, step));
  }

  ghost function ChunksCount<T>(xs: seq<T>, step: nat, n: nat, y: T): nat
    requires n <= step
  {
    multiset(Flatten(Chunks(xs, step, n)))[y]
  }

  lemma {:induction false} OneMoreCounted<T>(xs: seq<T>, step: nat, n: nat, y: T)
    requires n < step
    ensures ChunksCount(xs, step, n + 1, y) == ChunksCount(xs, step, n, y) + StrideCount(xs, n, step, y)
  {
    OneMoreChunk(xs, step, n);
    StrideCounts(xs, n, step, y);
  }

  lemma {:induction false} ChunksHold<T>(xs: seq<T>, step: nat, n: nat, y: T)
    requires n <= step
    ensures ChunksCount(xs, step, n, y) == Held(xs, step, n, y)
  {
    if n > 0 {
      ChunksHold(xs, step, n - 1, y);
      OneMoreCounted(xs, step, n - 1, y);
    }
  }

  lemma {:induction false} ChunksGrow<T>(xs: seq<T>, x: T, step: nat, n: nat, y: T)
    requires n <= step && step > 0
    ensures Held(xs + [x], step, n, y) == Held(xs, step, n, y) + (if Slot(|xs|, step) < n && x == y then 1 else 0)
  {
    if n > 0 {
      ChunksGrow(xs, x, step, n - 1, y);
      StrideGrows(xs, x, n - 1, step, y);
      MeetsOne(|xs|, n - 1, step);
    }
  }

  lemma {:induction false} NothingHeld<T>(step: nat, n: nat, y: T)
    requires n <= step
    ensures Held([], step, n, y) == 0
  {
    if n > 0 {
      NothingHeld(step, n - 1, y);
    }
  }

  lemma {:induction false} AllHeld<T>(xs: seq<T>, step: nat, y: T)
    requires step > 0
    ensures Held(xs, step, step, y) == multiset(xs)[y]
  {
    if xs == [] {
      NothingHeld(step, step, y);
    } else {
      var n := |xs| - 1;
      assert xs == xs[..n] + [xs[n]];
      AllHeld(xs[..n], step, y);
      ChunksGrow(xs[..n], xs[n], step, step, y);
    }
  }

  /** Every entry is in exactly one chunk, whatever the number of entries and of chunks. */
  lemma {:induction false} ChunksPartition<T(!new)>(xs: seq<T>, step: nat)
    requires step > 0
    ensures multiset(Flatten(Chunks(xs, step, step))) == multiset(xs)
  {
    forall y: T ensures multiset(Flatten(Chunks(xs, step, step)))[y] == multiset(xs)[y] {
      ChunksHold(xs, step, step, y);
      AllHeld(xs, step, y);
    }
  }

  lemma {:induction false} FlattenMaps<T, U>(f: T -> U, xss: seq<seq<T>>)
    ensures Flatten(MapEach(f, xss)) == Map(f, Flatten(xss))
  {
    if xss != [] {
      FlattenMaps(f, xss[1..]);
      assert MapEach(f, xss)[1..] == MapEach(f, xss[1..]);
    }
  }

  lemma {:induction false} MapPermutes<T, U>(f: T -> U, a: seq<T>, b: seq<T>)
    requires multiset(a) == multiset(b)
    ensures multiset(Map(f, a)) == multiset(Map(f, b))
  {
    if a == [] {
      assert |b| == |multiset(b)| == 0;
    } else {
      var j := TakeOut(a, b);
      MapPermutes(f, a[1..], b[..j] + b[j + 1..]);
      assert Map(f, a) == [f(a[0])] + Map(f, a[1..]);
      assert Map(f, b[..j] + b[j + 1..]) == Map(f, b[..j]) + Map(f, b[j + 1..]);
      assert Map(f, b) == Map(f, b[..j]) + [f(b[j])] + Map(f, b[j + 1..]);
    }
  }

  lemma {:induction false} FlattenPermutes<T>(a: seq<seq<T>>, b: seq<seq<T>>)
    requires multiset(a) == multiset(b)
    ensures multiset(Flatten(a)) == multiset(Flatten(b))
  {
    if a == [] {
      assert |b| == |multiset(b)| == 0;
    } else {
      var j := TakeOut(a, b);
      FlattenPermutes(a[1..], b[..j] + b[j + 1..]);
      assert b == b[..j] + ([b[j]] + b[j + 1..]);
      FlattenJoin(b[..j], [b[j]] + b[j + 1..]);
      FlattenJoin([b[j]], b[j + 1..]);
      FlattenJoin(b[..j], b[j + 1..]);
      assert [b[j]][1..] == [];
    }
  }

  // ----- the query over every mailbox -----

  /** What a mailbox's SEARCH and FETCH returned. */
  datatype Hits = Hits(name: string, uidvalidity: nat, uids: seq<nat>, data: map<nat, Row>)

  function RowOf(box: Hits, uid: nat): Row {
    var id := EmailId(box.name, box.uidvalidity, uid);
    if uid in box.data then box.data[uid].(id := id) else Row(id, None, None, None, {})
  }

  function RowsOf(box: Hits): seq<Row> {
    seq(|box.uids|, i requires 0 <= i < |box.uids| => RowOf(box, box.uids[i]))
  }

  /** All the messages found, mailbox by mailbox. */
  function AllRows(boxes: seq<Hits>): seq<Row> {
    Flatten(Map(RowsOf, boxes))
  }

  /** LIST names no mailbox twice, and SEARCH no message twice. */
  predicate Proper(boxes: seq<Hits>) {
    && (forall i, j | 0 <= i < j < |boxes| :: boxes[i].name != boxes[j].name)
    && (forall b <- boxes :: Distinct(b.uids))
  }

  predicate IsHit(boxes: seq<Hits>, id: EmailId) {
    exists b <- boxes :: b.name == id.mailbox && b.uidvalidity == id.uidvalidity && id.uid in b.uids
  }

  method CrossMailboxQuery(boxes: seq<Hits>, sort: seq<SortKey>, poolMax: int)
    returns (ids: seq<string>, ghost rows: seq<Row>)
    requires Proper(boxes)
    ensures ids == Map((r: Row) => EncodeEmailId(r.id), rows)
    ensures Ordered(sort, rows) && multiset(rows) == multiset(AllRows(boxes))
    ensures Distinct(ids)
    ensures forall id: EmailId :: EncodeEmailId(id) in ids <==> IsHit(boxes, id)
  {
    var results := ImapParallelMap(boxes, RowsOf, None, poolMax);
    var found := Flatten(results);
    FlattenPermutes(results, Map(RowsOf, boxes));
    var sortedRows := ApplySort(found, sort);
    SortPermutes(sort, found, sortedRows);
    rows := sortedRows;
    ids := Map((r: Row) => EncodeEmailId(r.id), sortedRows);
    EachOnce(boxes, rows);
    EmailIdsAreOneToOne();
    ListedExactly(boxes, rows, ids, EncodeEmailId);
  }

  lemma {:induction false} FlattenIndex<T>(xss: seq<seq<T>>, x: T)
    ensures x in Flatten(xss) <==> exists xs <- xss :: x in xs
  {
    if xss != [] {
      FlattenIndex(xss[1..], x);
      assert xss == [xss[0]] + xss[1..];
    }
  }

  lemma {:induction false} RowsOfIs(b: Hits, r: Row)
    ensures r in RowsOf(b) <==> r.id.uid in b.uids && r == RowOf(b, r.id.uid)
  {
    if r in RowsOf(b) {
      var k :| 0 <= k < |b.uids| && RowsOf(b)[k] == r;
      assert r == RowOf(b, b.uids[k]) && r.id.uid == b.uids[k];
    }
    if r.id.uid in b.uids && r == RowOf(b, r.id.uid) {
      var k :| 0 <= k < |b.uids| && b.uids[k] == r.id.uid;
      assert RowsOf(b)[k] == r;
    }
  }

  lemma {:induction false} RowComesFrom(boxes: seq<Hits>, r: Row) returns (b: Hits)
    requires r in AllRows(boxes)
    ensures b in boxes && r.id.uid in b.uids && r == RowOf(b, r.id.uid)
  {
    FlattenIndex(Map(RowsOf, boxes), r);
    var rs :| rs in Map(RowsOf, boxes) && r in rs;
    var i :| 0 <= i < |boxes| && Map(RowsOf, boxes)[i] == rs;
    b := boxes[i];
    RowsOfIs(b, r);
  }

  lemma {:induction false} RowIsThere(boxes: seq<Hits>, b: Hits, uid: nat)
    requires b in boxes && uid in b.uids
    ensures RowOf(b, uid) in AllRows(boxes)
  {
    var r := RowOf(b, uid);
    RowsOfIs(b, r);
    var i :| 0 <= i < |boxes| && boxes[i] == b;
    assert Map(RowsOf, boxes)[i] == RowsOf(b);
    FlattenIndex(Map(RowsOf, boxes), r);
  }

  /** No two places of the sweep hold the same id. */
  lemma {:induction false} DistinctRows(boxes: seq<Hits>)
    requires Proper(boxes)
    ensures forall i, j | 0 <= i < j < |AllRows(boxes)| :: AllRows(boxes)[i].id != AllRows(boxes)[j].id
  {
    if boxes != [] {
      DistinctRows(boxes[1..]);
      var first, rest := RowsOf(boxes[0]), AllRows(boxes[1..]);
      assert Map(RowsOf, boxes)[1..] == Map(RowsOf, boxes[1..]);
      assert AllRows(boxes) == first + rest;
      assert boxes[0] in boxes;
      forall r | r in rest ensures r.id.mailbox != boxes[0].name {
        var b := RowComesFrom(boxes[1..], r);
      }
      forall i, j | 0 <= i < j < |first + rest| ensures (first + rest)[i].id != (first + rest)[j].id {
        if i < |first| && j >= |first| {
          assert rest[j - |first|] in rest;
        }
      }
    }
  }

  lemma {:induction false} EachOnce(boxes: seq<Hits>, rows: seq<Row>)
    requires Proper(boxes) && multiset(rows) == multiset(AllRows(boxes))
    ensures forall i, j | 0 <= i < j < |rows| :: rows[i].id != rows[j].id
  {
    var all := AllRows(boxes);
    DistinctRows(boxes);
    forall i, j | 0 <= i < j < |rows| ensures rows[i].id != rows[j].id {
      if rows[i].id == rows[j].id {
        assert rows[i] in multiset(all) && rows[j] in multiset(all);
        var m :| 0 <= m < |all| && all[m] == rows[i];
        var n :| 0 <= n < |all| && all[n] == rows[j];
        assert m == n;
        TwicePlaced(rows, i, j);
        PlacedOnce(all, m);
        assert false;
      }
    }
  }

  lemma {:induction false} TwicePlaced(rows: seq<Row>, i: nat, j: nat)
    requires i < j < |rows| && rows[i] == rows[j]
    ensures multiset(rows)[rows[i]] >= 2
  {
    assert rows == rows[..j] + [rows[j]] + rows[j + 1..];
    assert rows[..j][i] == rows[i];
  }

  lemma {:induction false} PlacedOnce(rows: seq<Row>, m: nat)
    requires m < |rows| && forall i, j | 0 <= i < j < |rows| :: rows[i].id != rows[j].id
    ensures multiset(rows)[rows[m]] == 1
  {
    assert rows == rows[..m] + [rows[m]] + rows[m + 1..];
    assert rows[m] !in rows[..m] && rows[m] !in rows[m + 1..];
  }

  ghost predicate OneToOne(encode: EmailId -> string) {
    forall a, b: EmailId :: encode(a) == encode(b) ==> a == b
  }

  lemma {:induction false} EmailIdsAreOneToOne()
    ensures OneToOne(EncodeEmailId)
  {
    forall a, b: EmailId | EncodeEmailId(a) == EncodeEmailId(b) ensures a == b {
      EmailIdRoundTrip(a);
      EmailIdRoundTrip(b);
    }
  }

  lemma {:induction false} ListedExactly(boxes: seq<Hits>, rows: seq<Row>, ids: seq<string>, encode: EmailId -> string)
    requires OneToOne(encode)
    requires multiset(rows) == multiset(AllRows(boxes))
    requires forall i, j | 0 <= i < j < |rows| :: rows[i].id != rows[j].id
    requires |ids| == |rows| && forall i | 0 <= i < |ids| :: ids[i] == encode(rows[i].id)
    ensures Distinct(ids)
    ensures forall id: EmailId :: encode(id) in ids <==> IsHit(boxes, id)
  {
    forall id: EmailId ensures encode(id) in ids <==> IsHit(boxes, id) {
      if encode(id) in ids {
        var i :| 0 <= i < |ids| && ids[i] == encode(id);
        assert rows[i] in multiset(AllRows(boxes));
        var b := RowComesFrom(boxes, rows[i]);
      }
      if IsHit(boxes, id) {
        var b :| b in boxes && b.name == id.mailbox && b.uidvalidity == id.uidvalidity && id.uid in b.uids;
        RowIsThere(boxes, b, id.uid);
        assert RowOf(b, id.uid) in multiset(rows);
        var i :| 0 <= i < |rows| && rows[i] == RowOf(b, id.uid);
        assert ids[i] in ids;
      }
    }
  }
}
