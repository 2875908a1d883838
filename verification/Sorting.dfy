/**
  Ordering query results by several keys.

  The keys are applied one at a time, last first, with Python's list.sort. What is assumed of list.sort is what its
  documentation promises, in either direction: the result is in order and ties keep the order they had.
 */
module Sorting {
  import opened Wrappers
  import opened StateTokens
  import opened ObjectIds

  datatype Property = ReceivedAt | Subject | Size | HasKeyword(flag: string) | Unknown

  datatype SortKey = SortKey(property: Property, isAscending: bool)

  /** A message and the fetched fields a sort can need; a field the server did not return is None. */
  datatype Row = Row(id: EmailId, internalDate: Option<int>, subject: Option<string>, size: Option<int>,
      flags: set<string>)

  datatype SortValue = Number(n: int) | Words(s: string)

  function ValueFor(row: Row, key: SortKey): Option<SortValue> {
    match key.property
    case ReceivedAt => if row.internalDate.None? then None else Some(Number(row.internalDate.value))
    case Subject => if row.subject.None? then None else Some(Words(row.subject.value))
    case Size => if row.size.None? then None else Some(Number(row.size.value))
    case HasKeyword(flag) => Some(Number(if flag in row.flags then 1 else 0))
    case Unknown => None
  }

  /** Python compares (value is None, value): a missing value is greatest. Values of one property have one type. */
  predicate Smaller(a: Option<SortValue>, b: Option<SortValue>) {
    match (a, b)
    case (Some(Number(x)), Some(Number(y))) => x < y
    case (Some(Words(x)), Some(Words(y))) => Less(x, y)
    case (Some(Number(_)), Some(Words(_))) => true
    case (Some(_), None) => true
    case _ => false
  }

  lemma {:induction false} SmallerIsAnOrder(a: Option<SortValue>, b: Option<SortValue>, c: Option<SortValue>)
    ensures a == b || Smaller(a, b) || Smaller(b, a)
    ensures Smaller(a, b) ==> a != b && !Smaller(b, a)
    ensures Smaller(a, b) && Smaller(b, c) ==> Smaller(a, c)
  {
    if a.Some? && a.value.Words? && b.Some? && b.value.Words? {
      LessIsTotal(a.value.s, b.value.s);
      if c.Some? && c.value.Words? && Less(a.value.s, b.value.s) && Less(b.value.s, c.value.s) {
        LessIsTransitive(a.value.s, b.value.s, c.value.s);
      }
    }
  }

  // ----- one key -----

  /** `a` must come before `b` for this key, in its direction. */
  predicate Precedes(key: SortKey, a: Row, b: Row) {
    if key.isAscending then Smaller(ValueFor(a, key), ValueFor(b, key)) else Smaller(ValueFor(b, key), ValueFor(a, key))
  }

  predicate Ties(key: SortKey, a: Row, b: Row) {
    ValueFor(a, key) == ValueFor(b, key)
  }

  lemma {:induction false} PrecedesIsAnOrder(key: SortKey, a: Row, b: Row, c: Row)
    ensures Ties(key, a, b) || Precedes(key, a, b) || Precedes(key, b, a)
    ensures Precedes(key, a, b) ==> !Ties(key, a, b) && !Precedes(key, b, a)
    ensures Precedes(key, a, b) && Precedes(key, b, c) ==> Precedes(key, a, c)
  {
    SmallerIsAnOrder(ValueFor(a, key), ValueFor(b, key), ValueFor(c, key));
    SmallerIsAnOrder(ValueFor(b, key), ValueFor(a, key), ValueFor(c, key));
    SmallerIsAnOrder(ValueFor(c, key), ValueFor(b, key), ValueFor(a, key));
  }

  function Insert(x: Row, rows: seq<Row>, key: SortKey): seq<Row> {
    if rows == [] || !Precedes(key, rows[0], x) then [x] + rows
    else [rows[0]] + Insert(x, rows[1..], key)
  }

  /** list.sort(key=..., reverse=...): any sort that keeps ties in order gives this result, by SortIsUnique. */
  function StableSort(rows: seq<Row>, key: SortKey): seq<Row> {
    if rows == [] then [] else Insert(rows[0], StableSort(rows[1..], key), key)
  }

  // ----- the whole key list -----

  predicate TiesAll(keys: seq<SortKey>, a: Row, b: Row) {
    forall k <- keys :: Ties(k, a, b)
  }

  /** `a` may stand before `b`: the first key that tells them apart says so, or none does. */
  predicate MayPrecede(keys: seq<SortKey>, a: Row, b: Row) {
    keys == [] || Precedes(keys[0], a, b) || (Ties(keys[0], a, b) && MayPrecede(keys[1..], a, b))
  }

  predicate Ordered(keys: seq<SortKey>, rows: seq<Row>) {
    forall i, j | 0 <= i < j < |rows| :: MayPrecede(keys, rows[i], rows[j])
  }

  /** The rows no key tells from `x`, in the order they stand. */
  function Class(keys: seq<SortKey>, rows: seq<Row>, x: Row): (r: seq<Row>)
    ensures forall y <- r :: y in rows && TiesAll(keys, y, x)
  {
    if rows == [] then []
    else (if TiesAll(keys, rows[0], x) then [rows[0]] else []) + Class(keys, rows[1..], x)
  }

  /** In lexicographic order of the key list, and rows that tie on every key stand as they did. */
  ghost predicate IsSorted(keys: seq<SortKey>, before: seq<Row>, after: seq<Row>) {
    Ordered(keys, after) && forall x: Row :: Class(keys, after, x) == Class(keys, before, x)
  }

  method ApplySort(items: seq<Row>, sort: seq<SortKey>) returns (sortedItems: seq<Row>)
    ensures IsSorted(sort, items, sortedItems)
  {
    sortedItems := items;
    var i := |sort|;
    while i > 0
      invariant 0 <= i <= |sort|
      invariant IsSorted(sort[i..], items, sortedItems)
    {
      i := i - 1;
      assert sort[i..] == [sort[i]] + sort[i + 1..];
      OneMoreKey(sort[i], sort[i + 1..], items, sortedItems);
      sortedItems := StableSort(sortedItems, sort[i]);
    }
    assert sort[0..] == sort;
  }

  // ----- proofs -----

  lemma {:induction false} InsertSplits(x: Row, rows: seq<Row>, key: SortKey) returns (n: nat)
    ensures n <= |rows| && Insert(x, rows, key) == rows[..n] + [x] + rows[n..]
    ensures forall i | 0 <= i < n :: Precedes(key, rows[i], x)
    ensures n < |rows| ==> !Precedes(key, rows[n], x)
  {
    if rows == [] || !Precedes(key, rows[0], x) {
      n := 0;
    } else {
      var m := InsertSplits(x, rows[1..], key);
      n := m + 1;
      assert rows[1..][..m] == rows[1..n] && rows[1..][m..] == rows[n..];
      assert [rows[0]] + (rows[1..n] + [x] + rows[n..]) == rows[..n] + [x] + rows[n..];
    }
  }

  lemma {:induction false} ClassJoin(keys: seq<SortKey>, a: seq<Row>, b: seq<Row>, x: Row)
    ensures Class(keys, a + b, x) == Class(keys, a, x) + Class(keys, b, x)
  {
    if a == [] {
      assert a + b == b;
    } else {
      assert (a + b)[1..] == a[1..] + b;
      ClassJoin(keys, a[1..], b, x);
    }
  }

  /** A row is put before the rows it ties with. */
  lemma {:induction false} InsertKeepsClasses(x: Row, rows: seq<Row>, key: SortKey, y: Row)
    ensures Class([key], Insert(x, rows, key), y) == Class([key], [x] + rows, y)
  {
    assert ([x] + rows)[1..] == rows;
    if rows != [] && Precedes(key, rows[0], x) {
      InsertKeepsClasses(x, rows[1..], key, y);
      assert ([x] + rows[1..])[1..] == rows[1..];
      PrecedesIsAnOrder(key, rows[0], x, x);
      assert TiesAll([key], x, y) ==> !TiesAll([key], rows[0], y) by {
        assert key in [key];
      }
    }
  }

  lemma {:induction false} SortKeepsClasses(rows: seq<Row>, key: SortKey, y: Row)
    ensures Class([key], StableSort(rows, key), y) == Class([key], rows, y)
  {
    if rows != [] {
      var rest := StableSort(rows[1..], key);
      SortKeepsClasses(rows[1..], key, y);
      InsertKeepsClasses(rows[0], rest, key, y);
      ClassJoin([key], [rows[0]], rest, y);
      ClassJoin([key], [rows[0]], rows[1..], y);
      assert rows == [rows[0]] + rows[1..];
    }
  }

  predicate InOrder(key: SortKey, rows: seq<Row>) {
    forall i, j | 0 <= i < j < |rows| :: !Precedes(key, rows[j], rows[i])
  }

  lemma {:induction false} SortPutsInOrder(rows: seq<Row>, key: SortKey)
    ensures InOrder(key, StableSort(rows, key))
  {
    if rows != [] {
      var x, rest := rows[0], StableSort(rows[1..], key);
      SortPutsInOrder(rows[1..], key);
      var n := InsertSplits(x, rest, key);
      forall i | 0 <= i < |rest| ensures i < n ==> !Precedes(key, x, rest[i])
                                 ensures i >= n ==> !Precedes(key, rest[i], x) {
        PrecedesIsAnOrder(key, rest[i], x, x);
        if i > n {
          assert !Precedes(key, rest[i], rest[n]);
          PrecedesIsAnOrder(key, rest[n], rest[i], x);
          PrecedesIsAnOrder(key, rest[i], x, rest[n]);
          PrecedesIsAnOrder(key, x, rest[n], x);
        }
      }
    }
  }

  /** Telling apart by one key and then by the others is telling apart by all. */
  lemma {:induction false} ClassOfClass(key: SortKey, rest: seq<SortKey>, rows: seq<Row>, x: Row)
    ensures Class([key] + rest, rows, x) == Class(rest, Class([key], rows, x), x)
    ensures Class([key] + rest, rows, x) == Class([key], Class(rest, rows, x), x)
  {
    if rows != [] {
      ClassOfClass(key, rest, rows[1..], x);
      TiesSplit(key, rest, rows[0], x);
      PrefixOfClass([key], rest, rows, x);
      PrefixOfClass(rest, [key], rows, x);
    }
  }

  lemma {:induction false} PrefixOfClass(inner: seq<SortKey>, outer: seq<SortKey>, rows: seq<Row>, x: Row)
    requires rows != []
    ensures Class(outer, Class(inner, rows, x), x)
         == (if TiesAll(inner, rows[0], x) && TiesAll(outer, rows[0], x) then [rows[0]] else [])
            + Class(outer, Class(inner, rows[1..], x), x)
  {
    var c := Class(inner, rows[1..], x);
    assert ([rows[0]] + c)[1..] == c && [] + c == c;
  }

  lemma {:induction false} TiesSplit(key: SortKey, rest: seq<SortKey>, a: Row, b: Row)
    ensures TiesAll([key] + rest, a, b) <==> TiesAll([key], a, b) && TiesAll(rest, a, b)
  {
    assert key in [key] && key in [key] + rest;
    assert forall k <- rest :: k in [key] + rest;
  }

  /** Two rows of a class stand in the class as they do in the list. */
  lemma {:induction false} ClassKeepsPairs(keys: seq<SortKey>, rows: seq<Row>, x: Row, i: nat, j: nat)
    returns (m: nat, n: nat)
    requires i < j < |rows| && TiesAll(keys, rows[i], x) && TiesAll(keys, rows[j], x)
    ensures m < n < |Class(keys, rows, x)|
    ensures Class(keys, rows, x)[m] == rows[i] && Class(keys, rows, x)[n] == rows[j]
  {
    var c := Class(keys, rows[1..], x);
    if i > 0 {
      m, n := ClassKeepsPairs(keys, rows[1..], x, i - 1, j - 1);
      if TiesAll(keys, rows[0], x) { m, n := m + 1, n + 1; }
    } else {
      var k := ClassHas(keys, rows[1..], x, j - 1);
      m, n := 0, k + 1;
    }
  }

  lemma {:induction false} ClassHas(keys: seq<SortKey>, rows: seq<Row>, x: Row, j: nat) returns (n: nat)
    requires j < |rows| && TiesAll(keys, rows[j], x)
    ensures n < |Class(keys, rows, x)| && Class(keys, rows, x)[n] == rows[j]
  {
    if j == 0 {
      n := 0;
    } else {
      n := ClassHas(keys, rows[1..], x, j - 1);
      if TiesAll(keys, rows[0], x) { n := n + 1; }
    }
  }

  lemma {:induction false} ClassKeepsOrder(keys: seq<SortKey>, others: seq<SortKey>, rows: seq<Row>, x: Row)
    requires Ordered(others, rows)
    ensures Ordered(others, Class(keys, rows, x))
  {
    if rows != [] {
      ClassKeepsOrder(keys, others, rows[1..], x);
      assert forall y <- rows[1..] :: MayPrecede(others, rows[0], y);
    }
  }

  /** Sorting by one more key in front keeps the order by the others among the rows that tie on it. */
  lemma {:induction false} OneMoreKey(key: SortKey, rest: seq<SortKey>, items: seq<Row>, rows: seq<Row>)
    requires IsSorted(rest, items, rows)
    ensures IsSorted([key] + rest, items, StableSort(rows, key))
  {
    var after, keys := StableSort(rows, key), [key] + rest;
    assert keys[1..] == rest;
    SortPutsInOrder(rows, key);
    forall i, j | 0 <= i < j < |after| ensures MayPrecede(keys, after[i], after[j]) {
      PrecedesIsAnOrder(key, after[i], after[j], after[j]);
      if Ties(key, after[i], after[j]) {
        var m, n := ClassKeepsPairs([key], after, after[i], i, j);
        SortKeepsClasses(rows, key, after[i]);
        ClassKeepsOrder([key], rest, rows, after[i]);
      }
    }
    forall x: Row ensures Class(keys, after, x) == Class(keys, items, x) {
      ClassOfClass(key, rest, after, x);
      SortKeepsClasses(rows, key, x);
      ClassOfClass(key, rest, rows, x);
      ClassOfClass(key, rest, items, x);
    }
  }

  // ----- what IsSorted pins down -----

  lemma {:induction false} BothWaysTie(keys: seq<SortKey>, a: Row, b: Row)
    requires MayPrecede(keys, a, b) && MayPrecede(keys, b, a)
    ensures TiesAll(keys, a, b)
  {
    if keys != [] {
      PrecedesIsAnOrder(keys[0], a, b, b);
      BothWaysTie(keys[1..], a, b);
      assert keys == [keys[0]] + keys[1..];
    }
  }

  lemma {:induction false} InBothLists(keys: seq<SortKey>, a: seq<Row>, b: seq<Row>, x: Row)
    requires x in a && Class(keys, a, x) == Class(keys, b, x)
    ensures x in b
  {
    var j :| 0 <= j < |a| && a[j] == x;
    var n := ClassHas(keys, a, x, j);
    assert x in Class(keys, b, x);
  }

  lemma {:induction false} FirstOfClass(keys: seq<SortKey>, rows: seq<Row>, x: Row)
    requires rows != [] && TiesAll(keys, rows[0], x)
    ensures Class(keys, rows, x) != [] && Class(keys, rows, x)[0] == rows[0]
  {
  }

  /** There is only one such list: order and ties leave nothing to choose. */
  lemma {:induction false} SortIsUnique(keys: seq<SortKey>, a: seq<Row>, b: seq<Row>)
    requires Ordered(keys, a) && Ordered(keys, b)
    requires forall x: Row :: Class(keys, a, x) == Class(keys, b, x)
    ensures a == b
    decreases |a|
  {
    if a == [] {
      if b != [] {
        InBothLists(keys, b, a, b[0]);
      }
    } else {
      var x := a[0];
      InBothLists(keys, a, b, x);
      var y := b[0];
      InBothLists(keys, b, a, y);
      assert x == y || (MayPrecede(keys, x, y) && MayPrecede(keys, y, x));
      if x != y {
        BothWaysTie(keys, y, x);
        FirstOfClass(keys, a, x);
        FirstOfClass(keys, b, x);
      }
      forall z: Row ensures Class(keys, a[1..], z) == Class(keys, b[1..], z) {
        assert Class(keys, a, z) == Class(keys, b, z);
        var first := if TiesAll(keys, x, z) then 1 else 0;
        assert Class(keys, a[1..], z) == Class(keys, a, z)[first..];
        assert Class(keys, b[1..], z) == Class(keys, b, z)[first..];
      }
      SortIsUnique(keys, a[1..], b[1..]);
    }
  }

  lemma {:induction false} ClassCounts(keys: seq<SortKey>, rows: seq<Row>, x: Row)
    ensures multiset(Class(keys, rows, x))[x] == multiset(rows)[x]
  {
    if rows != [] {
      ClassCounts(keys, rows[1..], x);
      assert rows == [rows[0]] + rows[1..];
      var first := if TiesAll(keys, rows[0], x) then [rows[0]] else [];
      assert multiset(Class(keys, rows, x)) == multiset(first) + multiset(Class(keys, rows[1..], x));
    }
  }

  /** No row is lost, added or repeated. */
  lemma {:induction false} SortPermutes(keys: seq<SortKey>, before: seq<Row>, after: seq<Row>)
    requires IsSorted(keys, before, after)
    ensures multiset(after) == multiset(before)
  {
    forall x: Row ensures multiset(after)[x] == multiset(before)[x] {
      ClassCounts(keys, after, x);
      ClassCounts(keys, before, x);
    }
  }

  // ----- what the properties are -----

  /** Numbers rise, and a message without one stands last. */
  predicate Rises(a: Option<int>, b: Option<int>) {
    b.Some? ==> a.Some? && a.value <= b.value
  }

  /** Of any two rows, the first key of the list puts the earlier received, the smaller, the one with the lesser subject
      or the one without the keyword first; descending it is the other one. */
  lemma {:induction false} FirstKeyOrders(sort: seq<SortKey>, before: seq<Row>, after: seq<Row>, i: nat, j: nat)
    requires IsSorted(sort, before, after) && sort != [] && i < j < |after|
    ensures var (a, b) := if sort[0].isAscending then (after[i], after[j]) else (after[j], after[i]);
            match sort[0].property
            case ReceivedAt => Rises(a.internalDate, b.internalDate)
            case Size => Rises(a.size, b.size)
            case Subject => b.subject.Some? ==> a.subject.Some? && !Less(b.subject.value, a.subject.value)
            case HasKeyword(flag) => flag in a.flags ==> flag in b.flags
            case Unknown => true
  {
    assert MayPrecede(sort, after[i], after[j]);
    PrecedesIsAnOrder(sort[0], after[i], after[j], after[i]);
    if Ties(sort[0], after[i], after[j]) && after[i].subject.Some? {
      LessIsTotal(after[i].subject.value, after[i].subject.value);
    }
    if after[i].subject.Some? && after[j].subject.Some? {
      LessIsTotal(after[i].subject.value, after[j].subject.value);
      LessIsTotal(after[j].subject.value, after[i].subject.value);
    }
  }

  /** Rows the first key does not tell apart are those with the same date, size, subject or keyword, and the next keys
      decide. */
  lemma {:induction false} NextKeysDecide(sort: seq<SortKey>, before: seq<Row>, after: seq<Row>, i: nat, j: nat)
    requires IsSorted(sort, before, after) && sort != [] && i < j < |after|
    requires var (a, b) := (after[i], after[j]);
             match sort[0].property
             case ReceivedAt => a.internalDate == b.internalDate
             case Size => a.size == b.size
             case Subject => a.subject == b.subject
             case HasKeyword(flag) => flag in a.flags <==> flag in b.flags
             case Unknown => true
    ensures MayPrecede(sort[1..], after[i], after[j])
  {
    assert MayPrecede(sort, after[i], after[j]);
    PrecedesIsAnOrder(sort[0], after[i], after[j], after[i]);
  }
}
