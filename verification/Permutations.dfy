/** Taking apart two lists that hold the same elements. */
module Permutations {
  import opened Wrappers

  lemma {:induction false} Without<T>(s: seq<T>, j: nat)
    requires j < |s|
    ensures multiset(s[..j] + s[j + 1..]) == multiset(s) - multiset{s[j]}
  {
    assert s == s[..j] + ([s[j]] + s[j + 1..]);
  }

  lemma {:induction false} TakeOut<T>(a: seq<T>, b: seq<T>) returns (j: nat)
    requires a != [] && multiset(a) == multiset(b)
    ensures j < |b| && b[j] == a[0] && multiset(a[1..]) == multiset(b[..j] + b[j + 1..])
  {
    assert a[0] in multiset(b);
    j :| 0 <= j < |b| && b[j] == a[0];
    Without(a, 0);
    assert a[..0] + a[0 + 1..] == a[1..];
    Without(b, j);
  }

  /** What f makes of the elements, of those it makes something of. */
  function Picked<T, U>(s: seq<T>, f: T -> Option<U>): seq<U> {
    if s == [] then []
    else
      var n := |s| - 1;
      Picked(s[..n], f) + (if f(s[n]).Some? then [f(s[n]).value] else [])
  }

  lemma {:induction false} PickedJoin<T, U>(a: seq<T>, b: seq<T>, f: T -> Option<U>)
    ensures Picked(a + b, f) == Picked(a, f) + Picked(b, f)
  {
    if b == [] {
      assert a + b == a;
    } else {
      var n := |b| - 1;
      PickedJoin(a, b[..n], f);
      assert (a + b)[..|a + b| - 1] == a + b[..n];
    }
  }

  lemma {:induction false} PickedAround<T, U>(x: seq<T>, e: T, y: seq<T>, f: T -> Option<U>)
    ensures multiset(Picked(x + [e] + y, f)) == multiset(Picked(x + y, f)) + multiset(Picked([e], f))
  {
    PickedJoin(x + [e], y, f);
    PickedJoin(x, [e], f);
    PickedJoin(x, y, f);
  }

  lemma {:induction false} PickedWithout<T, U>(s: seq<T>, j: nat, f: T -> Option<U>)
    requires j < |s|
    ensures multiset(Picked(s, f)) == multiset(Picked(s[..j] + s[j + 1..], f)) + multiset(Picked([s[j]], f))
  {
    assert s == s[..j] + [s[j]] + s[j + 1..];
    PickedAround(s[..j], s[j], s[j + 1..], f);
  }

  lemma {:induction false} PickedFirst<T, U>(s: seq<T>, f: T -> Option<U>)
    requires s != []
    ensures multiset(Picked(s, f)) == multiset(Picked(s[1..], f)) + multiset(Picked([s[0]], f))
  {
    assert s == [s[0]] + s[1..];
    PickedJoin([s[0]], s[1..], f);
  }

  lemma {:induction false} SameWithOneMore<T, U>(a: seq<T>, b: seq<T>, j: nat, f: T -> Option<U>)
    requires a != [] && j < |b| && a[0] == b[j]
    requires multiset(Picked(a[1..], f)) == multiset(Picked(b[..j] + b[j + 1..], f))
    ensures multiset(Picked(a, f)) == multiset(Picked(b, f))
  {
    PickedFirst(a, f);
    PickedWithout(b, j, f);
  }

  lemma {:induction false} SamePicked<T, U>(a: seq<T>, b: seq<T>, f: T -> Option<U>)
    requires multiset(a) == multiset(b)
    ensures multiset(Picked(a, f)) == multiset(Picked(b, f))
    decreases |a|
  {
    if a == [] {
      assert |b| == |multiset(b)| == 0;
    } else {
      var j := TakeOut(a, b);
      SamePicked(a[1..], b[..j] + b[j + 1..], f);
      SameWithOneMore(a, b, j, f);
    }
  }
}
