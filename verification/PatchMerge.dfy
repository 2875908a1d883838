/** Patching one entry of a map property, or one key of an entry, by pointer. */
module PatchMerge {
  import opened Wrappers
  import opened Permutations

  // ----- segments of a pointer -----

  /** Python's s.replace for a pattern of two characters. */
  function Replace(s: string, a: char, b: char, by': char): string {
    if |s| >= 2 && s[0] == a && s[1] == b then [by'] + Replace(s[2..], a, b, by')
    else if s == [] then []
    else [s[0]] + Replace(s[1..], a, b, by')
  }

  function Unescape(segment: string): string {
    Replace(Replace(segment, '~', '1', '/'), '~', '0', '~')
  }

  /** RFC 6901 section 3. */
  function Escape(s: string): string {
    if s == [] then []
    else (if s[0] == '~' then "~0" else if s[0] == '/' then "~1" else [s[0]]) + Escape(s[1..])
  }

  /** Escape with only the tildes done. */
  function EscapeTildes(s: string): string {
    if s == [] then [] else (if s[0] == '~' then "~0" else [s[0]]) + EscapeTildes(s[1..])
  }

  lemma {:induction false} ReplaceHit(a: char, b: char, by': char, rest: string)
    ensures Replace([a, b] + rest, a, b, by') == [by'] + Replace(rest, a, b, by')
  {
    assert ([a, b] + rest)[2..] == rest;
  }

  lemma {:induction false} ReplaceMiss(c: char, a: char, b: char, by': char, rest: string)
    requires c != a || rest == [] || rest[0] != b
    ensures Replace([c] + rest, a, b, by') == [c] + Replace(rest, a, b, by')
  {
    assert ([c] + rest)[1..] == rest;
  }

  lemma {:induction false} SlashesComeBack(s: string)
    ensures Replace(Escape(s), '~', '1', '/') == EscapeTildes(s)
  {
    if s != [] {
      SlashesComeBack(s[1..]);
      var rest := Escape(s[1..]);
      if s[0] == '~' {
        assert Escape(s) == ['~'] + (['0'] + rest);
        ReplaceMiss('~', '~', '1', '/', ['0'] + rest);
        ReplaceMiss('0', '~', '1', '/', rest);
      } else if s[0] == '/' {
        ReplaceHit('~', '1', '/', rest);
      } else {
        ReplaceMiss(s[0], '~', '1', '/', rest);
      }
    }
  }

  lemma {:induction false} TildesComeBack(s: string)
    ensures Replace(EscapeTildes(s), '~', '0', '~') == s
  {
    if s != [] {
      TildesComeBack(s[1..]);
      var rest := EscapeTildes(s[1..]);
      if s[0] == '~' {
        ReplaceHit('~', '0', '~', rest);
      } else {
        ReplaceMiss(s[0], '~', '0', '~', rest);
      }
      assert [s[0]] + s[1..] == s;
    }
  }

  /** The two passes, in this order, undo the escaping of every string. */
  lemma {:induction false} UnescapeInvertsEscape(s: string)
    ensures Unescape(Escape(s)) == s
  {
    SlashesComeBack(s);
    TildesComeBack(s);
  }

  function OtherOrder(segment: string): string {
    Replace(Replace(segment, '~', '0', '~'), '~', '1', '/')
  }

  /** Escape with only the slashes done. */
  function EscapeSlashes(s: string): string {
    if s == [] then [] else (if s[0] == '/' then "~1" else [s[0]]) + EscapeSlashes(s[1..])
  }

  lemma {:induction false} TildesFirst(s: string)
    ensures Replace(Escape(s), '~', '0', '~') == EscapeSlashes(s)
  {
    if s != [] {
      TildesFirst(s[1..]);
      var rest := Escape(s[1..]);
      if s[0] == '/' {
        assert Escape(s) == ['~'] + (['1'] + rest);
        ReplaceMiss('~', '~', '0', '~', ['1'] + rest);
        ReplaceMiss('1', '~', '0', '~', rest);
      } else if s[0] == '~' {
        ReplaceHit('~', '0', '~', rest);
      } else {
        ReplaceMiss(s[0], '~', '0', '~', rest);
      }
    }
  }

  predicate HasTildeOne(s: string) {
    |s| >= 2 && ((s[0] == '~' && s[1] == '1') || HasTildeOne(s[1..]))
  }

  /** The other order would do for exactly the strings without a tilde before a one. */
  lemma {:induction false} OtherOrderExactly(s: string)
    ensures OtherOrder(Escape(s)) == s <==> !HasTildeOne(s)
  {
    TildesFirst(s);
    SlashesThenExactly(s);
  }

  lemma {:induction false} SlashesThenExactly(s: string)
    ensures Replace(EscapeSlashes(s), '~', '1', '/') == s <==> !HasTildeOne(s)
  {
    if s != [] {
      var t, rest := EscapeSlashes(s), EscapeSlashes(s[1..]);
      SlashesThenExactly(s[1..]);
      if s[0] == '/' {
        assert t[2..] == rest;
        assert Replace(t, '~', '1', '/') == ['/'] + Replace(rest, '~', '1', '/');
      } else if s[0] == '~' && |s| >= 2 && s[1] == '1' {
        assert rest[0] == '1' && t[0] == '~' && t[1] == '1';
        assert Replace(t, '~', '1', '/')[0] == '/';
      } else {
        assert t[1..] == rest;
        assert |s| >= 2 ==> rest[0] == (if s[1] == '/' then '~' else s[1]);
        assert Replace(t, '~', '1', '/') == [s[0]] + Replace(rest, '~', '1', '/');
      }
      assert s == [s[0]] + s[1..];
      assert forall x: string :: ([s[0]] + x)[1..] == x;
    }
  }

  // ----- keys of a patch -----

  datatype Value = Nil | Dict(fields: map<string, Value>) | Atom(text: string)

  type Entries = map<string, Value>

  datatype Target = Whole(id: string) | Key(id: string, key: string)

  function FirstSlash(s: string): (n: nat)
    ensures n <= |s| && (n < |s| ==> s[n] == '/')
    ensures forall i | 0 <= i < n :: s[i] != '/'
  {
    if s == [] || s[0] == '/' then 0 else 1 + FirstSlash(s[1..])
  }

  /** What a patch key points at; None for a key that is not under the prefix. */
  function Decode(prefix: string, pointer: string): Option<Target> {
    if prefix + "/" <= pointer then Some(DecodeRest(pointer[|prefix| + 1..])) else None
  }

  function DecodeRest(rest: string): Target {
    var n := FirstSlash(rest);
    if n < |rest| then Key(Unescape(rest[..n]), Unescape(rest[n + 1..])) else Whole(Unescape(rest))
  }

  lemma {:induction false} UnderPrefix(prefix: string, rest: string)
    ensures Decode(prefix, prefix + "/" + rest) == Some(DecodeRest(rest))
  {
    assert (prefix + "/" + rest)[|prefix| + 1..] == rest;
  }

  lemma {:induction false} EscapeHasNoSlash(s: string)
    ensures FirstSlash(Escape(s)) == |Escape(s)|
  {
    if s != [] {
      EscapeHasNoSlash(s[1..]);
      var rest := Escape(s[1..]);
      if s[0] == '~' || s[0] == '/' {
        var c := if s[0] == '~' then '0' else '1';
        assert Escape(s) == ['~'] + ([c] + rest);
        assert Escape(s)[1..] == [c] + rest && ([c] + rest)[1..] == rest;
      } else {
        assert Escape(s)[1..] == rest;
      }
    }
  }

  lemma {:induction false} FirstSlashJoin(a: string, b: string)
    requires FirstSlash(a) == |a|
    ensures FirstSlash(a + "/" + b) == |a|
  {
    if a == [] {
      assert a + "/" + b == ['/'] + b;
    } else {
      FirstSlashJoin(a[1..], b);
      assert (a + "/" + b)[1..] == a[1..] + "/" + b;
    }
  }

  lemma {:induction false} RestSplits(x: string, y: string)
    requires FirstSlash(x) == |x|
    ensures DecodeRest(x + "/" + y) == Key(Unescape(x), Unescape(y))
  {
    FirstSlashJoin(x, y);
    var rest := x + "/" + y;
    assert rest[..|x|] == x && rest[|x| + 1..] == y;
  }

  lemma {:induction false} Regroup(a: string, b: string, c: string)
    ensures a + "/" + b + "/" + c == a + "/" + (b + "/" + c)
  {
  }

  lemma {:induction false} SlashSplits(prefix: string, x: string, y: string)
    requires FirstSlash(x) == |x|
    ensures Decode(prefix, prefix + "/" + x + "/" + y) == Some(Key(Unescape(x), Unescape(y)))
  {
    Regroup(prefix, x, y);
    UnderPrefix(prefix, x + "/" + y);
    RestSplits(x, y);
  }

  /** Pointers written as RFC 6901 says decode to what was meant. */
  lemma {:induction false} PointerRoundTrip(prefix: string, id: string, key: string)
    ensures Decode(prefix, prefix + "/" + Escape(id)) == Some(Whole(id))
    ensures Decode(prefix, prefix + "/" + Escape(id) + "/" + Escape(key)) == Some(Key(id, key))
  {
    UnescapeInvertsEscape(id);
    UnescapeInvertsEscape(key);
    EscapeHasNoSlash(id);
    UnderPrefix(prefix, Escape(id));
    SlashSplits(prefix, Escape(id), Escape(key));
  }

  lemma {:induction false} ReplaceAcrossSlash(a: string, b: string, digit: char, by': char)
    requires digit != '/'
    ensures Replace(a + "/" + b, '~', digit, by') == Replace(a, '~', digit, by') + "/" + Replace(b, '~', digit, by')
  {
    var whole := a + "/" + b;
    if a == [] {
      assert whole == ['/'] + b;
      ReplaceMiss('/', '~', digit, by', b);
    } else if |a| >= 2 && a[0] == '~' && a[1] == digit {
      assert whole == ['~', digit] + (a[2..] + "/" + b) && a == ['~', digit] + a[2..];
      ReplaceHit('~', digit, by', a[2..] + "/" + b);
      ReplaceHit('~', digit, by', a[2..]);
      ReplaceAcrossSlash(a[2..], b, digit, by');
    } else {
      var rest := a[1..] + "/" + b;
      assert whole == [a[0]] + rest && a == [a[0]] + a[1..];
      assert rest[0] == if |a| == 1 then '/' else a[1];
      ReplaceMiss(a[0], '~', digit, by', rest);
      ReplaceMiss(a[0], '~', digit, by', a[1..]);
      ReplaceAcrossSlash(a[1..], b, digit, by');
    }
  }

  lemma {:induction false} UnescapeAcrossSlash(a: string, b: string)
    ensures Unescape(a + "/" + b) == Unescape(a) + "/" + Unescape(b)
  {
    ReplaceAcrossSlash(a, b, '1', '/');
    ReplaceAcrossSlash(Replace(a, '~', '1', '/'), Replace(b, '~', '1', '/'), '0', '~');
  }

  /** A pointer three segments deep is taken for one key with a slash in its name: the key "a/b" of the entry, not "b"
      of its "a". */
  lemma {:induction false} DeeperPointerIsOneKey(prefix: string, id: string, a: string, b: string)
    ensures Decode(prefix, prefix + "/" + Escape(id) + "/" + (Escape(a) + "/" + Escape(b)))
        == Some(Key(id, a + "/" + b))
    ensures Decode(prefix, prefix + "/" + Escape(id) + "/" + Escape(a + "/" + b)) == Some(Key(id, a + "/" + b))
  {
    PointerRoundTrip(prefix, id, a + "/" + b);
    EscapeHasNoSlash(id);
    SlashSplits(prefix, Escape(id), Escape(a) + "/" + Escape(b));
    UnescapeAcrossSlash(Escape(a), Escape(b));
    UnescapeInvertsEscape(id);
    UnescapeInvertsEscape(a);
    UnescapeInvertsEscape(b);
  }

  // ----- merging -----

  function Fields(entries: Entries, id: string): map<string, Value> {
    if id in entries && entries[id].Dict? then entries[id].fields else map[]
  }

  function Put<V>(m: map<string, V>, k: string, v: Option<V>): map<string, V> {
    if v.Some? then m[k := v.value] else m - {k}
  }

  function Given(v: Value): Option<Value> {
    if v.Nil? then None else Some(v)
  }

  /** One key applied: null takes away, anything else sets; an entry that is not a map becomes one. */
  function Set(entries: Entries, target: Target, value: Value): Entries {
    match target
    case Whole(id) => Put(entries, id, Given(value))
    case Key(id, key) => entries[id := Dict(Put(Fields(entries, id), key, Given(value)))]
  }

  type Patch = seq<(Target, Value)>

  type RawPatch = seq<(string, Value)>

  function SetAll(entries: Entries, patch: Patch): Entries
    decreases patch
  {
    if patch == [] then entries else SetAll(Set(entries, patch[0].0, patch[0].1), patch[1..])
  }

  /** The keys under the prefix, decoded, in order. */
  function Targets(prefix: string, patch: RawPatch): Patch {
    Picked(patch, EntryFor(prefix))
  }

  function EntryFor(prefix: string): ((string, Value)) -> Option<(Target, Value)> {
    (e: (string, Value)) =>
      var target := Decode(prefix, e.0);
      if target.Some? then Some((target.value, e.1)) else None
  }

  method MergeKey(entries: Entries, rest: string, value: Value) returns (result: Entries)
    ensures result == Set(entries, DecodeRest(rest), value)
  {
    result := entries;
    var slash := FirstSlash(rest);
    if slash < |rest| {
      var entryId := Unescape(rest[..slash]);
      var subKey := Unescape(rest[slash + 1..]);
      if !(entryId in result && result[entryId].Dict?) {
        result := result[entryId := Dict(map[])];
      }
      var fields := result[entryId].fields;
      if value.Nil? {
        result := result[entryId := Dict(fields - {subKey})];
      } else {
        result := result[entryId := Dict(fields[subKey := value])];
      }
    } else {
      var entryId := Unescape(rest);
      if value.Nil? {
        result := result - {entryId};
      } else {
        result := result[entryId := value];
      }
    }
  }

  method MergePatchKeys(existing: Entries, patch: RawPatch, prefix: string) returns (result: Entries)
    ensures result == SetAll(existing, Targets(prefix, patch))
  {
    result := existing;
    var keyPrefix := prefix + "/";
    for i := 0 to |patch|
      invariant result == SetAll(existing, Targets(prefix, patch[..i]))
    {
      var (pointer, value) := patch[i];
      assert patch[..i + 1][..i] == patch[..i];
      assert Targets(prefix, patch[..i]) + [] == Targets(prefix, patch[..i]);
      if !(keyPrefix <= pointer) {
        continue;
      }
      var rest := pointer[|keyPrefix|..];
      SetAllJoin(existing, Targets(prefix, patch[..i]), [(DecodeRest(rest), value)]);
      result := MergeKey(result, rest, value);
    }
    assert patch[..|patch|] == patch;
  }

  lemma {:induction false} SetAllJoin(entries: Entries, a: Patch, b: Patch)
    ensures SetAll(entries, a + b) == SetAll(SetAll(entries, a), b)
    decreases a
  {
    if a == [] {
      assert a + b == b;
    } else {
      assert (a + b)[1..] == a[1..] + b;
      SetAllJoin(Set(entries, a[0].0, a[0].1), a[1..], b);
    }
  }

  // ----- order does not matter -----

  /** Neither points at the other or at something inside it (RFC 8620 section 5.3). */
  predicate Apart(s: Target, t: Target) {
    s.id != t.id || (s.Key? && t.Key? && s.key != t.key)
  }

  predicate AllApart(patch: Patch) {
    forall i, j | 0 <= i < j < |patch| :: Apart(patch[i].0, patch[j].0)
  }

  lemma {:induction false} PutsCommute<V>(m: map<string, V>, j: string, x: Option<V>, k: string, y: Option<V>)
    requires j != k
    ensures Put(Put(m, j, x), k, y) == Put(Put(m, k, y), j, x)
  {
  }

  lemma {:induction false} SetsCommute(entries: Entries, s: Target, v: Value, t: Target, w: Value)
    requires Apart(s, t)
    ensures Set(Set(entries, s, v), t, w) == Set(Set(entries, t, w), s, v)
  {
    if s.id == t.id {
      PutsCommute(Fields(entries, s.id), s.key, Given(v), t.key, Given(w));
      assert Fields(Set(entries, s, v), t.id) == Put(Fields(entries, s.id), s.key, Given(v));
      assert Fields(Set(entries, t, w), t.id) == Put(Fields(entries, s.id), t.key, Given(w));
    } else {
      assert Fields(Set(entries, s, v), t.id) == Fields(entries, t.id);
      assert Fields(Set(entries, t, w), s.id) == Fields(entries, s.id);
      var x := if s.Whole? then Given(v) else Some(Dict(Put(Fields(entries, s.id), s.key, Given(v))));
      var y := if t.Whole? then Given(w) else Some(Dict(Put(Fields(entries, t.id), t.key, Given(w))));
      PutsCommute(entries, s.id, x, t.id, y);
    }
  }

  /** A key that is apart from all others can be applied first. */
  lemma {:induction false} FirstOrLast(entries: Entries, patch: Patch, e: (Target, Value))
    requires forall f <- patch :: Apart(f.0, e.0)
    ensures SetAll(Set(entries, e.0, e.1), patch) == Set(SetAll(entries, patch), e.0, e.1)
    decreases patch
  {
    if patch != [] {
      assert patch[0] in patch;
      SetsCommute(entries, patch[0].0, patch[0].1, e.0, e.1);
      FirstOrLast(Set(entries, patch[0].0, patch[0].1), patch[1..], e);
    }
  }

  lemma {:induction false} TakenFirst(entries: Entries, patch: Patch, j: nat)
    requires AllApart(patch) && j < |patch|
    ensures SetAll(entries, patch) == SetAll(Set(entries, patch[j].0, patch[j].1), patch[..j] + patch[j + 1..])
  {
    var a, e, b := patch[..j], patch[j], patch[j + 1..];
    assert patch == a + ([e] + b);
    SetAllJoin(entries, a, [e] + b);
    assert ([e] + b)[1..] == b;
    FirstOrLast(entries, a, e);
    SetAllJoin(Set(entries, e.0, e.1), a, b);
  }

  predicate ApartFromAll(patch: Patch, t: Target) {
    forall f <- patch :: Apart(f.0, t)
  }

  lemma {:induction false} HeadIsApart(patch: Patch)
    requires patch != []
    ensures AllApart(patch) <==> AllApart(patch[1..]) && ApartFromAll(patch[1..], patch[0].0)
  {
    var e, rest := patch[0], patch[1..];
    if AllApart(patch) {
      forall f | f in rest ensures Apart(f.0, e.0) {
        var i :| 0 <= i < |rest| && rest[i] == f;
        assert patch[i + 1] == f;
      }
    }
    if AllApart(rest) && ApartFromAll(rest, e.0) {
      forall i, j | 0 <= i < j < |patch| ensures Apart(patch[i].0, patch[j].0) {
        assert patch[j] == rest[j - 1] && patch[j] in rest;
        assert i > 0 ==> patch[i] == rest[i - 1];
      }
    }
  }

  lemma {:induction false} PutBack(patch: Patch, j: nat)
    requires j < |patch|
    requires AllApart(patch[..j] + patch[j + 1..]) && ApartFromAll(patch[..j] + patch[j + 1..], patch[j].0)
    ensures AllApart(patch)
    decreases patch
  {
    var rest := patch[..j] + patch[j + 1..];
    if j == 0 {
      assert rest == patch[1..];
    } else {
      var tail := patch[1..];
      assert rest[0] == patch[0] && rest[1..] == tail[..j - 1] + tail[j..] && tail[j - 1] == patch[j];
      HeadIsApart(rest);
      PutBack(tail, j - 1);
      assert rest[0] in rest;
      forall f | f in tail ensures Apart(f.0, patch[0].0) {
        var i :| 0 <= i < |tail| && tail[i] == f;
        assert i != j - 1 ==> f in rest[1..] by {
          assert i < j - 1 ==> f == rest[1..][i];
          assert i > j - 1 ==> f == rest[1..][i - 1];
        }
      }
    }
    HeadIsApart(patch);
  }

  lemma {:induction false} ApartInAnyOrder(a: Patch, b: Patch)
    requires multiset(a) == multiset(b) && AllApart(a)
    ensures AllApart(b)
    decreases |a|
  {
    if a == [] {
      assert |b| == |multiset(b)| == 0;
    } else {
      var j := TakeOut(a, b);
      var rest := b[..j] + b[j + 1..];
      HeadIsApart(a);
      ApartInAnyOrder(a[1..], rest);
      forall f | f in rest ensures Apart(f.0, b[j].0) {
        assert f in multiset(rest) && f in multiset(a[1..]);
      }
      PutBack(b, j);
    }
  }

  lemma {:induction false} OrderOfTargets(entries: Entries, a: Patch, b: Patch)
    requires multiset(a) == multiset(b) && AllApart(a) && AllApart(b)
    ensures SetAll(entries, a) == SetAll(entries, b)
    decreases |a|
  {
    if a == [] {
      assert |b| == |multiset(b)| == 0;
    } else {
      var j := TakeOut(a, b);
      TakenFirst(entries, b, j);
      HeadIsApart(a);
      ApartInAnyOrder(a[1..], b[..j] + b[j + 1..]);
      OrderOfTargets(Set(entries, a[0].0, a[0].1), a[1..], b[..j] + b[j + 1..]);
    }
  }

  /** The patch as received, in any other order, merges to the same entries. */
  lemma {:induction false} OrderDoesNotMatter(entries: Entries, prefix: string, a: RawPatch, b: RawPatch)
    requires multiset(a) == multiset(b) && AllApart(Targets(prefix, a))
    ensures SetAll(entries, Targets(prefix, a)) == SetAll(entries, Targets(prefix, b))
  {
    SamePicked(a, b, EntryFor(prefix));
    ApartInAnyOrder(Targets(prefix, a), Targets(prefix, b));
    OrderOfTargets(entries, Targets(prefix, a), Targets(prefix, b));
  }

  // ----- what a merge changes, and what not -----

  function Lookup(entries: Entries, target: Target): Option<Value> {
    match target
    case Whole(id) => if id in entries then Some(entries[id]) else None
    case Key(id, key) => var fields := Fields(entries, id); if key in fields then Some(fields[key]) else None
  }

  /** Every key of the patch is in force afterwards. */
  lemma {:induction false} EachKeyHolds(entries: Entries, patch: Patch, j: nat)
    requires AllApart(patch) && j < |patch|
    ensures Lookup(SetAll(entries, patch), patch[j].0) == Given(patch[j].1)
  {
    var e, rest := patch[j], patch[..j] + patch[j + 1..];
    TakenFirst(entries, patch, j);
    forall f | f in rest ensures Apart(f.0, e.0) {
      var i :| 0 <= i < |rest| && rest[i] == f;
      assert i < j ==> rest[i] == patch[i];
      assert i >= j ==> rest[i] == patch[i + 1];
    }
    FirstOrLast(entries, rest, e);
  }

  /** What no key of the patch points at, into or around stays as it was. */
  lemma {:induction false} OthersAreKept(entries: Entries, patch: Patch, target: Target)
    requires forall f <- patch :: Apart(f.0, target)
    ensures Lookup(SetAll(entries, patch), target) == Lookup(entries, target)
    decreases patch
  {
    if patch != [] {
      assert patch[0] in patch;
      OthersAreKept(Set(entries, patch[0].0, patch[0].1), patch[1..], target);
    }
  }
}
