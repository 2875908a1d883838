/**
  References in the arguments of a call: to records created earlier, and to earlier results. What substitution and
  resolution come to is said of the places of a JSON value, not of the functions that compute it
  (src/jmap_bridge/dispatch.py:63-196).
 */
module ReferencePlaces {
  import opened Wrappers
  import opened SplitWords
  import opened Dispatch

  // ----- strings -----

  /** The string refers to the record created as `r`. */
  predicate IsRef(s: string, r: string) {
    r != [] && '\n' !in r && (s == "#" + r || s == "#" + r + "\n")
  }

  lemma {:induction false} RefExactly(s: string, r: string)
    ensures CreationRef(s) == Some(r) <==> IsRef(s, r)
  {
    if s != [] && s[0] == '#' {
      assert s == "#" + s[1..];
      if IsRef(s, r) {
        assert s == "#" + r ==> s[1..] == r;
        assert s == "#" + r + "\n" ==> s[1..] == r + "\n";
      }
    }
  }

  /** A reference becomes the id that was created, any other string stays. */
  ghost predicate Becomes(s: string, ids: Created, t: string) {
    && (forall r :: IsRef(s, r) ==> r in ids && t == ids[r])
    && ((forall r :: !IsRef(s, r)) ==> t == s)
  }

  lemma {:induction false} StringBecomes(s: string, ids: Created)
    ensures SubstituteString(s, ids).Ok? <==> forall r :: IsRef(s, r) ==> r in ids
    ensures SubstituteString(s, ids).Ok? ==> Becomes(s, ids, SubstituteString(s, ids).value)
  {
    forall r ensures CreationRef(s) == Some(r) <==> IsRef(s, r) {
      RefExactly(s, r);
    }
  }

  // ----- a dict filled in order -----

  /** What a Python dict holds that was filled with these: a later value under a key replaces an earlier one. */
  ghost predicate AsDict(pairs: seq<Field>, ms: seq<Field>) {
    && DistinctKeys(ms)
    && (forall p <- pairs :: exists m <- ms :: m.key == p.key)
    && (forall m <- ms :: exists i :: Last(pairs, i, m))
  }

  predicate Last(pairs: seq<Field>, i: int, m: Field) {
    0 <= i < |pairs| && pairs[i] == m && forall j | i < j < |pairs| :: pairs[j].key != m.key
  }

  lemma {:induction false} SetFieldHas(ms: seq<Field>, key: string, value: Tree)
    ensures Field(key, value) in SetField(ms, key, value)
    ensures forall m <- ms :: m.key != key ==> m in SetField(ms, key, value)
  {
    if ms != [] {
      assert ms == [ms[0]] + ms[1..];
      if ms[0].key != key {
        SetFieldHas(ms[1..], key, value);
      }
    }
  }

  lemma {:induction false} SetFieldOnce(ms: seq<Field>, key: string, value: Tree)
    requires DistinctKeys(ms)
    ensures forall m <- SetField(ms, key, value) :: m == Field(key, value) || (m in ms && m.key != key)
  {
    SetFieldKeeps(ms, key, value);
    SetFieldDistinct(ms, key, value);
    SetFieldHas(ms, key, value);
    var all := SetField(ms, key, value);
    forall m | m in all && m.key == key ensures m == Field(key, value) {
      var i :| 0 <= i < |all| && all[i] == m;
      var j :| 0 <= j < |all| && all[j] == Field(key, value);
    }
  }

  lemma {:induction false} OneMorePair(pairs: seq<Field>, ms: seq<Field>, f: Field)
    requires AsDict(pairs, ms)
    ensures AsDict(pairs + [f], SetField(ms, f.key, f.value))
  {
    var all, now := pairs + [f], SetField(ms, f.key, f.value);
    SetFieldDistinct(ms, f.key, f.value);
    SetFieldHas(ms, f.key, f.value);
    SetFieldOnce(ms, f.key, f.value);
    forall p | p in all ensures exists m <- now :: m.key == p.key {
      if p.key == f.key {
        assert Field(f.key, f.value) in now;
      } else {
        var m :| m in ms && m.key == p.key;
        assert m in now;
      }
    }
    forall m | m in now ensures exists i :: Last(all, i, m) {
      if m == f {
        assert Last(all, |pairs|, m);
      } else {
        var i :| Last(pairs, i, m);
        assert Last(all, i, m);
      }
    }
  }

  // ----- where ids stand -----

  predicate HoldsId(key: string) {
    key == "emailId" || key == "identityId" || key == "parentId"
  }

  predicate KeyedByIds(key: string) {
    key == "mailboxIds" || key == "calendarIds" || key == "addressBookIds"
  }

  predicate InIdPosition(m: Field) {
    (HoldsId(m.key) && m.value.Text?) || (KeyedByIds(m.key) && m.value.Object?)
  }

  lemma {:induction false} PositionIs(m: Field)
    ensures PositionOf(m).IdValue? <==> HoldsId(m.key) && m.value.Text?
    ensures PositionOf(m).IdMap? <==> KeyedByIds(m.key) && m.value.Object?
  {
  }

  /** The path exists and goes into no id position. */
  predicate Outside(v: Tree, path: seq<Step>)
    decreases |path|
  {
    path == [] ||
    match (v, path[0])
    case (List(items), Index(i)) => i < |items| && Outside(items[i], path[1..])
    case (Object(ms), Key(key)) =>
      Find(ms, key).Some? && !InIdPosition(Find(ms, key).value) && Outside(Find(ms, key).value.value, path[1..])
    case _ => false
  }

  lemma {:induction false} OutsideIsOutsideIds(v: Tree, path: seq<Step>)
    ensures Outside(v, path) <==> OutsideIds(v, path)
    decreases |path|
  {
    if path != [] {
      match (v, path[0])
      case (List(items), Index(i)) => if i < |items| { OutsideIsOutsideIds(items[i], path[1..]); }
      case (Object(ms), Key(key)) =>
        if Find(ms, key).Some? {
          PositionIs(Find(ms, key).value);
          OutsideIsOutsideIds(Find(ms, key).value.value, path[1..]);
        }
      case _ =>
    }
  }

  /** The value under a key of the object at a place. */
  function MemberAt(v: Tree, path: seq<Step>, key: string): Option<Tree> {
    match At(v, path)
    case Some(Object(ms)) => if Find(ms, key).Some? then Some(Find(ms, key).value.value) else None
    case _ => None
  }

  predicate SameShape(x: Tree, y: Tree) {
    match (x, y)
    case (List(xs), List(ys)) => |xs| == |ys|
    case (Object(xs), Object(ys)) => |xs| == |ys| && forall i | 0 <= i < |xs| :: xs[i].key == ys[i].key
    case _ => x == y
  }

  /** An object keyed by ids, with its references replaced. */
  ghost predicate Rekeyed(ms: seq<Field>, ids: Created, ns: seq<Field>) {
    exists pairs: seq<Field> :: RekeyedBy(ms, ids, pairs) && AsDict(pairs, ns)
  }

  ghost predicate RekeyedBy(ms: seq<Field>, ids: Created, pairs: seq<Field>) {
    |pairs| == |ms| &&
    forall i | 0 <= i < |ms| :: Becomes(ms[i].key, ids, pairs[i].key) && pairs[i].value == ms[i].value
  }

  /** `w` is `v` with every reference in an id position replaced by what was created, and all else as it was. */
  ghost predicate Substituted(v: Tree, ids: Created, w: Tree) {
    && (forall path | Outside(v, path) ::
          At(v, path).Some? && At(w, path).Some? && SameShape(At(v, path).value, At(w, path).value))
    && (forall path, key | Outside(v, path) && HoldsId(key) ::
          IdIn(MemberAt(v, path, key), ids, MemberAt(w, path, key)))
    && (forall path, key | Outside(v, path) && KeyedByIds(key) ::
          KeysIn(MemberAt(v, path, key), ids, MemberAt(w, path, key)))
  }

  ghost predicate IdIn(was: Option<Tree>, ids: Created, now: Option<Tree>) {
    was.Some? && was.value.Text? ==> now.Some? && now.value.Text? && Becomes(was.value.s, ids, now.value.s)
  }

  ghost predicate KeysIn(was: Option<Tree>, ids: Created, now: Option<Tree>) {
    was.Some? && was.value.Object? ==>
      now.Some? && now.value.Object? && Rekeyed(was.value.members, ids, now.value.members)
  }

  /** A reference that names nothing created stands under this key of the object at this place. */
  ghost predicate UnknownAt(v: Tree, ids: Created, path: seq<Step>, key: string) {
    Outside(v, path) && MemberAt(v, path, key).Some? &&
    match MemberAt(v, path, key).value
    case Text(s) => HoldsId(key) && HasUnknown(s, ids)
    case Object(ms) => KeyedByIds(key) && exists m <- ms :: HasUnknown(m.key, ids)
    case _ => false
  }

  ghost predicate HasUnknown(s: string, ids: Created) {
    exists r :: IsRef(s, r) && r !in ids
  }

  ghost predicate HasUnknownRef(v: Tree, ids: Created) {
    exists path: seq<Step>, key: string :: UnknownAt(v, ids, path, key)
  }

  lemma {:induction false} KeysRekeyed(ms: seq<Field>, ids: Created) returns (pairs: seq<Field>)
    requires SubstituteKeys(ms, ids).Ok?
    ensures RekeyedBy(ms, ids, pairs) && AsDict(pairs, SubstituteKeys(ms, ids).value)
  {
    if ms == [] {
      pairs := [];
    } else {
      var n := |ms| - 1;
      var before := KeysRekeyed(ms[..n], ids);
      var f := Field(SubstituteString(ms[n].key, ids).value, ms[n].value);
      StringBecomes(ms[n].key, ids);
      OneMorePair(before, SubstituteKeys(ms[..n], ids).value, f);
      pairs := before + [f];
      OneMoreKey(ms, ids, before, f);
    }
  }

  lemma {:induction false} OneMoreKey(ms: seq<Field>, ids: Created, pairs: seq<Field>, f: Field)
    requires ms != [] && RekeyedBy(ms[..|ms| - 1], ids, pairs)
    requires Becomes(ms[|ms| - 1].key, ids, f.key) && f.value == ms[|ms| - 1].value
    ensures RekeyedBy(ms, ids, pairs + [f])
  {
    var n, all := |ms| - 1, pairs + [f];
    forall i | 0 <= i < |ms| ensures Becomes(ms[i].key, ids, all[i].key) && all[i].value == ms[i].value {
      assert i < n ==> ms[i] == ms[..n][i] && all[i] == pairs[i];
    }
  }

  lemma {:induction false} FieldsSameKeys(ms: seq<Field>, ids: Created)
    requires SubstituteFields(ms, ids).Ok?
    ensures var ns := SubstituteFields(ms, ids).value;
            |ns| == |ms| && forall i | 0 <= i < |ms| :: ns[i].key == ms[i].key
  {
    if ms != [] {
      FieldsSameKeys(ms[1..], ids);
    }
  }

  lemma {:induction false} SubstituteKeepsShape(v: Tree, ids: Created)
    requires Substitute(v, ids).Ok?
    ensures SameShape(v, Substitute(v, ids).value)
  {
    match v
    case List(items) => ItemsCount(items, ids);
    case Object(ms) => FieldsSameKeys(ms, ids);
    case _ =>
  }

  lemma {:induction false} PlaceSubstituted(v: Tree, ids: Created, path: seq<Step>)
    requires Substitute(v, ids).Ok? && Outside(v, path)
    ensures At(v, path).Some? && At(Substitute(v, ids).value, path).Some?
    ensures Substitute(At(v, path).value, ids) == Ok(At(Substitute(v, ids).value, path).value)
    ensures SameShape(At(v, path).value, At(Substitute(v, ids).value, path).value)
  {
    OutsideIsOutsideIds(v, path);
    OutsideIdsUnchanged(v, ids, path);
    SubstituteKeepsShape(At(v, path).value, ids);
  }

  lemma {:induction false} MemberSubstituted(v: Tree, ids: Created, path: seq<Step>, key: string)
    requires Substitute(v, ids).Ok? && Outside(v, path) && MemberAt(v, path, key).Some?
    ensures var was, now := MemberAt(v, path, key).value, MemberAt(Substitute(v, ids).value, path, key);
            && now.Some? && SubstituteField(Field(key, was), ids) == Ok(Field(key, now.value))
  {
    PlaceSubstituted(v, ids, path);
    var ms := At(v, path).value.members;
    FieldAt(ms, ids, key);
    FindKey(ms, key);
    FindKey(SubstituteFields(ms, ids).value, key);
  }

  lemma {:induction false} FindKey(ms: seq<Field>, key: string)
    ensures Find(ms, key).Some? ==> Find(ms, key).value.key == key && Find(ms, key).value in ms
    ensures Find(ms, key).None? ==> forall m <- ms :: m.key != key
  {
    if ms != [] {
      assert ms == [ms[0]] + ms[1..];
      FindKey(ms[1..], key);
    }
  }

  lemma {:induction false} SubstituteIsSubstituted(v: Tree, ids: Created)
    requires Substitute(v, ids).Ok?
    ensures Substituted(v, ids, Substitute(v, ids).value)
  {
    var w := Substitute(v, ids).value;
    forall path | Outside(v, path)
      ensures At(v, path).Some? && At(w, path).Some? && SameShape(At(v, path).value, At(w, path).value)
    {
      PlaceSubstituted(v, ids, path);
    }
    forall path, key | Outside(v, path) && HoldsId(key)
      ensures IdIn(MemberAt(v, path, key), ids, MemberAt(w, path, key))
    {
      if MemberAt(v, path, key).Some? && MemberAt(v, path, key).value.Text? {
        MemberSubstituted(v, ids, path, key);
        StringBecomes(MemberAt(v, path, key).value.s, ids);
      }
    }
    forall path, key | Outside(v, path) && KeyedByIds(key)
      ensures KeysIn(MemberAt(v, path, key), ids, MemberAt(w, path, key))
    {
      if MemberAt(v, path, key).Some? && MemberAt(v, path, key).value.Object? {
        MemberSubstituted(v, ids, path, key);
        PositionIs(Field(key, MemberAt(v, path, key).value));
        var pairs := KeysRekeyed(MemberAt(v, path, key).value.members, ids);
      }
    }
  }

  lemma {:induction false} KeysKnown(ms: seq<Field>, ids: Created)
    ensures SubstituteKeys(ms, ids).Err? <==> exists m <- ms :: HasUnknown(m.key, ids)
  {
    if ms != [] {
      var n := |ms| - 1;
      KeysKnown(ms[..n], ids);
      StringBecomes(ms[n].key, ids);
      assert ms == ms[..n] + [ms[n]];
    }
  }

  lemma {:induction false} FieldKnown(m: Field, ids: Created)
    requires InIdPosition(m)
    ensures SubstituteField(m, ids).Err? <==>
              match m.value
              case Text(s) => HasUnknown(s, ids)
              case Object(ms) => exists f <- ms :: HasUnknown(f.key, ids)
              case _ => false
  {
    PositionIs(m);
    if m.value.Text? {
      StringBecomes(m.value.s, ids);
    } else {
      KeysKnown(m.value.members, ids);
    }
  }

  lemma {:induction false} FailingItem(items: seq<Tree>, ids: Created) returns (i: nat)
    requires SubstituteItems(items, ids).Err?
    ensures i < |items| && Substitute(items[i], ids).Err?
  {
    i := 0;
    if Substitute(items[0], ids).Ok? {
      i := FailingItem(items[1..], ids);
      i := i + 1;
    }
  }

  lemma {:induction false} FailingField(ms: seq<Field>, ids: Created) returns (i: nat)
    requires SubstituteFields(ms, ids).Err?
    ensures i < |ms| && SubstituteField(ms[i], ids).Err?
  {
    i := 0;
    if SubstituteField(ms[0], ids).Ok? {
      i := FailingField(ms[1..], ids);
      i := i + 1;
    }
  }

  lemma {:induction false} FindsIt(ms: seq<Field>, i: nat)
    requires DistinctKeys(ms) && i < |ms|
    ensures Find(ms, ms[i].key) == Some(ms[i])
  {
    if i > 0 {
      assert ms[0].key != ms[i].key;
      assert DistinctKeys(ms[1..]);
      FindsIt(ms[1..], i - 1);
    }
  }

  lemma {:induction false} DeeperUnknown(v: Tree, ids: Created, step: Step, child: Tree, path: seq<Step>, key: string)
    requires At(v, [step]) == Some(child) && Outside(v, [step]) && UnknownAt(child, ids, path, key)
    ensures UnknownAt(v, ids, [step] + path, key)
  {
    assert ([step] + path)[1..] == path && [step][1..] == [];
    assert forall w: Tree :: At(w, []) == Some(w);
  }

  lemma {:induction false} FailsSomewhere(v: Tree, ids: Created) returns (path: seq<Step>, key: string)
    requires Proper(v) && Substitute(v, ids).Err?
    ensures UnknownAt(v, ids, path, key)
    decreases v
  {
    match v
    case List(items) =>
      var i := FailingItem(items, ids);
      assert items[i] in items;
      path, key := FailsSomewhere(items[i], ids);
      AtOne(v, Index(i));
      assert Outside(v, [Index(i)]) by { assert [Index(i)][1..] == []; }
      DeeperUnknown(v, ids, Index(i), items[i], path, key);
      path := [Index(i)] + path;
    case Object(ms) =>
      var i := FailingField(ms, ids);
      assert ms[i] in ms;
      FindsIt(ms, i);
      if InIdPosition(ms[i]) {
        FieldKnown(ms[i], ids);
        path, key := [], ms[i].key;
      } else {
        PositionIs(ms[i]);
        path, key := FailsSomewhere(ms[i].value, ids);
        var step := Key(ms[i].key);
        LookupIsFind(ms, ms[i].key);
        AtOne(v, step);
        assert Outside(v, [step]) by { assert [step][1..] == []; }
        DeeperUnknown(v, ids, step, ms[i].value, path, key);
        path := [step] + path;
      }
  }

  lemma {:induction false} UnknownFails(v: Tree, ids: Created, path: seq<Step>, key: string)
    requires UnknownAt(v, ids, path, key)
    ensures Substitute(v, ids).Err?
  {
    if Substitute(v, ids).Ok? {
      var m := Field(key, MemberAt(v, path, key).value);
      MemberSubstituted(v, ids, path, key);
      FieldKnown(m, ids);
      assert false;
    }
  }

  /** Substitution fails if and only if some reference in an id position names nothing created. */
  lemma {:induction false} SubstitutesExactly(v: Tree, ids: Created)
    requires Proper(v)
    ensures Substitute(v, ids).Err? <==> HasUnknownRef(v, ids)
    ensures Substitute(v, ids).Ok? ==> Substituted(v, ids, Substitute(v, ids).value)
  {
    if Substitute(v, ids).Err? {
      var path, key := FailsSomewhere(v, ids);
    } else {
      SubstituteIsSubstituted(v, ids);
    }
    if HasUnknownRef(v, ids) {
      var path: seq<Step>, key: string :| UnknownAt(v, ids, path, key);
      UnknownFails(v, ids, path, key);
    }
  }

  // ----- arguments from earlier results -----

  predicate IsBackref(m: Field) {
    m.key != [] && m.key[0] == '#'
  }

  function OutKey(m: Field): string {
    if IsBackref(m) then m.key[1..] else m.key
  }

  function IsSlash(): char -> bool {
    c => c == '/'
  }

  function Keys(segments: seq<string>): seq<Step> {
    seq(|segments|, i requires 0 <= i < |segments| => Key(segments[i]))
  }

  /** What a path finds in a result: without a star, what stands there; with one, the list of what stands at its
      concrete places, lists opened. */
  ghost predicate Found(v: Tree, segments: seq<string>, y: Tree) {
    && Alive(v, segments)
    && (forall x :: x in Elements(y) <==> Collected(v, segments, x))
    && (if "*" in segments then y.List? else At(v, Keys(segments)) == Some(y))
  }

  /** The reference can be followed: it has both parts, there is a result without error under the tag, and the path
      leads somewhere in it. */
  ghost predicate Resolvable(m: Field, results: map<Tree, Outcome>) {
    && m.value.Object?
    && var tag, path := Find(m.value.members, "resultOf"), Find(m.value.members, "path");
       && tag.Some? && path.Some? && !tag.value.value.List? && !tag.value.value.Object? && path.value.value.Text?
       && tag.value.value in results && results[tag.value.value].name != Text("error")
       && Alive(results[tag.value.value].args, Words(path.value.value.s, IsSlash()))
  }

  /** What an argument holds for the handler. */
  ghost predicate Holds(m: Field, results: map<Tree, Outcome>, y: Tree) {
    if !IsBackref(m) then y == m.value
    else
      && Resolvable(m, results)
      && var tag := Find(m.value.members, "resultOf").value.value;
         var path := Find(m.value.members, "path").value.value;
         Found(results[tag].args, Words(path.s, IsSlash()), y)
  }

  ghost predicate HoldAll(args: seq<Field>, results: map<Tree, Outcome>, pairs: seq<Field>) {
    |pairs| == |args| &&
    forall i | 0 <= i < |args| :: pairs[i].key == OutKey(args[i]) && Holds(args[i], results, pairs[i].value)
  }

  /** The arguments with every reference to an earlier result followed. */
  ghost predicate Resolved(args: seq<Field>, results: map<Tree, Outcome>, ms: seq<Field>) {
    exists pairs: seq<Field> :: HoldAll(args, results, pairs) && AsDict(pairs, ms)
  }

  ghost predicate HasUnresolvable(args: seq<Field>, results: map<Tree, Outcome>) {
    exists m <- args :: IsBackref(m) && !Resolvable(m, results)
  }

  lemma {:induction false} SplitIsWords(s: string, from: nat, at: nat)
    requires from <= at <= |s| && forall k | from <= k < at :: s[k] != '/'
    ensures Split(s, from, at) == Words(s[from..], IsSlash())
    decreases |s| - at
  {
    if at == |s| {
      WholeWord(s[from..]);
    } else if s[at] == '/' {
      SplitIsWords(s, at + 1, at + 1);
      WordThenSlashAt(s, from, at);
    } else {
      SplitIsWords(s, from, at + 1);
    }
  }

  lemma {:induction false} LengthTo(s: string, n: nat)
    requires n <= |s| && (forall k | 0 <= k < n :: s[k] != '/') && (n < |s| ==> s[n] == '/')
    ensures WordLength(s, IsSlash()) == n
  {
    if n > 0 {
      LengthTo(s[1..], n - 1);
    }
  }

  lemma {:induction false} WholeWord(s: string)
    requires forall k | 0 <= k < |s| :: s[k] != '/'
    ensures Words(s, IsSlash()) == Segment(s)
  {
    if s != [] {
      LengthTo(s, |s|);
      assert s[..|s|] == s && s[|s|..] == [];
    }
  }

  lemma {:induction false} WordThenSlash(s: string, n: nat)
    requires n < |s| && s[n] == '/' && forall k | 0 <= k < n :: s[k] != '/'
    ensures Words(s, IsSlash()) == Segment(s[..n]) + Words(s[n + 1..], IsSlash())
  {
    if n > 0 {
      LengthTo(s, n);
      assert s[n..][1..] == s[n + 1..];
    }
  }

  lemma {:induction false} WordThenSlashAt(s: string, from: nat, at: nat)
    requires from <= at < |s| && s[at] == '/' && forall k | from <= k < at :: s[k] != '/'
    ensures Words(s[from..], IsSlash()) == Segment(s[from..at]) + Words(s[at + 1..], IsSlash())
  {
    var rest, n := s[from..], at - from;
    assert rest[..n] == s[from..at];
    assert rest[n + 1..] == s[at + 1..];
    WordThenSlash(rest, n);
  }

  lemma {:induction false} StarMakesAList(v: Tree, segments: seq<string>)
    requires ResolvePath(v, segments).Ok?
    ensures var y := ResolvePath(v, segments).value;
            if "*" in segments then y.List? else At(v, Keys(segments)) == Some(y)
    decreases |segments|
  {
    if segments != [] && segments[0] != "*" {
      var child := Lookup(v.members, segments[0]).value;
      StarMakesAList(child, segments[1..]);
      LookupIsFind(v.members, segments[0]);
      assert segments == [segments[0]] + segments[1..];
      assert Keys(segments)[1..] == Keys(segments[1..]);
    }
  }

  lemma {:induction false} PathFinds(v: Tree, segments: seq<string>)
    ensures ResolvePath(v, segments).Ok? <==> Alive(v, segments)
    ensures ResolvePath(v, segments).Ok? ==> Found(v, segments, ResolvePath(v, segments).value)
  {
    PathResolvesExactly(v, segments);
    if ResolvePath(v, segments).Ok? {
      StarMakesAList(v, segments);
      forall x ensures x in Elements(ResolvePath(v, segments).value) <==> Collected(v, segments, x) {
        PathCollectsExactly(v, segments, x);
      }
    }
  }

  lemma {:induction false} ArgHolds(m: Field, results: map<Tree, Outcome>)
    ensures ResolveArg(m, results).Err? <==> IsBackref(m) && !Resolvable(m, results)
    ensures ResolveArg(m, results).Ok? ==>
              var f := ResolveArg(m, results).value; f.key == OutKey(m) && Holds(m, results, f.value)
    ensures ResolveArg(m, results).Err? ==> ResolveArg(m, results).error in {InvalidResultReference, ServerFail}
  {
    if IsBackref(m) && m.value.Object? {
      var ms := m.value.members;
      LookupIsFind(ms, "resultOf");
      LookupIsFind(ms, "path");
      if Find(ms, "resultOf").Some? && Find(ms, "path").Some? {
        BackrefHolds(results, Find(ms, "resultOf").value.value, Find(ms, "path").value.value);
      }
    }
  }

  lemma {:induction false} PathFails(v: Tree, segments: seq<string>)
    requires ResolvePath(v, segments).Err?
    ensures ResolvePath(v, segments) == Err(InvalidResultReference)
    decreases |segments|, 1, 0
  {
    if segments[0] == "*" {
      if v.List? { EachFails(v.items, segments[1..]); }
    } else if v.Object? && Lookup(v.members, segments[0]).Some? {
      PathFails(Lookup(v.members, segments[0]).value, segments[1..]);
    }
  }

  lemma {:induction false} EachFails(items: seq<Tree>, rest: seq<string>)
    requires ResolveEach(items, rest).Err?
    ensures ResolveEach(items, rest) == Err(InvalidResultReference)
    decreases |rest|, 2, |items|
  {
    var n := |items| - 1;
    if ResolveEach(items[..n], rest).Err? {
      EachFails(items[..n], rest);
    } else {
      PathFails(items[n], rest);
    }
  }

  lemma {:induction false} BackrefHolds(results: map<Tree, Outcome>, tag: Tree, path: Tree)
    ensures var r := ResolveBackref(results, tag, path);
            && (r.Ok? <==> && !tag.List? && !tag.Object? && path.Text?
                           && tag in results && results[tag].name != Text("error")
                           && Alive(results[tag].args, Words(path.s, IsSlash())))
            && (r.Ok? ==> Found(results[tag].args, Words(path.s, IsSlash()), r.value))
            && (r.Err? ==> r.error in {InvalidResultReference, ServerFail})
  {
    if Hashable(tag) && tag in results && results[tag].name != ERROR && path.Text? {
      SplitIsWords(path.s, 0, 0);
      assert path.s[0..] == path.s;
      PathFinds(results[tag].args, Split(path.s, 0, 0));
      if ResolvePath(results[tag].args, Split(path.s, 0, 0)).Err? {
        PathFails(results[tag].args, Split(path.s, 0, 0));
      }
    }
  }

  lemma {:induction false} ArgsHold(args: seq<Field>, results: map<Tree, Outcome>) returns (pairs: seq<Field>)
    ensures ResolveArgs(args, results).Err? <==> HasUnresolvable(args, results)
    ensures ResolveArgs(args, results).Ok? ==>
              HoldAll(args, results, pairs) && AsDict(pairs, ResolveArgs(args, results).value)
    ensures ResolveArgs(args, results).Err? ==> ResolveArgs(args, results).error in {InvalidResultReference, ServerFail}
  {
    pairs := [];
    if args != [] {
      var n := |args| - 1;
      var before := ArgsHold(args[..n], results);
      ArgHolds(args[n], results);
      assert args == args[..n] + [args[n]];
      if ResolveArgs(args, results).Ok? {
        var f := ResolveArg(args[n], results).value;
        OneMorePair(before, ResolveArgs(args[..n], results).value, f);
        OneMoreArg(args, results, before, f);
        pairs := before + [f];
      }
    }
  }

  lemma {:induction false} OneMoreArg(args: seq<Field>, results: map<Tree, Outcome>, pairs: seq<Field>, f: Field)
    requires args != [] && HoldAll(args[..|args| - 1], results, pairs)
    requires f.key == OutKey(args[|args| - 1]) && Holds(args[|args| - 1], results, f.value)
    ensures HoldAll(args, results, pairs + [f])
  {
    var n, all := |args| - 1, pairs + [f];
    forall i | 0 <= i < |args| ensures all[i].key == OutKey(args[i]) && Holds(args[i], results, all[i].value) {
      assert i < n ==> args[i] == args[..n][i] && all[i] == pairs[i];
    }
  }

  /** Arguments resolve if and only if each reference among them does, and then hold what it finds. */
  lemma {:induction false} ArgsResolveExactly(args: seq<Field>, results: map<Tree, Outcome>)
    ensures ResolveArgs(args, results).Err? <==> HasUnresolvable(args, results)
    ensures ResolveArgs(args, results).Ok? ==> Resolved(args, results, ResolveArgs(args, results).value)
    ensures ResolveArgs(args, results).Err? ==> ResolveArgs(args, results).error in {InvalidResultReference, ServerFail}
  {
    var pairs := ArgsHold(args, results);
  }
}
