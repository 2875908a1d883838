/**
  One batch of method calls: references to earlier results and to records created earlier, and the responses.

  Handlers are not part of this model: what the i-th call returns is a parameter. Of Python's re, `^#(.+)$` is written
  out.
 */
module Dispatch {
  import opened Wrappers

  /** A JSON value; Atom is any that is neither text, list nor object. Objects keep their members in order. */
  datatype Tree = Atom(n: int) | Text(s: string) | List(items: seq<Tree>) | Object(members: seq<Field>)

  datatype Field = Field(key: string, value: Tree)

  datatype CallError = UnknownMethod | InvalidArguments | InvalidResultReference | ServerFail
      | MethodError(kind: string)

  // ----- objects -----

  function Lookup(ms: seq<Field>, key: string): Option<Tree> {
    if ms == [] then None else if ms[0].key == key then Some(ms[0].value) else Lookup(ms[1..], key)
  }

  /** dict[key] = value: in place if the key is there, else at the end. */
  function SetField(ms: seq<Field>, key: string, value: Tree): seq<Field> {
    if ms == [] then [Field(key, value)]
    else if ms[0].key == key then [Field(key, value)] + ms[1..]
    else [ms[0]] + SetField(ms[1..], key, value)
  }

  predicate DistinctKeys(ms: seq<Field>) {
    forall i, j | 0 <= i < j < |ms| :: ms[i].key != ms[j].key
  }

  /** As JSON objects are parsed: no key twice. */
  predicate Proper(v: Tree) {
    match v
    case List(items) => forall x <- items :: Proper(x)
    case Object(ms) => DistinctKeys(ms) && forall m <- ms :: Proper(m.value)
    case _ => true
  }

  // ----- creation-id references -----

  const ID_VALUES: set<string> := {"emailId", "identityId", "parentId"}
  const ID_MAPS: set<string> := {"mailboxIds", "calendarIds", "addressBookIds"}

  /** `^#(.+)$`: the dot stops at a newline, and the dollar also matches before a final one. */
  function CreationRef(s: string): Option<string> {
    if s == [] || s[0] != '#' then None
    else
      var rest := s[1..];
      var body := if rest != [] && rest[|rest| - 1] == '\n' then rest[..|rest| - 1] else rest;
      if body == [] || '\n' in body then None else Some(body)
  }

  type Created = map<string, string>

  function SubstituteString(s: string, ids: Created): Result<string, string> {
    match CreationRef(s)
    case None => Ok(s)
    case Some(ref) => if ref in ids then Ok(ids[ref]) else Err(ref)
  }

  /** How the value under a key is treated. */
  datatype Position = IdValue | IdMap | Plain

  function PositionOf(m: Field): Position {
    if m.key in ID_VALUES && m.value.Text? then IdValue
    else if m.key in ID_MAPS && m.value.Object? then IdMap
    else Plain
  }

  /** A dict comprehension over the new keys: a key met again keeps its place and takes the later value. */
  function SubstituteKeys(ms: seq<Field>, ids: Created): Result<seq<Field>, string> {
    if ms == [] then Ok([])
    else
      match SubstituteKeys(ms[..|ms| - 1], ids)
      case Err(e) => Err(e)
      case Ok(done) =>
        match SubstituteString(ms[|ms| - 1].key, ids)
        case Err(e) => Err(e)
        case Ok(key) => Ok(SetField(done, key, ms[|ms| - 1].value))
  }

  /** Err names the first unknown reference. */
  function Substitute(v: Tree, ids: Created): Result<Tree, string>
    decreases v, 1
  {
    match v
    case List(items) =>
      (match SubstituteItems(items, ids)
       case Ok(xs) => Ok(List(xs))
       case Err(e) => Err(e))
    case Object(ms) =>
      (match SubstituteFields(ms, ids)
       case Ok(xs) => Ok(Object(xs))
       case Err(e) => Err(e))
    case _ => Ok(v)
  }

  function SubstituteItems(items: seq<Tree>, ids: Created): Result<seq<Tree>, string>
    decreases items, 0
  {
    if items == [] then Ok([])
    else
      match Substitute(items[0], ids)
      case Err(e) => Err(e)
      case Ok(first) =>
        match SubstituteItems(items[1..], ids)
        case Err(e) => Err(e)
        case Ok(rest) => Ok([first] + rest)
  }

  function SubstituteFields(ms: seq<Field>, ids: Created): Result<seq<Field>, string>
    decreases ms, 0
  {
    if ms == [] then Ok([])
    else
      match SubstituteField(ms[0], ids)
      case Err(e) => Err(e)
      case Ok(first) =>
        match SubstituteFields(ms[1..], ids)
        case Err(e) => Err(e)
        case Ok(rest) => Ok([first] + rest)
  }

  function SubstituteField(m: Field, ids: Created): Result<Field, string>
    decreases m, 1
  {
    match PositionOf(m)
    case IdValue =>
      (match SubstituteString(m.value.s, ids)
       case Ok(s) => Ok(Field(m.key, Text(s)))
       case Err(e) => Err(e))
    case IdMap =>
      (match SubstituteKeys(m.value.members, ids)
       case Ok(ms) => Ok(Field(m.key, Object(ms)))
       case Err(e) => Err(e))
    case Plain =>
      (match Substitute(m.value, ids)
       case Ok(v) => Ok(Field(m.key, v))
       case Err(e) => Err(e))
  }

  // ----- where references stand -----

  function RefsInKeys(ms: seq<Field>): seq<string> {
    if ms == [] then []
    else RefsInKeys(ms[..|ms| - 1]) + RefIn(ms[|ms| - 1].key)
  }

  function RefIn(s: string): seq<string> {
    match CreationRef(s)
    case None => []
    case Some(ref) => [ref]
  }

  /** The references in id positions, in order. */
  function Refs(v: Tree): seq<string>
    decreases v, 1
  {
    match v
    case List(items) => RefsInItems(items)
    case Object(ms) => RefsInFields(ms)
    case _ => []
  }

  function RefsInItems(items: seq<Tree>): seq<string>
    decreases items, 0
  {
    if items == [] then [] else Refs(items[0]) + RefsInItems(items[1..])
  }

  function RefsInFields(ms: seq<Field>): seq<string>
    decreases ms, 0
  {
    if ms == [] then [] else RefsInField(ms[0]) + RefsInFields(ms[1..])
  }

  function RefsInField(m: Field): seq<string>
    decreases m, 1
  {
    match PositionOf(m)
    case IdValue => RefIn(m.value.s)
    case IdMap => RefsInKeys(m.value.members)
    case Plain => Refs(m.value)
  }

  /** The first reference that is not known. */
  function FirstUnknown(refs: seq<string>, ids: Created): Option<string> {
    if refs == [] then None
    else if refs[0] !in ids then Some(refs[0])
    else FirstUnknown(refs[1..], ids)
  }

  lemma {:induction false} UnknownJoin(a: seq<string>, b: seq<string>, ids: Created)
    ensures FirstUnknown(a + b, ids) == if FirstUnknown(a, ids).Some? then FirstUnknown(a, ids)
        else FirstUnknown(b, ids)
  {
    if a == [] {
      assert a + b == b;
    } else {
      assert (a + b)[1..] == a[1..] + b;
      UnknownJoin(a[1..], b, ids);
    }
  }

  lemma {:induction false} UnknownExactly(refs: seq<string>, ids: Created)
    ensures FirstUnknown(refs, ids).None? <==> forall r <- refs :: r in ids
  {
    if refs != [] {
      UnknownExactly(refs[1..], ids);
      assert refs == [refs[0]] + refs[1..];
    }
  }

  /** Whether a result failed, and on what. */
  function ErrorOf<T>(r: Result<T, string>): Option<string> {
    match r
    case Ok(_) => None
    case Err(e) => Some(e)
  }

  lemma {:induction false} StringFailsOn(s: string, ids: Created)
    ensures ErrorOf(SubstituteString(s, ids)) == FirstUnknown(RefIn(s), ids)
  {
    if CreationRef(s).Some? {
      assert RefIn(s)[1..] == [];
    }
  }

  lemma {:induction false} KeysFailOn(ms: seq<Field>, ids: Created)
    ensures ErrorOf(SubstituteKeys(ms, ids)) == FirstUnknown(RefsInKeys(ms), ids)
  {
    if ms != [] {
      KeysFailOn(ms[..|ms| - 1], ids);
      StringFailsOn(ms[|ms| - 1].key, ids);
      UnknownJoin(RefsInKeys(ms[..|ms| - 1]), RefIn(ms[|ms| - 1].key), ids);
    }
  }

  /** Substitution fails on the first reference, in order, that names nothing created, and on nothing else. */
  lemma {:induction false} FailsOnFirstUnknown(v: Tree, ids: Created)
    ensures ErrorOf(Substitute(v, ids)) == FirstUnknown(Refs(v), ids)
    decreases v, 1
  {
    match v
    case List(items) => ItemsFailOn(items, ids);
    case Object(ms) => FieldsFailOn(ms, ids);
    case _ =>
  }

  lemma {:induction false} ItemsFailOn(items: seq<Tree>, ids: Created)
    ensures ErrorOf(SubstituteItems(items, ids)) == FirstUnknown(RefsInItems(items), ids)
    decreases items, 0
  {
    if items != [] {
      FailsOnFirstUnknown(items[0], ids);
      ItemsFailOn(items[1..], ids);
      UnknownJoin(Refs(items[0]), RefsInItems(items[1..]), ids);
    }
  }

  lemma {:induction false} FieldsFailOn(ms: seq<Field>, ids: Created)
    ensures ErrorOf(SubstituteFields(ms, ids)) == FirstUnknown(RefsInFields(ms), ids)
    decreases ms, 0
  {
    if ms != [] {
      FieldFailsOn(ms[0], ids);
      FieldsFailOn(ms[1..], ids);
      UnknownJoin(RefsInField(ms[0]), RefsInFields(ms[1..]), ids);
    }
  }

  lemma {:induction false} FieldFailsOn(m: Field, ids: Created)
    ensures ErrorOf(SubstituteField(m, ids)) == FirstUnknown(RefsInField(m), ids)
    decreases m, 1
  {
    match PositionOf(m)
    case IdValue => StringFailsOn(m.value.s, ids);
    case IdMap => KeysFailOn(m.value.members, ids);
    case Plain => FailsOnFirstUnknown(m.value, ids);
  }

  /** Substitution succeeds exactly when every reference in an id position is known. */
  lemma {:induction false} SucceedsExactly(v: Tree, ids: Created)
    ensures Substitute(v, ids).Ok? <==> forall r <- Refs(v) :: r in ids
  {
    FailsOnFirstUnknown(v, ids);
    UnknownExactly(Refs(v), ids);
  }

  // ----- substituting twice -----

  /** Server ids never look like references. */
  predicate PlainIds(ids: Created) {
    forall k <- ids :: CreationRef(ids[k]).None?
  }

  lemma {:induction false} NoRefKeys(ms: seq<Field>)
    ensures RefsInKeys(ms) == [] <==> forall m <- ms :: CreationRef(m.key).None?
  {
    if ms != [] {
      var n := |ms| - 1;
      NoRefKeys(ms[..n]);
      assert ms == ms[..n] + [ms[n]];
    }
  }

  lemma {:induction false} SetFieldKeeps(ms: seq<Field>, key: string, value: Tree)
    ensures forall m <- SetField(ms, key, value) :: m == Field(key, value) || m in ms
  {
    if ms != [] && ms[0].key != key {
      SetFieldKeeps(ms[1..], key, value);
      assert ms == [ms[0]] + ms[1..];
    } else if ms != [] {
      assert ms == [ms[0]] + ms[1..];
    }
  }

  lemma {:induction false} SetFieldDistinct(ms: seq<Field>, key: string, value: Tree)
    requires DistinctKeys(ms)
    ensures DistinctKeys(SetField(ms, key, value))
  {
    if ms != [] && ms[0].key != key {
      var rest := SetField(ms[1..], key, value);
      assert DistinctKeys(ms[1..]);
      SetFieldDistinct(ms[1..], key, value);
      SetFieldKeeps(ms[1..], key, value);
      forall j | 0 <= j < |rest| ensures rest[j].key != ms[0].key {
        assert rest[j] in rest;
        if rest[j] in ms[1..] {
          var i :| 0 <= i < |ms[1..]| && ms[1..][i] == rest[j];
          assert ms[i + 1] == rest[j];
        }
      }
    }
  }

  lemma {:induction false} SetFieldAppends(ms: seq<Field>, key: string, value: Tree)
    requires forall m <- ms :: m.key != key
    ensures SetField(ms, key, value) == ms + [Field(key, value)]
  {
    if ms != [] {
      assert ms[0] in ms && forall m <- ms[1..] :: m in ms;
      SetFieldAppends(ms[1..], key, value);
      assert ms == [ms[0]] + ms[1..];
    }
  }

  lemma {:induction false} KeysAreClean(ms: seq<Field>, ids: Created)
    requires PlainIds(ids) && SubstituteKeys(ms, ids).Ok?
    ensures var ws := SubstituteKeys(ms, ids).value;
            && (forall w <- ws :: CreationRef(w.key).None?)
            && DistinctKeys(ws)
            && forall w <- ws :: exists m <- ms :: m.value == w.value
  {
    if ms != [] {
      var n := |ms| - 1;
      KeysAreClean(ms[..n], ids);
      var done := SubstituteKeys(ms[..n], ids).value;
      var key := SubstituteString(ms[n].key, ids).value;
      SetFieldKeeps(done, key, ms[n].value);
      SetFieldDistinct(done, key, ms[n].value);
      assert ms[n] in ms && forall m <- ms[..n] :: m in ms;
    }
  }

  lemma {:induction false} SameKind(v: Tree, ids: Created)
    requires Substitute(v, ids).Ok?
    ensures var w := Substitute(v, ids).value;
            (w.Text? <==> v.Text?) && (w.Object? <==> v.Object?) && (v.Atom? || v.Text? ==> w == v)
  {
  }

  /** What substitution leaves has no reference left, and is a JSON value as before. */
  lemma {:induction false} NoRefsLeft(v: Tree, ids: Created)
    requires PlainIds(ids) && Proper(v) && Substitute(v, ids).Ok?
    ensures var w := Substitute(v, ids).value; Refs(w) == [] && Proper(w)
    decreases v, 1
  {
    match v
    case List(items) => NoRefsLeftInItems(items, ids);
    case Object(ms) => NoRefsLeftInFields(ms, ids);
    case _ =>
  }

  lemma {:induction false} NoRefsLeftInItems(items: seq<Tree>, ids: Created)
    requires PlainIds(ids) && (forall x <- items :: Proper(x)) && SubstituteItems(items, ids).Ok?
    ensures var ws := SubstituteItems(items, ids).value; RefsInItems(ws) == [] && forall w <- ws :: Proper(w)
    decreases items, 0
  {
    if items != [] {
      assert items[0] in items;
      NoRefsLeft(items[0], ids);
      NoRefsLeftInItems(items[1..], ids);
      var first, rest := Substitute(items[0], ids).value, SubstituteItems(items[1..], ids).value;
      assert ([first] + rest)[1..] == rest;
    }
  }

  lemma {:induction false} NoRefsLeftInFields(ms: seq<Field>, ids: Created)
    requires PlainIds(ids) && DistinctKeys(ms) && (forall m <- ms :: Proper(m.value)) && SubstituteFields(ms, ids).Ok?
    ensures var ws := SubstituteFields(ms, ids).value;
            && RefsInFields(ws) == [] && (forall w <- ws :: Proper(w.value))
            && |ws| == |ms| && (forall i | 0 <= i < |ms| :: ws[i].key == ms[i].key) && DistinctKeys(ws)
    decreases ms, 0
  {
    if ms != [] {
      assert ms[0] in ms;
      NoRefsLeftInField(ms[0], ids);
      assert DistinctKeys(ms[1..]);
      NoRefsLeftInFields(ms[1..], ids);
      var first, rest := SubstituteField(ms[0], ids).value, SubstituteFields(ms[1..], ids).value;
      assert ([first] + rest)[1..] == rest;
      assert forall i | 0 < i < |ms| :: ([first] + rest)[i] == rest[i - 1] && ms[i] == ms[1..][i - 1];
    }
  }

  lemma {:induction false} NoRefsLeftInField(m: Field, ids: Created)
    requires PlainIds(ids) && Proper(m.value) && SubstituteField(m, ids).Ok?
    ensures var w := SubstituteField(m, ids).value;
            RefsInField(w) == [] && Proper(w.value) && w.key == m.key && PositionOf(w) == PositionOf(m)
    decreases m, 1
  {
    match PositionOf(m)
    case IdValue =>
    case IdMap =>
      KeysAreClean(m.value.members, ids);
      NoRefKeys(SubstituteKeys(m.value.members, ids).value);
    case Plain =>
      SameKind(m.value, ids);
      NoRefsLeft(m.value, ids);
  }

  /** Without references nothing changes, whatever has been created. */
  lemma {:induction false} NoRefsNoChange(v: Tree, ids: Created)
    requires Proper(v) && Refs(v) == []
    ensures Substitute(v, ids) == Ok(v)
    decreases v, 1
  {
    match v
    case List(items) => NoRefsNoChangeInItems(items, ids);
    case Object(ms) => NoRefsNoChangeInFields(ms, ids);
    case _ =>
  }

  lemma {:induction false} NoRefsNoChangeInItems(items: seq<Tree>, ids: Created)
    requires (forall x <- items :: Proper(x)) && RefsInItems(items) == []
    ensures SubstituteItems(items, ids) == Ok(items)
    decreases items, 0
  {
    if items != [] {
      assert items[0] in items;
      NoRefsNoChange(items[0], ids);
      NoRefsNoChangeInItems(items[1..], ids);
      assert items == [items[0]] + items[1..];
    }
  }

  lemma {:induction false} NoRefsNoChangeInFields(ms: seq<Field>, ids: Created)
    requires (forall m <- ms :: Proper(m.value)) && RefsInFields(ms) == []
    ensures SubstituteFields(ms, ids) == Ok(ms)
    decreases ms, 0
  {
    if ms != [] {
      assert ms[0] in ms;
      match PositionOf(ms[0]) {
        case IdValue =>
        case IdMap => CleanKeysStay(ms[0].value.members, ids);
        case Plain => NoRefsNoChange(ms[0].value, ids);
      }
      NoRefsNoChangeInFields(ms[1..], ids);
      assert ms == [ms[0]] + ms[1..];
    }
  }

  lemma {:induction false} CleanKeysStay(ms: seq<Field>, ids: Created)
    requires DistinctKeys(ms) && RefsInKeys(ms) == []
    ensures SubstituteKeys(ms, ids) == Ok(ms)
  {
    if ms != [] {
      var n := |ms| - 1;
      CleanKeysStay(ms[..n], ids);
      SetFieldAppends(ms[..n], ms[n].key, ms[n].value);
      assert ms == ms[..n] + [ms[n]];
    }
  }

  /** Once is enough: the result stays as it is, even when more has been created since. */
  lemma {:induction false} SubstituteIsIdempotent(v: Tree, ids: Created, later: Created)
    requires PlainIds(ids) && Proper(v) && Substitute(v, ids).Ok?
    ensures Substitute(Substitute(v, ids).value, later) == Substitute(v, ids)
  {
    NoRefsLeft(v, ids);
    NoRefsNoChange(Substitute(v, ids).value, later);
  }

  // ----- nothing else changes -----

  datatype Step = Index(i: nat) | Key(key: string)

  function Find(ms: seq<Field>, key: string): Option<Field> {
    if ms == [] then None else if ms[0].key == key then Some(ms[0]) else Find(ms[1..], key)
  }

  function At(v: Tree, path: seq<Step>): Option<Tree>
    decreases |path|
  {
    if path == [] then Some(v)
    else
      match (v, path[0])
      case (List(items), Index(i)) => if i < |items| then At(items[i], path[1..]) else None
      case (Object(ms), Key(key)) => if Find(ms, key).Some? then At(Find(ms, key).value.value, path[1..]) else None
      case _ => None
  }

  /** No step of the path goes into an id position. */
  predicate OutsideIds(v: Tree, path: seq<Step>)
    decreases |path|
  {
    path == [] ||
    match (v, path[0])
    case (List(items), Index(i)) => i < |items| && OutsideIds(items[i], path[1..])
    case (Object(ms), Key(key)) =>
      Find(ms, key).Some? && PositionOf(Find(ms, key).value) == Plain
          && OutsideIds(Find(ms, key).value.value, path[1..])
    case _ => false
  }

  lemma {:induction false} ItemAt(items: seq<Tree>, ids: Created, i: nat)
    requires SubstituteItems(items, ids).Ok? && i < |items|
    ensures |SubstituteItems(items, ids).value| == |items|
    ensures Substitute(items[i], ids) == Ok(SubstituteItems(items, ids).value[i])
  {
    ItemsCount(items, ids);
    if i > 0 {
      ItemAt(items[1..], ids, i - 1);
    }
  }

  lemma {:induction false} ItemsCount(items: seq<Tree>, ids: Created)
    requires SubstituteItems(items, ids).Ok?
    ensures |SubstituteItems(items, ids).value| == |items|
  {
    if items != [] {
      ItemsCount(items[1..], ids);
    }
  }

  lemma {:induction false} FieldAt(ms: seq<Field>, ids: Created, key: string)
    requires SubstituteFields(ms, ids).Ok? && Find(ms, key).Some?
    ensures var found := Find(SubstituteFields(ms, ids).value, key);
            found.Some? && SubstituteField(Find(ms, key).value, ids) == Ok(found.value)
  {
    var first := SubstituteField(ms[0], ids).value;
    assert first.key == ms[0].key;
    if ms[0].key != key {
      FieldAt(ms[1..], ids, key);
      assert ([first] + SubstituteFields(ms[1..], ids).value)[1..] == SubstituteFields(ms[1..], ids).value;
    }
  }

  /** At every place outside id positions stands the substitution of what stood there; so texts and atoms stand as they
      were, however much they look like references. */
  lemma {:induction false} OutsideIdsUnchanged(v: Tree, ids: Created, path: seq<Step>)
    requires Substitute(v, ids).Ok? && OutsideIds(v, path)
    ensures var was, now := At(v, path), At(Substitute(v, ids).value, path);
            && was.Some? && now.Some? && Substitute(was.value, ids) == Ok(now.value)
            && (was.value.Text? || was.value.Atom? ==> now == was)
    decreases |path|
  {
    if path != [] {
      match (v, path[0])
      case (List(items), Index(i)) =>
        ItemAt(items, ids, i);
        OutsideIdsUnchanged(items[i], ids, path[1..]);
      case (Object(ms), Key(key)) =>
        FieldAt(ms, ids, key);
        OutsideIdsUnchanged(Find(ms, key).value.value, ids, path[1..]);
    }
  }

  // ----- references to earlier results -----

  /** A path into a result: a star resolves the rest against each element and flattens once. */
  function ResolvePath(v: Tree, segments: seq<string>): Result<Tree, CallError>
    decreases |segments|, 1, 0
  {
    if segments == [] then Ok(v)
    else if segments[0] == "*" then
      if !v.List? then Err(InvalidResultReference)
      else
        match ResolveEach(v.items, segments[1..])
        case Err(e) => Err(e)
        case Ok(xs) => Ok(List(xs))
    else if v.Object? && Lookup(v.members, segments[0]).Some? then
      ResolvePath(Lookup(v.members, segments[0]).value, segments[1..])
    else Err(InvalidResultReference)
  }

  function ResolveEach(items: seq<Tree>, rest: seq<string>): Result<seq<Tree>, CallError>
    decreases |rest|, 2, |items|
  {
    if items == [] then Ok([])
    else
      var n := |items| - 1;
      match ResolveEach(items[..n], rest)
      case Err(e) => Err(e)
      case Ok(xs) =>
        match ResolvePath(items[n], rest)
        case Err(e) => Err(e)
        case Ok(x) => Ok(xs + (if x.List? then x.items else [x]))
  }

  predicate Picks(item: Tree, key: string) {
    item.Object? && Lookup(item.members, key).Some? && !Lookup(item.members, key).value.List?
  }

  /** A path like list, star, id: one value for each element, in order, when each has one; else an error. */
  lemma {:induction false} StarPicksEach(items: seq<Tree>, key: string)
    requires key != "*"
    requires forall x <- items :: x.Object? && Lookup(x.members, key).Some? ==> !Lookup(x.members, key).value.List?
    ensures var r := ResolvePath(List(items), ["*", key]);
            && (r.Ok? <==> forall x <- items :: Picks(x, key))
            && (r.Ok? ==> r.value.List? && |r.value.items| == |items|
                          && forall i | 0 <= i < |items| :: Picks(items[i], key)
                               && r.value.items[i] == Lookup(items[i].members, key).value)
  {
    assert ["*", key][1..] == [key] && [key][1..] == [];
    StarEach(items, key);
  }

  lemma {:induction false} StarEach(items: seq<Tree>, key: string)
    requires key != "*"
    requires forall x <- items :: x.Object? && Lookup(x.members, key).Some? ==> !Lookup(x.members, key).value.List?
    ensures var r := ResolveEach(items, [key]);
            && (r.Ok? <==> forall x <- items :: Picks(x, key))
            && (r.Ok? ==> |r.value| == |items|
                          && forall i | 0 <= i < |items| :: Picks(items[i], key)
                               && r.value[i] == Lookup(items[i].members, key).value)
  {
    if items != [] {
      var n := |items| - 1;
      assert items[n] in items && items == items[..n] + [items[n]];
      StarEach(items[..n], key);
      assert [key][1..] == [];
      assert Picks(items[n], key) ==> ResolvePath(items[n], [key]) == Ok(Lookup(items[n].members, key).value);
      assert !Picks(items[n], key) ==> ResolvePath(items[n], [key]).Err?;
    }
  }

  // What any path collects, said of concrete places in the value.

  predicate FitsStep(step: Step, segment: string) {
    if segment == "*" then step.Index? else step == Key(segment)
  }

  /** The concrete paths a path with stars stands for. */
  predicate Fits(path: seq<Step>, segments: seq<string>) {
    |path| == |segments| && forall i | 0 <= i < |path| :: FitsStep(path[i], segments[i])
  }

  predicate Applies(v: Tree, segment: string) {
    if segment == "*" then v.List? else v.Object? && Lookup(v.members, segment).Some?
  }

  /** Where a step leads from a value it applies to. */
  predicate Leads(v: Tree, segment: string, step: Step, child: Tree) {
    FitsStep(step, segment) && At(v, [step]) == Some(child)
  }

  function Elements(v: Tree): seq<Tree> {
    if v.List? then v.items else [v]
  }

  predicate EndsIn(end: Option<Tree>, x: Tree) {
    end.Some? && x in Elements(end.value)
  }

  ghost predicate Collected(v: Tree, segments: seq<string>, x: Tree) {
    exists path: seq<Step> :: Fits(path, segments) && EndsIn(At(v, path), x)
  }

  /** Wherever the path leads, its next segment applies. */
  ghost predicate Alive(v: Tree, segments: seq<string>) {
    forall path: seq<Step> | |path| < |segments| && Fits(path, segments[..|path|]) && At(v, path).Some? ::
      Applies(At(v, path).value, segments[|path|])
  }

  lemma {:induction false} LookupIsFind(ms: seq<Field>, key: string)
    ensures Lookup(ms, key) == if Find(ms, key).Some? then Some(Find(ms, key).value.value) else None
  {
    if ms != [] && ms[0].key != key {
      LookupIsFind(ms[1..], key);
    }
  }

  lemma {:induction false} AtCons(v: Tree, step: Step, path: seq<Step>)
    ensures At(v, [step] + path) == if At(v, [step]).Some? then At(At(v, [step]).value, path) else None
  {
    assert ([step] + path)[1..] == path && [step][1..] == [];
    assert forall w: Tree :: At(w, []) == Some(w);
  }

  lemma {:induction false} FitsCons(step: Step, path: seq<Step>, segments: seq<string>)
    requires segments != []
    ensures Fits([step] + path, segments) <==> FitsStep(step, segments[0]) && Fits(path, segments[1..])
  {
    var whole := [step] + path;
    if FitsStep(step, segments[0]) && Fits(path, segments[1..]) {
      forall i | 0 <= i < |whole| ensures FitsStep(whole[i], segments[i]) {
        assert i > 0 ==> FitsStep(path[i - 1], segments[1..][i - 1]);
      }
    }
    if Fits(whole, segments) {
      forall i | 0 <= i < |path| ensures FitsStep(path[i], segments[1..][i]) {
        assert FitsStep(whole[i + 1], segments[i + 1]);
      }
      assert FitsStep(whole[0], segments[0]);
    }
  }

  lemma {:induction false} CollectedVia(v: Tree, segments: seq<string>, step: Step, child: Tree, x: Tree)
    requires segments != [] && Leads(v, segments[0], step, child) && Collected(child, segments[1..], x)
    ensures Collected(v, segments, x)
  {
    var path: seq<Step> :| Fits(path, segments[1..]) && EndsIn(At(child, path), x);
    FitsCons(step, path, segments);
    AtCons(v, step, path);
    assert Fits([step] + path, segments) && EndsIn(At(v, [step] + path), x);
  }

  lemma {:induction false} CollectedWhere(v: Tree, segments: seq<string>, x: Tree) returns (step: Step, child: Tree)
    requires segments != [] && Collected(v, segments, x)
    ensures Leads(v, segments[0], step, child) && Collected(child, segments[1..], x)
  {
    var path: seq<Step> :| Fits(path, segments) && EndsIn(At(v, path), x);
    step := path[0];
    assert path == [step] + path[1..];
    FitsCons(step, path[1..], segments);
    AtCons(v, step, path[1..]);
    child := At(v, [step]).value;
  }

  lemma {:induction false} AtOne(v: Tree, step: Step)
    ensures At(v, [step]) == match (v, step)
                             case (List(items), Index(i)) => if i < |items| then Some(items[i]) else None
                             case (Object(ms), Key(key)) => Lookup(ms, key)
                             case _ => None
  {
    assert [step][1..] == [] && forall w: Tree :: At(w, []) == Some(w);
    if v.Object? && step.Key? {
      LookupIsFind(v.members, step.key);
    }
  }

  lemma {:induction false} KeyLeads(v: Tree, key: string)
    requires key != "*" && Applies(v, key)
    ensures Leads(v, key, Key(key), Lookup(v.members, key).value)
    ensures forall step, child :: Leads(v, key, step, child) ==> child == Lookup(v.members, key).value
  {
    AtOne(v, Key(key));
  }

  lemma {:induction false} StarLeads(v: Tree, step: Step, child: Tree)
    requires v.List?
    ensures Leads(v, "*", step, child) <==> step.Index? && step.i < |v.items| && child == v.items[step.i]
  {
    AtOne(v, step);
  }

  /** For every path, stars anywhere: a path that resolves collects exactly what stands at its concrete places, lists
      opened once. */
  lemma {:induction false} PathCollectsExactly(v: Tree, segments: seq<string>, x: Tree)
    requires ResolvePath(v, segments).Ok?
    ensures x in Elements(ResolvePath(v, segments).value) <==> Collected(v, segments, x)
    decreases |segments|, 1, 0
  {
    if segments == [] {
      assert Fits([], segments) && At(v, []) == Some(v);
    } else if segments[0] == "*" {
      EachCollects(v.items, segments[1..], x);
      if i :| 0 <= i < |v.items| && Collected(v.items[i], segments[1..], x) {
        StarLeads(v, Index(i), v.items[i]);
        CollectedVia(v, segments, Index(i), v.items[i], x);
      }
      if Collected(v, segments, x) {
        var step, child := CollectedWhere(v, segments, x);
        StarLeads(v, step, child);
        assert Collected(v.items[step.i], segments[1..], x);
      }
    } else {
      var child := Lookup(v.members, segments[0]).value;
      KeyLeads(v, segments[0]);
      PathCollectsExactly(child, segments[1..], x);
      if Collected(child, segments[1..], x) {
        CollectedVia(v, segments, Key(segments[0]), child, x);
      }
      if Collected(v, segments, x) {
        var step, c := CollectedWhere(v, segments, x);
        assert c == child;
      }
    }
  }

  lemma {:induction false} EachCollects(items: seq<Tree>, rest: seq<string>, x: Tree)
    requires ResolveEach(items, rest).Ok?
    ensures x in ResolveEach(items, rest).value <==> exists i | 0 <= i < |items| :: Collected(items[i], rest, x)
    decreases |rest|, 2, |items|
  {
    if items != [] {
      var n := |items| - 1;
      EachCollects(items[..n], rest, x);
      PathCollectsExactly(items[n], rest, x);
      assert forall i | 0 <= i < n :: items[..n][i] == items[i];
      if i :| 0 <= i < |items| && Collected(items[i], rest, x) {
        assert i < n ==> Collected(items[..n][i], rest, x);
      }
    }
  }

  lemma {:induction false} AliveStep(v: Tree, segments: seq<string>)
    requires segments != []
    ensures Alive(v, segments) <==>
              && Applies(v, segments[0])
              && forall step, child | Leads(v, segments[0], step, child) :: Alive(child, segments[1..])
  {
    if Alive(v, segments) {
      AliveHere(v, segments);
      forall step, child | Leads(v, segments[0], step, child) ensures Alive(child, segments[1..]) {
        AliveAfter(v, segments, step, child);
      }
    }
    if && Applies(v, segments[0])
       && (forall step, child | Leads(v, segments[0], step, child) :: Alive(child, segments[1..])) {
      AliveBefore(v, segments);
    }
  }

  lemma {:induction false} AliveHere(v: Tree, segments: seq<string>)
    requires segments != [] && Alive(v, segments)
    ensures Applies(v, segments[0])
  {
    assert Fits([], segments[..0]) && At(v, []) == Some(v);
  }

  lemma {:induction false} AliveBefore(v: Tree, segments: seq<string>)
    requires segments != [] && Applies(v, segments[0])
    requires forall step, child | Leads(v, segments[0], step, child) :: Alive(child, segments[1..])
    ensures Alive(v, segments)
  {
    forall path: seq<Step> | |path| < |segments| && Fits(path, segments[..|path|]) && At(v, path).Some?
      ensures Applies(At(v, path).value, segments[|path|])
    {
      if path != [] {
        AliveAlong(v, segments, path);
      }
    }
  }

  lemma {:induction false} AliveAlong(v: Tree, segments: seq<string>, path: seq<Step>)
    requires 0 < |path| < |segments| && Fits(path, segments[..|path|]) && At(v, path).Some?
    requires forall step, child | Leads(v, segments[0], step, child) :: Alive(child, segments[1..])
    ensures Applies(At(v, path).value, segments[|path|])
  {
    var step, tail, rest := path[0], path[1..], segments[1..];
    assert path == [step] + tail;
    AtCons(v, step, tail);
    FitsCons(step, tail, segments[..|path|]);
    assert segments[..|path|][1..] == rest[..|tail|];
    var child := At(v, [step]).value;
    assert Leads(v, segments[0], step, child);
    assert Alive(child, rest);
  }

  lemma {:induction false} AliveAfter(v: Tree, segments: seq<string>, step: Step, child: Tree)
    requires segments != [] && Alive(v, segments) && Leads(v, segments[0], step, child)
    ensures Alive(child, segments[1..])
  {
    var rest := segments[1..];
    forall path: seq<Step> | |path| < |rest| && Fits(path, rest[..|path|]) && At(child, path).Some?
      ensures Applies(At(child, path).value, rest[|path|])
    {
      var whole := [step] + path;
      AtCons(v, step, path);
      FitsCons(step, path, segments[..|whole|]);
      assert segments[..|whole|][1..] == rest[..|path|];
      assert Applies(At(v, whole).value, segments[|whole|]);
    }
  }

  /** And it resolves if and only if, wherever it leads, a star meets a list and a key an object that has it. */
  lemma {:induction false} PathResolvesExactly(v: Tree, segments: seq<string>)
    ensures ResolvePath(v, segments).Ok? <==> Alive(v, segments)
    decreases |segments|, 1, 0
  {
    if segments != [] {
      AliveStep(v, segments);
      if !Applies(v, segments[0]) {
      } else if segments[0] == "*" {
        EachResolves(v.items, segments[1..]);
        forall i | 0 <= i < |v.items| ensures Leads(v, "*", Index(i), v.items[i]) {
          StarLeads(v, Index(i), v.items[i]);
        }
        forall step, child | Leads(v, "*", step, child) ensures child in v.items {
          StarLeads(v, step, child);
        }
      } else {
        KeyLeads(v, segments[0]);
        PathResolvesExactly(Lookup(v.members, segments[0]).value, segments[1..]);
      }
    }
  }

  lemma {:induction false} EachResolves(items: seq<Tree>, rest: seq<string>)
    ensures ResolveEach(items, rest).Ok? <==> forall x <- items :: Alive(x, rest)
    decreases |rest|, 2, |items|
  {
    if items != [] {
      var n := |items| - 1;
      EachResolves(items[..n], rest);
      PathResolvesExactly(items[n], rest);
      assert items == items[..n] + [items[n]];
    }
  }

  function Split(s: string, from: nat, at: nat): seq<string>
    requires from <= at <= |s|
    decreases |s| - at
  {
    if at == |s| then Segment(s[from..])
    else if s[at] == '/' then Segment(s[from..at]) + Split(s, at + 1, at + 1)
    else Split(s, from, at + 1)
  }

  function Segment(s: string): seq<string> {
    if s == [] then [] else [s]
  }

  datatype Outcome = Outcome(name: Tree, args: Tree)

  const ERROR: Tree := Text("error")

  /** What Python can look up in a dict. */
  predicate Hashable(v: Tree) {
    v.Text? || v.Atom?
  }

  function ResolveBackref(results: map<Tree, Outcome>, resultOf: Tree, path: Tree): Result<Tree, CallError> {
    if !Hashable(resultOf) then Err(ServerFail)
    else if resultOf !in results || results[resultOf].name == ERROR then Err(InvalidResultReference)
    else if !path.Text? then Err(ServerFail)
    else ResolvePath(results[resultOf].args, Split(path.s, 0, 0))
  }

  function ResolveArg(m: Field, results: map<Tree, Outcome>): Result<Field, CallError> {
    if m.key == [] || m.key[0] != '#' then Ok(m)
    else
      match m.value
      case Object(ms) =>
        (match (Lookup(ms, "resultOf"), Lookup(ms, "path"))
         case (Some(resultOf), Some(path)) =>
           (match ResolveBackref(results, resultOf, path)
            case Ok(v) => Ok(Field(m.key[1..], v))
            case Err(e) => Err(e))
         case _ => Err(InvalidResultReference))
      case _ => Err(InvalidResultReference)
  }

  function ResolveArgs(ms: seq<Field>, results: map<Tree, Outcome>): Result<seq<Field>, CallError> {
    if ms == [] then Ok([])
    else
      var n := |ms| - 1;
      match ResolveArgs(ms[..n], results)
      case Err(e) => Err(e)
      case Ok(done) =>
        match ResolveArg(ms[n], results)
        case Err(e) => Err(e)
        case Ok(m) => Ok(SetField(done, m.key, m.value))
  }

  // ----- the batch -----

  /** Python's unpacking of a call into name, arguments and tag, of whatever the request holds: lists of three, and also
      texts of three characters and objects of three keys. */
  function Unpack(call: Tree): Option<(Tree, Tree, Tree)> {
    match call
    case List(items) => if |items| == 3 then Some((items[0], items[1], items[2])) else None
    case Text(s) => if |s| == 3 then Some((Text([s[0]]), Text([s[1]]), Text([s[2]]))) else None
    case Object(ms) => if |ms| == 3 then Some((Text(ms[0].key), Text(ms[1].key), Text(ms[2].key))) else None
    case Atom(_) => None
  }

  datatype Response = Response(name: Tree, args: Tree, tag: Tree)

  /** What a handler did: returned its result, or raised. */
  type Handler = (string, nat, Tree) -> Result<Tree, CallError>

  const NULL: Tree := Atom(0)

  function ErrorBody(e: CallError): Tree {
    Object([Field("type", Text(match e
                               case UnknownMethod => "unknownMethod"
                               case InvalidArguments => "invalidArguments"
                               case InvalidResultReference => "invalidResultReference"
                               case ServerFail => "serverFail"
                               case MethodError(kind) => kind))])
  }

  /** The ids in a result's `created`, over those known. */
  function Remember(result: Tree, ids: Created): Created {
    match result
    case Object(ms) =>
      (match Lookup(ms, "created")
       case Some(Object(objects)) => RememberEach(objects, ids)
       case _ => ids)
    case _ => ids
  }

  function RememberEach(objects: seq<Field>, ids: Created): Created {
    if objects == [] then ids
    else
      var n := |objects| - 1;
      var before := RememberEach(objects[..n], ids);
      match objects[n].value
      case Object(ms) =>
        (match Lookup(ms, "id")
         case Some(Text(id)) => before[objects[n].key := id]
         case _ => before)
      case _ => before
  }

  const NULLABLE: seq<string> := ["created", "updated", "destroyed", "notCreated", "notUpdated", "notDestroyed"]

  /** Nothing to report is null, not an empty map or list. */
  function NormalizeField(m: Field): Field {
    if m.key in NULLABLE && (m.value == Object([]) || m.value == List([]) || m.value == Text(""))
        then Field(m.key, NULL) else m
  }

  function NormalizeFields(ms: seq<Field>): seq<Field> {
    if ms == [] then [] else [NormalizeField(ms[0])] + NormalizeFields(ms[1..])
  }

  predicate IsSet(name: string) {
    name == "Email/import" || (|name| >= 4 && name[|name| - 4..] == "/set")
  }

  function Normalize(name: string, result: Tree): Tree {
    if IsSet(name) && result.Object? then Object(NormalizeFields(result.members)) else result
  }

  datatype Batch = Batch(results: map<Tree, Outcome>, responses: seq<Response>, created: Created)

  /** The handler's answer to call `i`, in the light of what went before; the arguments resolved first. */
  function Answer(b: Batch, i: nat, name: Tree, args: Tree, registered: set<string>, handle: Handler)
    : Result<Tree, CallError>
  {
    if !(name.Text? && name.s in registered) then Err(UnknownMethod)
    else if !args.Object? then Err(ServerFail)
    else
      match ResolveArgs(args.members, b.results)
      case Err(e) => Err(e)
      case Ok(ms) =>
        match Substitute(Object(ms), b.created)
        case Err(_) => Err(InvalidArguments)
        case Ok(v) => handle(name.s, i, v)
  }

  /** Only a registered name has an answer that is not an error. */
  function NameOf(name: Tree): string {
    if name.Text? then name.s else ""
  }

  const UNREADABLE := Response(ERROR, ErrorBody(InvalidArguments), Text("unknown"))

  function Respond(b: Batch, i: nat, call: Tree, registered: set<string>, handle: Handler): Response {
    match Unpack(call)
    case None => UNREADABLE
    case Some((name, args, tag)) =>
      match Answer(b, i, name, args, registered, handle)
      case Err(e) => Response(ERROR, ErrorBody(e), tag)
      case Ok(result) => Response(name, Normalize(NameOf(name), result), tag)
  }

  /** One turn of the loop; None where it raises: at the look-up of a name, before the handler, or at the filing under a
      tag, after it. */
  function After(b: Batch, i: nat, call: Tree, registered: set<string>, handle: Handler): Option<Batch> {
    match Unpack(call)
    case None => Some(b.(responses := b.responses + [UNREADABLE]))
    case Some((name, args, tag)) =>
      if !Hashable(name) then None
      else
        var answer := Answer(b, i, name, args, registered, handle);
        if !Hashable(tag) then None else Some(Filed(b, name, tag, answer))
  }

  function Filed(b: Batch, name: Tree, tag: Tree, answer: Result<Tree, CallError>): Batch {
    match answer
    case Err(e) =>
      Batch(b.results[tag := Outcome(ERROR, ErrorBody(e))], b.responses + [Response(ERROR, ErrorBody(e), tag)],
            b.created)
    case Ok(result) =>
      var normal := Normalize(NameOf(name), result);
      Batch(b.results[tag := Outcome(name, normal)], b.responses + [Response(name, normal, tag)],
            Remember(result, b.created))
  }

  /** None where the request gets no answer at all. */
  function RunBatch(calls: seq<Tree>, seed: Created, registered: set<string>, handle: Handler): Option<Batch> {
    if calls == [] then Some(Batch(map[], [], seed))
    else
      var n := |calls| - 1;
      match RunBatch(calls[..n], seed, registered, handle)
      case None => None
      case Some(b) => After(b, n, calls[n], registered, handle)
  }

  method DispatchRequest(calls: seq<Tree>, seed: Created, registered: set<string>, handle: Handler)
    returns (r: Option<(seq<Response>, Created)>)
    ensures r == match RunBatch(calls, seed, registered, handle)
                 case None => None
                 case Some(b) => Some((b.responses, b.created))
  {
    var results: map<Tree, Outcome> := map[];
    var responses: seq<Response>, created := [], seed;
    for i := 0 to |calls|
      invariant RunBatch(calls[..i], seed, registered, handle) == Some(Batch(results, responses, created))
    {
      assert calls[..i + 1][..i] == calls[..i];
      LostStaysLost(calls, i + 1, seed, registered, handle);
      match Unpack(calls[i]) {
        case None =>
          responses := responses + [UNREADABLE];
        case Some((name, args, tag)) =>
          if !Hashable(name) {
            return None;
          }
          var answer := Answer(Batch(results, responses, created), i, name, args, registered, handle);
          if !Hashable(tag) {
            return None;
          }
          match answer {
            case Err(e) =>
              var body := ErrorBody(e);
              responses := responses + [Response(ERROR, body, tag)];
              results := results[tag := Outcome(ERROR, body)];
            case Ok(result) =>
              created := Remember(result, created);
              var normal := Normalize(NameOf(name), result);
              responses := responses + [Response(name, normal, tag)];
              results := results[tag := Outcome(name, normal)];
          }
      }
    }
    assert calls[..|calls|] == calls;
    return Some((responses, created));
  }

  lemma {:induction false} LostStaysLost(calls: seq<Tree>, i: nat, seed: Created, registered: set<string>,
                                         handle: Handler)
    requires i <= |calls|
    ensures RunBatch(calls[..i], seed, registered, handle).None? ==> RunBatch(calls, seed, registered, handle).None?
  {
    var n := |calls| - 1;
    if i == |calls| {
      assert calls[..i] == calls;
    } else {
      LostStaysLost(calls[..n], i, seed, registered, handle);
      assert calls[..n][..i] == calls[..i];
    }
  }

  /** Neither name nor tag is a list or an object. */
  predicate Fileable(call: Tree) {
    match call
    case List(items) =>
      |items| == 3 ==> !items[0].List? && !items[0].Object? && !items[2].List? && !items[2].Object?
    case _ => true
  }

  /** A request is answered if and only if every call's name and tag can be looked up, whatever its handlers do. */
  lemma {:induction false} AnsweredExactly(calls: seq<Tree>, seed: Created, registered: set<string>, handle: Handler)
    ensures RunBatch(calls, seed, registered, handle).Some? <==> forall c <- calls :: Fileable(c)
  {
    if calls != [] {
      var n := |calls| - 1;
      var before := RunBatch(calls[..n], seed, registered, handle);
      AnsweredExactly(calls[..n], seed, registered, handle);
      if before.Some? {
        TurnAnswered(before.value, n, calls[n], registered, handle);
      }
      assert calls == calls[..n] + [calls[n]];
    }
  }

  lemma {:induction false} TurnAnswered(b: Batch, i: nat, call: Tree, registered: set<string>, handle: Handler)
    ensures After(b, i, call, registered, handle).Some? <==> Fileable(call)
  {
  }

  /** A tag that is a list: the handler has done its work, and nothing is answered. */
  lemma {:induction false} LostAfterTheHandler(handle: Handler)
    ensures var name, args := Text("Email/set"), Object([]);
            && RunBatch([List([name, args, List([])])], map[], {"Email/set"}, handle) == None
            && Answer(Batch(map[], [], map[]), 0, name, args, {"Email/set"}, handle) == handle("Email/set", 0, args)
  {
    var call := List([Text("Email/set"), Object([]), List([])]);
    assert Unpack(call) == Some((Text("Email/set"), Object([]), List([])));
    assert !Fileable(call) && call in [call];
    AnsweredExactly([call], map[], {"Email/set"}, handle);
  }

  lemma {:induction false} OneMoreResponse(b: Batch, i: nat, call: Tree, registered: set<string>, handle: Handler)
    requires After(b, i, call, registered, handle).Some?
    ensures After(b, i, call, registered, handle).value.responses
         == b.responses + [Respond(b, i, call, registered, handle)]
    ensures Unpack(call).Some? ==> Respond(b, i, call, registered, handle).tag == Unpack(call).value.2
  {
  }

  /** In a request that is answered, responses stand one to one with the calls, each under its call's tag, and each is
      the answer its call gets after the calls before it, whatever comes later. */
  lemma {:induction false} ResponsesAlign(calls: seq<Tree>, seed: Created, registered: set<string>, handle: Handler,
      i: nat)
    requires i < |calls| && RunBatch(calls, seed, registered, handle).Some?
    ensures RunBatch(calls[..i], seed, registered, handle).Some?
    ensures var all := RunBatch(calls, seed, registered, handle).value;
            var before := RunBatch(calls[..i], seed, registered, handle).value;
            && |all.responses| == |calls| && |before.responses| == i && all.responses[..i] == before.responses
            && all.responses[i] == Respond(before, i, calls[i], registered, handle)
            && (Unpack(calls[i]).Some? ==> all.responses[i].tag == Unpack(calls[i]).value.2)
  {
    var n := |calls| - 1;
    OneResponseEach(calls[..n], seed, registered, handle);
    OneMoreResponse(RunBatch(calls[..n], seed, registered, handle).value, n, calls[n], registered, handle);
    if i < n {
      ResponsesAlign(calls[..n], seed, registered, handle, i);
      assert calls[..n][..i] == calls[..i];
    }
  }

  lemma {:induction false} OneResponseEach(calls: seq<Tree>, seed: Created, registered: set<string>, handle: Handler)
    requires RunBatch(calls, seed, registered, handle).Some?
    ensures |RunBatch(calls, seed, registered, handle).value.responses| == |calls|
  {
    if calls != [] {
      OneResponseEach(calls[..|calls| - 1], seed, registered, handle);
    }
  }

  /** What references see: earlier results by tag, a later one under the same tag first; and the seed overlaid by the
      creations that the successful responses so far report. */
  lemma {:induction false} StateIsWhatWasAnswered(calls: seq<Tree>, seed: Created, registered: set<string>,
      handle: Handler)
    requires "error" !in registered && RunBatch(calls, seed, registered, handle).Some?
    ensures var b := RunBatch(calls, seed, registered, handle).value;
            && |b.responses| == |calls|
            && b.results == Results(calls, b.responses)
            && b.created == Overlay(seed, b.responses)
  {
    if calls != [] {
      var n := |calls| - 1;
      StateIsWhatWasAnswered(calls[..n], seed, registered, handle);
      var before := RunBatch(calls[..n], seed, registered, handle).value;
      var b := RunBatch(calls, seed, registered, handle).value;
      OneMoreResponse(before, n, calls[n], registered, handle);
      TurnFiles(before, n, calls[n], registered, handle);
      assert b.responses[..n] == before.responses;
    }
  }

  lemma {:induction false} TurnFiles(b: Batch, i: nat, call: Tree, registered: set<string>, handle: Handler)
    requires "error" !in registered && After(b, i, call, registered, handle).Some?
    ensures var after, r := After(b, i, call, registered, handle).value, Respond(b, i, call, registered, handle);
            && after.results == (if Unpack(call).None? then b.results else b.results[r.tag := Outcome(r.name, r.args)])
            && after.created == if r.name == ERROR then b.created else Remember(r.args, b.created)
  {
    if Unpack(call).Some? {
      var (name, args, _) := Unpack(call).value;
      var answer := Answer(b, i, name, args, registered, handle);
      if answer.Ok? {
        NormalizeRemembers(NameOf(name), answer.value, b.created);
      }
    }
  }

  /** What is on file by tag after the calls so far: the latest response under it. */
  function Results(calls: seq<Tree>, responses: seq<Response>): map<Tree, Outcome>
    requires |calls| == |responses|
  {
    if calls == [] then map[]
    else
      var n := |calls| - 1;
      var before, r := Results(calls[..n], responses[..n]), responses[n];
      if Unpack(calls[n]).None? then before else before[r.tag := Outcome(r.name, r.args)]
  }

  /** The seed map overlaid by what each successful call reports to have created, in order. */
  function Overlay(seed: Created, responses: seq<Response>): Created {
    if responses == [] then seed
    else
      var n := |responses| - 1;
      var before, r := Overlay(seed, responses[..n]), responses[n];
      if r.name == ERROR then before else Remember(r.args, before)
  }

  lemma {:induction false} NormalizeLookup(ms: seq<Field>, key: string)
    ensures Lookup(NormalizeFields(ms), key)
         == match Lookup(ms, key) case None => None case Some(v) => Some(NormalizeField(Field(key, v)).value)
  {
    if ms != [] {
      NormalizeLookup(ms[1..], key);
      assert NormalizeFields(ms)[1..] == NormalizeFields(ms[1..]);
    }
  }

  lemma {:induction false} NormalizeRemembers(name: string, result: Tree, ids: Created)
    ensures Remember(Normalize(name, result), ids) == Remember(result, ids)
  {
    if IsSet(name) && result.Object? {
      NormalizeLookup(result.members, "created");
    }
  }
}
