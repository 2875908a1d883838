/**
  Every call of a batch that is answered: what its handler is given and what becomes of what it returns
  (src/jmap_bridge/dispatch.py:197-288).
 */
module BatchAnswers {
  import opened Wrappers
  import opened Dispatch
  import opened ReferencePlaces

  // ----- responses -----

  predicate IsError(r: Response, kind: string, tag: Tree) {
    r.name == Text("error") && r.tag == tag && At(r.args, [Key("type")]) == Some(Text(kind))
  }

  function KindOf(e: CallError): string {
    match e
    case UnknownMethod => "unknownMethod"
    case InvalidArguments => "invalidArguments"
    case InvalidResultReference => "invalidResultReference"
    case ServerFail => "serverFail"
    case MethodError(kind) => kind
  }

  lemma {:induction false} ErrorHasKind(e: CallError, tag: Tree)
    ensures IsError(Response(ERROR, ErrorBody(e), tag), KindOf(e), tag)
  {
    AtOne(ErrorBody(e), Key("type"));
  }

  ghost predicate SetLike(name: string) {
    name == "Email/import" || exists p: string :: name == p + "/set"
  }

  lemma {:induction false} SetLikeExactly(name: string)
    ensures IsSet(name) <==> SetLike(name)
  {
    if IsSet(name) && name != "Email/import" {
      assert name == name[..|name| - 4] + "/set";
    }
    if p: string :| name == p + "/set" {
      assert name[|name| - 4..] == "/set";
    }
  }

  predicate MayBeNull(key: string) {
    || key == "created" || key == "updated" || key == "destroyed"
    || key == "notCreated" || key == "notUpdated" || key == "notDestroyed"
  }

  /** What a handler returned, as it is reported: of a set, the six arguments that have nothing to say are null. */
  predicate Reported(isSet: bool, was: Tree, now: Tree) {
    if isSet && was.Object? then
      now.Object? && |now.members| == |was.members| &&
      forall i | 0 <= i < |was.members| ::
        now.members[i] == if MayBeNull(was.members[i].key) && IsNothing(was.members[i].value)
                          then Field(was.members[i].key, Atom(0)) else was.members[i]
    else now == was
  }

  predicate IsNothing(v: Tree) {
    match v
    case List(items) => items == []
    case Object(ms) => ms == []
    case Text(s) => s == ""
    case Atom(_) => false
  }

  lemma {:induction false} FieldsReported(ms: seq<Field>)
    ensures Reported(true, Object(ms), Object(NormalizeFields(ms)))
  {
    if ms != [] {
      FieldsReported(ms[1..]);
      var rest := NormalizeFields(ms[1..]);
      assert forall i | 0 < i < |ms| :: ms[i] == ms[1..][i - 1] && NormalizeFields(ms)[i] == rest[i - 1];
    }
  }

  lemma {:induction false} NormalIsReported(name: string, result: Tree)
    ensures Reported(IsSet(name), result, Normalize(name, result))
  {
    if IsSet(name) && result.Object? {
      FieldsReported(result.members);
    }
  }

  // ----- JSON values stay JSON values -----

  ghost predicate ProperHandler(handle: Handler) {
    forall name: string, i: nat, v: Tree :: handle(name, i, v).Ok? ==> Proper(handle(name, i, v).value)
  }

  lemma {:induction false} NormalIsProper(name: string, result: Tree)
    requires Proper(result)
    ensures Proper(Normalize(name, result))
  {
    NormalIsReported(name, result);
    if IsSet(name) && result.Object? {
      var ms, ns := result.members, Normalize(name, result).members;
      forall n | n in ns ensures Proper(n.value) {
        var i :| 0 <= i < |ns| && ns[i] == n;
        assert ms[i] in ms;
      }
      assert DistinctKeys(ns);
    }
  }

  lemma {:induction false} PathIsProper(v: Tree, segments: seq<string>)
    requires Proper(v) && ResolvePath(v, segments).Ok?
    ensures Proper(ResolvePath(v, segments).value)
    decreases |segments|, 1, 0
  {
    if segments != [] {
      if segments[0] == "*" {
        EachIsProper(v.items, segments[1..]);
      } else {
        LookupIsFind(v.members, segments[0]);
        FindKey(v.members, segments[0]);
        PathIsProper(Lookup(v.members, segments[0]).value, segments[1..]);
      }
    }
  }

  lemma {:induction false} EachIsProper(items: seq<Tree>, rest: seq<string>)
    requires (forall x <- items :: Proper(x)) && ResolveEach(items, rest).Ok?
    ensures forall x <- ResolveEach(items, rest).value :: Proper(x)
    decreases |rest|, 2, |items|
  {
    if items != [] {
      var n := |items| - 1;
      assert items[n] in items && forall x <- items[..n] :: x in items;
      EachIsProper(items[..n], rest);
      PathIsProper(items[n], rest);
    }
  }

  ghost predicate ProperResults(results: map<Tree, Outcome>) {
    forall t <- results :: Proper(results[t].args)
  }

  lemma {:induction false} ArgIsProper(m: Field, results: map<Tree, Outcome>)
    requires Proper(m.value) && ProperResults(results) && ResolveArg(m, results).Ok?
    ensures Proper(ResolveArg(m, results).value.value)
  {
    if IsBackref(m) {
      var ms := m.value.members;
      var tag, path := Lookup(ms, "resultOf").value, Lookup(ms, "path").value;
      PathIsProper(results[tag].args, Split(path.s, 0, 0));
    }
  }

  lemma {:induction false} ArgsAreProper(args: seq<Field>, results: map<Tree, Outcome>)
    requires (forall m <- args :: Proper(m.value)) && ProperResults(results) && ResolveArgs(args, results).Ok?
    ensures Proper(Object(ResolveArgs(args, results).value))
  {
    if args != [] {
      var n := |args| - 1;
      assert args[n] in args && forall m <- args[..n] :: m in args;
      ArgsAreProper(args[..n], results);
      ArgIsProper(args[n], results);
      var done, f := ResolveArgs(args[..n], results).value, ResolveArg(args[n], results).value;
      SetFieldDistinct(done, f.key, f.value);
      SetFieldKeeps(done, f.key, f.value);
    }
  }

  lemma {:induction false} BatchIsProper(calls: seq<Tree>, seed: Created, registered: set<string>, handle: Handler)
    requires ProperHandler(handle) && RunBatch(calls, seed, registered, handle).Some?
    ensures var b := RunBatch(calls, seed, registered, handle).value;
            ProperResults(b.results) && forall r <- b.responses :: Proper(r.args)
  {
    if calls != [] {
      var n := |calls| - 1;
      BatchIsProper(calls[..n], seed, registered, handle);
      var before := RunBatch(calls[..n], seed, registered, handle).value;
      TurnIsProper(before, n, calls[n], registered, handle);
    }
  }

  lemma {:induction false} AnswerIsHandlers(b: Batch, i: nat, name: Tree, args: Tree, registered: set<string>,
                                            handle: Handler)
    requires ProperHandler(handle) && Answer(b, i, name, args, registered, handle).Ok?
    ensures Proper(Answer(b, i, name, args, registered, handle).value)
  {
  }

  lemma {:induction false} TurnIsProper(b: Batch, i: nat, call: Tree, registered: set<string>, handle: Handler)
    requires ProperHandler(handle) && After(b, i, call, registered, handle).Some?
    requires ProperResults(b.results) && forall r <- b.responses :: Proper(r.args)
    ensures var after := After(b, i, call, registered, handle).value;
            ProperResults(after.results) && forall r <- after.responses :: Proper(r.args)
  {
    if Unpack(call).Some? {
      var (name, args, _) := Unpack(call).value;
      var answer := Answer(b, i, name, args, registered, handle);
      if answer.Ok? {
        AnswerIsHandlers(b, i, name, args, registered, handle);
        NormalIsProper(NameOf(name), answer.value);
      }
    }
  }

  // ----- what is known by a turn -----

  /** A response that reports that a record `k` was created, and the id it got. */
  predicate Creates(r: Response, k: string, id: string) {
    r.name != Text("error") && At(r.args, [Key("created"), Key(k), Key("id")]) == Some(Text(id))
  }

  ghost predicate LastCreates(responses: seq<Response>, j: int, k: string, id: string) {
    && 0 <= j < |responses| && Creates(responses[j], k, id)
    && forall l, other | j < l < |responses| :: !Creates(responses[l], k, other)
  }

  ghost predicate NeverCreated(responses: seq<Response>, k: string) {
    forall j, id | 0 <= j < |responses| :: !Creates(responses[j], k, id)
  }

  /** The id of each record as the latest response has it, and else as the client sent it. */
  ghost predicate Known(seed: Created, responses: seq<Response>, ids: Created) {
    forall k :: KnownAt(seed, responses, ids, k)
  }

  ghost predicate KnownAt(seed: Created, responses: seq<Response>, ids: Created, k: string) {
    && (forall j, id | LastCreates(responses, j, k, id) :: k in ids && ids[k] == id)
    && (NeverCreated(responses, k) ==> SameAt(ids, seed, k))
  }

  predicate SameAt(a: Created, b: Created, k: string) {
    (k in a <==> k in b) && (k in a ==> a[k] == b[k])
  }

  ghost predicate LastUnder(calls: seq<Tree>, responses: seq<Response>, tag: Tree, j: int)
    requires |calls| == |responses|
  {
    && 0 <= j < |calls| && Unpack(calls[j]).Some? && responses[j].tag == tag
    && forall l | j < l < |calls| && Unpack(calls[l]).Some? :: responses[l].tag != tag
  }

  /** The latest response under each tag. */
  ghost predicate OnFile(calls: seq<Tree>, responses: seq<Response>, results: map<Tree, Outcome>)
    requires |calls| == |responses|
  {
    && (forall tag, j | LastUnder(calls, responses, tag, j) ::
          tag in results && results[tag] == Outcome(responses[j].name, responses[j].args))
    && (forall tag <- results :: exists j :: LastUnder(calls, responses, tag, j))
  }

  lemma {:induction false} At3(v: Tree, k: string)
    ensures At(v, [Key("created"), Key(k), Key("id")]) ==
              match Member(v, "created")
              case None => None
              case Some(objects) =>
                match Member(objects, k)
                case None => None
                case Some(record) => Member(record, "id")
  {
    assert [Key("created"), Key(k), Key("id")] == [Key("created")] + ([Key(k)] + [Key("id")]);
    AtCons(v, Key("created"), [Key(k)] + [Key("id")]);
    AtOne(v, Key("created"));
    if Member(v, "created").Some? {
      var objects := Member(v, "created").value;
      AtCons(objects, Key(k), [Key("id")]);
      AtOne(objects, Key(k));
      if Member(objects, k).Some? {
        AtOne(Member(objects, k).value, Key("id"));
      }
    }
  }

  function Member(v: Tree, key: string): Option<Tree> {
    if v.Object? then Lookup(v.members, key) else None
  }

  lemma {:induction false} EachRemembered(objects: seq<Field>, ids: Created, k: string)
    requires DistinctKeys(objects)
    ensures var after := RememberEach(objects, ids);
            match Lookup(objects, k)
            case Some(Object(ms)) =>
              (match Lookup(ms, "id")
               case Some(Text(id)) => k in after && after[k] == id
               case _ => SameAt(after, ids, k))
            case _ => SameAt(after, ids, k)
  {
    if objects != [] {
      var n := |objects| - 1;
      EachRemembered(objects[..n], ids, k);
      LookupLast(objects, k);
    }
  }

  lemma {:induction false} LookupLast(ms: seq<Field>, k: string)
    requires ms != [] && DistinctKeys(ms)
    ensures var n := |ms| - 1;
            if ms[n].key == k then Lookup(ms[..n], k).None? && Lookup(ms, k) == Some(ms[n].value)
            else Lookup(ms, k) == Lookup(ms[..n], k)
  {
    if |ms| > 1 {
      assert ms[..|ms| - 1][1..] == ms[1..][..|ms| - 2];
      LookupLast(ms[1..], k);
    } else {
      assert ms[1..] == [] && ms[..0] == [];
    }
  }

  lemma {:induction false} RememberedAt(r: Response, ids: Created, k: string)
    requires Proper(r.args) && r.name != Text("error")
    ensures var after := Remember(r.args, ids);
            && (forall id | Creates(r, k, id) :: k in after && after[k] == id)
            && ((forall id :: !Creates(r, k, id)) ==> SameAt(after, ids, k))
  {
    At3(r.args, k);
    var objects := Member(r.args, "created");
    if objects.Some? && objects.value.Object? {
      LookupIsFind(r.args.members, "created");
      FindKey(r.args.members, "created");
      EachRemembered(objects.value.members, ids, k);
      var record := Member(objects.value, k);
      if record.Some? && Member(record.value, "id").Some? && Member(record.value, "id").value.Text? {
        assert Creates(r, k, Member(record.value, "id").value.s);
      }
    }
  }

  lemma {:induction false} OneMoreKnown(seed: Created, responses: seq<Response>, r: Response, before: Created,
                                        after: Created, k: string)
    requires KnownAt(seed, responses, before, k)
    requires forall id | Creates(r, k, id) :: k in after && after[k] == id
    requires (forall id :: !Creates(r, k, id)) ==> SameAt(after, before, k)
    ensures KnownAt(seed, responses + [r], after, k)
  {
    var n, all := |responses|, responses + [r];
    assert all[n] == r && forall l | 0 <= l < n :: all[l] == responses[l];
    forall j, id | LastCreates(all, j, k, id) ensures k in after && after[k] == id {
      assert Creates(all[j], k, id);
      if j < n {
        assert LastCreates(responses, j, k, id);
        assert forall other :: !Creates(all[n], k, other);
      }
    }
    if NeverCreated(all, k) {
      assert forall id :: !Creates(all[n], k, id);
      assert NeverCreated(responses, k);
    }
  }

  lemma {:induction false} OverlayIsKnown(seed: Created, responses: seq<Response>)
    requires forall r <- responses :: Proper(r.args)
    ensures Known(seed, responses, Overlay(seed, responses))
  {
    if responses != [] {
      var n := |responses| - 1;
      var before, r := Overlay(seed, responses[..n]), responses[n];
      assert r in responses && forall x <- responses[..n] :: x in responses;
      OverlayIsKnown(seed, responses[..n]);
      assert responses[..n] + [r] == responses;
      forall k ensures KnownAt(seed, responses, Overlay(seed, responses), k) {
        if r.name != Text("error") { RememberedAt(r, before, k); }
        OneMoreKnown(seed, responses[..n], r, before, Overlay(seed, responses), k);
      }
    }
  }

  lemma {:induction false} ResultsAreOnFile(calls: seq<Tree>, responses: seq<Response>)
    requires |calls| == |responses|
    ensures OnFile(calls, responses, Results(calls, responses))
  {
    if calls != [] {
      var n := |calls| - 1;
      ResultsAreOnFile(calls[..n], responses[..n]);
      assert calls[..n] + [calls[n]] == calls && responses[..n] + [responses[n]] == responses;
      OneMoreOnFile(calls[..n], responses[..n], calls[n], responses[n], Results(calls[..n], responses[..n]));
    }
  }

  lemma {:induction false} OneMoreOnFile(calls: seq<Tree>, responses: seq<Response>, call: Tree, r: Response,
                                         results: map<Tree, Outcome>)
    requires |calls| == |responses| && OnFile(calls, responses, results)
    ensures OnFile(calls + [call], responses + [r],
                   if Unpack(call).None? then results else results[r.tag := Outcome(r.name, r.args)])
  {
    var n, cs, rs := |calls|, calls + [call], responses + [r];
    var after := if Unpack(call).None? then results else results[r.tag := Outcome(r.name, r.args)];
    forall tag, j | LastUnder(cs, rs, tag, j)
      ensures tag in after && after[tag] == Outcome(rs[j].name, rs[j].args)
    {
      if j < n {
        StillLast(calls, responses, call, r, tag, j);
      }
    }
    forall tag | tag in after ensures exists j :: LastUnder(cs, rs, tag, j) {
      if Unpack(call).Some? && tag == r.tag {
        assert LastUnder(cs, rs, tag, n);
      } else {
        var j :| LastUnder(calls, responses, tag, j);
        StillLast(calls, responses, call, r, tag, j);
      }
    }
  }

  lemma {:induction false} StillLast(calls: seq<Tree>, responses: seq<Response>, call: Tree, r: Response, tag: Tree,
                                     j: int)
    requires |calls| == |responses| && 0 <= j < |calls|
    ensures LastUnder(calls + [call], responses + [r], tag, j) <==>
              LastUnder(calls, responses, tag, j) && !(Unpack(call).Some? && r.tag == tag)
  {
    var n, cs, rs := |calls|, calls + [call], responses + [r];
    assert cs[n] == call && rs[n] == r;
    assert forall l | 0 <= l < n :: cs[l] == calls[l] && rs[l] == responses[l];
  }

  // ----- every call -----

  /** What a handler answered, as the client sees it. */
  ghost predicate Reflects(r: Response, name: string, tag: Tree, outcome: Result<Tree, CallError>) {
    match outcome
    case Ok(result) => r.name == Text(name) && r.tag == tag && Reported(SetLike(name), result, r.args)
    case Err(e) => IsError(r, KindOf(e), tag)
  }

  /** The answer to a call of a registered method, in the light of the records and results known by then. */
  ghost predicate Answers(r: Response, i: nat, name: string, args: seq<Field>, tag: Tree, created: Created,
                          results: map<Tree, Outcome>, handle: Handler)
  {
    if HasUnresolvable(args, results) then
      IsError(r, "invalidResultReference", tag) || IsError(r, "serverFail", tag)
    else
      exists ms: seq<Field> :: Resolved(args, results, ms) && AnswersTo(r, i, name, Object(ms), tag, created, handle)
  }

  ghost predicate AnswersTo(r: Response, i: nat, name: string, args: Tree, tag: Tree, created: Created,
                            handle: Handler)
  {
    if HasUnknownRef(args, created) then IsError(r, "invalidArguments", tag)
    else exists given: Tree :: Substituted(args, created, given) && Reflects(r, name, tag, handle(name, i, given))
  }

  lemma {:induction false} RespondAnswers(b: Batch, i: nat, name: string, args: seq<Field>, tag: Tree,
                                          registered: set<string>, handle: Handler)
    requires name in registered && Proper(Object(args)) && ProperResults(b.results)
    ensures Answers(Respond(b, i, List([Text(name), Object(args), tag]), registered, handle), i, name, args, tag,
                    b.created, b.results, handle)
  {
    var r := Respond(b, i, List([Text(name), Object(args), tag]), registered, handle);
    ArgsResolveExactly(args, b.results);
    if ResolveArgs(args, b.results).Err? {
      ErrorHasKind(ResolveArgs(args, b.results).error, tag);
    } else {
      var ms := ResolveArgs(args, b.results).value;
      ArgsAreProper(args, b.results);
      SubstitutesExactly(Object(ms), b.created);
      if Substitute(Object(ms), b.created).Err? {
        ErrorHasKind(InvalidArguments, tag);
      } else {
        var given := Substitute(Object(ms), b.created).value;
        OutcomeReflected(name, tag, handle(name, i, given));
        assert Reflects(r, name, tag, handle(name, i, given));
      }
      assert AnswersTo(r, i, name, Object(ms), tag, b.created, handle);
    }
  }

  lemma {:induction false} OutcomeReflected(name: string, tag: Tree, outcome: Result<Tree, CallError>)
    ensures match outcome
            case Ok(result) => Reflects(Response(Text(name), Normalize(name, result), tag), name, tag, outcome)
            case Err(e) => Reflects(Response(ERROR, ErrorBody(e), tag), name, tag, outcome)
  {
    match outcome
    case Ok(result) =>
      NormalIsReported(name, result);
      SetLikeExactly(name);
    case Err(e) => ErrorHasKind(e, tag);
  }

  /** In a request that is answered, every call of a registered method is answered as its handler answers the arguments
      with every reference to an earlier result followed, and every reference to a record replaced by the id the latest
      response gave it; or it is refused, whatever the handler, exactly for a reference of either kind that leads
      nowhere. */
  lemma {:induction false} EveryCallIsAnswered(calls: seq<Tree>, seed: Created, registered: set<string>,
                                               handle: Handler, i: nat, name: string, args: seq<Field>, tag: Tree)
    requires RunBatch(calls, seed, registered, handle).Some? && "error" !in registered
    requires ProperHandler(handle) && forall c <- calls :: Proper(c)
    requires i < |calls| && calls[i] == List([Text(name), Object(args), tag]) && name in registered
    ensures var all := RunBatch(calls, seed, registered, handle).value.responses;
            |all| == |calls| &&
            exists created: Created, results: map<Tree, Outcome> ::
              && Known(seed, all[..i], created) && OnFile(calls[..i], all[..i], results)
              && Answers(all[i], i, name, args, tag, created, results, handle)
  {
    ResponsesAlign(calls, seed, registered, handle, i);
    var b := RunBatch(calls[..i], seed, registered, handle).value;
    var all := RunBatch(calls, seed, registered, handle).value.responses;
    StateIsWhatWasAnswered(calls[..i], seed, registered, handle);
    BatchIsProper(calls[..i], seed, registered, handle);
    OverlayIsKnown(seed, b.responses);
    ResultsAreOnFile(calls[..i], b.responses);
    ArgsOfProperCall(calls[i], name, args, tag);
    RespondAnswers(b, i, name, args, tag, registered, handle);
    assert Known(seed, all[..i], b.created) && OnFile(calls[..i], all[..i], b.results);
  }

  lemma {:induction false} ArgsOfProperCall(call: Tree, name: string, args: seq<Field>, tag: Tree)
    requires Proper(call) && call == List([Text(name), Object(args), tag])
    ensures Proper(Object(args))
  {
    assert [Text(name), Object(args), tag][1] in call.items;
  }

  /** The other calls are refused: of a method nobody registered, with arguments that are no object, or no call
      at all; a text of three characters, or an object of three keys, unpacks into one. */
  lemma {:induction false} OtherCallsAreRefused(calls: seq<Tree>, seed: Created, registered: set<string>,
                                                handle: Handler, i: nat)
    requires RunBatch(calls, seed, registered, handle).Some? && i < |calls|
    ensures var r := RunBatch(calls, seed, registered, handle).value.responses;
            |r| == |calls| &&
            match calls[i]
            case List(items) =>
              if |items| != 3 then IsError(r[i], "invalidArguments", Text("unknown"))
              else if !(items[0].Text? && items[0].s in registered) then IsError(r[i], "unknownMethod", items[2])
              else !items[1].Object? ==> IsError(r[i], "serverFail", items[2])
            case Text(s) =>
              if |s| != 3 then IsError(r[i], "invalidArguments", Text("unknown"))
              else IsError(r[i], if s[..1] in registered then "serverFail" else "unknownMethod", Text(s[2..]))
            case Object(ms) =>
              if |ms| != 3 then IsError(r[i], "invalidArguments", Text("unknown"))
              else IsError(r[i], if ms[0].key in registered then "serverFail" else "unknownMethod", Text(ms[2].key))
            case Atom(_) => IsError(r[i], "invalidArguments", Text("unknown"))
  {
    ResponsesAlign(calls, seed, registered, handle, i);
    ErrorHasKind(InvalidArguments, Text("unknown"));
    match Unpack(calls[i])
    case Some((_, _, tag)) =>
      ErrorHasKind(UnknownMethod, tag);
      ErrorHasKind(ServerFail, tag);
      if calls[i].Text? {
        assert calls[i].s[..1] == [calls[i].s[0]] && calls[i].s[2..] == [calls[i].s[2]];
      }
    case None =>
  }
}
