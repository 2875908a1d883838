/**
  Numbering the parts of a message.

  Blob ids are minted by a cheap walk over IMAP's BODYSTRUCTURE and resolved by a full parse of the message, so both
  must give the same number to the same part. The MIME parser and the server's BODYSTRUCTURE encoder are not part of
  this model; both are taken to see the same tree.
 */
module MimeParts {
  import opened Wrappers
  import opened LetterCase
  import opened ObjectIds

  /** What a part's header says of it, as written. */
  datatype Mime = Mime(kind: string, subkind: string, disposition: Option<string>)

  /** A parsed message. `oid` is the identity of the parser's object. `text` is the decoded body, None when decoding
      raises. A message/rfc822 part has one child. Opened is any other part of type message (a delivery status, say):
      the parser opens it into sub-parts, while BODYSTRUCTURE reports a leaf. */
  datatype Part =
    | Leaf(oid: nat, mime: Mime, payload: string, text: Option<string>)
    | Multi(oid: nat, mime: Mime, subs: seq<Part>)
    | Embedded(oid: nat, mime: Mime, inner: Part)
    | Opened(oid: nat, mime: Mime, blocks: seq<Part>)

  type LeafPart = p: Part | p.Leaf? witness Leaf(0, Mime("text", "plain", None), "", Some(""))

  function ContentType(m: Mime): string {
    Lower(m.kind) + ['/'] + Lower(m.subkind)
  }

  /** What the two walks assume: types are present, only a message/rfc822 part embeds a message, and a part of type
      message is never a plain leaf for the parser. */
  predicate WellFormed(p: Part) {
    match p
    case Leaf(_, m, _, _) => Lower(m.kind) != "message" && m.kind != [] && m.subkind != []
    case Multi(_, m, subs) => forall q <- subs :: WellFormed(q)
    case Embedded(_, m, inner) => ContentType(m) == RFC822 && m.kind != [] && m.subkind != [] && WellFormed(inner)
    case Opened(_, m, blocks) =>
      Lower(m.kind) == "message" && ContentType(m) != RFC822 && m.kind != [] && m.subkind != []
  }

  const RFC822: string := "message/rfc822"

  predicate NoneOpened(p: Part) {
    match p
    case Leaf(_, _, _, _) => true
    case Multi(_, _, subs) => forall q <- subs :: NoneOpened(q)
    case Embedded(_, _, inner) => NoneOpened(inner)
    case Opened(_, _, _) => false
  }

  // ----- the full parse -----

  /** The leaves, in the order the parser's tree is walked. */
  function FullLeaves(p: Part): seq<LeafPart> {
    match p
    case Leaf(_, _, _, _) => [p]
    case Multi(_, _, subs) => FullLeavesOf(subs)
    case Embedded(_, _, inner) => FullLeaves(inner)
    case Opened(_, _, blocks) => FullLeavesOf(blocks)
  }

  function FullLeavesOf(ps: seq<Part>): seq<LeafPart> {
    if ps == [] then [] else FullLeaves(ps[0]) + FullLeavesOf(ps[1..])
  }

  function IsMultipart(p: Part): bool {
    !p.Leaf?
  }

  function Payload(p: Part): (ps: seq<Part>)
    requires IsMultipart(p)
    ensures forall q <- ps :: q < p
  {
    match p
    case Multi(_, _, subs) => subs
    case Embedded(_, _, inner) => [inner]
    case Opened(_, _, blocks) => blocks
  }

  function Numbered(ps: seq<LeafPart>, start: nat): seq<(nat, LeafPart)> {
    seq(|ps|, i requires 0 <= i < |ps| => (start + i + 1, ps[i]))
  }

  lemma {:induction false} NumberedJoin(a: seq<LeafPart>, b: seq<LeafPart>, start: nat)
    ensures Numbered(a + b, start) == Numbered(a, start) + Numbered(b, start + |a|)
  {
  }

  /** The parser-side walk: a shared counter and a list that grows. */
  class LeafWalk {
    var counter: nat
    var leaves: seq<(nat, LeafPart)>

    constructor ()
      ensures counter == 0 && leaves == []
    {
      counter, leaves := 0, [];
    }

    method Walk(part: Part)
      modifies this
      ensures counter == old(counter) + |FullLeaves(part)|
      ensures leaves == old(leaves) + Numbered(FullLeaves(part), old(counter))
      decreases part
    {
      if IsMultipart(part) {
        var subs := Payload(part);
        for i := 0 to |subs|
          invariant counter == old(counter) + |FullLeavesOf(subs[..i])|
          invariant leaves == old(leaves) + Numbered(FullLeavesOf(subs[..i]), old(counter))
        {
          FullLeavesOfOneMore(subs, i);
          ghost var done, more := FullLeavesOf(subs[..i]), FullLeaves(subs[i]);
          NumberedJoin(done, more, old(counter));
          Regroup(old(leaves), Numbered(done, old(counter)), Numbered(more, old(counter) + |done|));
          assert subs[i] in subs;
          Walk(subs[i]);
        }
        assert subs[..|subs|] == subs;
        assert FullLeaves(part) == FullLeavesOf(subs) by {
          if part.Embedded? { assert FullLeavesOf([part.inner][1..]) == []; }
        }
      } else {
        counter := counter + 1;
        leaves := leaves + [(counter, part)];
      }
    }
  }

  lemma {:induction false} FullLeavesOfJoin(a: seq<Part>, b: seq<Part>)
    ensures FullLeavesOf(a + b) == FullLeavesOf(a) + FullLeavesOf(b)
  {
    if a == [] {
      assert a + b == b;
    } else {
      assert (a + b)[1..] == a[1..] + b;
      FullLeavesOfJoin(a[1..], b);
    }
  }

  lemma {:induction false} FullLeavesOfOneMore(ps: seq<Part>, i: nat)
    requires i < |ps|
    ensures FullLeavesOf(ps[..i + 1]) == FullLeavesOf(ps[..i]) + FullLeaves(ps[i])
  {
    assert ps[..i + 1] == ps[..i] + [ps[i]];
    FullLeavesOfJoin(ps[..i], [ps[i]]);
    assert [ps[i]][1..] == [];
  }

  method IterLeafParts(msg: Part) returns (leaves: seq<(nat, LeafPart)>)
    ensures leaves == Numbered(FullLeaves(msg), 0)
  {
    var walk := new LeafWalk();
    walk.Walk(msg);
    leaves := walk.leaves;
  }

  // ----- resolving a blob id -----

  datatype Blob = WholeMessage | Content(payload: string, contentType: string)

  method ExtractBlobPart(msg: Part, index: int) returns (r: Option<Blob>)
    ensures r == if index == -1 then Some(WholeMessage)
                 else if 1 <= index <= |FullLeaves(msg)|
                 then var p := FullLeaves(msg)[index - 1]; Some(Content(p.payload, ContentType(p.mime)))
                 else None
  {
    if index == -1 {
      return Some(WholeMessage);
    }
    var leaves := IterLeafParts(msg);
    for i := 0 to |leaves|
      invariant !(1 <= index <= i)
    {
      var (id, part) := leaves[i];
      if id == index {
        return Some(Content(part.payload, ContentType(part.mime)));
      }
    }
    return None;
  }

  // ----- the bodyStructure tree -----

  datatype BodyPart = BodyPart(partId: Option<nat>, blobId: Option<BlobId>, subParts: Option<seq<BodyPart>>)

  /** The message a walk is about. */
  datatype Location = Location(mailbox: string, uidvalidity: nat, uid: nat)

  function MintBlobId(at: Location, part: nat): BlobId {
    BlobId(at.mailbox, at.uidvalidity, at.uid, part)
  }

  function LeafNode(at: Location, n: nat): BodyPart {
    BodyPart(Some(n), Some(MintBlobId(at, n)), None)
  }

  function Container(subs: seq<BodyPart>): BodyPart {
    BodyPart(None, None, Some(subs))
  }

  /** Built from the parser's tree, with the part ids looked up by object. */
  function BuildBodyStructure(p: Part, ids: map<nat, nat>, at: Location): BodyPart
    requires forall leaf <- FullLeaves(p) :: leaf.oid in ids
    decreases p, 1
  {
    match p
    case Leaf(_, _, _, _) => assert p in FullLeaves(p); LeafNode(at, ids[p.oid])
    case Multi(_, _, subs) => Container(BuildAll(subs, ids, at))
    case Embedded(_, _, inner) => Container([BuildBodyStructure(inner, ids, at)])
    case Opened(_, _, blocks) => Container(BuildAll(blocks, ids, at))
  }

  function BuildAll(ps: seq<Part>, ids: map<nat, nat>, at: Location): seq<BodyPart>
    requires forall leaf <- FullLeavesOf(ps) :: leaf.oid in ids
    decreases ps, 0
  {
    if ps == [] then []
    else
      assert FullLeavesOf(ps) == FullLeaves(ps[0]) + FullLeavesOf(ps[1..]);
      [BuildBodyStructure(ps[0], ids, at)] + BuildAll(ps[1..], ids, at)
  }

  /** The id of every leaf, by object; a later leaf replaces an earlier one of the same object. */
  function IdsByObject(leaves: seq<(nat, LeafPart)>): map<nat, nat> {
    if leaves == [] then map[]
    else IdsByObject(leaves[..|leaves| - 1])[leaves[|leaves| - 1].1.oid := leaves[|leaves| - 1].0]
  }

  /** The tree with its leaves numbered in walking order, from `start`. */
  function Shape(p: Part, at: Location, start: nat): BodyPart
    decreases p, 1
  {
    match p
    case Leaf(_, _, _, _) => LeafNode(at, start + 1)
    case Multi(_, _, subs) => Container(ShapeAll(subs, at, start))
    case Embedded(_, _, inner) => Container([Shape(inner, at, start)])
    case Opened(_, _, blocks) => Container(ShapeAll(blocks, at, start))
  }

  function ShapeAll(ps: seq<Part>, at: Location, start: nat): seq<BodyPart>
    decreases ps, 0
  {
    if ps == [] then [] else [Shape(ps[0], at, start)] + ShapeAll(ps[1..], at, start + |FullLeaves(ps[0])|)
  }

  ghost predicate NumbersAgree(leaves: seq<LeafPart>, ids: map<nat, nat>, start: nat) {
    forall i | 0 <= i < |leaves| :: leaves[i].oid in ids && ids[leaves[i].oid] == start + i + 1
  }

  lemma {:induction false} NumbersAgreeSplit(a: seq<LeafPart>, b: seq<LeafPart>, ids: map<nat, nat>, start: nat)
    requires NumbersAgree(a + b, ids, start)
    ensures NumbersAgree(a, ids, start) && NumbersAgree(b, ids, start + |a|)
  {
    forall i | 0 <= i < |a| ensures a[i].oid in ids && ids[a[i].oid] == start + i + 1 { assert (a + b)[i] == a[i]; }
    forall i | 0 <= i < |b|
      ensures b[i].oid in ids && ids[b[i].oid] == start + |a| + i + 1
    {
      assert (a + b)[|a| + i] == b[i];
    }
  }

  lemma {:induction false} BuildIsShape(p: Part, ids: map<nat, nat>, at: Location, start: nat)
    requires NumbersAgree(FullLeaves(p), ids, start)
    ensures forall leaf <- FullLeaves(p) :: leaf.oid in ids
    ensures BuildBodyStructure(p, ids, at) == Shape(p, at, start)
    decreases p, 1
  {
    match p
    case Leaf(_, _, _, _) =>
      assert FullLeaves(p)[0] == p;
    case Multi(_, _, subs) => BuildAllIsShape(subs, ids, at, start);
    case Embedded(_, _, inner) => BuildIsShape(inner, ids, at, start);
    case Opened(_, _, blocks) => BuildAllIsShape(blocks, ids, at, start);
  }

  lemma {:induction false} BuildAllIsShape(ps: seq<Part>, ids: map<nat, nat>, at: Location, start: nat)
    requires NumbersAgree(FullLeavesOf(ps), ids, start)
    ensures forall leaf <- FullLeavesOf(ps) :: leaf.oid in ids
    ensures BuildAll(ps, ids, at) == ShapeAll(ps, at, start)
    decreases ps, 0
  {
    if ps != [] {
      NumbersAgreeSplit(FullLeaves(ps[0]), FullLeavesOf(ps[1..]), ids, start);
      BuildIsShape(ps[0], ids, at, start);
      BuildAllIsShape(ps[1..], ids, at, start + |FullLeaves(ps[0])|);
    }
  }

  /** The parser's objects are distinct. */
  predicate DistinctLeaves(p: Part) {
    forall i, j | 0 <= i < j < |FullLeaves(p)| :: FullLeaves(p)[i].oid != FullLeaves(p)[j].oid
  }

  lemma {:induction false} IdsAreNumbers(ps: seq<LeafPart>)
    requires forall i, j | 0 <= i < j < |ps| :: ps[i].oid != ps[j].oid
    ensures NumbersAgree(ps, IdsByObject(Numbered(ps, 0)), 0)
  {
    if ps != [] {
      var n := |ps| - 1;
      IdsAreNumbers(ps[..n]);
      assert Numbered(ps, 0)[..n] == Numbered(ps[..n], 0);
      forall i | 0 <= i < |ps|
        ensures var ids := IdsByObject(Numbered(ps, 0)); ps[i].oid in ids && ids[ps[i].oid] == i + 1
      {
        assert i < n ==> ps[..n][i] == ps[i];
      }
    }
  }

  /** The bodyStructure of the full parse numbers the leaves of any tree 1..n in walking order. */
  lemma {:induction false} FullStructureIsNumbered(p: Part, at: Location)
    requires DistinctLeaves(p)
    ensures var ids := IdsByObject(Numbered(FullLeaves(p), 0));
            (forall leaf <- FullLeaves(p) :: leaf.oid in ids) && BuildBodyStructure(p, ids, at) == Shape(p, at, 0)
  {
    IdsAreNumbers(FullLeaves(p));
    BuildIsShape(p, IdsByObject(Numbered(FullLeaves(p), 0)), at, 0);
  }

  // ----- BODYSTRUCTURE, as the server sends it -----

  /** A parsed response value. A multipart node is a Tuple whose first item is Parts. */
  datatype Field = Nil | Text(s: string) | Num(n: nat) | Tuple(items: seq<Field>) | Parts(parts: seq<Field>)

  /** The fields RFC 3501 section 7.4.2 puts around a part and that numbering does not read, with any that later
      extensions add, and how many of a part's extension fields the server sends. */
  datatype Other = Other(params: Field, id: Field, desc: Field, enc: Field, size: nat, lines: nat, md5: Field,
                         dispositionParams: Field, lang: Field, loc: Field, more: seq<Field>, envelope: Field,
                         extensions: nat)

  /** Each part has fields of its own. */
  type Fields = Part -> Other

  function DispositionField(m: Mime, o: Other): Field {
    if m.disposition.None? then Nil else Tuple([Text(m.disposition.value), o.dispositionParams])
  }

  /** The extension fields: a server may stop anywhere, but not before a disposition there is. */
  function Extensions(m: Mime, o: Other, first: Field): seq<Field> {
    var all := [first, DispositionField(m, o), o.lang, o.loc] + o.more;
    if m.disposition.Some? && o.extensions < 2 then all[..2]
    else if o.extensions < |all| then all[..o.extensions]
    else all
  }

  /** body-type-text has "lines" at 7; body-type-msg has envelope, body and "lines" at 7, 8, 9; no other leaf any. */
  function Encode(p: Part, of: Fields): Field
    decreases p, 1
  {
    var o := of(p);
    var head := [Text(p.mime.kind), Text(p.mime.subkind), o.params, o.id, o.desc, o.enc, Num(o.size)];
    var tail := Extensions(p.mime, o, o.md5);
    match p
    case Multi(_, m, subs) => Tuple([Parts(EncodeAll(subs, of)), Text(m.subkind)] + Extensions(m, o, o.params))
    case Embedded(_, m, inner) => Tuple(head + [o.envelope, Encode(inner, of), Num(o.lines)] + tail)
    case Leaf(_, m, _, _) => Tuple(if Lower(m.kind) == "text" then head + [Num(o.lines)] + tail else head + tail)
    case Opened(_, _, _) => Tuple(head + tail)
  }

  function EncodeAll(ps: seq<Part>, of: Fields): (fs: seq<Field>)
    ensures |fs| == |ps|
    decreases ps, 0
  {
    if ps == [] then [] else [Encode(ps[0], of)] + EncodeAll(ps[1..], of)
  }

  // ----- the native walk -----

  datatype NativeLeaf = NativeLeaf(partId: nat, contentType: string, disposition: string, blobId: BlobId)

  function Get(items: seq<Field>, i: nat): Field {
    if i < |items| then items[i] else Nil
  }

  function AsText(f: Field): Option<string> {
    if f.Text? then Some(f.s) else None
  }

  function TextOr(f: Field, default: string): string {
    if f.Text? && f.s != [] then f.s else default
  }

  function DispositionText(f: Field): Option<string> {
    if f.Tuple? then AsText(Get(f.items, 0)) else None
  }

  function Items(node: Field): seq<Field> {
    if node.Tuple? then node.items else []
  }

  function NativeType(items: seq<Field>): string {
    Lower(TextOr(Get(items, 0), "application")) + ['/'] + Lower(TextOr(Get(items, 1), "octet-stream"))
  }

  function ExtensionStart(items: seq<Field>): nat {
    if Get(items, 0).Text? && Lower(Get(items, 0).s) == "text" then 8 else 7
  }

  function LowerOf(t: Option<string>): string {
    if t.None? then [] else Lower(t.value)
  }

  predicate HoldsMessage(items: seq<Field>) {
    NativeType(items) == RFC822 && Get(items, 8).Tuple?
  }

  /** What the walk reads in a node. */
  datatype Shown = Branch(subs: seq<Shown>) | Wrapped(inner: Shown) | Entry(contentType: string, disposition: string)

  function Show(node: Field): Shown
    decreases node, 1
  {
    var items := Items(node);
    if Get(items, 0).Parts? then Branch(ShowAll(items[0].parts))
    else if HoldsMessage(items) then Wrapped(Show(items[8]))
    else ShowEntry(items)
  }

  function ShowEntry(items: seq<Field>): Shown {
    Entry(NativeType(items), LowerOf(DispositionText(Get(items, ExtensionStart(items) + 1))))
  }

  function ShowAll(nodes: seq<Field>): (r: seq<Shown>)
    ensures |r| == |nodes|
    decreases nodes, 0
  {
    if nodes == [] then [] else [Show(nodes[0])] + ShowAll(nodes[1..])
  }

  lemma {:induction false} ShowAllAt(nodes: seq<Field>, i: nat)
    requires i < |nodes|
    ensures ShowAll(nodes)[i] == Show(nodes[i])
  {
    if i > 0 {
      ShowAllAt(nodes[1..], i - 1);
    }
  }

  /** The walk's result: the node it returns, and the leaves it appends. */
  datatype Walked = Walked(node: BodyPart, leaves: seq<NativeLeaf>)

  /** The same, over sibling nodes. */
  datatype WalkedAll = WalkedAll(nodes: seq<BodyPart>, leaves: seq<NativeLeaf>)

  function Native(s: Shown, at: Location, counter: nat): Walked
    decreases s, 1
  {
    match s
    case Branch(subs) =>
      var walked := NativeAll(subs, at, counter);
      Walked(Container(walked.nodes), walked.leaves)
    case Wrapped(inner) =>
      var child := Native(inner, at, counter);
      Walked(Container([child.node]), child.leaves)
    case Entry(contentType, disposition) =>
      Walked(LeafNode(at, counter + 1),
             [NativeLeaf(counter + 1, contentType, disposition, MintBlobId(at, counter + 1))])
  }

  function NativeAll(subs: seq<Shown>, at: Location, counter: nat): WalkedAll
    decreases subs, 0
  {
    if subs == [] then WalkedAll([], [])
    else
      var first := Native(subs[0], at, counter);
      Before(first, NativeAll(subs[1..], at, counter + |first.leaves|))
  }

  function Before(first: Walked, rest: WalkedAll): WalkedAll {
    WalkedAll([first.node] + rest.nodes, first.leaves + rest.leaves)
  }

  function After(done: WalkedAll, next: Walked): WalkedAll {
    WalkedAll(done.nodes + [next.node], done.leaves + next.leaves)
  }

  lemma {:induction false} BeforeAfter(first: Walked, mid: WalkedAll, last: Walked)
    ensures After(Before(first, mid), last) == Before(first, After(mid, last))
  {
    assert first.leaves + mid.leaves + last.leaves == first.leaves + (mid.leaves + last.leaves);
  }

  lemma {:induction false} WalkCases(node: Field, at: Location, counter: nat)
    ensures var items, w := Items(node), Native(Show(node), at, counter);
            if Get(items, 0).Parts? then
              var all := NativeAll(ShowAll(items[0].parts), at, counter);
              w == Walked(Container(all.nodes), all.leaves)
            else if HoldsMessage(items) then
              var child := Native(Show(items[8]), at, counter);
              w == Walked(Container([child.node]), child.leaves)
            else w == Native(ShowEntry(items), at, counter)
  {
  }

  class NativeWalk {
    var counter: nat
    var leavesOut: seq<NativeLeaf>

    constructor ()
      ensures counter == 0 && leavesOut == []
    {
      counter, leavesOut := 0, [];
    }

    method Walk(node: Field, at: Location) returns (r: BodyPart)
      modifies this
      ensures var w := Native(Show(node), at, old(counter));
              r == w.node && Advanced(old(leavesOut), old(counter), leavesOut, counter, w.leaves)
      decreases node, 1
    {
      var items := Items(node);
      WalkCases(node, at, counter);
      if Get(items, 0).Parts? {
        var subNodes := WalkAll(items[0].parts, at);
        return Container(subNodes);
      }
      if HoldsMessage(items) {
        var child := Walk(items[8], at);
        return Container([child]);
      }
      r := Append(items, at);
    }

    method Append(items: seq<Field>, at: Location) returns (r: BodyPart)
      modifies this
      ensures var w := Native(ShowEntry(items), at, old(counter));
              r == w.node && Advanced(old(leavesOut), old(counter), leavesOut, counter, w.leaves)
    {
      var start := ExtensionStart(items);
      var disposition := LowerOf(DispositionText(Get(items, start + 1)));
      counter := counter + 1;
      leavesOut := leavesOut + [NativeLeaf(counter, NativeType(items), disposition, MintBlobId(at, counter))];
      return LeafNode(at, counter);
    }

    method WalkChild(children: seq<Field>, i: nat, at: Location, ghost subs: seq<Shown>) returns (r: BodyPart)
      requires i < |children| && subs == ShowAll(children)
      modifies this
      ensures var w := Native(subs[i], at, old(counter));
              r == w.node && Advanced(old(leavesOut), old(counter), leavesOut, counter, w.leaves)
      decreases children, 0, 0
    {
      ShowAllAt(children, i);
      r := Walk(children[i], at);
    }

    method WalkAll(children: seq<Field>, at: Location) returns (subNodes: seq<BodyPart>)
      modifies this
      ensures var w := NativeAll(ShowAll(children), at, old(counter));
              subNodes == w.nodes && Advanced(old(leavesOut), old(counter), leavesOut, counter, w.leaves)
      decreases children, 0, 1
    {
      subNodes := [];
      ghost var subs, start, before := ShowAll(children), counter, leavesOut;
      ghost var done := WalkedAll([], []);
      for i := 0 to |children|
        invariant done == NativeAll(subs[..i], at, start)
        invariant subNodes == done.nodes && Advanced(before, start, leavesOut, counter, done.leaves)
      {
        NativeAllOneMore(subs, i, at, start);
        ghost var leaves, count, next := leavesOut, counter, Native(subs[i], at, counter);
        var sub := WalkChild(children, i, at, subs);
        AdvancedTwice(before, start, leaves, count, done.leaves, leavesOut, counter, next.leaves);
        subNodes, done := subNodes + [sub], After(done, next);
      }
      assert subs[..|children|] == subs;
    }
  }

  /** The walk's list and counter, moved on by these leaves. */
  predicate Advanced(before: seq<NativeLeaf>, start: nat, now: seq<NativeLeaf>, counter: nat, leaves: seq<NativeLeaf>) {
    now == before + leaves && counter == start + |leaves|
  }

  lemma {:induction false} AdvancedTwice(before: seq<NativeLeaf>, start: nat, mid: seq<NativeLeaf>, count: nat,
      leaves: seq<NativeLeaf>, now: seq<NativeLeaf>, counter: nat, more: seq<NativeLeaf>)
    requires Advanced(before, start, mid, count, leaves) && Advanced(mid, count, now, counter, more)
    ensures Advanced(before, start, now, counter, leaves + more)
  {
  }

  lemma {:induction false} Regroup<T>(a: seq<T>, b: seq<T>, c: seq<T>)
    ensures a + b + c == a + (b + c)
  {
  }

  lemma {:induction false} NativeAllOneMore(subs: seq<Shown>, i: nat, at: Location, counter: nat)
    requires i < |subs|
    ensures var done := NativeAll(subs[..i], at, counter);
            NativeAll(subs[..i + 1], at, counter) == After(done, Native(subs[i], at, counter + |done.leaves|))
  {
    var first := Native(subs[0], at, counter);
    var c := counter + |first.leaves|;
    assert subs[..i + 1][1..] == subs[1..][..i] && subs[..i + 1][0] == subs[0];
    if i == 0 {
      assert subs[..1][1..] == [];
      assert NativeAll(subs[..1], at, counter) == Before(first, WalkedAll([], []));
    } else {
      assert subs[..i][1..] == subs[1..][..i - 1] && subs[..i][0] == subs[0];
      NativeAllOneMore(subs[1..], i - 1, at, c);
      var mid := NativeAll(subs[1..][..i - 1], at, c);
      BeforeAfter(first, mid, Native(subs[i], at, c + |mid.leaves|));
    }
  }

  // ----- the two numberings -----

  /** The parts BODYSTRUCTURE shows as leaves. */
  function NativeParts(p: Part): seq<Part> {
    match p
    case Leaf(_, _, _, _) => [p]
    case Multi(_, _, subs) => NativePartsOf(subs)
    case Embedded(_, _, inner) => NativeParts(inner)
    case Opened(_, _, _) => [p]
  }

  function NativePartsOf(ps: seq<Part>): seq<Part> {
    if ps == [] then [] else NativeParts(ps[0]) + NativePartsOf(ps[1..])
  }

  function AsNative(p: Part, at: Location, n: nat): NativeLeaf {
    NativeLeaf(n, ContentType(p.mime), LowerOf(p.mime.disposition), MintBlobId(at, n))
  }

  function AllAsNative(ps: seq<Part>, at: Location, start: nat): seq<NativeLeaf> {
    seq(|ps|, i requires 0 <= i < |ps| => AsNative(ps[i], at, start + i + 1))
  }

  /** The tree with BODYSTRUCTURE's leaves numbered in walking order, from `start`. */
  function NativeShape(p: Part, at: Location, start: nat): BodyPart
    decreases p, 1
  {
    match p
    case Leaf(_, _, _, _) => LeafNode(at, start + 1)
    case Multi(_, _, subs) => Container(NativeShapeAll(subs, at, start))
    case Embedded(_, _, inner) => Container([NativeShape(inner, at, start)])
    case Opened(_, _, _) => LeafNode(at, start + 1)
  }

  function NativeShapeAll(ps: seq<Part>, at: Location, start: nat): seq<BodyPart>
    decreases ps, 0
  {
    if ps == [] then [] else [NativeShape(ps[0], at, start)] + NativeShapeAll(ps[1..], at, start + |NativeParts(ps[0])|)
  }

  /** What BODYSTRUCTURE shows of a tree. */
  function Seen(p: Part): Shown
    decreases p, 1
  {
    match p
    case Leaf(_, m, _, _) => Entry(ContentType(m), LowerOf(m.disposition))
    case Opened(_, m, _) => Entry(ContentType(m), LowerOf(m.disposition))
    case Multi(_, _, subs) => Branch(SeenAll(subs))
    case Embedded(_, _, inner) => Wrapped(Seen(inner))
  }

  function SeenAll(ps: seq<Part>): (r: seq<Shown>)
    ensures |r| == |ps|
    decreases ps, 0
  {
    if ps == [] then [] else [Seen(ps[0])] + SeenAll(ps[1..])
  }

  lemma {:induction false} DispositionIsSent(m: Mime, o: Other, first: Field)
    ensures Get(Extensions(m, o, first), 1) == DispositionField(m, o)
  {
  }

  lemma {:induction false} GetJoin(a: seq<Field>, b: seq<Field>, i: nat)
    ensures Get(a + b, i) == if i < |a| then a[i] else Get(b, i - |a|)
  {
  }

  lemma {:induction false} DispositionIsFound(p: Part, of: Fields)
    requires WellFormed(p) && (p.Leaf? || p.Opened?)
    ensures var items := Items(Encode(p, of));
            Get(items, ExtensionStart(items) + 1) == DispositionField(p.mime, of(p))
  {
    var o, items := of(p), Items(Encode(p, of));
    var tail := Extensions(p.mime, o, o.md5);
    NotRfc822(p);
    DispositionIsSent(p.mime, o, o.md5);
    assert Get(items, 0) == Text(p.mime.kind);
    GetJoin(items[..ExtensionStart(items)], tail, ExtensionStart(items) + 1);
    assert items == items[..ExtensionStart(items)] + tail;
  }

  /** Whatever the server's other fields hold, the walk finds a part's type and disposition where its kind has them. */
  lemma {:induction false} LeafIsRead(p: Part, of: Fields)
    requires WellFormed(p) && (p.Leaf? || p.Opened?)
    ensures Show(Encode(p, of)) == Seen(p)
  {
    var items := Items(Encode(p, of));
    assert Get(items, 0) == Text(p.mime.kind) && Get(items, 1) == Text(p.mime.subkind);
    NotRfc822(p);
    assert NativeType(items) == ContentType(p.mime);
    DispositionIsFound(p, of);
    assert p.mime.disposition.Some? ==>
      Get(DispositionField(p.mime, of(p)).items, 0) == Text(p.mime.disposition.value);
  }

  lemma {:induction false} EmbeddedIsRead(p: Part, of: Fields)
    requires WellFormed(p) && p.Embedded?
    ensures Show(Encode(p, of)) == Wrapped(Show(Encode(p.inner, of)))
  {
    var items := Items(Encode(p, of));
    assert Get(items, 0) == Text(p.mime.kind) && Get(items, 1) == Text(p.mime.subkind);
    assert Get(items, 8) == Encode(p.inner, of);
    assert NativeType(items) == ContentType(p.mime);
    EncodesTuple(p.inner, of);
  }

  lemma {:induction false} EncodesTuple(p: Part, of: Fields)
    ensures Encode(p, of).Tuple?
  {
  }

  lemma {:induction false} EncodingIsRead(p: Part, of: Fields)
    requires WellFormed(p)
    ensures Show(Encode(p, of)) == Seen(p)
    decreases p, 1
  {
    match p
    case Leaf(_, _, _, _) => LeafIsRead(p, of);
    case Opened(_, _, _) => LeafIsRead(p, of);
    case Multi(_, _, subs) =>
      EncodingsAreRead(subs, of);
    case Embedded(_, _, inner) =>
      EmbeddedIsRead(p, of);
      EncodingIsRead(inner, of);
  }

  lemma {:induction false} EncodingsAreRead(ps: seq<Part>, of: Fields)
    requires forall q <- ps :: WellFormed(q)
    ensures ShowAll(EncodeAll(ps, of)) == SeenAll(ps)
    decreases ps, 0
  {
    if ps != [] {
      assert ps[0] in ps;
      EncodingIsRead(ps[0], of);
      EncodingsAreRead(ps[1..], of);
      assert EncodeAll(ps, of)[1..] == EncodeAll(ps[1..], of);
    }
  }

  lemma {:induction false} NotRfc822(p: Part)
    requires WellFormed(p) && (p.Leaf? || p.Opened?)
    ensures ContentType(p.mime) != RFC822
    ensures p.Opened? ==> Lower(p.mime.kind) != "text"
  {
    if p.Leaf? && ContentType(p.mime) == RFC822 {
      SplitAtSlash(Lower(p.mime.kind), Lower(p.mime.subkind));
    }
  }

  lemma {:induction false} SplitAtSlash(kind: string, subkind: string)
    requires kind + ['/'] + subkind == RFC822
    ensures kind == "message"
  {
    var whole := kind + ['/'] + subkind;
    assert whole[|kind|] == '/' && |whole| == 14;
    assert forall i | 0 <= i < 14 && i != 7 :: RFC822[i] != '/';
    assert kind == whole[..|kind|];
  }

  lemma {:induction false} NativeAllCons(first: Shown, rest: seq<Shown>, at: Location, start: nat)
    ensures var w := Native(first, at, start);
            NativeAll([first] + rest, at, start) == Before(w, NativeAll(rest, at, start + |w.leaves|))
  {
    assert ([first] + rest)[1..] == rest;
  }

  lemma {:induction false} SeenIsShape(p: Part, at: Location, start: nat)
    ensures Native(Seen(p), at, start) == Walked(NativeShape(p, at, start), AllAsNative(NativeParts(p), at, start))
    decreases p, 1
  {
    match p
    case Leaf(_, _, _, _) =>
    case Opened(_, _, _) =>
    case Multi(_, _, subs) => SeenAllIsShape(subs, at, start);
    case Embedded(_, m, inner) => SeenIsShape(inner, at, start);
  }

  lemma {:induction false} SeenAllIsShape(ps: seq<Part>, at: Location, start: nat)
    ensures NativeAll(SeenAll(ps), at, start)
         == WalkedAll(NativeShapeAll(ps, at, start), AllAsNative(NativePartsOf(ps), at, start))
    decreases ps, 0
  {
    if ps != [] {
      SeenIsShape(ps[0], at, start);
      SeenAllIsShape(ps[1..], at, start + |NativeParts(ps[0])|);
      AllAsNativeJoin(NativeParts(ps[0]), NativePartsOf(ps[1..]), at, start);
      NativeAllCons(Seen(ps[0]), SeenAll(ps[1..]), at, start);
    }
  }

  lemma {:induction false} AllAsNativeJoin(a: seq<Part>, b: seq<Part>, at: Location, start: nat)
    ensures AllAsNative(a + b, at, start) == AllAsNative(a, at, start) + AllAsNative(b, at, start + |a|)
  {
  }

  /** The walk over what the server sends: BODYSTRUCTURE's leaves, numbered in walking order. */
  lemma {:induction false} NativeIsShape(p: Part, of: Fields, at: Location, start: nat)
    requires WellFormed(p)
    ensures Native(Show(Encode(p, of)), at, start)
         == Walked(NativeShape(p, at, start), AllAsNative(NativeParts(p), at, start))
  {
    EncodingIsRead(p, of);
    SeenIsShape(p, at, start);
  }

  /** The parser's leaves are BODYSTRUCTURE's with the opened ones replaced by what was found inside. */
  lemma {:induction false} FullOpensNative(p: Part)
    ensures FullLeaves(p) == FullLeavesOf(NativeParts(p))
    decreases p, 1
  {
    match p
    case Leaf(_, _, _, _) => assert [p][1..] == [];
    case Multi(_, _, subs) => FullOpensNativeAll(subs);
    case Embedded(_, _, inner) => FullOpensNative(inner);
    case Opened(_, _, _) => assert [p][1..] == [];
  }

  lemma {:induction false} FullOpensNativeAll(ps: seq<Part>)
    ensures FullLeavesOf(ps) == FullLeavesOf(NativePartsOf(ps))
    decreases ps, 0
  {
    if ps != [] {
      FullOpensNative(ps[0]);
      FullOpensNativeAll(ps[1..]);
      FullLeavesOfJoin(NativeParts(ps[0]), NativePartsOf(ps[1..]));
    }
  }

  lemma {:induction false} NoneOpenedSame(p: Part, at: Location, start: nat)
    requires NoneOpened(p)
    ensures NativeParts(p) == FullLeaves(p)
    ensures NativeShape(p, at, start) == Shape(p, at, start)
    decreases p, 1
  {
    match p
    case Leaf(_, _, _, _) =>
    case Multi(_, _, subs) => NoneOpenedSameAll(subs, at, start);
    case Embedded(_, _, inner) => NoneOpenedSame(inner, at, start);
  }

  lemma {:induction false} NoneOpenedSameAll(ps: seq<Part>, at: Location, start: nat)
    requires forall q <- ps :: NoneOpened(q)
    ensures NativePartsOf(ps) == FullLeavesOf(ps)
    ensures NativeShapeAll(ps, at, start) == ShapeAll(ps, at, start)
    decreases ps, 0
  {
    if ps != [] {
      assert ps[0] in ps;
      NoneOpenedSame(ps[0], at, start);
      NoneOpenedSameAll(ps[1..], at, start + |FullLeaves(ps[0])|);
    }
  }

  /** Without opened parts the three walks number every tree alike, and every leaf the cheap walk reports is, under the
      same number, the leaf the full parse resolves. */
  lemma {:induction false} ThreeWalksAgree(p: Part, of: Fields, at: Location)
    requires WellFormed(p) && NoneOpened(p) && DistinctLeaves(p)
    ensures forall leaf <- FullLeaves(p) :: leaf.oid in IdsByObject(Numbered(FullLeaves(p), 0))
    ensures var native := Native(Show(Encode(p, of)), at, 0);
            && native.node == BuildBodyStructure(p, IdsByObject(Numbered(FullLeaves(p), 0)), at)
            && |native.leaves| == |FullLeaves(p)|
            && forall i | 0 <= i < |native.leaves| :: native.leaves[i] == AsNative(FullLeaves(p)[i], at, i + 1)
  {
    FullStructureIsNumbered(p, at);
    NativeIsFull(p, of, at);
    EachAsNative(FullLeaves(p), at);
  }

  lemma {:induction false} EachAsNative(ps: seq<Part>, at: Location)
    ensures var native := AllAsNative(ps, at, 0);
            |native| == |ps| && forall i | 0 <= i < |native| :: native[i] == AsNative(ps[i], at, i + 1)
  {
  }

  lemma {:induction false} NativeIsFull(p: Part, of: Fields, at: Location)
    requires WellFormed(p) && NoneOpened(p)
    ensures Native(Show(Encode(p, of)), at, 0) == Walked(Shape(p, at, 0), AllAsNative(FullLeaves(p), at, 0))
  {
    NativeIsShape(p, of, at, 0);
    NoneOpenedSame(p, at, 0);
  }

  lemma {:induction false} OpenedShows(p: Part)
    ensures NoneOpened(p) <==> forall q <- NativeParts(p) :: q.Leaf?
    decreases p, 1
  {
    match p
    case Leaf(_, _, _, _) =>
    case Multi(_, _, subs) => OpenedShowsAll(subs);
    case Embedded(_, _, inner) => OpenedShows(inner);
    case Opened(_, _, _) => assert p in NativeParts(p);
  }

  lemma {:induction false} OpenedShowsAll(ps: seq<Part>)
    ensures (forall q <- ps :: NoneOpened(q)) <==> forall q <- NativePartsOf(ps) :: q.Leaf?
    decreases ps, 0
  {
    if ps != [] {
      OpenedShows(ps[0]);
      OpenedShowsAll(ps[1..]);
      assert ps == [ps[0]] + ps[1..];
    }
  }

  /** The number the cheap walk gives to its k-th part resolves to that part. */
  predicate Resolves(p: Part, k: nat)
    requires k < |NativeParts(p)|
  {
    k < |FullLeaves(p)| && FullLeaves(p)[k] == NativeParts(p)[k]
  }

  lemma {:induction false} FullIndex(p: Part, k: nat)
    requires k < |NativeParts(p)| && NativeParts(p)[k].Leaf?
    ensures var n := |FullLeavesOf(NativeParts(p)[..k])|;
            n < |FullLeaves(p)| && FullLeaves(p)[n] == NativeParts(p)[k]
  {
    var ps := NativeParts(p);
    FullOpensNative(p);
    FullLeavesOfOneMore(ps, k);
    assert ps == ps[..k + 1] + ps[k + 1..];
    FullLeavesOfJoin(ps[..k + 1], ps[k + 1..]);
  }

  /** A leaf's blob id resolves to it exactly when the parts before it, opened, still count as many. */
  lemma {:induction false} LeafResolvesExactly(p: Part, k: nat)
    requires DistinctLeaves(p) && k < |NativeParts(p)| && NativeParts(p)[k].Leaf?
    ensures Resolves(p, k) <==> |FullLeavesOf(NativeParts(p)[..k])| == k
  {
    FullIndex(p, k);
  }

  /** Every blob id the cheap walk mints resolves to its own part exactly when no part gets opened. */
  lemma {:induction false} AllResolveExactly(p: Part)
    ensures (forall k | 0 <= k < |NativeParts(p)| :: Resolves(p, k)) <==> NoneOpened(p)
  {
    OpenedShows(p);
    if NoneOpened(p) {
      NoneOpenedSame(p, Location("", 0, 0), 0);
    } else if forall k | 0 <= k < |NativeParts(p)| :: Resolves(p, k) {
      forall q | q in NativeParts(p) ensures q.Leaf? {
        var k :| 0 <= k < |NativeParts(p)| && NativeParts(p)[k] == q;
        assert Resolves(p, k);
      }
    }
  }

  /** A bounce: text, delivery status, returned message. */
  function Bounce(text: Part, blocks: seq<Part>, returned: Part): Part {
    Multi(0, Mime("multipart", "report", None), [text, StatusOf(blocks), Forward(returned)])
  }

  function StatusOf(blocks: seq<Part>): Part {
    Opened(1, Mime("message", "delivery-status", None), blocks)
  }

  function Forward(message: Part): Part {
    Embedded(2, Mime("message", "rfc822", None), message)
  }

  lemma {:induction false} BounceLeaves(text: LeafPart, blocks: seq<Part>, returned: LeafPart)
    ensures NativeParts(Bounce(text, blocks, returned)) == [text, StatusOf(blocks), returned]
    ensures FullLeaves(Bounce(text, blocks, returned)) == [text] + (FullLeavesOf(blocks) + [returned])
  {
    var status, forward := StatusOf(blocks), Forward(returned);
    assert [text, status, forward][1..] == [status, forward] && [status, forward][1..] == [forward]
        && [forward][1..] == [];
    assert FullLeaves(forward) == FullLeaves(returned) == [returned];
    assert NativeParts(forward) == NativeParts(returned) == [returned];
    assert FullLeavesOf([forward]) == [returned] && NativePartsOf([forward]) == [returned];
    assert FullLeavesOf([status, forward]) == FullLeavesOf(blocks) + [returned];
    assert NativePartsOf([status, forward]) == [status] + [returned];
    assert FullLeavesOf([text, status, forward]) == [text] + (FullLeavesOf(blocks) + [returned]);
    assert NativePartsOf([text, status, forward]) == [text] + ([status] + [returned]);
  }

  /** The cheap walk numbers the returned message 3. The parser splits the delivery status in two blocks, so blob 3 is
      the second block and the returned message is 4. */
  lemma {:induction false} DeliveryStatusShiftsTheNumbers(text: LeafPart, block1: LeafPart, block2: LeafPart,
      returned: LeafPart)
    requires block2 != returned
    ensures var p := Bounce(text, [block1, block2], returned);
            && |NativeParts(p)| == 3 && NativeParts(p)[2] == returned
            && |FullLeaves(p)| == 4 && FullLeaves(p)[2] == block2 && FullLeaves(p)[3] == returned
            && !Resolves(p, 2)
  {
    BounceLeaves(text, [block1, block2], returned);
    assert [block1, block2][1..] == [block2] && [block2][1..] == [];
    assert FullLeavesOf([block2]) == [block2];
    assert FullLeavesOf([block1, block2]) == [block1] + [block2];
  }

  // ----- the classifiers -----

  const PLAIN: string := "text/plain"
  const HTML: string := "text/html"
  const ATTACHMENT: string := "attachment"

  datatype Role = Marked | Plain | Html | Neither

  /** What a part's disposition and type make of it. */
  function RoleOf(contentType: string, disposition: string): Role {
    if disposition == ATTACHMENT then Marked
    else if contentType == PLAIN then Plain
    else if contentType == HTML then Html
    else Neither
  }

  /** What classification looks at: `decodes` is whether the body can be read; the cheap walk assumes it can. */
  datatype Look = Look(role: Role, decodes: bool)

  function LookAt(p: LeafPart): Look {
    Look(RoleOf(ContentType(p.mime), LowerOf(p.mime.disposition)), p.text.Some?)
  }

  function LooksAt(leaves: seq<(nat, LeafPart)>): (ls: seq<Look>)
    ensures |ls| == |leaves|
  {
    if leaves == [] then [] else LooksAt(leaves[..|leaves| - 1]) + [LookAt(leaves[|leaves| - 1].1)]
  }

  lemma {:induction false} LooksAtEach(leaves: seq<(nat, LeafPart)>, i: nat)
    requires i < |leaves|
    ensures LooksAt(leaves)[i] == LookAt(leaves[i].1)
  {
    if i < |leaves| - 1 {
      LooksAtEach(leaves[..|leaves| - 1], i);
    }
  }

  function NativeLook(leaf: NativeLeaf): Look {
    Look(RoleOf(leaf.contentType, leaf.disposition), true)
  }

  function NativeLooks(leaves: seq<NativeLeaf>): (ls: seq<Look>)
    ensures |ls| == |leaves|
  {
    if leaves == [] then [] else NativeLooks(leaves[..|leaves| - 1]) + [NativeLook(leaves[|leaves| - 1])]
  }

  lemma {:induction false} NativeLooksEach(leaves: seq<NativeLeaf>, i: nat)
    requires i < |leaves|
    ensures NativeLooks(leaves)[i] == NativeLook(leaves[i])
  {
    if i < |leaves| - 1 {
      NativeLooksEach(leaves[..|leaves| - 1], i);
    }
  }

  /** The first of the first `n` that has the role and decodes; `n` if none is. */
  function Body(ls: seq<Look>, role: Role, n: nat): (k: nat)
    requires n <= |ls|
    ensures k <= n
    ensures k < n ==> ls[k] == Look(role, true)
    ensures forall j | 0 <= j < k :: ls[j] != Look(role, true)
  {
    if n == 0 then 0
    else
      var k := Body(ls, role, n - 1);
      if k < n - 1 || ls[n - 1] == Look(role, true) then k else n
  }

  /** Marked as an attachment, or of no body type, or a body part that failed to decode while none had. */
  predicate Attached(ls: seq<Look>, i: nat)
    requires i < |ls|
  {
    || ls[i].role.Marked?
    || ls[i].role.Neither?
    || (!ls[i].decodes && Body(ls, ls[i].role, i) == i)
  }

  /** The positions of the attachments among the first `n`. */
  function Attachments(ls: seq<Look>, n: nat): (at: seq<nat>)
    requires n <= |ls|
    ensures forall i <- at :: i < n && Attached(ls, i)
    ensures forall i | 0 <= i < n && Attached(ls, i) :: i in at
  {
    if n == 0 then []
    else if Attached(ls, n - 1) then Attachments(ls, n - 1) + [n - 1]
    else Attachments(ls, n - 1)
  }

  function Chosen<T>(xs: seq<T>, at: seq<nat>): seq<T>
    requires forall i <- at :: i < |xs|
  {
    seq(|at|, i requires 0 <= i < |at| => assert at[i] in at; xs[at[i]])
  }

  lemma {:induction false} ChosenNext<T>(xs: seq<T>, at: seq<nat>, k: nat)
    requires k < |xs| && forall i <- at :: i < |xs|
    ensures forall i <- at + [k] :: i < |xs|
    ensures Chosen(xs, at + [k]) == Chosen(xs, at) + [xs[k]]
  {
  }

  lemma {:induction false} RoleIs(contentType: string, disposition: string)
    ensures var role := RoleOf(contentType, disposition);
            && (role.Marked? <==> disposition == ATTACHMENT)
            && (role.Plain? <==> disposition != ATTACHMENT && contentType == PLAIN)
            && (role.Html? <==> disposition != ATTACHMENT && contentType == HTML)
  {
    assert PLAIN[5] != HTML[5];
  }

  /** What has been found for a body role among the first `n`: its text and part id, or neither. */
  predicate Found(leaves: seq<(nat, LeafPart)>, role: Role, n: nat, text: Option<string>, partId: Option<nat>)
    requires n <= |leaves|
  {
    var k := Body(LooksAt(leaves), role, n);
    if k < n then text.Some? && partId == Some(leaves[k].0) && text == leaves[k].1.text else text.None? && partId.None?
  }

  /** One more leaf: it is taken when it has the role, decodes, and nothing was found yet. */
  lemma {:induction false} FoundNext(leaves: seq<(nat, LeafPart)>, role: Role, n: nat, text: Option<string>,
      partId: Option<nat>)
    requires n < |leaves| && Found(leaves, role, n, text, partId)
    ensures var taken := text.None? && LookAt(leaves[n].1) == Look(role, true);
            if taken then Found(leaves, role, n + 1, leaves[n].1.text, Some(leaves[n].0))
            else Found(leaves, role, n + 1, text, partId)
    ensures role == LookAt(leaves[n].1).role && (role.Plain? || role.Html?) ==>
              (Attached(LooksAt(leaves), n) <==> leaves[n].1.text.None? && text.None?)
  {
    LooksAtEach(leaves, n);
  }

  method Inspect(part: LeafPart) returns (isAttachment: bool, isPlain: bool, isHtml: bool)
    ensures LookAt(part).role ==
              if isAttachment then Marked else if isPlain then Plain else if isHtml then Html else Neither
    ensures !(isPlain && isHtml)
  {
    var disposition := LowerOf(part.mime.disposition);
    var contentType := ContentType(part.mime);
    RoleIs(contentType, disposition);
    isAttachment, isPlain, isHtml := disposition == ATTACHMENT, contentType == PLAIN, contentType == HTML;
    assert PLAIN[5] != HTML[5];
  }

  predicate IsAttachment(leaves: seq<(nat, LeafPart)>, i: nat)
    requires i < |leaves|
  {
    Attached(LooksAt(leaves), i)
  }

  function AttachedLeaves(leaves: seq<(nat, LeafPart)>): seq<(nat, LeafPart)> {
    Chosen(leaves, Attachments(LooksAt(leaves), |leaves|))
  }

  function AttachedNative(leaves: seq<NativeLeaf>): seq<NativeLeaf> {
    Chosen(leaves, Attachments(NativeLooks(leaves), |leaves|))
  }

  /** The part id of the first leaf with the role. */
  function NativeBody(leaves: seq<NativeLeaf>, role: Role): Option<nat> {
    var k := Body(NativeLooks(leaves), role, |leaves|);
    if k < |leaves| then Some(leaves[k].partId) else None
  }

  /** What one leaf adds to what the first `i` gave: a body, or an attachment, or nothing. */
  method ClassifyLeaf(leaves: seq<(nat, LeafPart)>, i: nat, plainText: Option<string>, plainPartId: Option<nat>,
                      htmlText: Option<string>, htmlPartId: Option<nat>)
    returns (text: Option<string>, textId: Option<nat>, html: Option<string>, htmlId: Option<nat>, attached: bool)
    requires i < |leaves| && Found(leaves, Plain, i, plainText, plainPartId)
        && Found(leaves, Html, i, htmlText, htmlPartId)
    ensures Found(leaves, Plain, i + 1, text, textId) && Found(leaves, Html, i + 1, html, htmlId)
    ensures attached <==> IsAttachment(leaves, i)
  {
    text, textId, html, htmlId, attached := plainText, plainPartId, htmlText, htmlPartId, false;
    var (partId, part) := leaves[i];
    var isAttachment, isPlain, isHtml := Inspect(part);
    FoundNext(leaves, Plain, i, plainText, plainPartId);
    FoundNext(leaves, Html, i, htmlText, htmlPartId);
    LooksAtEach(leaves, i);
    if isAttachment {
      attached := true;
    } else if isPlain && plainText.None? {
      if part.text.Some? {
        text, textId := part.text, Some(partId);
      } else {
        attached := true;
      }
    } else if isHtml && htmlText.None? {
      if part.text.Some? {
        html, htmlId := part.text, Some(partId);
      } else {
        attached := true;
      }
    } else if !isPlain && !isHtml {
      attached := true;
    }
  }

  method ClassifyLeaves(leaves: seq<(nat, LeafPart)>)
    returns (plainText: Option<string>, plainPartId: Option<nat>, htmlText: Option<string>, htmlPartId: Option<nat>,
             attachments: seq<(nat, LeafPart)>)
    ensures Found(leaves, Plain, |leaves|, plainText, plainPartId)
    ensures Found(leaves, Html, |leaves|, htmlText, htmlPartId)
    ensures attachments == AttachedLeaves(leaves)
  {
    plainText, plainPartId, htmlText, htmlPartId, attachments := None, None, None, None, [];
    ghost var ls := LooksAt(leaves);
    for i := 0 to |leaves|
      invariant Found(leaves, Plain, i, plainText, plainPartId)
      invariant Found(leaves, Html, i, htmlText, htmlPartId)
      invariant attachments == Chosen(leaves, Attachments(ls, i))
    {
      var attached;
      plainText, plainPartId, htmlText, htmlPartId, attached :=
        ClassifyLeaf(leaves, i, plainText, plainPartId, htmlText, htmlPartId);
      if attached {
        ChosenNext(leaves, Attachments(ls, i), i);
        attachments := attachments + [leaves[i]];
      }
    }
  }

  method InspectNative(leaf: NativeLeaf) returns (isAttachment: bool, isPlain: bool, isHtml: bool)
    ensures NativeLook(leaf).role ==
              if isAttachment then Marked else if isPlain then Plain else if isHtml then Html else Neither
    ensures !(isPlain && isHtml)
  {
    RoleIs(leaf.contentType, leaf.disposition);
    isAttachment := leaf.disposition == ATTACHMENT;
    isPlain, isHtml := leaf.contentType == PLAIN, leaf.contentType == HTML;
    assert PLAIN[5] != HTML[5];
  }

  /** The part id found for a body role among the first `n`, if any. */
  predicate FoundNative(leaves: seq<NativeLeaf>, role: Role, n: nat, partId: Option<nat>)
    requires n <= |leaves|
  {
    var k := Body(NativeLooks(leaves), role, n);
    partId == if k < n then Some(leaves[k].partId) else None
  }

  method ClassifyNativeLeaf(leaves: seq<NativeLeaf>, i: nat, plainPartId: Option<nat>, htmlPartId: Option<nat>)
    returns (textId: Option<nat>, htmlId: Option<nat>, attached: bool)
    requires i < |leaves| && FoundNative(leaves, Plain, i, plainPartId) && FoundNative(leaves, Html, i, htmlPartId)
    ensures FoundNative(leaves, Plain, i + 1, textId) && FoundNative(leaves, Html, i + 1, htmlId)
    ensures attached <==> Attached(NativeLooks(leaves), i)
  {
    textId, htmlId, attached := plainPartId, htmlPartId, false;
    NativeLooksEach(leaves, i);
    var isAttachment, isPlain, isHtml := InspectNative(leaves[i]);
    if isAttachment {
      attached := true;
    } else if isPlain && plainPartId.None? {
      textId := Some(leaves[i].partId);
    } else if isHtml && htmlPartId.None? {
      htmlId := Some(leaves[i].partId);
    } else if !isPlain && !isHtml {
      attached := true;
    }
  }

  method ClassifyNativeLeaves(leaves: seq<NativeLeaf>)
    returns (plainPartId: Option<nat>, htmlPartId: Option<nat>, attachments: seq<NativeLeaf>)
    ensures plainPartId == NativeBody(leaves, Plain) && htmlPartId == NativeBody(leaves, Html)
    ensures attachments == AttachedNative(leaves)
  {
    plainPartId, htmlPartId, attachments := None, None, [];
    ghost var ls := NativeLooks(leaves);
    for i := 0 to |leaves|
      invariant FoundNative(leaves, Plain, i, plainPartId) && FoundNative(leaves, Html, i, htmlPartId)
      invariant attachments == Chosen(leaves, Attachments(ls, i))
    {
      var attached;
      plainPartId, htmlPartId, attached := ClassifyNativeLeaf(leaves, i, plainPartId, htmlPartId);
      if attached {
        ChosenNext(leaves, Attachments(ls, i), i);
        attachments := attachments + [leaves[i]];
      }
    }
  }

  function Decodable(ls: seq<Look>): seq<Look> {
    seq(|ls|, i requires 0 <= i < |ls| => ls[i].(decodes := true))
  }

  /** The first part that would have the role, if there is one, decodes. */
  predicate FirstDecodes(ls: seq<Look>, role: Role) {
    var k := Body(Decodable(ls), role, |ls|);
    k < |ls| ==> ls[k].decodes
  }

  lemma {:induction false} BodyAgrees(ls: seq<Look>, role: Role)
    ensures Body(ls, role, |ls|) == Body(Decodable(ls), role, |ls|) <==> FirstDecodes(ls, role)
  {
    var k, d := Body(ls, role, |ls|), Body(Decodable(ls), role, |ls|);
    assert d < |ls| ==> Decodable(ls)[d] == Look(role, true);
    assert k < |ls| ==> Decodable(ls)[k] == Look(role, true);
  }

  lemma {:induction false} AttachmentsAgree(ls: seq<Look>, n: nat)
    requires n <= |ls| && FirstDecodes(ls, Plain) && FirstDecodes(ls, Html)
    ensures Attachments(ls, n) == Attachments(Decodable(ls), n)
  {
    if n > 0 {
      AttachmentsAgree(ls, n - 1);
      var (i, l) := (n - 1, ls[n - 1]);
      if (l.role.Plain? || l.role.Html?) && !l.decodes {
        var d := Body(Decodable(ls), l.role, |ls|);
        assert Decodable(ls)[i] == Look(l.role, true);
        assert ls[d] == Look(l.role, true) && d < i;
      }
    }
  }

  /** What the two paths see of the same leaves: the cheap one takes every part to decode. */
  lemma {:induction false} SameLooks(ps: seq<LeafPart>, at: Location)
    ensures NativeLooks(AllAsNative(ps, at, 0)) == Decodable(LooksAt(Numbered(ps, 0)))
  {
    forall i | 0 <= i < |ps|
      ensures NativeLooks(AllAsNative(ps, at, 0))[i] == Decodable(LooksAt(Numbered(ps, 0)))[i]
    {
      LooksAtEach(Numbered(ps, 0), i);
      NativeLooksEach(AllAsNative(ps, at, 0), i);
    }
  }

  lemma {:induction false} LooksAgreeExactly(full: seq<Look>)
    ensures var (native, n) := (Decodable(full), |full|);
            (&& Body(full, Plain, n) == Body(native, Plain, n) && Body(full, Html, n) == Body(native, Html, n)
             && Attachments(full, n) == Attachments(native, n))
            <==> FirstDecodes(full, Plain) && FirstDecodes(full, Html)
  {
    BodyAgrees(full, Plain);
    BodyAgrees(full, Html);
    if FirstDecodes(full, Plain) && FirstDecodes(full, Html) {
      AttachmentsAgree(full, |full|);
    }
  }

  /** Given the same leaves, the two classifiers choose the same text body, html body and attachments exactly when the
      first inline text/plain and the first inline text/html part, where there are any, decode. */
  lemma {:induction false} ClassifiersAgreeExactly(p: Part, of: Fields, at: Location)
    requires WellFormed(p) && NoneOpened(p)
    ensures var full, native := LooksAt(Numbered(FullLeaves(p), 0)),
        NativeLooks(Native(Show(Encode(p, of)), at, 0).leaves);
            && |full| == |native|
            && ((&& Body(full, Plain, |full|) == Body(native, Plain, |full|)
                 && Body(full, Html, |full|) == Body(native, Html, |full|)
                 && Attachments(full, |full|) == Attachments(native, |full|))
                <==> FirstDecodes(full, Plain) && FirstDecodes(full, Html))
  {
    NativeIsFull(p, of, at);
    SameLooks(FullLeaves(p), at);
    LooksAgreeExactly(LooksAt(Numbered(FullLeaves(p), 0)));
  }

  const GARBLED: LeafPart := Leaf(0, Mime("text", "plain", None), "", None)

  lemma {:induction false} LowerIsLower(s: string)
    requires forall c <- s :: LowerChar(c) == c
    ensures Lower(s) == s
  {
    if s != [] {
      LowerIsLower(s[1..]);
    }
  }

  lemma {:induction false} GarbledIsText()
    ensures Lower("text") == "text"
  {
    LowerIsLower("text");
  }

  lemma {:induction false} GarbledIsPlain()
    ensures ContentType(GARBLED.mime) == PLAIN
  {
    GarbledIsText();
    LowerIsLower("plain");
  }

  lemma {:induction false} GarbledLook()
    ensures LookAt(GARBLED) == Look(Plain, false)
  {
    GarbledIsPlain();
    RoleIs(PLAIN, "");
  }

  /** A message of one text part that does not decode: an attachment to the full path, the body to the cheap one. */
  lemma {:induction false} UndecodableTextDiffers(of: Fields, at: Location)
    ensures var full := LooksAt(Numbered(FullLeaves(GARBLED), 0));
            var native := NativeLooks(Native(Show(Encode(GARBLED, of)), at, 0).leaves);
            && |full| == |native| == 1
            && Body(full, Plain, 1) == 1 && Attachments(full, 1) == [0]
            && Body(native, Plain, 1) == 0 && Attachments(native, 1) == []
  {
    GarbledIsText();
    GarbledLook();
    NativeIsFull(GARBLED, of, at);
    SameLooks([GARBLED], at);
    LooksAtEach(Numbered([GARBLED], 0), 0);
  }
}
