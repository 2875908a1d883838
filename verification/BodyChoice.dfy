/** Which parts of a message are its bodies and which its attachments, said of what the parts' headers spell. */
module BodyChoice {
  import opened Wrappers
  import opened LetterCase
  import opened MimeParts

  predicate IsMarked(p: LeafPart) {
    p.mime.disposition.Some? && Spells(p.mime.disposition.value, "attachment")
  }

  predicate IsText(p: LeafPart, subkind: string) {
    Spells(p.mime.kind, "text") && Spells(p.mime.subkind, subkind)
  }

  /** An inline text part of this kind that can be decoded. */
  predicate IsBody(leaves: seq<(nat, LeafPart)>, subkind: string, i: nat) {
    i < |leaves| && !IsMarked(leaves[i].1) && IsText(leaves[i].1, subkind) && leaves[i].1.text.Some?
  }

  /** None of the leaves before i is a body of this kind. */
  predicate NoneBefore(leaves: seq<(nat, LeafPart)>, subkind: string, i: nat) {
    forall j: nat | j < i :: !IsBody(leaves, subkind, j)
  }

  /** Marked as one, or neither plain text nor html, or undecodable where a body was still wanted. */
  predicate IsAttached(leaves: seq<(nat, LeafPart)>, i: nat)
    requires i < |leaves|
  {
    var p := leaves[i].1;
    || IsMarked(p)
    || (!IsText(p, "plain") && !IsText(p, "html"))
    || (p.text.None? && IsText(p, "plain") && NoneBefore(leaves, "plain", i))
    || (p.text.None? && IsText(p, "html") && NoneBefore(leaves, "html", i))
  }

  lemma {:induction false} TypeExactly(m: Mime, subkind: string)
    requires subkind in {"plain", "html"}
    ensures ContentType(m) == "text/" + subkind <==> Spells(m.kind, "text") && Spells(m.subkind, subkind)
  {
    SpellsExactly(m.kind, "text");
    SpellsExactly(m.subkind, subkind);
    var whole, n := "text/" + subkind, |Lower(m.kind)|;
    assert ContentType(m)[..n] == Lower(m.kind) && ContentType(m)[n] == '/';
    assert ContentType(m)[n + 1..] == Lower(m.subkind);
    assert whole[..4] == "text" && whole[4] == '/' && whole[5..] == subkind;
    if n < |whole| { OneSlash(subkind, n); }
  }

  lemma {:induction false} OneSlash(subkind: string, n: nat)
    requires subkind in {"plain", "html"} && n < |"text/" + subkind|
    ensures ("text/" + subkind)[n] == '/' <==> n == 4
  {
    if n > 4 {
      assert ("text/" + subkind)[n] == subkind[n - 5];
    }
  }

  lemma {:induction false} MarkedExactly(p: LeafPart)
    ensures IsMarked(p) <==> LowerOf(p.mime.disposition) == "attachment"
  {
    if p.mime.disposition.Some? {
      SpellsExactly(p.mime.disposition.value, "attachment");
    }
  }

  lemma {:induction false} RoleExactly(p: LeafPart)
    ensures LookAt(p).role == if IsMarked(p) then Marked else if IsText(p, "plain") then Plain
                              else if IsText(p, "html") then Html else Neither
    ensures !(IsText(p, "plain") && IsText(p, "html"))
  {
    MarkedExactly(p);
    TypeExactly(p.mime, "plain");
    TypeExactly(p.mime, "html");
    RoleIs(ContentType(p.mime), LowerOf(p.mime.disposition));
    assert "plain"[0] != "html"[0];
  }

  function RoleFor(subkind: string): Role {
    if subkind == "plain" then Plain else Html
  }

  lemma {:induction false} BodyLooks(leaves: seq<(nat, LeafPart)>, subkind: string, i: nat)
    requires subkind in {"plain", "html"} && i < |leaves|
    ensures IsBody(leaves, subkind, i) <==> LooksAt(leaves)[i] == Look(RoleFor(subkind), true)
  {
    LooksAtEach(leaves, i);
    RoleExactly(leaves[i].1);
  }

  lemma {:induction false} NoneBeforeExactly(leaves: seq<(nat, LeafPart)>, subkind: string, n: nat)
    requires subkind in {"plain", "html"} && n <= |leaves|
    ensures NoneBefore(leaves, subkind, n) <==> Body(LooksAt(leaves), RoleFor(subkind), n) == n
  {
    forall j: nat | j < n
      ensures IsBody(leaves, subkind, j) <==> LooksAt(leaves)[j] == Look(RoleFor(subkind), true)
    {
      BodyLooks(leaves, subkind, j);
    }
  }

  /** Whatever has been found as the body of a kind is the first one of that kind, and its number. */
  lemma {:induction false} BodyIsTheFirst(leaves: seq<(nat, LeafPart)>, subkind: string, text: Option<string>,
                                          partId: Option<nat>)
    requires subkind in {"plain", "html"} && Found(leaves, RoleFor(subkind), |leaves|, text, partId)
    ensures NoneBefore(leaves, subkind, |leaves|) ==> text == None && partId == None
    ensures forall i | 0 <= i < |leaves| && IsBody(leaves, subkind, i) && NoneBefore(leaves, subkind, i) ::
              text == leaves[i].1.text && partId == Some(leaves[i].0)
  {
    NoneBeforeExactly(leaves, subkind, |leaves|);
    var k := Body(LooksAt(leaves), RoleFor(subkind), |leaves|);
    forall i | 0 <= i < |leaves| && IsBody(leaves, subkind, i) && NoneBefore(leaves, subkind, i) ensures i == k {
      BodyLooks(leaves, subkind, i);
      if k < i {
        BodyLooks(leaves, subkind, k);
      }
    }
  }

  lemma {:induction false} AttachedExactly(leaves: seq<(nat, LeafPart)>, i: nat)
    requires i < |leaves|
    ensures Attached(LooksAt(leaves), i) <==> IsAttached(leaves, i)
  {
    LooksAtEach(leaves, i);
    RoleExactly(leaves[i].1);
    NoneBeforeExactly(leaves, "plain", i);
    NoneBeforeExactly(leaves, "html", i);
  }

  predicate Ascending(at: seq<nat>) {
    forall i, j | 0 <= i < j < |at| :: at[i] < at[j]
  }

  lemma {:induction false} AttachmentsAscend(ls: seq<Look>, n: nat)
    requires n <= |ls|
    ensures Ascending(Attachments(ls, n))
  {
    if n > 0 {
      AttachmentsAscend(ls, n - 1);
      var before := Attachments(ls, n - 1);
      assert forall i | 0 <= i < |before| :: before[i] in before;
    }
  }

  /** The attachments are these leaves, in their order. */
  lemma {:induction false} AttachmentsAreThese(leaves: seq<(nat, LeafPart)>) returns (at: seq<nat>)
    ensures Ascending(at) && forall i: nat :: i in at <==> i < |leaves| && IsAttached(leaves, i)
    ensures AttachedLeaves(leaves) == Chosen(leaves, at)
  {
    at := Attachments(LooksAt(leaves), |leaves|);
    AttachmentsAscend(LooksAt(leaves), |leaves|);
    forall i: nat | i < |leaves| ensures Attached(LooksAt(leaves), i) <==> IsAttached(leaves, i) {
      AttachedExactly(leaves, i);
    }
  }

  // ----- from metadata alone -----

  predicate IsNativeBody(leaves: seq<NativeLeaf>, subkind: string, i: nat) {
    i < |leaves| && leaves[i].disposition != "attachment" && leaves[i].contentType == "text/" + subkind
  }

  predicate NoNativeBefore(leaves: seq<NativeLeaf>, subkind: string, i: nat) {
    forall j: nat | j < i :: !IsNativeBody(leaves, subkind, j)
  }

  lemma {:induction false} NativeLooksExactly(leaves: seq<NativeLeaf>, subkind: string, i: nat)
    requires subkind in {"plain", "html"} && i < |leaves|
    ensures IsNativeBody(leaves, subkind, i) <==> NativeLooks(leaves)[i] == Look(RoleFor(subkind), true)
    ensures Attached(NativeLooks(leaves), i) <==>
              leaves[i].disposition == "attachment" || leaves[i].contentType !in {"text/plain", "text/html"}
  {
    NativeLooksEach(leaves, i);
    RoleIs(leaves[i].contentType, leaves[i].disposition);
    assert "text/" + "plain" == "text/plain" && "text/" + "html" == "text/html";
    assert "text/plain"[5] != "text/html"[5];
  }

  /** The same choice where every part is taken to decode. */
  lemma {:induction false} NativeBodyIsTheFirst(leaves: seq<NativeLeaf>, subkind: string)
    requires subkind in {"plain", "html"}
    ensures NoNativeBefore(leaves, subkind, |leaves|) ==> NativeBody(leaves, RoleFor(subkind)) == None
    ensures forall i | 0 <= i < |leaves| && IsNativeBody(leaves, subkind, i) && NoNativeBefore(leaves, subkind, i) ::
              NativeBody(leaves, RoleFor(subkind)) == Some(leaves[i].partId)
  {
    forall j: nat | j < |leaves|
      ensures IsNativeBody(leaves, subkind, j) <==> NativeLooks(leaves)[j] == Look(RoleFor(subkind), true)
    {
      NativeLooksExactly(leaves, subkind, j);
    }
  }

  lemma {:induction false} NativeAttachmentsAreThese(leaves: seq<NativeLeaf>) returns (at: seq<nat>)
    ensures Ascending(at)
    ensures forall i: nat :: i in at <==>
              i < |leaves| &&
              (leaves[i].disposition == "attachment" || leaves[i].contentType !in {"text/plain", "text/html"})
    ensures AttachedNative(leaves) == Chosen(leaves, at)
  {
    at := Attachments(NativeLooks(leaves), |leaves|);
    AttachmentsAscend(NativeLooks(leaves), |leaves|);
    forall i: nat | i < |leaves|
      ensures Attached(NativeLooks(leaves), i) <==>
                leaves[i].disposition == "attachment" || leaves[i].contentType !in {"text/plain", "text/html"}
    {
      NativeLooksExactly(leaves, "plain", i);
    }
  }

  /** A part the server gives no type is taken for bytes. */
  lemma {:induction false} UntypedIsBytes(items: seq<Field>)
    requires Get(items, 0) in {Nil, Text("")} && Get(items, 1) in {Nil, Text("")}
    ensures NativeType(items) == "application/octet-stream"
  {
    LowerIsLower("application");
    LowerIsLower("octet-stream");
    assert "application" + ['/'] + "octet-stream" == "application/octet-stream";
  }
}
