/**
 Merging address books.  Peers of the same id are merged field by field, the first
 non-empty value wins, tags are united in order.
 */
module AddressBook {
  import opened Options
  import opened Text
  import opened Json

  // ---------------------------------------------------------------------------
  //  Tags
  // ---------------------------------------------------------------------------

  function UnionTags(a: Option<Json>, b: Option<Json>): seq<string> {
    AddTags(AddTags([], ToStrings(a)), ToStrings(b))
  }

  /** Trimmed, not blank, each once. */
  predicate Clean(tags: seq<string>) {
    && (forall i :: 0 <= i < |tags| ==> tags[i] != "" && Trim(tags[i]) == tags[i])
    && (forall i, j :: 0 <= i < j < |tags| ==> tags[i] != tags[j])
  }

  lemma {:induction false} AddTagsClean(tags: seq<string>, more: seq<string>)
    requires Clean(tags)
    ensures Clean(AddTags(tags, more)) && tags <= AddTags(tags, more)
    ensures forall t :: t in AddTags(tags, more) <==> t in tags || (t != "" && exists m <- more :: Trim(m) == t)
    decreases |more|
  {
    hide Clean, AddTag, Trim;
    if more != [] {
      var init, last := more[..|more| - 1], more[|more| - 1];
      AddTagsClean(tags, init);
      AddTagClean(AddTags(tags, init), last);
      assert more == init + [last];
    }
  }

  lemma AddTagClean(tags: seq<string>, tag: string)
    requires Clean(tags)
    ensures Clean(AddTag(tags, tag)) && tags <= AddTag(tags, tag)
    ensures forall t :: t in AddTag(tags, tag) <==> t in tags || (t != "" && Trim(tag) == t)
  {
    TrimIdempotent(tag);
    hide Trim;
  }

  lemma {:induction false} AddTagsConcat(tags: seq<string>, a: seq<string>, b: seq<string>)
    ensures AddTags(tags, a + b) == AddTags(AddTags(tags, a), b)
    decreases |b|
  {
    if b == [] {
      assert a + b == a;
    } else {
      var init := b[..|b| - 1];
      AddTagsConcat(tags, a, init);
      assert (a + b)[..|a + b| - 1] == a + init;
    }
  }

  /** Adding a cleaned list is adding the list it was made from. */
  lemma {:induction false} AddTagsAbsorbs(tags: seq<string>, more: seq<string>)
    requires Clean(tags)
    ensures AddTags(tags, AddTags([], more)) == AddTags(tags, more)
    decreases |more|
  {
    if more != [] {
      var init, last := more[..|more| - 1], more[|more| - 1];
      AddTagsAbsorbs(tags, init);
      var inner := AddTags([], init);
      AddTagsClean([], init);
      AddTagsClean(tags, init);
      AddTagsClean(tags, inner);
      TrimIdempotent(last);
      if AddTags([], more) == inner + [Trim(last)] {
        AddTagsConcat(tags, inner, [Trim(last)]);
        assert [Trim(last)][..0] == [];
      }
    }
  }

  /** Union of tag lists is associative, as a list. */
  lemma UnionTagsAssociative(a: Option<Json>, b: Option<Json>, c: Option<Json>)
    ensures UnionTags(Some(FromStrings(UnionTags(a, b))), c) == UnionTags(a, Some(FromStrings(UnionTags(b, c))))
  {
    var x, y, z := ToStrings(a), ToStrings(b), ToStrings(c);
    StringsRoundTrip(UnionTags(a, b));
    StringsRoundTrip(UnionTags(b, c));
    var ab, bc := UnionTags(a, b), UnionTags(b, c);
    AddTagsClean([], x);
    AddTagsConcat([], x, y);
    AddTagsAbsorbs([], x + y);
    AddTagsConcat([], y, z);
    AddTagsAbsorbs(AddTags([], x), y + z);
    AddTagsConcat(AddTags([], x), y, z);
  }

  /** The union as the server computes it: a set of tags seen and a growing list. */
  method UniteTags(a: Option<Json>, b: Option<Json>) returns (out: seq<string>)
    ensures out == UnionTags(a, b)
  {
    var seen: set<string> := {};
    out := [];
    out, seen := TakeTags(out, seen, ToStrings(a));
    out, seen := TakeTags(out, seen, ToStrings(b));
  }

  method TakeTags(tags: seq<string>, had: set<string>, more: seq<string>) returns (out: seq<string>, seen: set<string>)
    requires had == set t | t in tags
    ensures out == AddTags(tags, more) && seen == set t | t in out
  {
    out, seen := tags, had;
    for i := 0 to |more|
      invariant out == AddTags(tags, more[..i])
      invariant seen == set t | t in out
    {
      assert more[..i + 1][..i] == more[..i];
      var tag := Trim(more[i]);
      if tag == "" || tag in seen {
        continue;
      }
      seen := seen + {tag};
      out := out + [tag];
    }
    assert more[..|more|] == more;
  }

  // ---------------------------------------------------------------------------
  //  One peer
  // ---------------------------------------------------------------------------

  /** A field of two merged peers: tags are united, otherwise the first non-empty value stays. */
  function MergedField(base: Fields, overlay: Fields, k: string): Option<Json> {
    if k == "tags" && k in overlay then Some(FromStrings(UnionTags(Get(base, k), Get(overlay, k))))
    else if k != "tags" && IsEmpty(Get(base, k)) && !IsEmpty(Get(overlay, k)) then Get(overlay, k)
    else Get(base, k)
  }

  function MergePeer(base: Fields, overlay: Fields): (out: Fields)
    ensures forall k :: Get(out, k) == MergedField(base, overlay, k)
  {
    map k | k in base.Keys + overlay.Keys && MergedField(base, overlay, k).Some? :: MergedField(base, overlay, k).value
  }

  method MergePeerMaps(base: Fields, overlay: Fields) returns (out: Fields)
    ensures out == MergePeer(base, overlay)
  {
    hide MergePeer, UnionTags, Trim;
    out := base;
    var rest := overlay.Keys;
    while rest != {}
      invariant rest <= overlay.Keys
      invariant forall k :: Get(out, k) == if k in rest then Get(base, k) else MergedField(base, overlay, k)
      decreases |rest|
    {
      var k :| k in rest;
      rest := rest - {k};
      assert Get(out, k) == Get(base, k);
      if k == "tags" {
        var tags := UniteTags(Get(out, k), Some(overlay[k]));
        out := out[k := FromStrings(tags)];
        continue;
      }
      if IsEmpty(Get(out, k)) && !IsEmpty(Some(overlay[k])) {
        out := out[k := overlay[k]];
      }
    }
    SameFields(out, MergePeer(base, overlay));
  }

  lemma MergedFieldAssociative(a: Fields, b: Fields, c: Fields, k: string)
    ensures MergedField(MergePeer(a, b), c, k) == MergedField(a, MergePeer(b, c), k)
  {
    hide MergePeer;
    var ab, bc := MergePeer(a, b), MergePeer(b, c);
    assert Get(ab, k) == MergedField(a, b, k) && Get(bc, k) == MergedField(b, c, k);
    if k == "tags" {
      if k in c && k in b {
        UnionTagsAssociative(Get(a, k), Get(b, k), Get(c, k));
      } else if k in c {
        UnionTagsAbsorbs(Get(a, k), Get(b, k), Get(c, k));
      }
    }
  }

  /** Tags that were cleaned once are united like the ones they came from. */
  lemma UnionTagsAbsorbs(a: Option<Json>, none: Option<Json>, c: Option<Json>)
    requires none.None?
    ensures UnionTags(a, Some(FromStrings(UnionTags(none, c)))) == UnionTags(a, c)
  {
    StringsRoundTrip(UnionTags(none, c));
    AddTagsClean([], ToStrings(a));
    AddTagsAbsorbs(AddTags([], ToStrings(a)), ToStrings(c));
  }

  /** Merging peers is associative. */
  lemma MergePeerAssociative(a: Fields, b: Fields, c: Fields)
    ensures MergePeer(MergePeer(a, b), c) == MergePeer(a, MergePeer(b, c))
  {
    hide MergePeer, MergedField;
    forall k ensures Get(MergePeer(MergePeer(a, b), c), k) == Get(MergePeer(a, MergePeer(b, c)), k) {
      MergedFieldAssociative(a, b, c, k);
    }
    SameFields(MergePeer(MergePeer(a, b), c), MergePeer(a, MergePeer(b, c)));
  }

  lemma MergeKeepsId(a: Fields, b: Fields)
    requires PeerId(a) != "" && PeerId(a) == PeerId(b)
    ensures PeerId(MergePeer(a, b)) == PeerId(a)
  {
    hide MergePeer;
    assert Get(MergePeer(a, b), "id") == MergedField(a, b, "id") == Get(a, "id");
  }

  // ---------------------------------------------------------------------------
  //  Lists of peers
  // ---------------------------------------------------------------------------

  /** The last position of an id, -1 when it does not occur. */
  function LastIndex(peers: seq<Fields>, id: string): (i: int)
    ensures -1 <= i < |peers|
    ensures i >= 0 ==> PeerId(peers[i]) == id
    ensures forall j :: i < j < |peers| ==> PeerId(peers[j]) != id
  {
    if peers == [] then -1
    else if PeerId(peers[|peers| - 1]) == id then |peers| - 1
    else LastIndex(peers[..|peers| - 1], id)
  }

  /** One overlay peer: merged into the last peer of its id, or appended; dropped without an id. */
  function AddPeer(peers: seq<Fields>, p: Fields): seq<Fields> {
    var i := LastIndex(peers, PeerId(p));
    if PeerId(p) == "" then peers
    else if i >= 0 then peers[i := MergePeer(peers[i], p)]
    else peers + [p]
  }

  function MergePeers(peers: seq<Fields>, overlay: seq<Fields>): seq<Fields>
    decreases |overlay|
  {
    if overlay == [] then peers
    else AddPeer(MergePeers(peers, overlay[..|overlay| - 1]), overlay[|overlay| - 1])
  }

  function MergeBooks(base: Fields, overlay: Fields): Fields {
    base["peers" := FromPeers(MergePeers(ToPeers(Get(base, "peers")), ToPeers(Get(overlay, "peers"))))]
        ["tags" := FromStrings(UnionTags(Get(base, "tags"), Get(overlay, "tags")))]
  }

  /** The index holds the last position of every id. */
  ghost predicate Indexed(index: map<string, int>, peers: seq<Fields>) {
    && (forall id :: id in index <==> id != "" && LastIndex(peers, id) >= 0)
    && (forall id :: id in index ==> index[id] == LastIndex(peers, id))
  }

  lemma IndexedAt(index: map<string, int>, peers: seq<Fields>, id: string)
    requires Indexed(index, peers) && id != ""
    ensures id in index <==> LastIndex(peers, id) >= 0
    ensures id in index ==> index[id] == LastIndex(peers, id)
  {
  }

  lemma IndexedAppend(index: map<string, int>, peers: seq<Fields>, p: Fields)
    requires Indexed(index, peers)
    ensures Indexed(if PeerId(p) == "" then index else index[PeerId(p) := |peers|], peers + [p])
  {
    hide LastIndex;
    LastIndexStep(peers, p);
  }

  lemma IndexedUpdate(index: map<string, int>, peers: seq<Fields>, i: nat, p: Fields)
    requires Indexed(index, peers) && i < |peers| && PeerId(p) == PeerId(peers[i])
    ensures Indexed(index, peers[i := p])
  {
    hide LastIndex;
    LastIndexUpdate(peers, i, p);
  }

  method IndexPeers(peers: seq<Fields>) returns (index: map<string, int>)
    ensures Indexed(index, peers)
  {
    index := map[];
    assert Indexed(index, peers[..0]);
    for i := 0 to |peers|
      invariant Indexed(index, peers[..i])
    {
      hide Indexed;
      IndexedAppend(index, peers[..i], peers[i]);
      assert peers[..i + 1] == peers[..i] + [peers[i]];
      var id := PeerId(peers[i]);
      if id != "" {
        index := index[id := i];
      }
    }
    assert peers[..|peers|] == peers;
  }

  /** The merge as the server runs it: an index from id to position, peers updated in place. */
  method MergeAddressBookMaps(base: Fields, overlay: Fields) returns (out: Fields)
    ensures out == MergeBooks(base, overlay)
    ensures forall k :: k !in {"peers", "tags"} ==> Get(out, k) == Get(base, k)
  {
    hide MergePeer, UnionTags, LastIndex, Indexed, PeerId, ToPeers, FromPeers;
    var peers := ToPeers(Get(base, "peers"));
    var peerIndex := IndexPeers(peers);
    ghost var start := peers;
    var more := ToPeers(Get(overlay, "peers"));
    for i := 0 to |more|
      invariant peers == MergePeers(start, more[..i])
      invariant Indexed(peerIndex, peers)
    {
      assert more[..i + 1][..i] == more[..i];
      var p := more[i];
      var id := PeerId(p);
      if id == "" {
        continue;
      }
      IndexedAt(peerIndex, peers, id);
      if id in peerIndex {
        var merged := MergePeerMaps(peers[peerIndex[id]], p);
        MergeKeepsId(peers[peerIndex[id]], p);
        IndexedUpdate(peerIndex, peers, peerIndex[id], merged);
        peers := peers[peerIndex[id] := merged];
      } else {
        IndexedAppend(peerIndex, peers, p);
        peerIndex := peerIndex[id := |peers|];
        peers := peers + [p];
      }
    }
    assert more[..|more|] == more;
    var tags := UniteTags(Get(base, "tags"), Get(overlay, "tags"));
    out := base["peers" := FromPeers(peers)]["tags" := FromStrings(tags)];
  }

  lemma LastIndexStep(peers: seq<Fields>, p: Fields)
    ensures forall id :: LastIndex(peers + [p], id) == if id == PeerId(p) then |peers| else LastIndex(peers, id)
  {
    assert (peers + [p])[..|peers|] == peers;
  }

  /** The last position is the only one that qualifies. */
  lemma LastIndexUnique(peers: seq<Fields>, id: string, i: int)
    requires -1 <= i < |peers| && (i >= 0 ==> PeerId(peers[i]) == id)
    requires forall j :: i < j < |peers| ==> PeerId(peers[j]) != id
    ensures LastIndex(peers, id) == i
  {
  }

  lemma LastIndexUpdate(peers: seq<Fields>, i: nat, p: Fields)
    requires i < |peers| && PeerId(p) == PeerId(peers[i])
    ensures forall id :: LastIndex(peers[i := p], id) == LastIndex(peers, id)
  {
    hide LastIndex;
    forall id ensures LastIndex(peers[i := p], id) == LastIndex(peers, id) {
      LastIndexUnique(peers[i := p], id, LastIndex(peers, id));
    }
  }

  // ---------------------------------------------------------------------------
  //  Associativity of lists and books
  // ---------------------------------------------------------------------------

  /** Two additions to the same id are one addition of the merged peer. */
  lemma AddTwice(peers: seq<Fields>, q: Fields, p: Fields)
    requires PeerId(q) == PeerId(p) != ""
    ensures AddPeer(AddPeer(peers, q), p) == AddPeer(peers, MergePeer(q, p))
  {
    hide MergePeer, LastIndex;
    var id := PeerId(p);
    MergeKeepsId(q, p);
    var i := LastIndex(peers, id);
    if i >= 0 {
      MergeKeepsId(peers[i], q);
      LastIndexUpdate(peers, i, MergePeer(peers[i], q));
      MergePeerAssociative(peers[i], q, p);
    } else {
      LastIndexStep(peers, q);
    }
  }

  /** An addition that lands on an existing peer commutes with one to another id. */
  lemma AddCommutes(peers: seq<Fields>, r: Fields, p: Fields)
    requires PeerId(r) != PeerId(p) && PeerId(p) != "" && LastIndex(peers, PeerId(p)) >= 0
    ensures AddPeer(AddPeer(peers, r), p) == AddPeer(AddPeer(peers, p), r)
    ensures LastIndex(AddPeer(peers, r), PeerId(p)) >= 0
  {
    hide MergePeer, LastIndex;
    if PeerId(r) != "" {
      var i, j := LastIndex(peers, PeerId(p)), LastIndex(peers, PeerId(r));
      MergeKeepsId(peers[i], p);
      LastIndexUpdate(peers, i, MergePeer(peers[i], p));
      if j >= 0 {
        MergeKeepsId(peers[j], r);
        LastIndexUpdate(peers, j, MergePeer(peers[j], r));
      } else {
        LastIndexStep(peers, r);
      }
    }
  }

  /** Adding `p` to an overlay that already names its id is adding it after the overlay. */
  lemma {:induction false} AddToOverlay(peers: seq<Fields>, overlay: seq<Fields>, p: Fields)
    requires PeerId(p) != "" && LastIndex(overlay, PeerId(p)) >= 0
    ensures MergePeers(peers, AddPeer(overlay, p)) == AddPeer(MergePeers(peers, overlay), p)
    ensures LastIndex(MergePeers(peers, overlay), PeerId(p)) >= 0
    decreases |overlay|
  {
    hide MergePeer, LastIndex;
    var id := PeerId(p);
    var init, last := overlay[..|overlay| - 1], overlay[|overlay| - 1];
    var before := MergePeers(peers, init);
    assert overlay == init + [last];
    LastIndexStep(init, last);
    if PeerId(last) == id {
      var merged := MergePeer(last, p);
      assert AddPeer(overlay, p) == init + [merged];
      assert (init + [merged])[..|init|] == init;
      AddTwice(before, last, p);
      AddedIsThere(before, last);
    } else {
      AddToOverlay(peers, init, p);
      var i := LastIndex(init, id);
      assert AddPeer(overlay, p) == AddPeer(init, p) + [last];
      assert (AddPeer(init, p) + [last])[..|AddPeer(init, p)|] == AddPeer(init, p);
      AddCommutes(before, last, p);
    }
  }

  lemma AddedIsThere(peers: seq<Fields>, p: Fields)
    requires PeerId(p) != ""
    ensures LastIndex(AddPeer(peers, p), PeerId(p)) >= 0
  {
    hide MergePeer, LastIndex;
    var i := LastIndex(peers, PeerId(p));
    if i >= 0 {
      MergeKeepsId(peers[i], p);
      LastIndexUpdate(peers, i, MergePeer(peers[i], p));
    } else {
      LastIndexStep(peers, p);
    }
  }

  function Ids(peers: seq<Fields>): seq<string> {
    seq(|peers|, i requires 0 <= i < |peers| => PeerId(peers[i]))
  }

  /** Ids that are not blank and not there yet, appended in order. */
  function AddIds(ids: seq<string>, more: seq<string>): seq<string>
    decreases |more|
  {
    if more == [] then ids
    else
      var before, last := AddIds(ids, more[..|more| - 1]), more[|more| - 1];
      if last == "" || last in before then before else before + [last]
  }

  /** A merged list has the base's ids in their order, and behind them the new ones of the overlay in theirs. */
  lemma {:induction false} MergedIds(peers: seq<Fields>, overlay: seq<Fields>)
    ensures Ids(MergePeers(peers, overlay)) == AddIds(Ids(peers), Ids(overlay))
    decreases |overlay|
  {
    hide MergePeer, LastIndex;
    if overlay != [] {
      var init, p := overlay[..|overlay| - 1], overlay[|overlay| - 1];
      MergedIds(peers, init);
      assert Ids(overlay)[..|overlay| - 1] == Ids(init);
      AddedIds(MergePeers(peers, init), p);
    }
  }

  lemma AddedIds(peers: seq<Fields>, p: Fields)
    ensures Ids(AddPeer(peers, p)) == if PeerId(p) == "" || PeerId(p) in Ids(peers) then Ids(peers) else Ids(peers) + [PeerId(p)]
  {
    hide MergePeer;
    var i := LastIndex(peers, PeerId(p));
    if PeerId(p) != "" {
      if i >= 0 {
        assert Ids(peers)[i] == PeerId(p);
        MergeKeepsId(peers[i], p);
        assert Ids(AddPeer(peers, p)) == Ids(peers);
      } else {
        assert forall j :: 0 <= j < |peers| ==> Ids(peers)[j] != PeerId(p);
        assert Ids(peers + [p]) == Ids(peers) + [PeerId(p)];
      }
    }
  }

  /** A base entry that is not the last of its id, or has none, is not touched. */
  lemma {:induction false} OtherEntriesKept(peers: seq<Fields>, overlay: seq<Fields>, i: nat)
    requires i < |peers| && (PeerId(peers[i]) == "" || LastIndex(peers, PeerId(peers[i])) != i)
    ensures i < |MergePeers(peers, overlay)| && MergePeers(peers, overlay)[i] == peers[i]
    ensures PeerId(peers[i]) == "" || LastIndex(MergePeers(peers, overlay), PeerId(peers[i])) != i
    decreases |overlay|
  {
    hide MergePeer, LastIndex;
    if overlay != [] {
      var init, p := overlay[..|overlay| - 1], overlay[|overlay| - 1];
      OtherEntriesKept(peers, init, i);
      AddKeepsOthers(MergePeers(peers, init), p, i);
    }
  }

  lemma AddKeepsOthers(peers: seq<Fields>, p: Fields, i: nat)
    requires i < |peers| && (PeerId(peers[i]) == "" || LastIndex(peers, PeerId(peers[i])) != i)
    ensures i < |AddPeer(peers, p)| && AddPeer(peers, p)[i] == peers[i]
    ensures PeerId(peers[i]) == "" || LastIndex(AddPeer(peers, p), PeerId(peers[i])) != i
  {
    hide MergePeer, LastIndex;
    if PeerId(p) != "" {
      var k := LastIndex(peers, PeerId(p));
      if k >= 0 {
        MergeKeepsId(peers[k], p);
        LastIndexUpdate(peers, k, MergePeer(peers[k], p));
      } else {
        LastIndexStep(peers, p);
      }
    }
  }

  /** Merging two overlays one after the other is merging their merge, even with repeated ids. */
  lemma {:induction false} MergePeersAssociative(a: seq<Fields>, b: seq<Fields>, c: seq<Fields>)
    ensures MergePeers(MergePeers(a, b), c) == MergePeers(a, MergePeers(b, c))
    decreases |c|
  {
    hide MergePeer, LastIndex;
    if c != [] {
      var init, p := c[..|c| - 1], c[|c| - 1];
      var bc := MergePeers(b, init);
      MergePeersAssociative(a, b, init);
      if PeerId(p) != "" {
        if LastIndex(bc, PeerId(p)) >= 0 {
          AddToOverlay(a, bc, p);
        } else {
          assert (bc + [p])[..|bc|] == bc;
        }
      }
    }
  }

  /** Merging books is associative: same peers in the same order, same fields, same tags. */
  lemma MergeBooksAssociative(a: Fields, b: Fields, c: Fields)
    ensures MergeBooks(MergeBooks(a, b), c) == MergeBooks(a, MergeBooks(b, c))
  {
    hide UnionTags, MergePeers, ToPeers;
    var x, y, z := ToPeers(Get(a, "peers")), ToPeers(Get(b, "peers")), ToPeers(Get(c, "peers"));
    PeersRoundTrip(MergePeers(x, y));
    PeersRoundTrip(MergePeers(y, z));
    MergePeersAssociative(x, y, z);
    UnionTagsAssociative(Get(a, "tags"), Get(b, "tags"), Get(c, "tags"));
    var ab, bc := MergeBooks(a, b), MergeBooks(b, c);
    assert Get(ab, "peers") == Some(FromPeers(MergePeers(x, y)));
    assert Get(bc, "peers") == Some(FromPeers(MergePeers(y, z)));
    assert Get(ab, "tags") == Some(FromStrings(UnionTags(Get(a, "tags"), Get(b, "tags"))));
    assert Get(bc, "tags") == Some(FromStrings(UnionTags(Get(b, "tags"), Get(c, "tags"))));
    assert MergeBooks(ab, c) == MergeBooks(a, bc);
  }

  // ---------------------------------------------------------------------------
  //  Documents
  // ---------------------------------------------------------------------------

  predicate Skipped(d: Document) {
    d.Blank? || d.Braces?
  }

  /** Only blank text and the literal empty object are skipped. */
  lemma SkippedExactly(d: Document)
    ensures Skipped(d) <==> d in {Blank, Braces}
  {
  }

  /** The book that results from merging overlays into a base, one by one. */
  function MergeAll(base: Fields, overlays: seq<Document>): Fields
    decreases |overlays|
  {
    if overlays == [] then base
    else
      var merged, last := MergeAll(base, overlays[..|overlays| - 1]), overlays[|overlays| - 1];
      if Skipped(last) then merged else MergeBooks(merged, ParseBook(last))
  }

  /** The other top-level fields are the base's. */
  lemma {:induction false} OtherFieldsKept(base: Fields, overlays: seq<Document>, k: string)
    requires k !in {"peers", "tags"}
    ensures Get(MergeAll(base, overlays), k) == Get(base, k)
    decreases |overlays|
  {
    hide MergePeers, UnionTags, ParseBook, FromPeers, FromStrings;
    if overlays != [] {
      OtherFieldsKept(base, overlays[..|overlays| - 1], k);
    }
  }

  method MergeAddressBookJSON(base: Document, overlays: seq<Document>) returns (out: Document)
    ensures out == Document(Obj(MergeAll(ParseBook(base), overlays)))
  {
    var merged := ParseBook(base);
    for i := 0 to |overlays|
      invariant merged == MergeAll(ParseBook(base), overlays[..i])
    {
      assert overlays[..i + 1][..i] == overlays[..i];
      if Skipped(overlays[i]) {
        continue;
      }
      merged := MergeAddressBookMaps(merged, ParseBook(overlays[i]));
    }
    assert overlays[..|overlays|] == overlays;
    out := Document(Obj(merged));
  }

  lemma {:induction false} MergeAllFront(base: Fields, first: Document, rest: seq<Document>)
    ensures MergeAll(base, [first] + rest) == MergeAll(MergeAll(base, [first]), rest)
    decreases |rest|
  {
    hide MergeBooks, ParseBook;
    if rest == [] {
      assert [first] + rest == [first];
    } else {
      MergeAllFront(base, first, rest[..|rest| - 1]);
      assert ([first] + rest)[..|rest|] == [first] + rest[..|rest| - 1];
    }
  }

  lemma {:induction false} MergeAllInto(base: Fields, first: Fields, rest: seq<Document>)
    ensures MergeAll(MergeBooks(base, first), rest) == MergeBooks(base, MergeAll(first, rest))
    decreases |rest|
  {
    hide MergeBooks, ParseBook;
    if rest != [] {
      var init, last := rest[..|rest| - 1], rest[|rest| - 1];
      MergeAllInto(base, first, init);
      if !Skipped(last) {
        MergeBooksAssociative(base, MergeAll(first, init), ParseBook(last));
      }
    }
  }

  /** Merging overlays one by one equals merging the base with the overlays merged beforehand. */
  lemma PreMergedOverlays(base: Fields, first: Document, rest: seq<Document>)
    requires !Skipped(first)
    ensures MergeAll(base, [first] + rest) == MergeBooks(base, MergeAll(ParseBook(first), rest))
  {
    hide MergeBooks, ParseBook;
    MergeAllFront(base, first, rest);
    assert [first][..0] == [];
    assert MergeAll(base, [first]) == MergeBooks(base, ParseBook(first));
    MergeAllInto(base, ParseBook(first), rest);
  }
}
