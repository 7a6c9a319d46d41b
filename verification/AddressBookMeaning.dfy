/**
 What a merged address book says: each field is the first non-empty value, and passwords
 come from the user's own book or from the vault, never from an organization's document.
 */
module AddressBookMeaning {
  import opened Options
  import opened Text
  import opened Json
  import opened AddressBook

  // ---------------------------------------------------------------------------
  //  First non-empty value
  // ---------------------------------------------------------------------------

  /** The peers of a list that carry an id, in order. */
  function EntriesOf(peers: seq<Fields>, id: string): seq<Fields> {
    if peers == [] then []
    else
      var last := peers[|peers| - 1];
      EntriesOf(peers[..|peers| - 1], id) + if PeerId(last) == id then [last] else []
  }

  function PeersOf(book: Fields): seq<Fields> {
    ToPeers(Get(book, "peers"))
  }

  /** The entry the merge maintains for an id. */
  function Find(peers: seq<Fields>, id: string): Option<Fields> {
    var i := LastIndex(peers, id);
    if i >= 0 then Some(peers[i]) else None
  }

  /** All entries for an id, of the overlays that are not skipped, in order. */
  function OverlayEntries(overlays: seq<Document>, id: string): seq<Fields>
    decreases |overlays|
  {
    if overlays == [] then []
    else
      var last := overlays[|overlays| - 1];
      OverlayEntries(overlays[..|overlays| - 1], id) + if Skipped(last) then [] else EntriesOf(PeersOf(ParseBook(last)), id)
  }

  function MergeEntries(first: Option<Fields>, more: seq<Fields>): Option<Fields>
    decreases |more|
  {
    if more == [] then first
    else
      var before, last := MergeEntries(first, more[..|more| - 1]), more[|more| - 1];
      if before.None? then Some(last) else Some(MergePeer(before.value, last))
  }

  /** The first value that is not empty; when there is none, the first one. */
  predicate IsFirstNonEmpty(v: Option<Json>, values: seq<Option<Json>>) {
    && values != []
    && if forall j :: 0 <= j < |values| ==> IsEmpty(values[j]) then v == values[0]
       else exists i :: 0 <= i < |values| && v == values[i] && !IsEmpty(v) && forall j :: 0 <= j < i ==> IsEmpty(values[j])
  }

  function Column(entries: seq<Fields>, k: string): seq<Option<Json>> {
    seq(|entries|, i requires 0 <= i < |entries| => Get(entries[i], k))
  }

  lemma FirstNonEmptyStep(v: Option<Json>, values: seq<Option<Json>>, w: Option<Json>)
    requires IsFirstNonEmpty(v, values)
    ensures IsFirstNonEmpty(if IsEmpty(v) && !IsEmpty(w) then w else v, values + [w])
  {
    hide IsEmpty;
    var all := values + [w];
    assert all[|values|] == w;
    assert forall j :: 0 <= j < |values| ==> all[j] == values[j];
    if forall j :: 0 <= j < |values| ==> IsEmpty(values[j]) {
      if !IsEmpty(w) {
        assert all[|values|] == w && forall j :: 0 <= j < |values| ==> IsEmpty(all[j]);
      }
    } else {
      var i :| 0 <= i < |values| && v == values[i] && !IsEmpty(v) && forall j :: 0 <= j < i ==> IsEmpty(values[j]);
      assert !IsEmpty(all[i]) && forall j :: 0 <= j < i ==> IsEmpty(all[j]);
    }
  }

  lemma {:induction false} MergedEntryField(first: Option<Fields>, more: seq<Fields>, k: string)
    requires k != "tags" && (first.Some? || more != [])
    ensures MergeEntries(first, more).Some?
    ensures IsFirstNonEmpty(Get(MergeEntries(first, more).value, k),
                            Column((if first.Some? then [first.value] else []) + more, k))
    decreases |more|
  {
    hide MergePeer, IsEmpty, IsFirstNonEmpty;
    var entries := (if first.Some? then [first.value] else []) + more;
    if more == [] {
      assert entries == [first.value];
      FirstNonEmptyAlone(Get(first.value, k));
      assert Column(entries, k) == [Get(first.value, k)];
    } else {
      var init, last := more[..|more| - 1], more[|more| - 1];
      if first.None? && init == [] {
        assert entries == [last];
        FirstNonEmptyAlone(Get(last, k));
        assert Column(entries, k) == [Get(last, k)];
      } else {
        MergedEntryField(first, init, k);
        var before := MergeEntries(first, init).value;
        var earlier := (if first.Some? then [first.value] else []) + init;
        FirstNonEmptyStep(Get(before, k), Column(earlier, k), Get(last, k));
        assert Column(entries, k) == Column(earlier, k) + [Get(last, k)];
        assert Get(MergePeer(before, last), k) == MergedField(before, last, k);
      }
    }
  }

  lemma FirstNonEmptyAlone(v: Option<Json>)
    ensures IsFirstNonEmpty(v, [v])
  {
    hide IsEmpty;
    if !IsEmpty(v) {
      assert [v][0] == v;
    }
  }

  /** The maintained entry of an id is the merge of all entries with that id. */
  lemma {:induction false} FindMerged(peers: seq<Fields>, overlay: seq<Fields>, id: string)
    requires id != ""
    ensures Find(MergePeers(peers, overlay), id) == MergeEntries(Find(peers, id), EntriesOf(overlay, id))
    decreases |overlay|
  {
    hide MergePeer, LastIndex;
    if overlay != [] {
      var init, p := overlay[..|overlay| - 1], overlay[|overlay| - 1];
      FindMerged(peers, init, id);
      FindAdded(MergePeers(peers, init), p, id);
      if PeerId(p) == id {
        assert (EntriesOf(init, id) + [p])[..|EntriesOf(init, id)|] == EntriesOf(init, id);
      } else {
        assert EntriesOf(init, id) + [] == EntriesOf(init, id);
      }
    }
  }

  lemma FindAdded(peers: seq<Fields>, p: Fields, id: string)
    requires id != ""
    ensures Find(AddPeer(peers, p), id) ==
            if PeerId(p) != id then Find(peers, id)
            else if Find(peers, id).None? then Some(p)
            else Some(MergePeer(Find(peers, id).value, p))
  {
    hide MergePeer, LastIndex;
    if PeerId(p) != "" {
      var i := LastIndex(peers, PeerId(p));
      if i >= 0 {
        MergeKeepsId(peers[i], p);
        LastIndexUpdate(peers, i, MergePeer(peers[i], p));
      } else {
        LastIndexStep(peers, p);
      }
    }
  }

  lemma {:induction false} MergeEntriesConcat(first: Option<Fields>, a: seq<Fields>, b: seq<Fields>)
    ensures MergeEntries(first, a + b) == MergeEntries(MergeEntries(first, a), b)
    decreases |b|
  {
    hide MergePeer;
    if b == [] {
      assert a + b == a;
    } else {
      MergeEntriesConcat(first, a, b[..|b| - 1]);
      assert (a + b)[..|a + b| - 1] == a + b[..|b| - 1];
    }
  }

  lemma {:induction false} FindInMergeAll(base: Fields, overlays: seq<Document>, id: string)
    requires id != ""
    ensures Find(PeersOf(MergeAll(base, overlays)), id) == MergeEntries(Find(PeersOf(base), id), OverlayEntries(overlays, id))
    decreases |overlays|
  {
    hide MergePeers, EntriesOf, Find, ParseBook, UnionTags;
    if overlays != [] {
      var init, last := overlays[..|overlays| - 1], overlays[|overlays| - 1];
      var merged := MergeAll(base, init);
      FindInMergeAll(base, init, id);
      if Skipped(last) {
        assert OverlayEntries(init, id) + [] == OverlayEntries(init, id);
      } else {
        var more := PeersOf(ParseBook(last));
        FindMerged(PeersOf(merged), more, id);
        PeersRoundTrip(MergePeers(PeersOf(merged), more));
        assert PeersOf(MergeBooks(merged, ParseBook(last))) == MergePeers(PeersOf(merged), more);
        MergeEntriesConcat(Find(PeersOf(base), id), OverlayEntries(init, id), EntriesOf(more, id));
      }
    }
  }

  predicate UniqueIds(peers: seq<Fields>) {
    forall i, j :: 0 <= i < j < |peers| && PeerId(peers[i]) != "" ==> PeerId(peers[i]) != PeerId(peers[j])
  }

  lemma {:induction false} UniqueEntries(peers: seq<Fields>, id: string)
    requires UniqueIds(peers) && id != ""
    ensures EntriesOf(peers, id) == if Find(peers, id).Some? then [Find(peers, id).value] else []
    decreases |peers|
  {
    if peers != [] {
      var init, last := peers[..|peers| - 1], peers[|peers| - 1];
      assert UniqueIds(init);
      UniqueEntries(init, id);
      assert forall j :: 0 <= j < |init| ==> init[j] == peers[j];
    }
  }

  /**
   For a base with unique ids, each field other than tags of each id is the first non-empty
   value among the base's entry and the overlays' entries, in that order.
   */
  lemma FirstNonEmptyWins(base: Document, overlays: seq<Document>, id: string, k: string)
    requires UniqueIds(PeersOf(ParseBook(base))) && id != "" && k != "tags"
    ensures var entries := EntriesOf(PeersOf(ParseBook(base)), id) + OverlayEntries(overlays, id);
            var found := Find(PeersOf(MergeAll(ParseBook(base), overlays)), id);
            && (found.Some? <==> entries != [])
            && (found.Some? ==> IsFirstNonEmpty(Get(found.value, k), Column(entries, k)))
  {
    hide MergeAll, IsFirstNonEmpty, Find, EntriesOf, OverlayEntries, ParseBook;
    var own := PeersOf(ParseBook(base));
    FindInMergeAll(ParseBook(base), overlays, id);
    UniqueEntries(own, id);
    if Find(own, id).Some? || OverlayEntries(overlays, id) != [] {
      MergedEntryField(Find(own, id), OverlayEntries(overlays, id), k);
    }
  }

  // ---------------------------------------------------------------------------
  //  Tags
  // ---------------------------------------------------------------------------

  /** The tags of all entries, in order, as they are written. */
  function TagTexts(entries: seq<Fields>): seq<string> {
    if entries == [] then []
    else TagTexts(entries[..|entries| - 1]) + ToStrings(Get(entries[|entries| - 1], "tags"))
  }

  /** Tags united once are united with more as if all were united together. */
  lemma UnionContinues(texts: seq<string>, c: Option<Json>)
    ensures UnionTags(Some(FromStrings(AddTags([], texts))), c) == AddTags([], texts + ToStrings(c))
  {
    StringsRoundTrip(AddTags([], texts));
    AddTagsAbsorbs([], texts);
    AddTagsConcat([], texts, ToStrings(c));
  }

  lemma UnionGrows(current: Option<Json>, texts: seq<string>, more: Option<Json>)
    requires current == Some(FromStrings(AddTags([], texts))) || ToStrings(current) == texts
    ensures UnionTags(current, more) == AddTags([], texts + ToStrings(more))
  {
    if ToStrings(current) == texts {
      AddTagsConcat([], texts, ToStrings(more));
    } else {
      UnionContinues(texts, more);
    }
  }

  /** Some entry behind the first brings tags. */
  predicate BringsTags(more: seq<Fields>) {
    exists i :: 0 <= i < |more| && "tags" in more[i]
  }

  lemma {:induction false} MergedEntryTags(first: Fields, more: seq<Fields>)
    ensures MergeEntries(Some(first), more).Some?
    ensures Get(MergeEntries(Some(first), more).value, "tags") ==
            if BringsTags(more) then Some(FromStrings(AddTags([], TagTexts([first] + more)))) else Get(first, "tags")
    ensures !BringsTags(more) ==> TagTexts([first] + more) == ToStrings(Get(first, "tags"))
    decreases |more|
  {
    hide MergePeer, AddTags, UnionTags, ToStrings, FromStrings;
    if more == [] {
      assert [first] + more == [first] && [first][..0] == [];
      assert [] + ToStrings(Get(first, "tags")) == ToStrings(Get(first, "tags"));
    } else {
      var init, last := more[..|more| - 1], more[|more| - 1];
      MergedEntryTags(first, init);
      assert ([first] + more)[..|more|] == [first] + init;
      var before := MergeEntries(Some(first), init).value;
      assert Get(MergePeer(before, last), "tags") == MergedField(before, last, "tags");
      assert forall i :: 0 <= i < |init| ==> init[i] == more[i];
      if "tags" in last {
        assert more[|more| - 1] == last;
        UnionGrows(Get(before, "tags"), TagTexts([first] + init), Get(last, "tags"));
      } else {
        NoTagsStep([first] + init, last);
      }
    }
  }

  lemma NoTagsStep(entries: seq<Fields>, last: Fields)
    requires "tags" !in last
    ensures TagTexts(entries) + ToStrings(Get(last, "tags")) == TagTexts(entries)
  {
  }

  /**
   For a base with unique ids, the tags of each id are the ordered union of the tags of all its
   entries, base first, as soon as an entry behind the first brings any; until then they are the
   first entry's, untouched.
   */
  lemma TagsUnited(base: Document, overlays: seq<Document>, id: string)
    requires UniqueIds(PeersOf(ParseBook(base))) && id != ""
    ensures var entries := EntriesOf(PeersOf(ParseBook(base)), id) + OverlayEntries(overlays, id);
            var found := Find(PeersOf(MergeAll(ParseBook(base), overlays)), id);
            entries != [] ==>
              && found.Some?
              && Get(found.value, "tags") ==
                 if BringsTags(entries[1..]) then Some(FromStrings(AddTags([], TagTexts(entries)))) else Get(entries[0], "tags")
  {
    hide MergeAll, Find, EntriesOf, OverlayEntries, ParseBook, AddTags, TagTexts, BringsTags;
    var own, more := Find(PeersOf(ParseBook(base)), id), OverlayEntries(overlays, id);
    FindInMergeAll(ParseBook(base), overlays, id);
    UniqueEntries(PeersOf(ParseBook(base)), id);
    if own.Some? {
      MergedEntryTags(own.value, more);
      assert ([own.value] + more)[1..] == more;
    } else if more != [] {
      MergeEntriesConcat(None, [more[0]], more[1..]);
      assert [more[0]] + more[1..] == more && [] + more == more;
      assert [more[0]][..0] == [];
      assert MergeEntries(None, [more[0]]) == Some(more[0]);
      MergedEntryTags(more[0], more[1..]);
    }
  }

  /** The top-level tags of the overlays that are not skipped, in order, as they are written. */
  function OverlayTags(overlays: seq<Document>): seq<string>
    decreases |overlays|
  {
    if overlays == [] then []
    else
      var last := overlays[|overlays| - 1];
      OverlayTags(overlays[..|overlays| - 1]) + if Skipped(last) then [] else ToStrings(Get(ParseBook(last), "tags"))
  }

  predicate AllSkipped(overlays: seq<Document>) {
    forall i :: 0 <= i < |overlays| ==> Skipped(overlays[i])
  }

  lemma MergedTopTags(base: Fields, overlay: Fields)
    ensures Get(MergeBooks(base, overlay), "tags") == Some(FromStrings(UnionTags(Get(base, "tags"), Get(overlay, "tags"))))
  {
  }

  /** The top-level tags are the ordered union of all books' tags, unless every overlay is skipped. */
  lemma {:induction false} TopTagsUnited(base: Fields, overlays: seq<Document>)
    ensures Get(MergeAll(base, overlays), "tags") ==
            if AllSkipped(overlays) then Get(base, "tags")
            else Some(FromStrings(AddTags([], ToStrings(Get(base, "tags")) + OverlayTags(overlays))))
    ensures AllSkipped(overlays) ==> OverlayTags(overlays) == []
    decreases |overlays|
  {
    hide MergeBooks, ParseBook, AddTags, UnionTags, ToStrings, FromStrings, Skipped;
    if overlays != [] {
      var init, last := overlays[..|overlays| - 1], overlays[|overlays| - 1];
      TopTagsUnited(base, init);
      assert AllSkipped(overlays) <==> AllSkipped(init) && Skipped(last) by {
        assert forall i :: 0 <= i < |init| ==> init[i] == overlays[i];
      }
      MergedTopTags(MergeAll(base, init), ParseBook(last));
      var own := ToStrings(Get(base, "tags"));
      if Skipped(last) {
        assert OverlayTags(init) + [] == OverlayTags(init);
      } else {
        var more := Get(ParseBook(last), "tags");
        assert (own + OverlayTags(init)) + ToStrings(more) == own + OverlayTags(overlays);
        assert own + [] == own;
        UnionGrows(Get(MergeAll(base, init), "tags"), own + OverlayTags(init), more);
      }
    }
  }
}
