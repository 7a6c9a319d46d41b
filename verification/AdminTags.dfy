/**
 Synchronizing a user's address book with the peers table: banned peers are dropped, missing
 system information is filled in, and the tags set by administrators are added.
 */
module AdminTags {
  import opened Options
  import opened Text
  import opened Json

  datatype Row = Row(banned: bool, softDeleted: bool, tags: string, hostname: string, os: string, user: string)

  type Table = map<string, Row>

  // ---------------------------------------------------------------------------
  //  One peer
  // ---------------------------------------------------------------------------

  /** The lookup by ids returns rows that are not soft-deleted. */
  predicate Known(rows: Table, id: string) {
    id != "" && id in rows && !rows[id].softDeleted
  }

  predicate Active(rows: Table, p: Fields) {
    Known(rows, PeerId(p)) && !rows[PeerId(p)].banned
  }

  predicate Dropped(rows: Table, p: Fields) {
    Known(rows, PeerId(p)) && rows[PeerId(p)].banned
  }

  function NonBlank(parts: seq<string>): seq<string> {
    if parts == [] then []
    else
      var t := Trim(parts[|parts| - 1]);
      NonBlank(parts[..|parts| - 1]) + if t != "" then [t] else []
  }

  /** The tags administrators gave to a peer. */
  function TagsFor(rows: Table, p: Fields): seq<string> {
    if Active(rows, p) then NonBlank(Split(rows[PeerId(p)].tags, ',')) else []
  }

  /** A field counts as missing when it is absent or the empty string. */
  predicate Lacks(p: Fields, k: string) {
    k !in p || p[k] == Str("")
  }

  function FillField(p: Fields, k: string, v: string): Fields {
    if Lacks(p, k) && v != "" then p[k := Str(v)] else p
  }

  function Informed(p: Fields, row: Row): Fields {
    FillField(FillField(FillField(p, "hostname", row.hostname), "platform", row.os), "username", row.user)
  }

  function AppendNew(list: seq<string>, more: seq<string>): (out: seq<string>)
    ensures list <= out
    ensures forall t :: t in out <==> t in list || t in more
    decreases |more|
  {
    if more == [] then list
    else
      var before, t := AppendNew(list, more[..|more| - 1]), more[|more| - 1];
      assert more == more[..|more| - 1] + [t];
      if t in before then before else before + [t]
  }

  /** What becomes of a peer that stays. */
  function Synced(rows: Table, p: Fields): Fields {
    if !Active(rows, p) then p
    else
      var q := Informed(p, rows[PeerId(p)]);
      if TagsFor(rows, p) == [] then q
      else q["tags" := FromStrings(AppendNew(ToStrings(Get(p, "tags")), TagsFor(rows, p)))]
  }

  predicate Touched(rows: Table, p: Fields) {
    Active(rows, p) && (Informed(p, rows[PeerId(p)]) != p || TagsFor(rows, p) != [])
  }

  // ---------------------------------------------------------------------------
  //  The whole book
  // ---------------------------------------------------------------------------

  function Kept(rows: Table, peers: seq<Fields>): seq<Fields> {
    if peers == [] then []
    else
      var last := peers[|peers| - 1];
      Kept(rows, peers[..|peers| - 1]) + if Dropped(rows, last) then [] else [Synced(rows, last)]
  }

  function AllTags(rows: Table, peers: seq<Fields>): seq<string> {
    if peers == [] then []
    else AllTags(rows, peers[..|peers| - 1]) + TagsFor(rows, peers[|peers| - 1])
  }

  predicate Modified(rows: Table, peers: seq<Fields>) {
    exists i :: 0 <= i < |peers| && (Dropped(rows, peers[i]) || Touched(rows, peers[i]))
  }

  predicate SomeActive(rows: Table, peers: seq<Fields>) {
    exists i :: 0 <= i < |peers| && Active(rows, peers[i])
  }

  function Merged(rows: Table, d: Document): Document {
    if !d.Document? || !d.value.Obj? then d
    else
      var ab := d.value.fields;
      var peers := ToPeers(Get(ab, "peers"));
      if !SomeActive(rows, peers) || !Modified(rows, peers) then d
      else Document(Obj(ab["peers" := FromPeers(Kept(rows, peers))]
                          ["tags" := FromStrings(AppendNew(ToStrings(Get(ab, "tags")), AllTags(rows, peers)))]))
  }

  // ---------------------------------------------------------------------------
  //  The server's loops
  // ---------------------------------------------------------------------------

  method CleanTags(raw: string) returns (cleaned: seq<string>)
    ensures cleaned == NonBlank(Split(raw, ','))
  {
    var parts := Split(raw, ',');
    cleaned := [];
    for i := 0 to |parts|
      invariant cleaned == NonBlank(parts[..i])
    {
      assert parts[..i + 1][..i] == parts[..i];
      var t := Trim(parts[i]);
      if t != "" {
        cleaned := cleaned + [t];
      }
    }
    assert parts[..|parts|] == parts;
  }

  /** Tags are appended to a list with the set of its elements kept alongside. */
  method Extend(list: seq<string>, had: set<string>, more: seq<string>) returns (out: seq<string>, seen: set<string>)
    requires had == set t | t in list
    ensures out == AppendNew(list, more) && seen == set t | t in out
  {
    out, seen := list, had;
    for i := 0 to |more|
      invariant out == AppendNew(list, more[..i]) && seen == set t | t in out
    {
      assert more[..i + 1][..i] == more[..i];
      if more[i] !in seen {
        out := out + [more[i]];
        seen := seen + {more[i]};
      }
    }
    assert more[..|more|] == more;
  }

  method SyncPeer(rows: Table, p: Fields) returns (out: Fields, modified: bool)
    requires Active(rows, p)
    ensures out == Synced(rows, p) && modified == Touched(rows, p)
  {
    hide FromStrings, ToStrings, NonBlank, Split, AppendNew;
    var info := rows[PeerId(p)];
    out, modified := p, false;
    if "hostname" !in out || out["hostname"] == Str("") {
      if info.hostname != "" {
        out, modified := out["hostname" := Str(info.hostname)], true;
      }
    }
    assert out == FillField(p, "hostname", info.hostname);
    ghost var first := out;
    if "platform" !in out || out["platform"] == Str("") {
      if info.os != "" {
        out, modified := out["platform" := Str(info.os)], true;
      }
    }
    assert out == FillField(first, "platform", info.os);
    ghost var second := out;
    if "username" !in out || out["username"] == Str("") {
      if info.user != "" {
        out, modified := out["username" := Str(info.user)], true;
      }
    }
    assert out == FillField(second, "username", info.user);
    InformedDiffers(p, info);
    assert modified == (out != p);
    var tags := CleanTags(info.tags);
    if tags == [] {
      return;
    }
    var existing := ToStrings(Get(p, "tags"));
    var merged, _ := Extend(existing, (set t | t in existing), tags);
    out := out["tags" := FromStrings(merged)];
    modified := true;
  }

  /** Filling in changes a peer exactly when one of the three fields is filled. */
  lemma InformedDiffers(p: Fields, row: Row)
    ensures Informed(p, row) != p <==>
            || (Lacks(p, "hostname") && row.hostname != "")
            || (Lacks(p, "platform") && row.os != "")
            || (Lacks(p, "username") && row.user != "")
    ensures Get(Informed(p, row), "tags") == Get(p, "tags") && PeerId(Informed(p, row)) == PeerId(p)
  {
  }

  method MergeAdminTagsIntoAB(rows: Table, d: Document) returns (out: Document)
    ensures out == Merged(rows, d)
  {
    hide Synced, Touched, TagsFor, ToPeers, FromPeers, ToStrings, FromStrings, AppendNew, PeerId;
    if !d.Document? || !d.value.Obj? {
      return d;
    }
    var ab := d.value.fields;
    var peers := ToPeers(Get(ab, "peers"));
    var active := AnyActive(rows, peers);
    if !active {
      return d;
    }
    var tags := ToStrings(Get(ab, "tags"));
    var filtered, allTags, modified := SyncAll(rows, peers, tags);
    if !modified {
      return d;
    }
    out := Document(Obj(ab["peers" := FromPeers(filtered)]["tags" := FromStrings(allTags)]));
  }

  method AnyActive(rows: Table, peers: seq<Fields>) returns (found: bool)
    ensures found == SomeActive(rows, peers)
  {
    for i := 0 to |peers|
      invariant forall j :: 0 <= j < i ==> !Active(rows, peers[j])
    {
      if Active(rows, peers[i]) {
        return true;
      }
    }
    return false;
  }

  method SyncAll(rows: Table, peers: seq<Fields>, existing: seq<string>)
    returns (filtered: seq<Fields>, tags: seq<string>, modified: bool)
    ensures filtered == Kept(rows, peers) && tags == AppendNew(existing, AllTags(rows, peers))
    ensures modified == Modified(rows, peers)
  {
    hide Synced, Touched, TagsFor, AppendNew, PeerId, Dropped, NonBlank, Split, Informed;
    filtered, tags, modified := [], existing, false;
    var tagSet := set t | t in existing;
    AppendNothing(existing);
    for i := 0 to |peers|
      invariant filtered == Kept(rows, peers[..i]) && tags == AppendNew(existing, AllTags(rows, peers[..i]))
      invariant tagSet == set t | t in tags
      invariant modified <==> exists j :: 0 <= j < i && (Dropped(rows, peers[j]) || Touched(rows, peers[j]))
    {
      assert peers[..i + 1][..i] == peers[..i];
      var p := peers[i];
      AppendMore(existing, AllTags(rows, peers[..i]), TagsFor(rows, p));
      InactivePeer(rows, p);
      DroppedHasNoTags(rows, p);
      AppendNothing(tags);
      if Dropped(rows, p) {
        modified := true;
        continue;
      }
      if !Active(rows, p) {
        filtered := filtered + [p];
        continue;
      }
      var q, changed := SyncPeer(rows, p);
      filtered := filtered + [q];
      modified := modified || changed;
      var own := CleanTags(rows[PeerId(p)].tags);
      OwnTags(rows, p);
      tags, tagSet := Extend(tags, tagSet, own);
    }
    assert peers[..|peers|] == peers;
  }

  lemma OwnTags(rows: Table, p: Fields)
    requires Active(rows, p)
    ensures TagsFor(rows, p) == NonBlank(Split(rows[PeerId(p)].tags, ','))
  {
  }

  lemma InactivePeer(rows: Table, p: Fields)
    ensures !Active(rows, p) ==> Synced(rows, p) == p && !Touched(rows, p) && TagsFor(rows, p) == []
  {
  }

  lemma AppendNothing(list: seq<string>)
    ensures AppendNew(list, []) == list
  {
  }

  lemma {:induction false} AppendMore(list: seq<string>, a: seq<string>, b: seq<string>)
    ensures AppendNew(list, a + b) == AppendNew(AppendNew(list, a), b)
    decreases |b|
  {
    if b == [] {
      assert a + b == a;
    } else {
      AppendMore(list, a, b[..|b| - 1]);
      assert (a + b)[..|a + b| - 1] == a + b[..|b| - 1];
    }
  }

  // ---------------------------------------------------------------------------
  //  What synchronizing keeps, adds and drops
  // ---------------------------------------------------------------------------

  const FILLED := {"hostname", "platform", "username"}

  /** A peer that stays keeps its id and every unrelated field; filled fields were missing; string tags are only added. */
  lemma SyncedKeeps(rows: Table, p: Fields)
    ensures PeerId(Synced(rows, p)) == PeerId(p)
    ensures forall k :: k !in FILLED && k != "tags" ==> Get(Synced(rows, p), k) == Get(p, k)
    ensures forall k :: k in FILLED && !Lacks(p, k) ==> Get(Synced(rows, p), k) == Get(p, k)
    ensures ToStrings(Get(p, "tags")) <= ToStrings(Get(Synced(rows, p), "tags"))
    ensures forall t :: t in ToStrings(Get(Synced(rows, p), "tags")) <==> t in ToStrings(Get(p, "tags")) || t in TagsFor(rows, p)
    ensures Active(rows, p) ==>
              var q, row := Synced(rows, p), rows[PeerId(p)];
              && (Lacks(p, "hostname") ==> Get(q, "hostname") == if row.hostname != "" then Some(Str(row.hostname)) else Get(p, "hostname"))
              && (Lacks(p, "platform") ==> Get(q, "platform") == if row.os != "" then Some(Str(row.os)) else Get(p, "platform"))
              && (Lacks(p, "username") ==> Get(q, "username") == if row.user != "" then Some(Str(row.user)) else Get(p, "username"))
    ensures !Active(rows, p) ==> Synced(rows, p) == p
  {
    hide Split, NonBlank, AppendNew, ToStrings, FromStrings;
    if Active(rows, p) {
      InformedDiffers(p, rows[PeerId(p)]);
      if TagsFor(rows, p) != [] {
        var tags := AppendNew(ToStrings(Get(p, "tags")), TagsFor(rows, p));
        StringsRoundTrip(tags);
      }
    }
  }

  /** What counts as active and what is dropped, over the rows. */
  lemma RowKinds(rows: Table, p: Fields)
    ensures Active(rows, p) <==> PeerId(p) != "" && PeerId(p) in rows && !rows[PeerId(p)].softDeleted && !rows[PeerId(p)].banned
    ensures Dropped(rows, p) <==> PeerId(p) != "" && PeerId(p) in rows && !rows[PeerId(p)].softDeleted && rows[PeerId(p)].banned
    ensures forall k :: Lacks(p, k) <==> Get(p, k) in {None, Some(Str(""))}
  {
  }

  /** The tags of a row: its parts between commas, trimmed, without blanks. */
  lemma {:induction false} TagTexts(parts: seq<string>, t: string)
    ensures t in NonBlank(parts) <==> t != "" && exists i :: 0 <= i < |parts| && Trim(parts[i]) == t
  {
    hide Trim;
    if parts != [] {
      var init := parts[..|parts| - 1];
      TagTexts(init, t);
      assert forall i :: 0 <= i < |init| ==> init[i] == parts[i];
      if Trim(parts[|parts| - 1]) == t && t != "" {
        assert t in NonBlank(parts);
      }
    }
  }

  lemma SyncedTwice(rows: Table, p: Fields)
    ensures Synced(rows, Synced(rows, p)) == Synced(rows, p)
    ensures TagsFor(rows, Synced(rows, p)) == TagsFor(rows, p)
    ensures Active(rows, Synced(rows, p)) == Active(rows, p) && Dropped(rows, Synced(rows, p)) == Dropped(rows, p)
  {
    hide Split, NonBlank, AppendNew, ToStrings, FromStrings;
    SyncedKeeps(rows, p);
    if Active(rows, p) {
      var row, own := rows[PeerId(p)], TagsFor(rows, p);
      var q := Synced(rows, p);
      InformedTwice(p, row);
      if own != [] {
        var strings := ToStrings(Get(p, "tags"));
        StringsRoundTrip(AppendNew(strings, own));
        AppendTwice(strings, own);
        InformedWithTags(p, row, FromStrings(AppendNew(strings, own)));
        assert Get(q, "tags") == Some(FromStrings(AppendNew(strings, own)));
      }
    }
  }

  lemma InformedTwice(p: Fields, row: Row)
    ensures Informed(Informed(p, row), row) == Informed(p, row)
  {
  }

  lemma InformedWithTags(p: Fields, row: Row, tags: Json)
    ensures Informed(Informed(p, row)["tags" := tags], row) == Informed(p, row)["tags" := tags]
  {
  }

  /** Adding what is already there changes nothing. */
  lemma {:induction false} AppendPresent(list: seq<string>, more: seq<string>)
    requires forall t <- more :: t in list
    ensures AppendNew(list, more) == list
    decreases |more|
  {
    if more != [] {
      AppendPresent(list, more[..|more| - 1]);
    }
  }

  lemma AppendTwice(list: seq<string>, more: seq<string>)
    ensures AppendNew(AppendNew(list, more), more) == AppendNew(list, more)
  {
    AppendPresent(AppendNew(list, more), more);
  }

  lemma {:induction false} KeptTwice(rows: Table, peers: seq<Fields>)
    ensures Kept(rows, Kept(rows, peers)) == Kept(rows, peers)
    ensures AllTags(rows, Kept(rows, peers)) == AllTags(rows, peers)
  {
    hide Synced, TagsFor, Dropped;
    if peers != [] {
      var init, last := peers[..|peers| - 1], peers[|peers| - 1];
      var before := Kept(rows, init);
      KeptTwice(rows, init);
      SyncedTwice(rows, last);
      DroppedHasNoTags(rows, last);
      if !Dropped(rows, last) {
        assert (before + [Synced(rows, last)])[..|before|] == before;
      } else {
        assert before + [] == before;
        assert AllTags(rows, init) + [] == AllTags(rows, init);
      }
    }
  }

  lemma DroppedHasNoTags(rows: Table, p: Fields)
    ensures Dropped(rows, p) ==> TagsFor(rows, p) == []
  {
  }

  /** Synchronizing twice is synchronizing once. */
  lemma MergedTwice(rows: Table, d: Document)
    ensures Merged(rows, Merged(rows, d)) == Merged(rows, d)
  {
    hide Kept, AllTags, AppendNew, ToPeers, FromPeers, ToStrings, FromStrings, Dropped, Touched, Active;
    var e := Merged(rows, d);
    if e != d {
      var ab := d.value.fields;
      var peers, tags := ToPeers(Get(ab, "peers")), ToStrings(Get(ab, "tags"));
      PeersRoundTrip(Kept(rows, peers));
      StringsRoundTrip(AppendNew(tags, AllTags(rows, peers)));
      KeptTwice(rows, peers);
      AppendTwice(tags, AllTags(rows, peers));
      var out := e.value.fields;
      assert Get(out, "peers") == Some(FromPeers(Kept(rows, peers)));
      assert Get(out, "tags") == Some(FromStrings(AppendNew(tags, AllTags(rows, peers))));
      assert out["peers" := out["peers"]]["tags" := out["tags"]] == out;
    }
  }

  /** The peers that stay, by position in the original list. */
  lemma {:induction false} KeptExactly(rows: Table, peers: seq<Fields>, q: Fields)
    ensures q in Kept(rows, peers) <==> exists i :: 0 <= i < |peers| && !Dropped(rows, peers[i]) && q == Synced(rows, peers[i])
  {
    hide Synced, Dropped;
    if peers != [] {
      var init, last := peers[..|peers| - 1], peers[|peers| - 1];
      KeptExactly(rows, init, q);
      assert forall i :: 0 <= i < |init| ==> init[i] == peers[i];
      if q in Kept(rows, peers) && q !in Kept(rows, init) {
        assert !Dropped(rows, peers[|peers| - 1]) && q == Synced(rows, peers[|peers| - 1]);
      }
    }
  }

  /**
   Banned peers leave the book exactly when some listed peer is known and active; without one
   the document comes back as it was.  Peers that were soft-deleted are not found by the lookup
   and stay.  Everything outside the peers and the tags is untouched.
   */
  lemma WhatMergingDoes(rows: Table, d: Document)
    requires d.Document? && d.value.Obj?
    ensures var ab := d.value.fields;
            var peers := ToPeers(Get(ab, "peers"));
            && Merged(rows, d).Document? && Merged(rows, d).value.Obj?
            && var out := Merged(rows, d).value.fields;
               && out - {"peers", "tags"} == ab - {"peers", "tags"}
               && ToStrings(Get(ab, "tags")) <= ToStrings(Get(out, "tags"))
               && (forall t <- ToStrings(Get(out, "tags")) :: t in ToStrings(Get(ab, "tags")) || t in AllTags(rows, peers))
               && (SomeActive(rows, peers) ==> forall t <- AllTags(rows, peers) :: t in ToStrings(Get(out, "tags")))
               && (!SomeActive(rows, peers) ==> out == ab)
               && (SomeActive(rows, peers) ==> ToPeers(Get(out, "peers")) == Kept(rows, peers))
  {
    hide Kept, AllTags, AppendNew, ToPeers, FromPeers, ToStrings, FromStrings, Dropped, Touched, Active;
    var ab := d.value.fields;
    var peers, tags := ToPeers(Get(ab, "peers")), ToStrings(Get(ab, "tags"));
    PeersRoundTrip(Kept(rows, peers));
    StringsRoundTrip(AppendNew(tags, AllTags(rows, peers)));
    if !Modified(rows, peers) {
      UntouchedPeers(rows, peers);
      UntouchedTags(rows, peers);
    }
  }

  lemma {:induction false} UntouchedPeers(rows: Table, peers: seq<Fields>)
    requires !Modified(rows, peers)
    ensures Kept(rows, peers) == peers
  {
    hide Dropped, Touched, Synced;
    if peers != [] {
      var init, last := peers[..|peers| - 1], peers[|peers| - 1];
      assert forall i :: 0 <= i < |init| ==> init[i] == peers[i];
      UntouchedPeers(rows, init);
      UntouchedPeer(rows, last);
      assert last == peers[|peers| - 1];
      assert peers == init + [last];
    }
  }

  lemma {:induction false} UntouchedTags(rows: Table, peers: seq<Fields>)
    requires !Modified(rows, peers)
    ensures AllTags(rows, peers) == []
  {
    hide Dropped, Informed;
    if peers != [] {
      var init := peers[..|peers| - 1];
      assert forall i :: 0 <= i < |init| ==> init[i] == peers[i];
      UntouchedTags(rows, init);
      assert !Touched(rows, peers[|peers| - 1]);
    }
  }

  lemma UntouchedPeer(rows: Table, p: Fields)
    ensures !Touched(rows, p) ==> Synced(rows, p) == p
  {
  }

  // ---------------------------------------------------------------------------
  //  Which unwanted peers are left
  // ---------------------------------------------------------------------------

  function BookPeers(d: Document): seq<Fields> {
    if d.Document? && d.value.Obj? then ToPeers(Get(d.value.fields, "peers")) else []
  }

  predicate DeletedRow(rows: Table, p: Fields) {
    PeerId(p) != "" && PeerId(p) in rows && rows[PeerId(p)].softDeleted
  }

  predicate BannedRow(rows: Table, p: Fields) {
    PeerId(p) != "" && PeerId(p) in rows && rows[PeerId(p)].banned
  }

  /** The peers of the synchronized book. */
  lemma MergedPeers(rows: Table, d: Document)
    ensures var peers := BookPeers(d);
            BookPeers(Merged(rows, d)) == if SomeActive(rows, peers) then Kept(rows, peers) else peers
  {
    hide Kept, SomeActive, Merged;
    if d.Document? && d.value.Obj? {
      WhatMergingDoes(rows, d);
    } else {
      NothingToMerge(rows, d);
    }
  }

  lemma NothingToMerge(rows: Table, d: Document)
    requires !(d.Document? && d.value.Obj?)
    ensures Merged(rows, d) == d && Kept(rows, []) == []
  {
  }

  /** Of the peers with a banned or deleted row, synchronizing drops those that are banned and not deleted. */
  lemma DropsExactly(rows: Table, p: Fields)
    ensures (BannedRow(rows, p) || DeletedRow(rows, p)) && !Dropped(rows, p) <==> DeletedRow(rows, p)
    ensures DeletedRow(rows, p) ==> Synced(rows, p) == p
  {
  }

  /** For every document, a listed peer whose row is soft-deleted is still listed afterwards, unchanged. */
  lemma SoftDeletedStays(rows: Table, d: Document)
    ensures forall p <- BookPeers(d) :: DeletedRow(rows, p) ==> p in BookPeers(Merged(rows, d))
  {
    hide Kept, Merged, SomeActive, Synced, Dropped, DeletedRow, BookPeers;
    var peers := BookPeers(d);
    MergedPeers(rows, d);
    forall p | p in peers && DeletedRow(rows, p) ensures p in BookPeers(Merged(rows, d)) {
      var i :| 0 <= i < |peers| && peers[i] == p;
      DropsExactly(rows, p);
      KeptExactly(rows, peers, p);
    }
  }

  /**
   No peer left in the book has a banned or soft-deleted row exactly when no listed row was
   soft-deleted, and some listed peer is known and active or no listed row was banned.
   */
  lemma CleanExactly(rows: Table, d: Document)
    ensures (forall q <- BookPeers(Merged(rows, d)) :: !BannedRow(rows, q) && !DeletedRow(rows, q)) <==>
            && (forall p <- BookPeers(d) :: !DeletedRow(rows, p))
            && (SomeActive(rows, BookPeers(d)) || forall p <- BookPeers(d) :: !BannedRow(rows, p))
  {
    hide Kept, Merged, SomeActive, Synced, Dropped, DeletedRow, BannedRow, BookPeers;
    var peers := BookPeers(d);
    MergedPeers(rows, d);
    SoftDeletedStays(rows, d);
    if SomeActive(rows, peers) {
      forall q | q in Kept(rows, peers)
        ensures (exists p <- peers :: DeletedRow(rows, p)) || (!BannedRow(rows, q) && !DeletedRow(rows, q))
      {
        KeptExactly(rows, peers, q);
        var i :| 0 <= i < |peers| && !Dropped(rows, peers[i]) && q == Synced(rows, peers[i]);
        SyncedKeepsRow(rows, peers[i]);
        DropsExactly(rows, peers[i]);
      }
    }
  }

  lemma SyncedKeepsRow(rows: Table, p: Fields)
    ensures BannedRow(rows, Synced(rows, p)) == BannedRow(rows, p) && DeletedRow(rows, Synced(rows, p)) == DeletedRow(rows, p)
  {
    hide Synced;
    SyncedKeeps(rows, p);
  }
}
