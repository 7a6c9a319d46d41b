/**
 The visible set in use: more access never hides a device, the set can be recomputed over an
 already filtered list, and the peer list and the address book agree on it.
 */
module DeviceScopeUse {
  import opened Options
  import opened Text
  import opened Json
  import opened AddressBookMeaning
  import opened DeviceScope

  // ---------------------------------------------------------------------------
  //  More access
  // ---------------------------------------------------------------------------

  /** The same user with further grants and further user groups. */
  predicate HasMore(u: User, v: User) {
    && v == u.(memberOf := v.memberOf, grants := v.grants)
    && u.memberOf <= v.memberOf
    && forall id <- u.grants :: id in v.grants
  }

  lemma MoreIsAdmitted(u: User, v: User, users: seq<string>, userGroups: seq<string>)
    requires HasMore(u, v) && Admits(u, users, userGroups)
    ensures Admits(v, users, userGroups)
  {
    if !v.exempt && Listed(users, userGroups) && v.name !in users {
      var g :| g in userGroups && g in u.memberOf;
      assert g in v.memberOf;
    }
  }

  /** A further grant or group membership never hides a peer. */
  lemma MoreNeverHides(panel: Option<Panel>, u: User, v: User, peers: Peers, id: string)
    requires HasMore(u, v) && Sees(panel, u, peers, id)
    ensures Sees(panel, v, peers, id)
  {
    hide Admits, GroupCovers, FolderCovers;
    if !u.exempt && panel.Some? && panel.value.groups.Some? {
      MoreIsAllowed(panel.value, u, v, peers, id);
      MoreIsNotRestricted(panel.value, u, v, peers, id);
    }
  }

  lemma MoreIsAllowed(panel: Panel, u: User, v: User, peers: Peers, id: string)
    requires HasMore(u, v) && panel.groups.Some?
    ensures Allowed(panel, u, peers, id) ==> Allowed(panel, v, peers, id)
  {
    hide Admits, GroupCovers, FolderCovers;
    if g :| g in panel.groups.value && GroupCovers(g, peers, id) && Admits(u, g.users, g.userGroups) {
      MoreIsAdmitted(u, v, g.users, g.userGroups);
    } else if f :| f in panel.folders && FolderCovers(panel, f, peers, id) && Admits(u, f.users, f.userGroups) {
      MoreIsAdmitted(u, v, f.users, f.userGroups);
    }
  }

  lemma MoreIsNotRestricted(panel: Panel, u: User, v: User, peers: Peers, id: string)
    requires HasMore(u, v) && panel.groups.Some?
    ensures Restricted(panel, v, peers, id) ==> Restricted(panel, u, peers, id)
  {
    hide Admits, GroupCovers, FolderCovers;
    if g :| g in panel.groups.value && GroupCovers(g, peers, id) && !Admits(v, g.users, g.userGroups) {
      if Admits(u, g.users, g.userGroups) {
        MoreIsAdmitted(u, v, g.users, g.userGroups);
      }
    } else if f :| f in panel.folders && FolderCovers(panel, f, peers, id) && !Admits(v, f.users, f.userGroups) {
      if Admits(u, f.users, f.userGroups) {
        MoreIsAdmitted(u, v, f.users, f.userGroups);
      }
    }
  }

  // ---------------------------------------------------------------------------
  //  Recomputing over a filtered list
  // ---------------------------------------------------------------------------

  predicate PartOf(part: Peers, peers: Peers) {
    part.Keys <= peers.Keys && forall id <- part :: part[id] == peers[id]
  }

  predicate AllSeen(panel: Option<Panel>, u: User, peers: Peers, part: Peers) {
    forall id <- part :: Sees(panel, u, peers, id)
  }

  /** Whatever was filtered, with whatever panel and user, every peer left is still visible. */
  ghost predicate Local(peers: Peers) {
    forall panel: Option<Panel>, u: User, part: Peers ::
      PartOf(part, peers) && AllSeen(panel, u, peers, part) ==> AllSeen(panel, u, part, part)
  }

  /** A peer whose id trims to the id `x` of another peer, with a tag `x` does not have. */
  predicate Shadows(peers: Peers, y: string, x: string, tag: string) {
    y in peers && x in peers && x != y && Trim(y) == x && x != "" && tag != "" && tag in peers[y].tags && tag !in peers[x].tags
  }

  ghost predicate Shadowed(peers: Peers) {
    exists y, x, tag :: Shadows(peers, y, x, tag)
  }

  /** Without such a pair, a group has the same members among the peers left. */
  lemma MembersUnchanged(g: Group, peers: Peers, part: Peers, id: string)
    requires PartOf(part, peers) && !Shadowed(peers) && id in part
    ensures InGroup(g, part, id) <==> InGroup(g, peers, id)
  {
    hide Trim;
    if id != "" && ByTag(g, peers, id) {
      var y :| y in peers && g.tagFilter in peers[y].tags && Trim(y) == id;
      TrimIdempotent(y);
      assert !Shadows(peers, y, id, g.tagFilter);
      assert g.tagFilter in part[id].tags;
    }
    if ByTag(g, part, id) {
      var y :| y in part && g.tagFilter in part[y].tags && Trim(y) == id;
      assert y in peers;
    }
  }

  lemma StillSeen(panel: Option<Panel>, u: User, peers: Peers, part: Peers, id: string)
    requires PartOf(part, peers) && !Shadowed(peers) && id in part
    ensures Sees(panel, u, part, id) <==> Sees(panel, u, peers, id)
  {
    hide InGroup, Admits, PartOf, Shadowed;
    assert id in peers by { PartIn(part, peers, id); }
    forall g: Group ensures InGroup(g, part, id) <==> InGroup(g, peers, id) {
      MembersUnchanged(g, peers, part, id);
    }
  }

  lemma PartIn(part: Peers, peers: Peers, id: string)
    requires PartOf(part, peers) && id in part
    ensures id in peers
  {
  }

  /** A tag group that only the shadowing peer satisfies shows `x`, and no longer does when `x` is alone. */
  lemma ShadowBreaks(peers: Peers, y: string, x: string, tag: string)
    requires Shadows(peers, y, x, tag)
    ensures !Local(peers)
  {
    hide Trim;
    var g := Group(["u"], [], [], true, tag);
    var panel := Panel(true, Some([g]), [], map[]);
    var u := User(false, false, true, "u", {}, []);
    var part := map[x := peers[x]];
    assert ByTag(g, peers, x);
    assert InGroup(g, peers, x);
    assert Admits(u, g.users, g.userGroups);
    assert g in panel.groups.value && GroupCovers(g, peers, x);
    assert Sees(Some(panel), u, peers, x);
    assert !ByTag(g, part, x);
    assert !InGroup(g, part, x);
    assert !Sees(Some(panel), u, part, x);
    assert AllSeen(Some(panel), u, peers, part) && !AllSeen(Some(panel), u, part, part);
    assert PartOf(part, peers);
  }

  /**
   The second computation keeps every peer the first one left, for every panel, user and later
   filter, exactly when no peer shadows another.  Ids without surrounding blanks never do.
   */
  lemma LocalExactly(peers: Peers)
    ensures Local(peers) <==> !Shadowed(peers)
    ensures (forall id <- peers :: Trim(id) == id) ==> Local(peers)
  {
    hide Trim, Sees;
    if Shadowed(peers) {
      var y, x, tag :| Shadows(peers, y, x, tag);
      ShadowBreaks(peers, y, x, tag);
    } else {
      forall panel: Option<Panel>, u: User, part: Peers, id: string |
        PartOf(part, peers) && AllSeen(panel, u, peers, part) && id in part
        ensures Sees(panel, u, part, id)
      {
        StillSeen(panel, u, peers, part, id);
      }
    }
  }

  // ---------------------------------------------------------------------------
  //  The peer list with its device groups
  // ---------------------------------------------------------------------------

  predicate CanBrowse(u: User) {
    !u.pro && u.deviceView
  }

  /** A device group or folder as shown, with the devices in it. */
  datatype Listing =
    | OfGroup(group: Group, ids: seq<string>)
    | OfFolder(folder: Folder, members: set<string>)

  /** The listings are those of the admitted groups and folders, each with its visible peers. */
  ghost predicate ListingsFor(panel: Option<Panel>, u: User, peers: Peers, listings: seq<Listing>) {
    && (panel.None? ==> listings == [])
    && (forall l <- listings :: panel.Some? && ListingFor(panel.value, u, peers, l))
    && (panel.Some? && panel.value.groups.Some? ==>
          forall g <- panel.value.groups.value :: Admits(u, g.users, g.userGroups) ==> exists l <- listings :: l.OfGroup? && l.group == g)
    && (panel.Some? ==>
          forall f <- panel.value.folders :: Admits(u, f.users, f.userGroups) ==> exists l <- listings :: l.OfFolder? && l.folder == f)
  }

  ghost predicate ListingFor(panel: Panel, u: User, peers: Peers, l: Listing) {
    match l
    case OfGroup(g, ids) =>
      && panel.groups.Some? && g in panel.groups.value && Admits(u, g.users, g.userGroups)
      && forall id :: id in ids <==> InGroup(g, peers, id) && Sees(Some(panel), u, peers, id)
    case OfFolder(f, members) =>
      && f in panel.folders && Admits(u, f.users, f.userGroups)
      && forall id :: id in members <==>
           id in peers && id in panel.assignments && panel.assignments[id] == f.id && Sees(Some(panel), u, peers, id)
  }

  method BuildDeviceGroups(panel: Option<Panel>, u: User, peers: Peers) returns (listings: seq<Listing>)
    ensures ListingsFor(panel, u, peers, listings)
  {
    hide InGroup, Admits, Sees;
    var visible := VisiblePeerSet(panel, u, peers);
    listings := [];
    if panel.None? {
      return;
    }
    var store := panel.value;
    if store.groups.Some? {
      listings := ListGroups(store, u, peers, visible);
    }
    var more := ListFolders(store, u, peers, visible);
    listings := listings + more;
  }

  ghost predicate Agrees(visible: Option<set<string>>, panel: Panel, u: User, peers: Peers) {
    forall id <- peers :: Passes(visible, id) <==> Sees(Some(panel), u, peers, id)
  }

  method ListGroups(panel: Panel, u: User, peers: Peers, visible: Option<set<string>>) returns (listings: seq<Listing>)
    requires panel.groups.Some? && Agrees(visible, panel, u, peers)
    ensures forall l <- listings :: ListingFor(panel, u, peers, l) && l.OfGroup?
    ensures forall g <- panel.groups.value :: Admits(u, g.users, g.userGroups) ==> exists l <- listings :: l.OfGroup? && l.group == g
  {
    hide ByMember, ByTag, Admits, Sees;
    listings := [];
    for i := 0 to |panel.groups.value|
      invariant forall l <- listings :: ListingFor(panel, u, peers, l) && l.OfGroup?
      invariant forall j :: 0 <= j < i && Admits(u, panel.groups.value[j].users, panel.groups.value[j].userGroups) ==>
                  exists l <- listings :: l.OfGroup? && l.group == panel.groups.value[j]
    {
      var g := panel.groups.value[i];
      var ok := PanelAccessAllowed(u, g.users, g.userGroups);
      if !ok {
        continue;
      }
      var ids := PanelGroupPeerIDs(g, peers, visible);
      assert ListingFor(panel, u, peers, OfGroup(g, ids));
      ghost var before := listings;
      listings := listings + [OfGroup(g, ids)];
      assert listings[|before|].group == g;
      assert forall l <- before :: l in listings;
    }
  }

  method ListFolders(panel: Panel, u: User, peers: Peers, visible: Option<set<string>>) returns (listings: seq<Listing>)
    requires Agrees(visible, panel, u, peers)
    ensures forall l <- listings :: ListingFor(panel, u, peers, l) && l.OfFolder?
    ensures forall f <- panel.folders :: Admits(u, f.users, f.userGroups) ==> exists l <- listings :: l.OfFolder? && l.folder == f
  {
    hide Admits, Sees;
    listings := [];
    for i := 0 to |panel.folders|
      invariant forall l <- listings :: ListingFor(panel, u, peers, l) && l.OfFolder?
      invariant forall j :: 0 <= j < i && Admits(u, panel.folders[j].users, panel.folders[j].userGroups) ==>
                  exists l <- listings :: l.OfFolder? && l.folder == panel.folders[j]
    {
      var f := panel.folders[i];
      var ok := PanelAccessAllowed(u, f.users, f.userGroups);
      if !ok {
        continue;
      }
      var inFolder := Assigned(panel.assignments, f.id, peers);
      var members := set id | id in inFolder && (visible.None? || id in visible.value);
      assert ListingFor(panel, u, peers, OfFolder(f, members));
      ghost var before := listings;
      listings := listings + [OfFolder(f, members)];
      assert listings[|before|].folder == f;
      assert forall l <- before :: l in listings;
    }
  }

  /**
   The peer list: nothing for a role that cannot browse, otherwise the visible peers among those
   the request's filter wants, with the device groups recomputed over what is left.
   */
  method BuildPeerList(panel: Option<Panel>, u: User, peers: Peers, wanted: set<string>) returns (listed: Peers, listings: seq<Listing>)
    ensures PartOf(listed, peers)
    ensures forall id :: id in listed <==> CanBrowse(u) && id in peers && Sees(panel, u, peers, id) && id in wanted
    ensures CanBrowse(u) ==> ListingsFor(panel, u, listed, listings)
    ensures !CanBrowse(u) ==> listings == []
  {
    hide Sees, ListingsFor;
    if u.pro || !u.deviceView {
      return map[], [];
    }
    var visible := VisiblePeerSet(panel, u, peers);
    listed := peers;
    if visible.Some? {
      listed := map id | id in peers && id in visible.value :: peers[id];
    }
    listed := map id | id in listed && id in wanted :: listed[id];
    listings := BuildDeviceGroups(panel, u, listed);
  }

  /**
   When no peer shadows another, the listing of a group in a peer list holds exactly the listed
   peers that belong to the group among all peers: neither filter changes a membership.
   */
  lemma ListingsComplete(panel: Panel, u: User, peers: Peers, listed: Peers, l: Listing)
    requires PartOf(listed, peers) && AllSeen(Some(panel), u, peers, listed) && !Shadowed(peers)
    requires ListingFor(panel, u, listed, l)
    ensures l.OfGroup? ==> forall id <- listed :: id in l.ids <==> InGroup(l.group, peers, id)
    ensures l.OfFolder? ==> forall id <- listed :: id in l.members <==> id in panel.assignments && panel.assignments[id] == l.folder.id
  {
    hide InGroup, Sees, Shadowed;
    forall id | id in listed
      ensures Sees(Some(panel), u, listed, id)
      ensures forall g :: InGroup(g, listed, id) <==> InGroup(g, peers, id)
    {
      StillSeen(Some(panel), u, peers, listed, id);
      forall g: Group ensures InGroup(g, listed, id) <==> InGroup(g, peers, id) {
        MembersUnchanged(g, peers, listed, id);
      }
    }
  }

  // ---------------------------------------------------------------------------
  //  The address book
  // ---------------------------------------------------------------------------

  /** A book peer stays when it has an id and is visible if the server knows it. */
  predicate Stays(p: Fields, visible: set<string>, known: Peers) {
    var id := Trim(PeerId(p));
    id != "" && (id in known ==> id in visible)
  }

  function Staying(peers: seq<Fields>, visible: set<string>, known: Peers): (kept: seq<Fields>)
    ensures forall p :: p in kept <==> p in peers && Stays(p, visible, known)
  {
    if peers == [] then []
    else
      var last := peers[|peers| - 1];
      Staying(peers[..|peers| - 1], visible, known) + if Stays(last, visible, known) then [last] else []
  }

  /** The filtered document: `None` filters nothing. */
  function Scoped(d: Document, visible: Option<set<string>>, known: Peers): Document {
    if visible.None? then d
    else
      var book := ParseBook(d);
      Document(Obj(book["peers" := FromPeers(Staying(PeersOf(book), visible.value, known))]))
  }

  method FilterAddressBook(d: Document, visible: Option<set<string>>, known: Peers) returns (out: Document)
    ensures out == Scoped(d, visible, known)
    ensures visible.None? ==> out == d
  {
    hide Trim;
    if visible.None? {
      return d;
    }
    var book := ParseBook(d);
    var peers := PeersOf(book);
    var filtered := [];
    for i := 0 to |peers|
      invariant filtered == Staying(peers[..i], visible.value, known)
    {
      assert peers[..i + 1][..i] == peers[..i];
      var id := Trim(PeerId(peers[i]));
      if id == "" {
        continue;
      }
      if id in known && id !in visible.value {
        continue;
      }
      filtered := filtered + [peers[i]];
    }
    assert peers[..|peers|] == peers;
    out := Document(Obj(book["peers" := FromPeers(filtered)]));
  }

  /** The filter keeps the order and everything but peers, and filtering again changes nothing. */
  lemma ScopedMeaning(d: Document, visible: set<string>, known: Peers)
    ensures PeersOf(ParseBook(Scoped(d, Some(visible), known))) == Staying(PeersOf(ParseBook(d)), visible, known)
    ensures forall p :: p in PeersOf(ParseBook(Scoped(d, Some(visible), known))) <==>
              p in PeersOf(ParseBook(d)) && !AllSpace(PeerId(p)) && (Trim(PeerId(p)) in known ==> Trim(PeerId(p)) in visible)
    ensures ParseBook(Scoped(d, Some(visible), known)) - {"peers"} == ParseBook(d) - {"peers"}
    ensures Scoped(Scoped(d, Some(visible), known), Some(visible), known) == Scoped(d, Some(visible), known)
  {
    hide ParseBook, ToPeers, FromPeers, Stays, Staying;
    var book := ParseBook(d);
    var kept := Staying(PeersOf(book), visible, known);
    var out := book["peers" := FromPeers(kept)];
    ParseOfBook(out);
    PeersRoundTrip(kept);
    AllStay(kept, visible, known);
    assert out["peers" := FromPeers(kept)] == out;
    forall p ensures Stays(p, visible, known) <==> !AllSpace(PeerId(p)) && (Trim(PeerId(p)) in known ==> Trim(PeerId(p)) in visible) {
      StaysExactly(p, visible, known);
    }
  }

  lemma StaysExactly(p: Fields, visible: set<string>, known: Peers)
    ensures Stays(p, visible, known) <==> !AllSpace(PeerId(p)) && (Trim(PeerId(p)) in known ==> Trim(PeerId(p)) in visible)
  {
    hide Trim;
    TrimsToNothing(PeerId(p));
  }

  lemma {:induction false} AllStay(peers: seq<Fields>, visible: set<string>, known: Peers)
    requires forall i :: 0 <= i < |peers| ==> Stays(peers[i], visible, known)
    ensures Staying(peers, visible, known) == peers
  {
    hide Stays;
    if peers != [] {
      var init, last := peers[..|peers| - 1], peers[|peers| - 1];
      AllStay(init, visible, known);
      assert Stays(last, visible, known);
      assert Staying(peers, visible, known) == Staying(init, visible, known) + [last];
      assert init + [last] == peers;
    }
  }

  /** The book as a user gets it; the pro role and exempt roles get it as it is. */
  method ApplyDeviceScope(panel: Option<Panel>, u: User, peers: Peers, d: Document) returns (out: Document)
    ensures ScopedFor(panel, u, peers, d, out)
    ensures u.pro || u.exempt || panel.None? || panel.value.groups.None? ==> out == d
  {
    hide Sees, Scoped;
    if u.pro {
      return d;
    }
    if u.exempt {
      return d;
    }
    var visible := VisiblePeerSet(panel, u, peers);
    out := FilterAddressBook(d, visible, peers);
  }

  ghost predicate ScopedFor(panel: Option<Panel>, u: User, peers: Peers, d: Document, out: Document) {
    if u.pro || u.exempt then out == d
    else
      exists visible ::
        && out == Scoped(d, visible, peers)
        && forall id <- peers :: Passes(visible, id) <==> Sees(panel, u, peers, id)
  }

  /** Every server-known id left in the book is one the peer list is built from. */
  ghost predicate BookWithinList(panel: Option<Panel>, u: User, peers: Peers, out: Document) {
    forall p <- PeersOf(ParseBook(out)) :: Trim(PeerId(p)) in peers ==>
      CanBrowse(u) && Sees(panel, u, peers, Trim(PeerId(p)))
  }

  ghost predicate BooksWithinLists(u: User) {
    forall panel, peers, d, out ::
      ScopedFor(panel, u, peers, d, out) ==> BookWithinList(panel, u, peers, out)
  }

  lemma BrowsersAgree(panel: Option<Panel>, u: User, peers: Peers, d: Document, out: Document)
    requires CanBrowse(u) && ScopedFor(panel, u, peers, d, out)
    ensures BookWithinList(panel, u, peers, out)
  {
    hide Trim, ParseBook, ToPeers;
    if !u.exempt {
      var visible :|
        && out == Scoped(d, visible, peers)
        && forall id <- peers :: Passes(visible, id) <==> Sees(panel, u, peers, id);
      if visible.Some? {
        ScopedMeaning(d, visible.value, peers);
      }
    }
  }

  /**
   The address book shows only server-known peers that the peer list shows, for every panel and
   book, exactly for the roles that may browse: for the others the list is empty and the book is not.
   */
  lemma BooksAgreeExactly(u: User)
    ensures BooksWithinLists(u) <==> CanBrowse(u)
  {
    hide ScopedFor, BookWithinList;
    if CanBrowse(u) {
      forall panel, peers, d, out | ScopedFor(panel, u, peers, d, out) ensures BookWithinList(panel, u, peers, out) {
        BrowsersAgree(panel, u, peers, d, out);
      }
    } else {
      OthersDisagree(u);
    }
  }

  lemma OthersDisagree(u: User)
    requires !CanBrowse(u)
    ensures !BooksWithinLists(u)
  {
    hide Sees;
    var peers: Peers := map["1" := Peer({})];
    var p: Fields := map["id" := Str("1")];
    var book: Fields := map["peers" := FromPeers([p]), "tags" := Arr([])];
    var d := Document(Obj(book));
    ParseOfBook(book);
    PeersRoundTrip([p]);
    assert p in PeersOf(ParseBook(d)) && PeerId(p) == "1" && Trim("1") == "1";
    assert !BookWithinList(None, u, peers, d);
    assert Scoped(d, None, peers) == d;
    assert Passes(None, "1") && Sees(None, u, peers, "1") by { NoPanel(u, peers, "1"); }
    assert ScopedFor(None, u, peers, d, d);
  }

  lemma NoPanel(u: User, peers: Peers, id: string)
    ensures Sees(None, u, peers, id)
  {
  }
}
