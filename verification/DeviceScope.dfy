/**
 Which devices a user may see: device groups, tag groups, folders, grants and the default
 scope; and the places where the visible set is applied.
 */
module DeviceScope {
  import opened Options
  import opened Text

  /** A peer by its tags, trimmed and case-folded. */
  datatype Peer = Peer(tags: set<string>)

  type Peers = map<string, Peer>

  /** A device group; `tagFilter` is trimmed and case-folded, and used when `byTag`. */
  datatype Group = Group(users: seq<string>, userGroups: seq<string>, members: seq<string>, byTag: bool, tagFilter: string)

  datatype Folder = Folder(id: int, users: seq<string>, userGroups: seq<string>)

  /** What the panel store yields; `groups` is `None` when the read fails. */
  datatype Panel = Panel(
    restrictedDefault: bool,
    groups: Option<seq<Group>>,
    folders: seq<Folder>,
    assignments: map<string, int>)

  /**
   The user: what the role says (`exempt` administrators, the `pro` role, the permission to view
   devices), the user groups, and the peers granted directly.
   */
  datatype User = User(
    exempt: bool,
    pro: bool,
    deviceView: bool,
    name: string,
    memberOf: set<string>,
    grants: seq<string>)

  // ---------------------------------------------------------------------------
  //  Access lists and group members
  // ---------------------------------------------------------------------------

  predicate Listed(users: seq<string>, userGroups: seq<string>) {
    users != [] || userGroups != []
  }

  predicate Admits(u: User, users: seq<string>, userGroups: seq<string>) {
    u.exempt || !Listed(users, userGroups) || u.name in users || exists g <- userGroups :: g in u.memberOf
  }

  method PanelAccessAllowed(u: User, users: seq<string>, userGroups: seq<string>) returns (ok: bool)
    ensures ok == Admits(u, users, userGroups)
  {
    if u.exempt {
      return true;
    }
    if |users| == 0 && |userGroups| == 0 {
      return true;
    }
    for i := 0 to |users|
      invariant u.name !in users[..i]
    {
      if users[i] == u.name {
        return true;
      }
    }
    for i := 0 to |userGroups|
      invariant forall g <- userGroups[..i] :: g !in u.memberOf
    {
      if userGroups[i] in u.memberOf {
        return true;
      }
    }
    return false;
  }

  predicate ByMember(g: Group, id: string) {
    exists m <- g.members :: Trim(m) == id
  }

  predicate ByTag(g: Group, peers: Peers, id: string) {
    g.byTag && g.tagFilter != "" && exists y <- peers :: g.tagFilter in peers[y].tags && Trim(y) == id
  }

  predicate InGroup(g: Group, peers: Peers, id: string) {
    id != "" && id in peers && (ByMember(g, id) || ByTag(g, peers, id))
  }

  predicate Passes(visible: Option<set<string>>, id: string) {
    visible.None? || id in visible.value
  }

  /** The members of a group among the given peers, each once. */
  method PanelGroupPeerIDs(g: Group, peers: Peers, visible: Option<set<string>>) returns (ids: seq<string>)
    ensures forall id :: id in ids <==> InGroup(g, peers, id) && Passes(visible, id)
    ensures forall i, j :: 0 <= i < j < |ids| ==> ids[i] != ids[j]
  {
    hide Trim;
    ids := [];
    for i := 0 to |g.members|
      invariant forall id :: id in ids <==> id != "" && id in peers && Passes(visible, id) && exists m <- g.members[..i] :: Trim(m) == id
      invariant forall i, j :: 0 <= i < j < |ids| ==> ids[i] != ids[j]
    {
      assert g.members[..i + 1] == g.members[..i] + [g.members[i]];
      ids := AddId(ids, g.members[i], peers, visible);
    }
    assert g.members[..|g.members|] == g.members;
    if g.byTag && g.tagFilter != "" {
      var rest := peers.Keys;
      while rest != {}
        invariant rest <= peers.Keys
        invariant forall id :: id in ids <==>
                    && id != "" && id in peers && Passes(visible, id)
                    && (ByMember(g, id) || exists y <- peers.Keys - rest :: g.tagFilter in peers[y].tags && Trim(y) == id)
        invariant forall i, j :: 0 <= i < j < |ids| ==> ids[i] != ids[j]
        decreases |rest|
      {
        var y :| y in rest;
        rest := rest - {y};
        if g.tagFilter in peers[y].tags {
          ids := AddId(ids, y, peers, visible);
        }
      }
    }
  }

  method AddId(ids: seq<string>, raw: string, peers: Peers, visible: Option<set<string>>) returns (out: seq<string>)
    requires forall i, j :: 0 <= i < j < |ids| ==> ids[i] != ids[j]
    ensures forall id :: id in out <==> id in ids || (id == Trim(raw) && id != "" && id in peers && Passes(visible, id))
    ensures forall i, j :: 0 <= i < j < |out| ==> out[i] != out[j]
  {
    var id := Trim(raw);
    if id == "" || id in ids {
      return ids;
    }
    if visible.Some? && id !in visible.value {
      return ids;
    }
    if id !in peers {
      return ids;
    }
    return ids + [id];
  }

  // ---------------------------------------------------------------------------
  //  The rule
  // ---------------------------------------------------------------------------

  predicate GroupCovers(g: Group, peers: Peers, id: string) {
    Listed(g.users, g.userGroups) && InGroup(g, peers, id)
  }

  predicate FolderCovers(panel: Panel, f: Folder, peers: Peers, id: string) {
    Listed(f.users, f.userGroups) && id in peers && id in panel.assignments && panel.assignments[id] == f.id
  }

  /** A grant, or an access list that covers the device and admits the user. */
  predicate Allowed(panel: Panel, u: User, peers: Peers, id: string)
    requires panel.groups.Some?
  {
    || id in u.grants
    || (exists g <- panel.groups.value :: GroupCovers(g, peers, id) && Admits(u, g.users, g.userGroups))
    || (exists f <- panel.folders :: FolderCovers(panel, f, peers, id) && Admits(u, f.users, f.userGroups))
  }

  /** An access list that covers the device and does not admit the user. */
  predicate Restricted(panel: Panel, u: User, peers: Peers, id: string)
    requires panel.groups.Some?
  {
    || (exists g <- panel.groups.value :: GroupCovers(g, peers, id) && !Admits(u, g.users, g.userGroups))
    || (exists f <- panel.folders :: FolderCovers(panel, f, peers, id) && !Admits(u, f.users, f.userGroups))
  }

  /** The rule: by default restricted, allowed only; otherwise not restricted or allowed. */
  predicate Sees(panel: Option<Panel>, u: User, peers: Peers, id: string) {
    if u.exempt || panel.None? || panel.value.groups.None? then true
    else if panel.value.restrictedDefault then Allowed(panel.value, u, peers, id)
    else !Restricted(panel.value, u, peers, id) || Allowed(panel.value, u, peers, id)
  }

  /** The list names the user or one of the user's groups. */
  predicate Names(u: User, users: seq<string>, userGroups: seq<string>) {
    u.name in users || exists g :: g in userGroups && g in u.memberOf
  }

  /** The device is in the group: by its id, or by the tag of a peer with that id. */
  predicate HasMember(g: Group, peers: Peers, id: string) {
    id != "" && id in peers &&
    ((exists m :: m in g.members && Trim(m) == id) ||
     (g.byTag && g.tagFilter != "" && exists y :: y in peers && g.tagFilter in peers[y].tags && Trim(y) == id))
  }

  predicate Holds(panel: Panel, f: Folder, peers: Peers, id: string) {
    id in peers && id in panel.assignments && panel.assignments[id] == f.id
  }

  /** A group or folder of the device names the user. */
  predicate NamedFor(panel: Panel, u: User, peers: Peers, id: string)
    requires panel.groups.Some?
  {
    || (exists g :: g in panel.groups.value && HasMember(g, peers, id) && Names(u, g.users, g.userGroups))
    || (exists f :: f in panel.folders && Holds(panel, f, peers, id) && Names(u, f.users, f.userGroups))
  }

  /** A group or folder of the device names others, and not the user. */
  predicate NamedForOthers(panel: Panel, u: User, peers: Peers, id: string)
    requires panel.groups.Some?
  {
    || (exists g :: g in panel.groups.value && HasMember(g, peers, id) && (g.users != [] || g.userGroups != []) && !Names(u, g.users, g.userGroups))
    || (exists f :: f in panel.folders && Holds(panel, f, peers, id) && (f.users != [] || f.userGroups != []) && !Names(u, f.users, f.userGroups))
  }

  /**
   Who sees a device: exempt roles, everyone while there is no panel or its groups cannot be read,
   who was granted it, whom one of its groups or folders names, and, unless devices are restricted
   by default, everyone when none of its groups and folders names others instead.
   */
  lemma SeesExactly(panel: Option<Panel>, u: User, peers: Peers, id: string)
    ensures Sees(panel, u, peers, id) <==>
            || u.exempt || panel.None? || panel.value.groups.None?
            || id in u.grants || NamedFor(panel.value, u, peers, id)
            || (!panel.value.restrictedDefault && !NamedForOthers(panel.value, u, peers, id))
  {
    if !u.exempt && panel.Some? && panel.value.groups.Some? {
      AllowedExactly(panel.value, u, peers, id);
      RestrictedExactly(panel.value, u, peers, id);
    }
  }

  lemma MembersExactly(g: Group, peers: Peers, id: string)
    ensures InGroup(g, peers, id) <==> HasMember(g, peers, id)
  {
    hide Trim;
  }

  lemma NamesExactly(u: User, users: seq<string>, userGroups: seq<string>)
    requires !u.exempt
    ensures Names(u, users, userGroups) <==> Listed(users, userGroups) && Admits(u, users, userGroups)
  {
  }

  lemma AllowedExactly(panel: Panel, u: User, peers: Peers, id: string)
    requires panel.groups.Some? && !u.exempt
    ensures Allowed(panel, u, peers, id) <==> id in u.grants || NamedFor(panel, u, peers, id)
  {
    hide InGroup, HasMember, Admits, Names, Listed;
    forall g: Group ensures GroupCovers(g, peers, id) && Admits(u, g.users, g.userGroups) <==> HasMember(g, peers, id) && Names(u, g.users, g.userGroups) {
      MembersExactly(g, peers, id);
      NamesExactly(u, g.users, g.userGroups);
    }
    forall f: Folder ensures FolderCovers(panel, f, peers, id) && Admits(u, f.users, f.userGroups) <==> Holds(panel, f, peers, id) && Names(u, f.users, f.userGroups) {
      NamesExactly(u, f.users, f.userGroups);
    }
  }

  lemma RestrictedExactly(panel: Panel, u: User, peers: Peers, id: string)
    requires panel.groups.Some? && !u.exempt
    ensures Restricted(panel, u, peers, id) <==> NamedForOthers(panel, u, peers, id)
  {
    hide InGroup, HasMember, Admits, Names;
    forall g: Group
      ensures GroupCovers(g, peers, id) && !Admits(u, g.users, g.userGroups) <==>
              HasMember(g, peers, id) && (g.users != [] || g.userGroups != []) && !Names(u, g.users, g.userGroups)
    {
      MembersExactly(g, peers, id);
      NamesExactly(u, g.users, g.userGroups);
    }
    forall f: Folder
      ensures FolderCovers(panel, f, peers, id) && !Admits(u, f.users, f.userGroups) <==>
              Holds(panel, f, peers, id) && (f.users != [] || f.userGroups != []) && !Names(u, f.users, f.userGroups)
    {
      NamesExactly(u, f.users, f.userGroups);
    }
  }

  // ---------------------------------------------------------------------------
  //  The computation
  // ---------------------------------------------------------------------------

  method AnyListed(groups: seq<Group>, folders: seq<Folder>) returns (found: bool)
    ensures found <==> (exists g <- groups :: Listed(g.users, g.userGroups)) || (exists f <- folders :: Listed(f.users, f.userGroups))
  {
    for i := 0 to |groups|
      invariant forall g <- groups[..i] :: !Listed(g.users, g.userGroups)
    {
      if |groups[i].users| > 0 || |groups[i].userGroups| > 0 {
        return true;
      }
    }
    for i := 0 to |folders|
      invariant forall f <- folders[..i] :: !Listed(f.users, f.userGroups)
    {
      if |folders[i].users| > 0 || |folders[i].userGroups| > 0 {
        return true;
      }
    }
    return false;
  }

  /** The group loop: the covered peers go to the allowed or to the restricted set. */
  method SortGroups(panel: Panel, u: User, peers: Peers) returns (allowed: set<string>, restricted: set<string>)
    requires panel.groups.Some?
    ensures forall id :: id in allowed <==> exists g <- panel.groups.value :: GroupCovers(g, peers, id) && Admits(u, g.users, g.userGroups)
    ensures forall id :: id in restricted <==> exists g <- panel.groups.value :: GroupCovers(g, peers, id) && !Admits(u, g.users, g.userGroups)
  {
    hide InGroup, Admits;
    var groups := panel.groups.value;
    allowed, restricted := {}, {};
    for i := 0 to |groups|
      invariant forall id :: id in allowed <==> exists g <- groups[..i] :: GroupCovers(g, peers, id) && Admits(u, g.users, g.userGroups)
      invariant forall id :: id in restricted <==> exists g <- groups[..i] :: GroupCovers(g, peers, id) && !Admits(u, g.users, g.userGroups)
    {
      assert groups[..i + 1] == groups[..i] + [groups[i]];
      var g := groups[i];
      if |g.users| == 0 && |g.userGroups| == 0 {
        continue;
      }
      var ids := PanelGroupPeerIDs(g, peers, None);
      var ok := PanelAccessAllowed(u, g.users, g.userGroups);
      if ok {
        allowed := allowed + set id | id in ids;
      } else {
        restricted := restricted + set id | id in ids;
      }
    }
    assert groups[..|groups|] == groups;
  }

  /** The folder loop, over the devices assigned to each folder. */
  method SortFolders(panel: Panel, u: User, peers: Peers) returns (allowed: set<string>, restricted: set<string>)
    ensures forall id :: id in allowed <==> exists f <- panel.folders :: FolderCovers(panel, f, peers, id) && Admits(u, f.users, f.userGroups)
    ensures forall id :: id in restricted <==> exists f <- panel.folders :: FolderCovers(panel, f, peers, id) && !Admits(u, f.users, f.userGroups)
  {
    hide Admits;
    var folders := panel.folders;
    allowed, restricted := {}, {};
    for i := 0 to |folders|
      invariant forall id :: id in allowed <==> exists f <- folders[..i] :: FolderCovers(panel, f, peers, id) && Admits(u, f.users, f.userGroups)
      invariant forall id :: id in restricted <==> exists f <- folders[..i] :: FolderCovers(panel, f, peers, id) && !Admits(u, f.users, f.userGroups)
    {
      assert folders[..i + 1] == folders[..i] + [folders[i]];
      var f := folders[i];
      if |f.users| == 0 && |f.userGroups| == 0 {
        continue;
      }
      var ok := PanelAccessAllowed(u, f.users, f.userGroups);
      var ids := Assigned(panel.assignments, f.id, peers);
      if ok {
        allowed := allowed + ids;
      } else {
        restricted := restricted + ids;
      }
    }
    assert folders[..|folders|] == folders;
  }

  method Assigned(assignments: map<string, int>, folder: int, peers: Peers) returns (ids: set<string>)
    ensures ids == set id | id in assignments && assignments[id] == folder && id in peers
  {
    ids := {};
    var rest := assignments.Keys;
    while rest != {}
      invariant rest <= assignments.Keys
      invariant ids == set id | id in assignments.Keys - rest && assignments[id] == folder && id in peers
      decreases |rest|
    {
      var id :| id in rest;
      rest := rest - {id};
      if assignments[id] == folder && id in peers {
        ids := ids + {id};
      }
    }
  }

  /**
   The visible set as the server computes it, with its early returns; `None` means all.  For
   every peer it agrees with the rule, and outside the default-restricted case it names peers only.
   */
  method VisiblePeerSet(panel: Option<Panel>, u: User, peers: Peers) returns (visible: Option<set<string>>)
    ensures forall id <- peers :: Passes(visible, id) <==> Sees(panel, u, peers, id)
    ensures visible.Some? ==> !u.exempt && panel.Some? && panel.value.groups.Some?
    ensures visible.Some? && !panel.value.restrictedDefault ==> visible.value <= peers.Keys
  {
    hide InGroup, Admits, GroupCovers, FolderCovers;
    if u.exempt {
      return None;
    }
    if panel.None? {
      return None;
    }
    var store := panel.value;
    if store.groups.None? {
      return None;
    }
    var any := AnyListed(store.groups.value, store.folders);
    if !any {
      NothingListed(store, u, peers);
      if |u.grants| == 0 {
        if store.restrictedDefault {
          return Some({});
        }
        return None;
      }
    }
    var allowed, restricted := SortGroups(store, u, peers);
    var allowedToo, restrictedToo := SortFolders(store, u, peers);
    allowed := allowed + allowedToo + set id | id in u.grants;
    restricted := restricted + restrictedToo;
    assert forall id :: id in allowed <==> Allowed(store, u, peers, id);
    assert forall id :: id in restricted <==> Restricted(store, u, peers, id);
    if store.restrictedDefault {
      return Some(allowed);
    }
    return Some(set id | id in peers && (id !in restricted || id in allowed));
  }

  lemma NothingListed(panel: Panel, u: User, peers: Peers)
    requires panel.groups.Some?
    requires !exists g <- panel.groups.value :: Listed(g.users, g.userGroups)
    requires !exists f <- panel.folders :: Listed(f.users, f.userGroups)
    ensures forall id :: Allowed(panel, u, peers, id) <==> id in u.grants
    ensures forall id :: !Restricted(panel, u, peers, id)
  {
    hide InGroup, Admits;
  }
}
