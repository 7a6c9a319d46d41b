/**
 Secrets around organization address books: stored documents are stripped of passwords, and
 vault passwords are filled into the response only.
 */
module OrgSecrets {
  import opened Options
  import opened Text
  import opened Json
  import opened AddressBook
  import opened AddressBookMeaning

  // ---------------------------------------------------------------------------
  //  Stripping
  // ---------------------------------------------------------------------------

  predicate HasSecret(p: Fields) {
    "password" in p || "hash" in p
  }

  function StripPeer(p: Fields): Fields {
    p - {"password", "hash"}
  }

  function StripPeers(peers: seq<Fields>): seq<Fields> {
    seq(|peers|, i requires 0 <= i < |peers| => StripPeer(peers[i]))
  }

  /** A document without secrets is returned as it is, any other with its peers stripped. */
  function Stripped(d: Document): Document {
    var book := ParseBook(d);
    if exists p <- PeersOf(book) :: HasSecret(p)
    then Document(Obj(book["peers" := FromPeers(StripPeers(PeersOf(book)))]))
    else d
  }

  method StripSecrets(d: Document) returns (out: Document)
    ensures out == Stripped(d)
  {
    var book := ParseBook(d);
    var peers := PeersOf(book);
    ghost var start := peers;
    var changed := false;
    for i := 0 to |peers|
      invariant |peers| == |start|
      invariant forall j :: 0 <= j < i ==> peers[j] == StripPeer(start[j])
      invariant forall j :: i <= j < |peers| ==> peers[j] == start[j]
      invariant changed <==> exists j :: 0 <= j < i && HasSecret(start[j])
    {
      var p := peers[i];
      if "password" in p {
        p := p - {"password"};
        changed := true;
      }
      if "hash" in p {
        p := p - {"hash"};
        changed := true;
      }
      assert p == StripPeer(start[i]);
      peers := peers[i := p];
    }
    if !changed {
      return d;
    }
    assert peers == StripPeers(start);
    out := Document(Obj(book["peers" := FromPeers(peers)]));
  }

  /** A stripped document holds the same peers without their secrets, and everything else as it was. */
  lemma StrippedMeaning(d: Document)
    ensures PeersOf(ParseBook(Stripped(d))) == StripPeers(PeersOf(ParseBook(d)))
    ensures forall p <- PeersOf(ParseBook(Stripped(d))) :: !HasSecret(p)
    ensures |PeersOf(ParseBook(Stripped(d)))| == |PeersOf(ParseBook(d))|
    ensures forall i, k :: 0 <= i < |PeersOf(ParseBook(d))| && k !in {"password", "hash"} ==>
              Get(PeersOf(ParseBook(Stripped(d)))[i], k) == Get(PeersOf(ParseBook(d))[i], k)
    ensures ParseBook(Stripped(d)) - {"peers"} == ParseBook(d) - {"peers"}
    ensures Stripped(Stripped(d)) == Stripped(d)
  {
    hide ParseBook, ToPeers;
    var book := ParseBook(d);
    var peers := PeersOf(book);
    if exists p <- peers :: HasSecret(p) {
      var out := book["peers" := FromPeers(StripPeers(peers))];
      ParseOfBook(out);
      PeersRoundTrip(StripPeers(peers));
    } else {
      forall i | 0 <= i < |peers| ensures StripPeer(peers[i]) == peers[i] {
        assert !HasSecret(peers[i]);
      }
      assert StripPeers(peers) == peers;
    }
  }

  // ---------------------------------------------------------------------------
  //  Vault passwords
  // ---------------------------------------------------------------------------

  /** A vault entry; `None` when it cannot be read or opened. */
  datatype Credential = Credential(peerId: string, plain: Option<string>)

  datatype Org = Org(sharesBook: bool, book: Document, credentials: seq<Credential>)

  predicate Usable(c: Credential, id: string) {
    c.peerId == id && c.plain.Some? && Trim(c.plain.value) != ""
  }

  /** All credentials of the organizations that share their book, in order. */
  function SharedCredentials(orgs: seq<Org>): seq<Credential>
    decreases |orgs|
  {
    if orgs == [] then []
    else
      var last := orgs[|orgs| - 1];
      SharedCredentials(orgs[..|orgs| - 1]) + if last.sharesBook then last.credentials else []
  }

  /** The first usable credential for an id, none when there is none. */
  function FirstSecret(credentials: seq<Credential>, id: string): Option<string>
    decreases |credentials|
  {
    if credentials == [] then None
    else
      var before, last := FirstSecret(credentials[..|credentials| - 1], id), credentials[|credentials| - 1];
      if before.Some? then before else if Usable(last, id) then last.plain else None
  }

  method CollectSecrets(orgs: seq<Org>) returns (secrets: map<string, string>)
    ensures forall id :: id in secrets <==> id != "" && FirstSecret(SharedCredentials(orgs), id).Some?
    ensures forall id :: id in secrets ==> FirstSecret(SharedCredentials(orgs), id) == Some(secrets[id])
  {
    hide FirstSecret, Trim;
    secrets := map[];
    CollectNothing();
    for i := 0 to |orgs|
      invariant Collected(secrets, SharedCredentials(orgs[..i]))
    {
      assert orgs[..i + 1][..i] == orgs[..i];
      if !orgs[i].sharesBook {
        assert SharedCredentials(orgs[..i]) + [] == SharedCredentials(orgs[..i]);
        continue;
      }
      ghost var before := SharedCredentials(orgs[..i]);
      var own := orgs[i].credentials;
      assert before + own[..0] == before;
      for j := 0 to |own|
        invariant Collected(secrets, before + own[..j])
      {
        var c := own[j];
        assert before + own[..j + 1] == before + own[..j] + [c];
        CollectStep(secrets, before + own[..j], c);
        if c.peerId == "" || c.peerId in secrets {
          continue;
        }
        if c.plain.None? {
          continue;
        }
        if Trim(c.plain.value) != "" {
          secrets := secrets[c.peerId := c.plain.value];
        }
      }
      assert own[..|own|] == own;
    }
    assert orgs[..|orgs|] == orgs;
  }

  lemma CollectNothing()
    ensures Collected(map[], [])
  {
  }

  lemma CollectStep(secrets: map<string, string>, credentials: seq<Credential>, c: Credential)
    requires Collected(secrets, credentials)
    ensures if c.peerId != "" && c.peerId !in secrets && Usable(c, c.peerId)
            then Collected(secrets[c.peerId := c.plain.value], credentials + [c])
            else Collected(secrets, credentials + [c])
  {
    assert (credentials + [c])[..|credentials|] == credentials;
  }

  ghost predicate Collected(secrets: map<string, string>, credentials: seq<Credential>) {
    && (forall id :: id in secrets <==> id != "" && FirstSecret(credentials, id).Some?)
    && (forall id :: id in secrets ==> FirstSecret(credentials, id) == Some(secrets[id]))
  }

  function FillPeer(p: Fields, secrets: map<string, string>): Fields {
    var id := PeerId(p);
    if id != "" && id in secrets && IsEmpty(Get(p, "password")) then p["password" := Str(secrets[id])] else p
  }

  function FillPeers(peers: seq<Fields>, secrets: map<string, string>): seq<Fields> {
    seq(|peers|, i requires 0 <= i < |peers| => FillPeer(peers[i], secrets))
  }

  /** Whether any peer takes a vault password. */
  predicate Fills(peers: seq<Fields>, secrets: map<string, string>) {
    exists i :: 0 <= i < |peers| && TakesSecret(peers[i], secrets)
  }

  predicate TakesSecret(p: Fields, secrets: map<string, string>) {
    PeerId(p) != "" && PeerId(p) in secrets && IsEmpty(Get(p, "password"))
  }

  function Injected(d: Document, secrets: map<string, string>): Document {
    var book := ParseBook(d);
    if Fills(PeersOf(book), secrets) then Document(Obj(book["peers" := FromPeers(FillPeers(PeersOf(book), secrets))])) else d
  }

  method InjectCredentials(d: Document, secrets: map<string, string>) returns (out: Document)
    ensures out == Injected(d, secrets)
  {
    hide IsEmpty;
    if |secrets| == 0 {
      return d;
    }
    var book := ParseBook(d);
    var peers := PeersOf(book);
    ghost var start := peers;
    var changed := false;
    for i := 0 to |peers|
      invariant |peers| == |start|
      invariant forall j :: 0 <= j < i ==> peers[j] == FillPeer(start[j], secrets)
      invariant forall j :: i <= j < |peers| ==> peers[j] == start[j]
      invariant changed <==> exists j :: 0 <= j < i && TakesSecret(start[j], secrets)
    {
      var p := peers[i];
      var id := PeerId(p);
      if id == "" {
        continue;
      }
      if id !in secrets {
        continue;
      }
      if IsEmpty(Get(p, "password")) {
        p := p["password" := Str(secrets[id])];
        peers := peers[i := p];
        changed := true;
      }
    }
    if !changed {
      return d;
    }
    assert peers == FillPeers(start, secrets);
    out := Document(Obj(book["peers" := FromPeers(peers)]));
  }

  /** The first credential for an id that opens to something other than white space. */
  lemma {:induction false} FirstSecretMeans(credentials: seq<Credential>, id: string, i: nat)
    requires i < |credentials| && credentials[i].peerId == id && credentials[i].plain.Some? && !AllSpace(credentials[i].plain.value)
    requires forall j :: 0 <= j < i && credentials[j].peerId == id ==> credentials[j].plain.None? || AllSpace(credentials[j].plain.value)
    ensures FirstSecret(credentials, id) == credentials[i].plain
    decreases |credentials|
  {
    hide Trim, AllSpace;
    var init, last := credentials[..|credentials| - 1], credentials[|credentials| - 1];
    assert forall j :: 0 <= j < |init| ==> init[j] == credentials[j];
    TrimsToNothing(credentials[i].plain.value);
    if i < |init| {
      FirstSecretMeans(init, id, i);
    } else {
      NoSecret(init, id);
    }
  }

  lemma {:induction false} NoSecret(credentials: seq<Credential>, id: string)
    requires forall j :: 0 <= j < |credentials| && credentials[j].peerId == id ==> credentials[j].plain.None? || AllSpace(credentials[j].plain.value)
    ensures FirstSecret(credentials, id).None?
    decreases |credentials|
  {
    hide Trim, AllSpace;
    if credentials != [] {
      var init, last := credentials[..|credentials| - 1], credentials[|credentials| - 1];
      assert forall j :: 0 <= j < |init| ==> init[j] == credentials[j];
      NoSecret(init, id);
      if last.plain.Some? {
        TrimsToNothing(last.plain.value);
      }
    }
  }

  /**
   The peers of the response, whether or not anything was filled in: every peer is there in its
   place, an empty password becomes the secret of its id, and nothing else changes anywhere.
   */
  lemma InjectedPeers(d: Document, secrets: map<string, string>)
    ensures PeersOf(ParseBook(Injected(d, secrets))) == FillPeers(PeersOf(ParseBook(d)), secrets)
    ensures ParseBook(Injected(d, secrets)) - {"peers"} == ParseBook(d) - {"peers"}
    ensures |PeersOf(ParseBook(Injected(d, secrets)))| == |PeersOf(ParseBook(d))|
    ensures forall i, k :: 0 <= i < |PeersOf(ParseBook(d))| ==>
              var p, q := PeersOf(ParseBook(d))[i], PeersOf(ParseBook(Injected(d, secrets)))[i];
              Get(q, k) == if k == "password" && PeerId(p) != "" && PeerId(p) in secrets && IsEmpty(Get(p, k)) then Some(Str(secrets[PeerId(p)])) else Get(p, k)
  {
    hide ParseBook, ToPeers, IsEmpty;
    var book := ParseBook(d);
    var peers := PeersOf(book);
    if Fills(peers, secrets) {
      ParseOfBook(book["peers" := FromPeers(FillPeers(peers, secrets))]);
      PeersRoundTrip(FillPeers(peers, secrets));
    } else {
      forall i | 0 <= i < |peers| ensures FillPeer(peers[i], secrets) == peers[i] {
        assert !TakesSecret(peers[i], secrets);
      }
      assert FillPeers(peers, secrets) == peers;
    }
  }

  // ---------------------------------------------------------------------------
  //  The response
  // ---------------------------------------------------------------------------

  /** The stored documents of the organizations that share their book. */
  function SharedBooks(orgs: seq<Org>): seq<Document>
    decreases |orgs|
  {
    if orgs == [] then []
    else
      var last := orgs[|orgs| - 1];
      SharedBooks(orgs[..|orgs| - 1]) + if last.sharesBook then [Stripped(last.book)] else []
  }

  /** The user's book with the organizations' stored books merged in and vault passwords filled in. */
  function Response(own: Document, orgs: seq<Org>, secrets: map<string, string>): seq<Fields> {
    PeersOf(ParseBook(Injected(Document(Obj(MergeAll(ParseBook(own), SharedBooks(orgs)))), secrets)))
  }

  lemma {:induction false} NoSecretEntries(orgs: seq<Org>, id: string)
    ensures forall p <- OverlayEntries(SharedBooks(orgs), id) :: !HasSecret(p)
    decreases |orgs|
  {
    hide ParseBook, ToPeers, Stripped, EntriesOf;
    if orgs != [] {
      var init, last := orgs[..|orgs| - 1], orgs[|orgs| - 1];
      NoSecretEntries(init, id);
      if last.sharesBook {
        var d := Stripped(last.book);
        StrippedMeaning(last.book);
        EntriesAreMembers(PeersOf(ParseBook(d)), id);
        assert (SharedBooks(init) + [d])[..|SharedBooks(init)|] == SharedBooks(init);
      } else {
        assert SharedBooks(init) + [] == SharedBooks(init);
      }
    }
  }

  lemma {:induction false} EntriesAreMembers(peers: seq<Fields>, id: string)
    ensures forall p <- EntriesOf(peers, id) :: p in peers
    decreases |peers|
  {
    if peers != [] {
      EntriesAreMembers(peers[..|peers| - 1], id);
    }
  }

  lemma {:induction false} MergeAllHasParts(base: Fields, overlays: seq<Document>)
    requires "peers" in base && "tags" in base
    ensures "peers" in MergeAll(base, overlays) && "tags" in MergeAll(base, overlays)
    decreases |overlays|
  {
    hide MergePeers, UnionTags, ParseBook;
    if overlays != [] {
      MergeAllHasParts(base, overlays[..|overlays| - 1]);
    }
  }

  lemma FindFilled(peers: seq<Fields>, secrets: map<string, string>, id: string)
    ensures Find(FillPeers(peers, secrets), id) ==
            if Find(peers, id).Some? then Some(FillPeer(Find(peers, id).value, secrets)) else None
  {
    hide LastIndex, IsEmpty;
    var filled := FillPeers(peers, secrets);
    assert forall i :: 0 <= i < |peers| ==> PeerId(filled[i]) == PeerId(peers[i]);
    LastIndexUnique(filled, id, LastIndex(peers, id));
  }

  /**
   The password a client sees for an id: the user's own when it is not empty, else the first
   usable vault secret of an organization that shares its book, else nothing but what the
   user's own entry held.  With repeated ids this is the entry the merge maintains, the last
   one.  A password written in an organization's document never shows.
   */
  lemma PasswordSource(own: Document, orgs: seq<Org>, secrets: map<string, string>, id: string)
    requires id != "" && Collected(secrets, SharedCredentials(orgs))
    ensures var mine := Find(PeersOf(ParseBook(own)), id);
            var kept := if mine.Some? then Get(mine.value, "password") else None;
            var shown := Find(Response(own, orgs, secrets), id);
            var secret := FirstSecret(SharedCredentials(orgs), id);
            shown.Some? ==>
              Get(shown.value, "password") ==
              if !IsEmpty(kept) then kept else if secret.Some? then Some(Str(secret.value)) else kept
  {
    hide MergeAll, ParseBook, ToPeers, IsEmpty, LastIndex, OverlayEntries, SharedBooks, Injected, EntriesOf, FirstSecret, MergeEntries;
    var base, books := ParseBook(own), SharedBooks(orgs);
    var merged := MergeAll(base, books);
    MergeAllHasParts(base, books);
    ParseOfBook(merged);
    InjectedPeers(Document(Obj(merged)), secrets);
    FindFilled(PeersOf(merged), secrets, id);
    FindInMergeAll(base, books, id);
    var mine := Find(PeersOf(base), id);
    var more := OverlayEntries(books, id);
    var found := Find(PeersOf(merged), id);
    if found.Some? {
      NoSecretEntries(orgs, id);
      MergedPassword(mine, more);
      FoundHasId(PeersOf(merged), id);
    }
  }

  lemma FoundHasId(peers: seq<Fields>, id: string)
    ensures Find(peers, id).Some? ==> PeerId(Find(peers, id).value) == id
  {
  }

  /** Entries without secrets do not change the password of what they are merged into. */
  lemma {:induction false} MergedPassword(first: Option<Fields>, more: seq<Fields>)
    requires forall p <- more :: !HasSecret(p)
    ensures var m := MergeEntries(first, more);
            m.Some? ==> Get(m.value, "password") == if first.Some? then Get(first.value, "password") else None
    decreases |more|
  {
    hide MergePeer;
    if more != [] {
      var init, last := more[..|more| - 1], more[|more| - 1];
      MergedPassword(first, init);
      assert last in more && !HasSecret(last);
      var before := MergeEntries(first, init);
      if before.Some? {
        assert Get(MergePeer(before.value, last), "password") == MergedField(before.value, last, "password");
      }
    }
  }
}
