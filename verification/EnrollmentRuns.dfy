/** What holds over whole enrollment runs. */
module EnrollmentRuns {
  import opened Options
  import opened Text
  import opened ReplayCache
  import opened DeviceProof
  import opened Enrollment

  // ---------------------------------------------------------------------------
  //  What registration and polling may touch
  // ---------------------------------------------------------------------------

  /** Same everything but tokens and nonces. */
  predicate OnlyTokens(st: Store, s: Store) {
    s == st.(nonces := s.nonces, tokens := s.tokens)
  }

  /** The request binds a first key to an enrolled device. */
  predicate BindsKey(st: Store, r: Request) {
    LoadKey(st, r.deviceId).None? && r.publicKey.KeyText? && ReadmitAuthorized(st, r)
  }

  lemma IssueEffect(st: Store, id: string, text: string)
    ensures IssueToken(st, id, text).0 == st.(tokens := IssueToken(st, id, text).0.tokens)
  {
  }

  lemma RecoverEffect(st: Store, r: Request)
    ensures var s := Recover(st, r).0;
            && s == st.(nonces := s.nonces, tokens := s.tokens, keys := s.keys)
            && s.keys == (if BindsKey(st, r) then st.keys[r.deviceId := r.publicKey.key] else st.keys)
            && Recover(st, r).1.status == Approved
  {
    hide ReadmitAuthorized, NoncesAfter, RegisterAttempt, HasCredential, Candidates, IssueToken, LoadKey, ProofCarried, WithFirstKey;
    var s1 := st.(nonces := NoncesAfter(st, ProofCarried(r), RegisterAttempt(st, r), r.headers));
    NoncesIrrelevant(st, s1, r.deviceId);
    FirstKeyEffect(s1, r);
    IssueEffect(WithFirstKey(s1, r), r.deviceId, r.newToken);
  }

  lemma FirstKeyEffect(st: Store, r: Request)
    ensures WithFirstKey(st, r) ==
            if LoadKey(st, r.deviceId).None? && r.publicKey.KeyText? then st.(keys := st.keys[r.deviceId := r.publicKey.key]) else st
  {
  }

  lemma NoncesIrrelevant(st: Store, s1: Store, id: string)
    requires s1 == st.(nonces := s1.nonces)
    ensures LoadKey(s1, id) == LoadKey(st, id)
  {
  }

  lemma BundleIrrelevant(st: Store, s1: Store, r: Request)
    requires s1 == st.(bundles := s1.bundles)
    ensures ReadmitAuthorized(s1, r) == ReadmitAuthorized(st, r)
    ensures LoadKey(s1, r.deviceId) == LoadKey(st, r.deviceId)
  {
    hide HasCredential, Accepts, Candidates, EnrollmentAttempt;
  }

  lemma ReadmitEffect(st: Store, r: Request)
    requires GetPeer(st, r.deviceId).Some?
    ensures var s := Readmit(st, r).0;
            && s == st.(nonces := s.nonces, tokens := s.tokens, keys := s.keys, bundles := s.bundles)
            && (Readmit(st, r).1.status == Approved <==> ReadmitRefusal(st, r).None?)
            && s.keys == (if ReadmitRefusal(st, r).None? && BindsKey(st, r) then st.keys[r.deviceId := r.publicKey.key] else st.keys)
            && s.bundles == (if ReadmitRefusal(st, r).None? then WithBundle(st, r).bundles else st.bundles)
  {
    hide Recover, ReadmitAuthorized, LoadKey, ReadmitRefusal, BoundBundle, NormalBundle;
    var s1 := WithBundle(st, r);
    BundleIrrelevant(st, s1, r);
    RecoverEffect(s1, r);
  }

  lemma PollEffect(st: Store, q: PollRequest)
    ensures var s := Poll(st, q).0;
            s == st.(nonces := s.nonces, tokens := s.tokens)
    ensures Poll(st, q).1.status == Approved ==> GetPeer(st, q.deviceId).Some? && !Banned(st, q.deviceId)
  {
    hide Authorized, NoncesAfter, PollAttempt, PollAsks, IssueToken;
    var s1 := st.(nonces := NoncesAfter(st, false, PollAttempt(st, q), q.headers));
    IssueEffect(s1, q.deviceId, q.newToken);
  }

  /** The store a registration works on once a support agent's proof has been looked at. */
  function Considered(st: Store, r: Request): Store {
    if r.supportAgent then st.(nonces := After(st.nonces, RegisterAttempt(st, r), NONCE_TTL, CLOCK_SKEW)) else st
  }

  /** The request passes validation and, for a support agent, its proof is accepted. */
  predicate PassesValidation(st: Store, r: Request) {
    !Malformed(r) && (r.supportAgent ==> Accepts(st.nonces, RegisterAttempt(st, r), CLOCK_SKEW))
  }

  lemma RegisterShape(st: Store, mode: Mode, r: Request)
    ensures OnlyTokens(st, Considered(st, r)) && Considered(st, r).tokens == st.tokens
    ensures PassesValidation(st, r) ==> Register(st, mode, r) == Admit(Considered(st, r), mode, r)
    ensures !PassesValidation(st, r) ==>
              OnlyTokens(st, Register(st, mode, r).0) && Register(st, mode, r).1 in {Answer(Invalid, None), Answer(Refused, None)}
  {
    hide Accepts, After, EnrollmentAttempt, ProofKey, Admit;
  }

  /** The request reaches the row of an enrolled device that nothing blocks. */
  predicate Readmits(st: Store, r: Request) {
    PassesValidation(st, r) && !Blocked(st, r.deviceId) && GetPeer(st, r.deviceId).Some?
  }

  /** The request of a device without a row that nothing blocks. */
  predicate Newcomer(st: Store, r: Request) {
    PassesValidation(st, r) && !Blocked(st, r.deviceId) && GetPeer(st, r.deviceId).None?
  }

  lemma ReadersAgree(st: Store, s: Store, r: Request)
    requires s == st.(nonces := s.nonces)
    ensures Blocked(s, r.deviceId) == Blocked(st, r.deviceId)
    ensures GetPeer(s, r.deviceId) == GetPeer(st, r.deviceId)
    ensures GetPeer(st, r.deviceId).Some? ==> ReadmitRefusal(s, r) == ReadmitRefusal(st, r)
    ensures LoadKey(s, r.deviceId) == LoadKey(st, r.deviceId)
    ensures WithBundle(s, r) == WithBundle(st, r).(nonces := s.nonces)
  {
    hide NormalBundle, BoundBundle, LoadKey;
    NoncesIrrelevant(st, s, r.deviceId);
    BundlesAgree(st, s, r.deviceId);
  }

  lemma BundlesAgree(st: Store, s: Store, id: string)
    requires s.bundles == st.bundles
    ensures BoundBundle(s, id) == BoundBundle(st, id)
  {
  }

  lemma PendingReadersAgree(st: Store, s: Store, r: Request)
    requires s == st.(nonces := s.nonces)
    ensures StorePending(st, r).Some? == StorePending(s, r).Some?
    ensures StorePending(st, r).Some? ==> StorePending(s, r).value == StorePending(st, r).value.(nonces := s.nonces)
  {
    hide NextPending;
  }

  /** Registration of an enrolled device, whatever the mode. */
  lemma ReadmitsEffect(st: Store, mode: Mode, r: Request)
    requires Readmits(st, r)
    ensures var (s, answer) := Register(st, mode, r);
            var ok := ReadmitRefusal(st, r).None?;
            && s == st.(nonces := s.nonces, tokens := s.tokens, keys := s.keys, bundles := s.bundles)
            && s.keys == (if ok && BindsKey(Considered(st, r), r) then st.keys[r.deviceId := r.publicKey.key] else st.keys)
            && s.bundles == (if ok then WithBundle(st, r).bundles else st.bundles)
            && (answer.status == Approved <==> ok)
  {
    hide PassesValidation, BindsKey, Blocked, Register, Readmit, GetPeer, ReadmitRefusal;
    var s1 := Considered(st, r);
    RegisterShape(st, mode, r);
    ReadersAgree(st, s1, r);
    ReadmitEffect(s1, r);
  }

  lemma ReadmitNeverWaits(st: Store, mode: Mode, r: Request)
    requires Readmits(st, r)
    ensures Register(st, mode, r).1.status != Waiting
  {
    hide PassesValidation, Blocked, Register, GetPeer, Recover;
    var s1 := Considered(st, r);
    RegisterShape(st, mode, r);
    ReadersAgree(st, s1, r);
    RecoverEffect(WithBundle(s1, r), r);
  }

  /** Registration of a newcomer in managed mode. */
  lemma NewcomerEffect(st: Store, r: Request)
    requires Newcomer(st, r)
    ensures var (s, answer) := Register(st, Managed, r);
            var stored := StorePending(st, r);
            && s == st.(nonces := s.nonces, pending := if stored.Some? then stored.value.pending else st.pending)
            && answer == Answer(if stored.Some? then Waiting else Conflict, None)
  {
    hide PassesValidation, Blocked, Register, StorePending, GetPeer;
    var s1 := Considered(st, r);
    RegisterShape(st, Managed, r);
    ReadersAgree(st, s1, r);
    PendingReadersAgree(st, s1, r);
    if StorePending(s1, r).Some? {
      PendingEffect(s1, r);
    }
  }

  /** Any other registration changes no device. */
  lemma OtherRegisterEffect(st: Store, mode: Mode, r: Request)
    requires !Readmits(st, r) && !Newcomer(st, r)
    ensures OnlyTokens(st, Register(st, mode, r).0)
    ensures Register(st, mode, r).1 in {Answer(Invalid, None), Answer(Refused, None)}
  {
    hide PassesValidation, Blocked, Register, GetPeer, StorePending, Readmit;
    var s1 := Considered(st, r);
    RegisterShape(st, mode, r);
    ReadersAgree(st, s1, r);
  }

  /** Storing a pending entry writes that entry only. */
  lemma PendingEffect(st: Store, r: Request)
    requires StorePending(st, r).Some?
    ensures var s := StorePending(st, r).value;
            && s == st.(pending := s.pending)
            && r.deviceId in s.pending
            && s.pending == st.pending[r.deviceId := s.pending[r.deviceId]]
            && (r.deviceId !in st.pending ==> s.pending[r.deviceId] == FirstPending(r))
            && (r.deviceId in st.pending ==>
                  !Contradicts(st.pending[r.deviceId], r) &&
                  (s.pending[r.deviceId] == Enriched(st.pending[r.deviceId], r) || s == st))
            && (r.deviceId in st.pending && st.pending[r.deviceId].deviceId != "" ==>
                  s.pending[r.deviceId] == Enriched(st.pending[r.deviceId], r))
  {
    hide Contradicts, NormalBundle, NormalTags, Trim, FirstPending;
  }

  // ---------------------------------------------------------------------------
  //  Admission without approval
  // ---------------------------------------------------------------------------

  /** The request carries a token that admits its device in locked mode. */
  predicate TokenAdmits(st: Store, r: Request) {
    var t := ValidateToken(st.tokens, r.token, r.now);
    r.token != "" && t.Some? && (t.value.peerId == "" || t.value.peerId == r.deviceId)
  }

  /** A newcomer gets a row at once: in open mode, or with a token in locked mode. */
  predicate AdmittedOutright(st: Store, mode: Mode, r: Request) {
    Newcomer(st, r) && (mode.Open? || (mode.Locked? && TokenAdmits(st, r)))
  }

  /** Nothing but tokens, nonces and the row, key and bundle of a new device. */
  predicate AddsDevice(st: Store, s: Store, r: Request) {
    && s == st.(nonces := s.nonces, tokens := s.tokens, peers := Upsert(st.peers, r.deviceId, r.uuid), keys := s.keys, bundles := s.bundles)
    && s.keys == (if r.publicKey.KeyText? then st.keys[r.deviceId := r.publicKey.key] else st.keys)
    && s.bundles == (if NormalBundle(r.bundleId) != "" then st.bundles[r.deviceId := NormalBundle(r.bundleId)] else st.bundles)
  }

  lemma OpenEffect(st: Store, r: Request)
    requires !Blocked(st, r.deviceId) && GetPeer(st, r.deviceId).None? && r.deviceId != ""
    ensures AddsDevice(st, Admit(st, Open, r).0, r) && Admit(st, Open, r).1.status == Approved
  {
    hide Authorized, NoncesAfter, RegisterAttempt, NormalBundle, IssueToken, Candidates, Upsert;
    var s2 := CreatePeer(st, r.deviceId, r.uuid, r.bundleId, r.publicKey, true).value;
    var s3 := s2.(nonces := NoncesAfter(s2, ProofCarried(r), RegisterAttempt(s2, r), r.headers));
    IssueEffect(s3, r.deviceId, r.newToken);
  }

  lemma LockedEffect(st: Store, r: Request)
    requires !Blocked(st, r.deviceId) && GetPeer(st, r.deviceId).None? && r.deviceId != ""
    ensures var (s, answer) := Admit(st, Locked, r);
            if TokenAdmits(st, r) then AddsDevice(st, s, r) && answer.status == Approved
            else s == st && answer.status == Refused
  {
    hide ValidateToken, NormalBundle, IssueToken, Upsert, CreatePeer;
    if TokenAdmits(st, r) {
      var t := ValidateToken(st.tokens, r.token, r.now).value;
      var bound := if t.status == TokenPending then t.(peerId := r.deviceId, status := TokenActive) else t;
      var s1 := st.(tokens := st.tokens[r.token := bound.(useCount := bound.useCount + 1)]);
      assert !Removed(s1, r.deviceId);
      CreateAdds(s1, r);
      var s2 := CreatePeer(s1, r.deviceId, r.uuid, r.bundleId, r.publicKey, true).value;
      IssueEffect(s2, r.deviceId, r.newToken);
    }
  }

  lemma CreateAdds(st: Store, r: Request)
    requires r.deviceId != "" && !Removed(st, r.deviceId)
    ensures var created := CreatePeer(st, r.deviceId, r.uuid, r.bundleId, r.publicKey, true);
            created.Some? && AddsDevice(st, created.value, r)
  {
    hide NormalBundle, Upsert;
  }

  /** Registration of a newcomer outside managed mode. */
  lemma OutrightEffect(st: Store, mode: Mode, r: Request)
    requires Newcomer(st, r) && !mode.Managed?
    ensures var (s, answer) := Register(st, mode, r);
            if AdmittedOutright(st, mode, r) then AddsDevice(st, s, r) && answer.status == Approved
            else OnlyTokens(st, s) && answer.status == Refused
  {
    hide PassesValidation, Blocked, Register, Admit, GetPeer, ValidateToken, NormalBundle, Upsert;
    var s1 := Considered(st, r);
    RegisterShape(st, mode, r);
    ReadersAgree(st, s1, r);
    ValidKey(st, r);
    if mode.Open? {
      OpenEffect(s1, r);
    } else {
      LockedEffect(s1, r);
    }
  }

  lemma ValidKey(st: Store, r: Request)
    requires PassesValidation(st, r)
    ensures r.deviceId != "" && !r.publicKey.BadKey?
  {
  }

  // ---------------------------------------------------------------------------
  //  What every step keeps, in any mode
  // ---------------------------------------------------------------------------

  /**
   A pending device has no rejection marker; a banned row has one and carries the reject reason,
   any other row carries none; keys and bundles belong to rows.
   */
  predicate Kept(st: Store, id: string) {
    && (id in st.pending ==>
          && id != "" && st.pending[id].deviceId == id && !st.pending[id].publicKey.BadKey?
          && id !in st.rejected)
    && (id in st.peers ==>
          && !st.peers[id].softDeleted
          && st.peers[id].banReason == (if st.peers[id].banned then REJECT_REASON else "")
          && (st.peers[id].banned ==> id in st.rejected))
    && (id in st.keys ==> id in st.peers)
    && (id in st.bundles ==> id in st.peers)
  }

  ghost predicate AllKept(st: Store) {
    forall id :: Kept(st, id)
  }

  /** A pending entry beside a row of the same device. */
  predicate Stale(st: Store, id: string) {
    id in st.pending && id in st.peers
  }

  /** What is kept, and a pending device has no row. */
  predicate Sound(st: Store, id: string) {
    Kept(st, id) && !Stale(st, id)
  }

  ghost predicate AllSound(st: Store) {
    forall id :: Sound(st, id)
  }

  lemma SoundIsKept(st: Store)
    ensures AllSound(st) <==> AllKept(st) && forall id :: !Stale(st, id)
  {
    hide Kept, Stale;
    if AllSound(st) {
      forall id ensures Kept(st, id) && !Stale(st, id) {
        assert Sound(st, id);
      }
    } else {
      var id :| !Sound(st, id);
      assert !Kept(st, id) || Stale(st, id);
    }
  }

  function Subject(e: Event): string {
    match e
    case Registers(r) => r.deviceId
    case Polls(q) => q.deviceId
    case Approves(id, _) => id
    case Rejects(id, _) => id
    case Clears(id) => id
    case Unbans(id) => id
    case LogsIn(clientId, _, _) => Trim(clientId)
  }

  lemma PendingKeeps(st: Store, r: Request)
    requires AllKept(st) && r.deviceId != "" && !r.publicKey.BadKey?
    requires r.deviceId !in st.peers && r.deviceId !in st.rejected && StorePending(st, r).Some?
    ensures AllKept(StorePending(st, r).value)
  {
    hide StorePending, Contradicts, NormalBundle, NormalTags, Trim;
    PendingEffect(st, r);
    var s := StorePending(st, r).value;
    assert Kept(st, r.deviceId);
    forall id ensures Kept(s, id) {
      assert Kept(st, id);
    }
  }

  /** What is kept looks at nothing but rows, entries, markers, keys and bundles. */
  lemma KeptCarries(st: Store, s: Store)
    requires AllKept(st) && s == st.(nonces := s.nonces, tokens := s.tokens)
    ensures AllKept(s)
  {
    forall id ensures Kept(s, id) {
      assert Kept(st, id);
    }
  }

  lemma ReadmitKeeps(st: Store, mode: Mode, r: Request)
    requires AllKept(st) && Readmits(st, r)
    ensures AllKept(Register(st, mode, r).0)
  {
    hide PassesValidation, Register, ReadmitRefusal, BindsKey, NormalBundle, BoundBundle;
    var s := Register(st, mode, r).0;
    ReadmitsEffect(st, mode, r);
    forall id ensures Kept(s, id) {
      assert Kept(st, id);
    }
  }

  lemma NoRow(st: Store, id: string)
    requires AllKept(st) && GetPeer(st, id).None?
    ensures id !in st.peers
  {
    assert Kept(st, id);
  }

  lemma NewcomerKeeps(st: Store, r: Request)
    requires AllKept(st) && Newcomer(st, r)
    ensures AllKept(Register(st, Managed, r).0)
  {
    hide PassesValidation, Register, StorePending, Kept;
    var s := Register(st, Managed, r).0;
    NewcomerEffect(st, r);
    if StorePending(st, r).Some? {
      ValidKey(st, r);
      NoRow(st, r.deviceId);
      PendingKeeps(st, r);
      PendingEffect(st, r);
      KeptCarries(StorePending(st, r).value, s);
    } else {
      KeptCarries(st, s);
    }
  }

  lemma OutrightKeeps(st: Store, mode: Mode, r: Request)
    requires AllKept(st) && AdmittedOutright(st, mode, r)
    ensures AllKept(Register(st, mode, r).0)
  {
    hide PassesValidation, Register, NormalBundle, TokenAdmits;
    var s := Register(st, mode, r).0;
    OutrightEffect(st, mode, r);
    NoRow(st, r.deviceId);
    forall id ensures Kept(s, id) {
      assert Kept(st, id);
    }
  }

  lemma RegisterKeeps(st: Store, mode: Mode, r: Request)
    requires AllKept(st)
    ensures AllKept(Register(st, mode, r).0)
  {
    hide PassesValidation, Register, Kept, TokenAdmits;
    if Readmits(st, r) {
      ReadmitKeeps(st, mode, r);
    } else if Newcomer(st, r) && mode.Managed? {
      NewcomerKeeps(st, r);
    } else if AdmittedOutright(st, mode, r) {
      OutrightKeeps(st, mode, r);
    } else {
      if Newcomer(st, r) {
        OutrightEffect(st, mode, r);
      } else {
        OtherRegisterEffect(st, mode, r);
      }
      KeptCarries(st, Register(st, mode, r).0);
    }
  }

  lemma QueueKeeps(st: Store, mode: Mode, clientId: string, clientUuid: string, ip: string)
    requires AllKept(st)
    ensures AllKept(QueueViewer(st, mode, clientId, clientUuid, ip))
  {
    hide StorePending, Trim;
    var r := ViewerRequest(clientId, clientUuid, ip);
    if QueueViewer(st, mode, clientId, clientUuid, ip) != st {
      assert Kept(st, r.deviceId);
      PendingKeeps(st, r);
    }
  }

  /** Approval of a pending device gives it a row, with the key its entry holds. */
  lemma ApproveEffect(st: Store, id: string)
    requires Kept(st, id) && id in st.pending
    ensures var (s, answer) := Approve(st, id, true);
            var p := st.pending[id];
            && s == st.(pending := st.pending - {id}, rejected := st.rejected - {id},
                        decisions := st.decisions[id := ApprovedDecision],
                        peers := Upsert(st.peers, id, p.uuid),
                        keys := if p.publicKey.KeyText? then st.keys[id := p.publicKey.key] else st.keys,
                        bundles := s.bundles)
            && s.bundles == (if NormalBundle(p.bundleId) != "" then st.bundles[id := NormalBundle(p.bundleId)] else st.bundles)
            && answer == Answer(Approved, None)
  {
    hide NormalBundle, Upsert;
  }

  lemma ApproveNothing(st: Store, id: string, wellFormed: bool)
    requires !(id != "" && wellFormed && id in st.pending)
    ensures Approve(st, id, wellFormed).0 == st && Approve(st, id, wellFormed).1.status != Approved
  {
  }

  lemma ApproveKeeps(st: Store, id: string, wellFormed: bool)
    requires AllKept(st)
    ensures AllKept(Approve(st, id, wellFormed).0)
  {
    hide NormalBundle, Approve;
    var s := Approve(st, id, wellFormed).0;
    assert Kept(st, id);
    if id != "" && wellFormed && id in st.pending {
      ApproveEffect(st, id);
      forall other ensures Kept(s, other) {
        assert Kept(st, other);
      }
    } else {
      ApproveNothing(st, id, wellFormed);
    }
  }

  function Entry(st: Store, id: string): Pending {
    if id in st.pending then st.pending[id] else NO_PENDING
  }

  /** The row a rejection with ban leaves behind. */
  function AuditRow(st: Store, id: string): Peer {
    if id in st.peers then st.peers[id].(banned := true, banReason := REJECT_REASON)
    else Peer(Entry(st, id).uuid, None, true, REJECT_REASON, false, false)
  }

  lemma RejectEffect(st: Store, id: string, ban: bool)
    requires Kept(st, id) && id != ""
    ensures var s := Reject(st, id, ban).0;
            && s == st.(pending := st.pending - {id}, rejected := st.rejected[id := ban],
                        decisions := st.decisions[id := RejectedDecision(ban)],
                        peers := if ban then st.peers[id := AuditRow(st, id)] else st.peers,
                        keys := s.keys, bundles := s.bundles)
            && s.keys == (if ban && id !in st.peers && Entry(st, id).publicKey.KeyText?
                          then st.keys[id := Entry(st, id).publicKey.key] else st.keys)
            && s.bundles == (if ban && id !in st.peers && NormalBundle(Entry(st, id).bundleId) != ""
                             then st.bundles[id := NormalBundle(Entry(st, id).bundleId)] else st.bundles)
  {
    hide NormalBundle, Upsert;
    if ban && id !in st.peers {
      var p := Entry(st, id);
      var s1 := st.(pending := st.pending - {id}, rejected := st.rejected[id := ban]);
      var created := CreatePeer(s1, id, p.uuid, p.bundleId, p.publicKey, false);
      AuditRowIsNew(st.peers, id, p.uuid);
      assert created.Some? && created.value.peers == Upsert(st.peers, id, p.uuid);
    }
  }

  lemma AuditRowIsNew(peers: map<string, Peer>, id: string, uuid: string)
    requires id !in peers
    ensures Ban(Upsert(peers, id, uuid), id, REJECT_REASON) == peers[id := Peer(uuid, None, true, REJECT_REASON, false, false)]
  {
  }

  lemma RejectNobody(st: Store, ban: bool)
    ensures Reject(st, "", ban).0 == st
  {
  }

  lemma RejectKeeps(st: Store, id: string, ban: bool)
    requires AllKept(st)
    ensures AllKept(Reject(st, id, ban).0)
  {
    hide NormalBundle, Reject;
    var s := Reject(st, id, ban).0;
    assert Kept(st, id);
    if id != "" {
      RejectEffect(st, id, ban);
      forall other ensures Kept(s, other) {
        assert Kept(st, other);
      }
    } else {
      RejectNobody(st, ban);
    }
  }

  /** The store after lifting a rejection: unchanged, without the marker, or also without the device. */
  predicate LiftedFrom(st: Store, s: Store, id: string) {
    var cleared := ClearRejectionState(st, id);
    s == st || s == RemoveAuditPeer(cleared, id) || (s == cleared && !Banned(st, id))
  }

  lemma ClearForm(st: Store, id: string)
    requires Kept(st, id)
    ensures LiftedFrom(st, ClearRejection(st, id).0, id)
    ensures Banned(st, id) && id != "" ==> ClearRejection(st, id).0 == RemoveAuditPeer(ClearRejectionState(st, id), id)
    ensures id != "" ==> id !in ClearRejection(st, id).0.rejected
  {
  }

  lemma UnbanForm(st: Store, id: string)
    requires Kept(st, id)
    ensures Unban(st, id) ==
            if Banned(st, id) then RemoveAuditPeer(ClearRejectionState(st, id), id) else ClearRejectionState(st, id)
  {
    hide RemoveAuditPeer, ClearRejectionState;
    if id in st.peers && !st.peers[id].banned {
      assert st.peers[id := st.peers[id].(banned := false, banReason := "")] == st.peers;
      assert st.(peers := st.peers) == st;
    }
  }

  lemma LiftKeeps(st: Store, s: Store, id: string)
    requires AllKept(st) && LiftedFrom(st, s, id)
    ensures AllKept(s)
  {
    assert Kept(st, id);
    forall other ensures Kept(s, other) {
      assert Kept(st, other);
    }
  }

  lemma StepKeeps(st: Store, mode: Mode, e: Event)
    requires AllKept(st)
    ensures AllKept(Step(st, mode, e).0)
  {
    hide Register, Poll, Approve, Reject, ClearRejection, Unban, QueueViewer, Kept, LiftedFrom;
    match e
    case Registers(r) => RegisterKeeps(st, mode, r);
    case Polls(q) =>
      PollEffect(st, q);
      KeptCarries(st, Poll(st, q).0);
    case LogsIn(clientId, clientUuid, ip) => QueueKeeps(st, mode, clientId, clientUuid, ip);
    case Approves(id, wellFormed) => ApproveKeeps(st, id, wellFormed);
    case Rejects(id, ban) => RejectKeeps(st, id, ban);
    case Clears(id) =>
      ClearForm(st, id);
      LiftKeeps(st, ClearRejection(st, id).0, id);
    case Unbans(id) =>
      UnbanLifts(st, id);
      LiftKeeps(st, Unban(st, id), id);
  }

  lemma UnbanLifts(st: Store, id: string)
    requires Kept(st, id)
    ensures LiftedFrom(st, Unban(st, id), id)
  {
    hide RemoveAuditPeer, ClearRejectionState, Unban;
    UnbanForm(st, id);
  }

  // ---------------------------------------------------------------------------
  //  A step touches its own device only
  // ---------------------------------------------------------------------------

  predicate SameDevice(st: Store, s: Store, id: string) {
    && Lookup(s.peers, id) == Lookup(st.peers, id) && Lookup(s.pending, id) == Lookup(st.pending, id)
    && Lookup(s.rejected, id) == Lookup(st.rejected, id) && Lookup(s.decisions, id) == Lookup(st.decisions, id)
    && Lookup(s.keys, id) == Lookup(st.keys, id) && Lookup(s.bundles, id) == Lookup(st.bundles, id)
  }

  lemma ReadmitIsLocal(st: Store, mode: Mode, r: Request, id: string)
    requires id != r.deviceId && Readmits(st, r)
    ensures SameDevice(st, Register(st, mode, r).0, id)
  {
    hide PassesValidation, Register, ReadmitRefusal, BindsKey, NormalBundle, BoundBundle, Blocked, GetPeer;
    ReadmitsEffect(st, mode, r);
  }

  lemma NewcomerIsLocal(st: Store, mode: Mode, r: Request, id: string)
    requires id != r.deviceId && Newcomer(st, r)
    ensures SameDevice(st, Register(st, mode, r).0, id)
  {
    hide PassesValidation, Register, NormalBundle, StorePending, TokenAdmits, Blocked, GetPeer;
    if mode.Managed? {
      NewcomerEffect(st, r);
      if StorePending(st, r).Some? {
        PendingEffect(st, r);
      }
    } else {
      OutrightEffect(st, mode, r);
    }
  }

  lemma RegisterIsLocal(st: Store, mode: Mode, r: Request, id: string)
    requires id != r.deviceId
    ensures SameDevice(st, Register(st, mode, r).0, id)
  {
    hide Readmits, Newcomer, Register;
    if Readmits(st, r) {
      ReadmitIsLocal(st, mode, r, id);
    } else if Newcomer(st, r) {
      NewcomerIsLocal(st, mode, r, id);
    } else {
      OtherRegisterEffect(st, mode, r);
    }
  }

  lemma QueueIsLocal(st: Store, mode: Mode, clientId: string, clientUuid: string, ip: string, id: string)
    requires id != Trim(clientId)
    ensures SameDevice(st, QueueViewer(st, mode, clientId, clientUuid, ip), id)
  {
    hide StorePending, Trim, GetPeer;
    var r := ViewerRequest(clientId, clientUuid, ip);
    if StorePending(st, r).Some? {
      PendingEffect(st, r);
    }
  }

  lemma ApproveIsLocal(st: Store, a: string, wellFormed: bool, id: string)
    requires Kept(st, a) && id != a
    ensures SameDevice(st, Approve(st, a, wellFormed).0, id)
  {
    hide Approve, NormalBundle;
    if a != "" && wellFormed && a in st.pending {
      ApproveEffect(st, a);
    } else {
      ApproveNothing(st, a, wellFormed);
    }
  }

  lemma RejectIsLocal(st: Store, a: string, ban: bool, id: string)
    requires Kept(st, a) && id != a
    ensures SameDevice(st, Reject(st, a, ban).0, id)
  {
    hide Reject, NormalBundle;
    if a != "" {
      RejectEffect(st, a, ban);
    } else {
      RejectNobody(st, ban);
    }
  }

  lemma LiftIsLocal(st: Store, s: Store, a: string, id: string)
    requires LiftedFrom(st, s, a) && id != a
    ensures SameDevice(st, s, id)
  {
    hide RemoveAuditPeer, ClearRejectionState;
    ClearIsLocal(st, a, id);
    RemovalIsLocal(ClearRejectionState(st, a), a, id);
  }

  lemma ClearIsLocal(st: Store, a: string, id: string)
    requires id != a
    ensures SameDevice(st, ClearRejectionState(st, a), id)
  {
  }

  lemma RemovalIsLocal(st: Store, a: string, id: string)
    requires id != a
    ensures SameDevice(st, RemoveAuditPeer(st, a), id)
  {
  }

  /** In any mode a step leaves the row, entry, marker, decision, key and bundle of every other device alone. */
  lemma StepIsLocal(st: Store, mode: Mode, e: Event, id: string)
    requires AllKept(st) && id != Subject(e)
    ensures SameDevice(st, Step(st, mode, e).0, id)
  {
    hide Register, Poll, Approve, Reject, ClearRejection, Unban, QueueViewer, LiftedFrom, Kept, Trim;
    assert Kept(st, Subject(e));
    match e
    case Registers(r) => RegisterIsLocal(st, mode, r, id);
    case Polls(q) => PollEffect(st, q);
    case LogsIn(clientId, clientUuid, ip) => QueueIsLocal(st, mode, clientId, clientUuid, ip, id);
    case Approves(a, wellFormed) => ApproveIsLocal(st, a, wellFormed, id);
    case Rejects(a, ban) => RejectIsLocal(st, a, ban, id);
    case Clears(a) =>
      ClearForm(st, a);
      LiftIsLocal(st, ClearRejection(st, a).0, a, id);
    case Unbans(a) =>
      UnbanLifts(st, a);
      LiftIsLocal(st, Unban(st, a), a, id);
  }

  // ---------------------------------------------------------------------------
  //  Where rows and stale entries come from
  // ---------------------------------------------------------------------------

  predicate ActiveRow(st: Store, id: string) {
    id in st.peers && !st.peers[id].banned
  }

  /** A registration is admitted outright. */
  predicate Admission(st: Store, mode: Mode, e: Event) {
    e.Registers? && AdmittedOutright(st, mode, e.request)
  }

  /** What the step makes of its own device's row and entry. */
  predicate RowStep(st: Store, mode: Mode, e: Event, s: Store) {
    var id := Subject(e);
    && (ActiveRow(s, id) ==> ActiveRow(st, id) || (e == Approves(id, true) && id in st.pending) || Admission(st, mode, e))
    && (Stale(s, id) && !Stale(st, id) <==> Admission(st, mode, e) && id in st.pending)
  }

  lemma ReadmitRows(st: Store, mode: Mode, r: Request)
    requires Readmits(st, r)
    ensures RowStep(st, mode, Registers(r), Register(st, mode, r).0)
  {
    hide PassesValidation, Register, ReadmitRefusal, BindsKey, WithBundle, TokenAdmits, Blocked;
    ReadmitsEffect(st, mode, r);
  }

  lemma NewcomerRows(st: Store, r: Request)
    requires Newcomer(st, r) && r.deviceId !in st.peers
    ensures RowStep(st, Managed, Registers(r), Register(st, Managed, r).0)
  {
    hide PassesValidation, Register, StorePending, Blocked;
    NewcomerEffect(st, r);
  }

  lemma OutrightRows(st: Store, mode: Mode, r: Request)
    requires Newcomer(st, r) && r.deviceId !in st.peers && !mode.Managed?
    ensures RowStep(st, mode, Registers(r), Register(st, mode, r).0)
  {
    hide PassesValidation, Register, NormalBundle, TokenAdmits, Blocked;
    OutrightEffect(st, mode, r);
  }

  lemma RegisterRows(st: Store, mode: Mode, r: Request)
    requires AllKept(st)
    ensures RowStep(st, mode, Registers(r), Register(st, mode, r).0)
  {
    hide PassesValidation, Register, Blocked, AllKept, GetPeer;
    if Readmits(st, r) {
      hide RowStep;
      ReadmitRows(st, mode, r);
    } else if Newcomer(st, r) {
      hide RowStep;
      NoRow(st, r.deviceId);
      if mode.Managed? {
        NewcomerRows(st, r);
      } else {
        OutrightRows(st, mode, r);
      }
    } else {
      OtherRegisterEffect(st, mode, r);
    }
  }

  lemma QueueRows(st: Store, mode: Mode, clientId: string, clientUuid: string, ip: string)
    requires AllKept(st)
    ensures RowStep(st, mode, LogsIn(clientId, clientUuid, ip), QueueViewer(st, mode, clientId, clientUuid, ip))
  {
    hide StorePending, Trim;
    var r := ViewerRequest(clientId, clientUuid, ip);
    assert Kept(st, r.deviceId);
    if StorePending(st, r).Some? {
      PendingEffect(st, r);
    }
  }

  lemma ApproveRows(st: Store, mode: Mode, id: string, wellFormed: bool)
    requires Kept(st, id)
    ensures RowStep(st, mode, Approves(id, wellFormed), Approve(st, id, wellFormed).0)
  {
    hide Approve, NormalBundle;
    if id != "" && wellFormed && id in st.pending {
      ApproveEffect(st, id);
    } else {
      ApproveNothing(st, id, wellFormed);
    }
  }

  lemma RejectRows(st: Store, mode: Mode, id: string, ban: bool)
    requires Kept(st, id)
    ensures RowStep(st, mode, Rejects(id, ban), Reject(st, id, ban).0)
  {
    hide Reject, NormalBundle;
    if id != "" {
      RejectEffect(st, id, ban);
    } else {
      RejectNobody(st, ban);
    }
  }

  lemma LiftRows(st: Store, mode: Mode, s: Store, e: Event)
    requires Kept(st, Subject(e)) && LiftedFrom(st, s, Subject(e)) && (e.Clears? || e.Unbans?)
    ensures RowStep(st, mode, e, s)
  {
  }

  lemma OwnRow(st: Store, mode: Mode, e: Event)
    requires AllKept(st)
    ensures RowStep(st, mode, e, Step(st, mode, e).0)
  {
    hide Register, Poll, Approve, Reject, ClearRejection, Unban, QueueViewer, LiftedFrom, Kept, Trim, RowStep;
    assert Kept(st, Subject(e));
    match e
    case Registers(r) => RegisterRows(st, mode, r);
    case Polls(q) => PollRows(st, mode, q);
    case LogsIn(clientId, clientUuid, ip) => QueueRows(st, mode, clientId, clientUuid, ip);
    case Approves(a, wellFormed) => ApproveRows(st, mode, a, wellFormed);
    case Rejects(a, ban) => RejectRows(st, mode, a, ban);
    case Clears(a) =>
      ClearForm(st, a);
      LiftRows(st, mode, ClearRejection(st, a).0, e);
    case Unbans(a) =>
      UnbanLifts(st, a);
      LiftRows(st, mode, Unban(st, a), e);
  }

  lemma PollRows(st: Store, mode: Mode, q: PollRequest)
    ensures RowStep(st, mode, Polls(q), Poll(st, q).0)
  {
    hide Poll;
    PollEffect(st, q);
  }

  /** Only an approval or an outright admission turns a device into an active one. */
  lemma RowOrigin(st: Store, mode: Mode, e: Event, id: string)
    requires AllKept(st) && ActiveRow(Step(st, mode, e).0, id)
    ensures ActiveRow(st, id) || (e == Approves(id, true) && id in st.pending) || (Admission(st, mode, e) && Subject(e) == id)
  {
    hide Step, AllKept, Admission;
    if id == Subject(e) {
      OwnRow(st, mode, e);
    } else {
      StepIsLocal(st, mode, e, id);
    }
  }

  /** An entry becomes stale exactly when its device is admitted outright. */
  lemma StaleOrigin(st: Store, mode: Mode, e: Event, id: string)
    requires AllKept(st)
    ensures Stale(Step(st, mode, e).0, id) && !Stale(st, id) <==> Admission(st, mode, e) && Subject(e) == id && id in st.pending
  {
    hide Step, AllKept, Admission;
    if id == Subject(e) {
      OwnRow(st, mode, e);
    } else {
      StepIsLocal(st, mode, e, id);
    }
  }

  lemma StepKeepsSound(st: Store, e: Event)
    requires AllSound(st)
    ensures AllSound(Step(st, Managed, e).0)
  {
    hide Step, AllKept, Stale, AllSound;
    var s := Step(st, Managed, e).0;
    SoundIsKept(st);
    SoundIsKept(s);
    StepKeeps(st, Managed, e);
    forall id ensures !Stale(s, id) {
      StaleOrigin(st, Managed, e, id);
    }
  }

  /** Every managed-mode run from an empty store keeps the store sound. */
  lemma {:induction false} RunsAreSound(run: seq<Event>, n: nat)
    requires n <= |run|
    ensures AllSound(StoreAt(EMPTY, Managed, run, n))
  {
    hide Step;
    if n > 0 {
      RunsAreSound(run, n - 1);
      StepKeepsSound(StoreAt(EMPTY, Managed, run, n - 1), run[n - 1]);
    }
  }

  // ---------------------------------------------------------------------------
  //  Managed-mode lifecycle
  // ---------------------------------------------------------------------------

  /** `run[i]` approved the pending device `id`, which has had a row ever since. */
  predicate ApprovedAt(run: seq<Event>, i: nat, n: nat, id: string)
    requires n <= |run|
  {
    && i < n && run[i] == Approves(id, true)
    && id in StoreAt(EMPTY, Managed, run, i).pending
    && forall m :: i < m <= n ==> id in StoreAt(EMPTY, Managed, run, m).peers
  }

  /** Every active row was created by an operator's approval of a pending device. */
  lemma {:induction false} ActiveMeansApproved(run: seq<Event>, n: nat, id: string) returns (i: nat)
    requires n <= |run| && ActiveRow(StoreAt(EMPTY, Managed, run, n), id)
    ensures ApprovedAt(run, i, n, id)
  {
    hide Step, AllSound, AllKept;
    RunsAreSound(run, n - 1);
    var st, e := StoreAt(EMPTY, Managed, run, n - 1), run[n - 1];
    SoundIsKept(st);
    RowOrigin(st, Managed, e, id);
    if ActiveRow(st, id) {
      i := ActiveMeansApproved(run, n - 1, id);
    } else {
      i := n - 1;
    }
  }

  /** An approved answer in managed mode is given to a device that has an active row already. */
  lemma ApprovedAnswer(st: Store, e: Event)
    requires (e.Registers? || e.Polls?) && Step(st, Managed, e).1.status == Approved
    ensures ActiveRow(st, Subject(e))
  {
    hide Register, Poll, PassesValidation, BindsKey, StorePending;
    if e.Registers? {
      var r := e.request;
      if Readmits(st, r) {
        ReadmitsEffect(st, Managed, r);
      } else if Newcomer(st, r) {
        NewcomerEffect(st, r);
      } else {
        OtherRegisterEffect(st, Managed, r);
      }
    } else {
      PollEffect(st, e.poll);
    }
  }

  /**
   In every managed-mode run from an empty store, an approved answer to a registration or a
   poll means that an operator approved the device and its row has existed since.
   */
  lemma ApprovedAnswerMeansApproved(run: seq<Event>, n: nat) returns (i: nat)
    requires n < |run| && (run[n].Registers? || run[n].Polls?)
    ensures AnswerAt(EMPTY, Managed, run, n).status == Approved ==> ApprovedAt(run, i, n, Subject(run[n]))
  {
    hide Step;
    i := 0;
    if AnswerAt(EMPTY, Managed, run, n).status == Approved {
      ApprovedAnswer(StoreAt(EMPTY, Managed, run, n), run[n]);
      i := ActiveMeansApproved(run, n, Subject(run[n]));
    }
  }

  // ---------------------------------------------------------------------------
  //  Lifting a ban
  // ---------------------------------------------------------------------------

  /** Rejecting with ban and then lifting it, either way, leaves no trace of the device. */
  lemma LiftedBanLeavesNothing(st: Store, id: string)
    requires AllKept(st) && id != ""
    ensures forall s <- {ClearRejection(Reject(st, id, true).0, id).0, Unban(Reject(st, id, true).0, id)} ::
              id !in s.peers && id !in s.pending && id !in s.rejected && id !in s.keys && id !in s.bundles && id !in s.decisions
  {
    hide NormalBundle, Reject, ClearRejection, Unban;
    assert Kept(st, id);
    var s := Reject(st, id, true).0;
    RejectEffect(st, id, true);
    RejectKeeps(st, id, true);
    assert Kept(s, id);
    ClearForm(s, id);
    UnbanForm(s, id);
  }

  /** Neither a row nor a rejection marker. */
  predicate Free(st: Store, id: string) {
    id !in st.peers && id !in st.rejected
  }

  predicate LiftsBan(e: Event, id: string) {
    e == Clears(id) || e == Unbans(id)
  }

  /** The event decides about the device. */
  predicate Decides(e: Event, id: string) {
    e == Approves(id, true) || (e.Rejects? && e.id == id)
  }

  lemma LiftFrees(st: Store, e: Event, id: string)
    requires AllKept(st) && LiftsBan(e, id) && id != "" && (Free(st, id) || Banned(st, id))
    ensures Free(Step(st, Managed, e).0, id)
  {
    hide ClearRejection, Unban;
    assert Kept(st, id);
    ClearForm(st, id);
    UnbanForm(st, id);
  }

  /** Until the next decision a device that is free stays free, and a banned one is banned until it is free. */
  lemma UndecidedStep(st: Store, e: Event, id: string)
    requires AllKept(st) && id != "" && !Decides(e, id) && (Free(st, id) || Banned(st, id))
    ensures var s := Step(st, Managed, e).0;
            Free(s, id) || (Banned(st, id) && Banned(s, id))
  {
    hide Register, Poll, Approve, ClearRejection, Unban, QueueViewer;
    assert Kept(st, id);
    if Subject(e) != id {
      StepIsLocal(st, Managed, e, id);
    } else {
      match e
      case Registers(r) => UndecidedRegister(st, r);
      case Polls(q) => PollEffect(st, q);
      case LogsIn(clientId, clientUuid, ip) => QueueKeepsRows(st, Managed, clientId, clientUuid, ip);
      case Approves(a, wellFormed) => ApproveNothing(st, a, wellFormed);
      case Clears(a) => LiftFrees(st, e, id);
      case Unbans(a) => LiftFrees(st, e, id);
    }
  }

  lemma UndecidedRegister(st: Store, r: Request)
    requires Free(st, r.deviceId) || Banned(st, r.deviceId)
    ensures var s := Register(st, Managed, r).0;
            s.peers == st.peers && s.rejected == st.rejected
  {
    hide Register, PassesValidation, StorePending;
    if Newcomer(st, r) {
      NewcomerEffect(st, r);
    } else {
      OtherRegisterEffect(st, Managed, r);
    }
  }

  /** `run[i]` rejects the device with ban, and nobody decides about it again before `n`. */
  predicate BannedSince(run: seq<Event>, i: nat, n: nat, id: string) {
    i < n <= |run| && id != "" && run[i] == Rejects(id, true) && forall m :: i < m < n ==> !Decides(run[m], id)
  }

  lemma {:induction false} BannedOrFree(run: seq<Event>, i: nat, n: nat, id: string)
    requires BannedSince(run, i, n, id)
    ensures var st := StoreAt(EMPTY, Managed, run, n);
            Banned(st, id) || Free(st, id)
    decreases n
  {
    hide Step, AllSound, AllKept;
    var st := StoreAt(EMPTY, Managed, run, n - 1);
    RunsAreSound(run, n - 1);
    SoundIsKept(st);
    if i == n - 1 {
      BansNow(st, id);
    } else {
      BannedOrFree(run, i, n - 1, id);
      UndecidedStep(st, run[n - 1], id);
    }
  }

  lemma BansNow(st: Store, id: string)
    requires AllKept(st) && id != ""
    ensures Banned(Step(st, Managed, Rejects(id, true)).0, id)
  {
    hide Reject, NormalBundle;
    assert Kept(st, id);
    RejectEffect(st, id, true);
  }

  lemma {:induction false} FreeSinceLift(run: seq<Event>, i: nat, j: nat, n: nat, id: string)
    requires BannedSince(run, i, n, id) && i < j < n && LiftsBan(run[j], id)
    ensures Free(StoreAt(EMPTY, Managed, run, n), id)
    decreases n
  {
    hide Step, AllSound, AllKept;
    var st := StoreAt(EMPTY, Managed, run, n - 1);
    RunsAreSound(run, n - 1);
    SoundIsKept(st);
    if j == n - 1 {
      BannedOrFree(run, i, n - 1, id);
      LiftFrees(st, run[j], id);
    } else {
      FreeSinceLift(run, i, j, n - 1, id);
      UndecidedStep(st, run[n - 1], id);
    }
  }

  /**
   Over every managed-mode run: after a rejection with ban that was lifted, and before the next
   decision, a registration that passes validation is answered with pending, never approved; it
   is a conflict exactly when it contradicts what was queued for the device in the meantime.
   */
  lemma LiftedBanMeansPending(run: seq<Event>, i: nat, j: nat, n: nat)
    requires n < |run| && run[n].Registers? && i < j < n
    requires BannedSince(run, i, n, Subject(run[n])) && LiftsBan(run[j], Subject(run[n]))
    ensures var st, r := StoreAt(EMPTY, Managed, run, n), run[n].request;
            PassesValidation(st, r) ==>
              AnswerAt(EMPTY, Managed, run, n) ==
              Answer(if r.deviceId in st.pending && Contradicts(st.pending[r.deviceId], r) then Conflict else Waiting, None)
  {
    hide Register, PassesValidation, Contradicts, FirstPending;
    var st, r := StoreAt(EMPTY, Managed, run, n), run[n].request;
    FreeSinceLift(run, i, j, n, r.deviceId);
    if PassesValidation(st, r) {
      NewcomerEffect(st, r);
    }
  }

  /** A login with one uuid between the lift and a registration with another makes it a conflict. */
  lemma LoginMakesConflict(r: Request, clientUuid: string, ip: string)
    requires !Malformed(r) && !r.supportAgent && Trim(r.deviceId) == r.deviceId
    requires Trim(clientUuid) != "" && r.uuid != "" && Trim(clientUuid) != r.uuid
    ensures var run := [Rejects(r.deviceId, true), Unbans(r.deviceId), LogsIn(r.deviceId, clientUuid, ip), Registers(r)];
            AnswerAt(EMPTY, Managed, run, 3) == Answer(Conflict, None)
  {
    hide Step, Trim;
    var id := r.deviceId;
    var run := [Rejects(id, true), Unbans(id), LogsIn(id, clientUuid, ip), Registers(r)];
    FreeSinceLift(run, 0, 1, 2, id);
    var st := StoreAt(EMPTY, Managed, run, 2);
    assert StoreAt(EMPTY, Managed, run, 1) == Step(EMPTY, Managed, Rejects(id, true)).0;
    EmptyIsKept();
    LiftedBanLeavesPending(id);
    QueuesViewer(st, id, clientUuid, ip);
    var s := StoreAt(EMPTY, Managed, run, 3);
    assert s == Step(st, Managed, run[2]).0;
    ConflictAnswer(s, r);
  }

  lemma EmptyIsKept()
    ensures AllKept(EMPTY)
  {
  }

  lemma LiftedBanLeavesPending(id: string)
    requires id != ""
    ensures id !in Step(Step(EMPTY, Managed, Rejects(id, true)).0, Managed, Unbans(id)).0.pending
  {
    hide Reject, Unban;
    LiftedBanLeavesNothing(EMPTY, id);
  }

  lemma QueuesViewer(st: Store, id: string, clientUuid: string, ip: string)
    requires Free(st, id) && id !in st.pending && Trim(id) == id && id != ""
    ensures var s := Step(st, Managed, LogsIn(id, clientUuid, ip)).0;
            Free(s, id) && id in s.pending && s.pending[id].uuid == Trim(clientUuid)
  {
    hide Trim, NormalBundle, NormalTags, Contradicts, Enriched, Enriches;
    var r := ViewerRequest(id, clientUuid, ip);
    assert StorePending(st, r) == Some(st.(pending := st.pending[id := FirstPending(r)]));
    hide StorePending;
    assert QueueViewer(st, Managed, id, clientUuid, ip) == StorePending(st, r).value;
  }

  lemma ConflictAnswer(st: Store, r: Request)
    requires !Malformed(r) && !r.supportAgent && Free(st, r.deviceId)
    requires r.deviceId in st.pending && Contradicts(st.pending[r.deviceId], r)
    ensures Step(st, Managed, Registers(r)).1 == Answer(Conflict, None)
  {
    hide Contradicts, Register, Accepts, RegisterAttempt;
    NewcomerEffect(st, r);
  }

  lemma QueueKeepsRows(st: Store, mode: Mode, clientId: string, clientUuid: string, ip: string)
    ensures var s := QueueViewer(st, mode, clientId, clientUuid, ip);
            s == st.(pending := s.pending)
  {
    hide NextPending, Trim;
  }
}
