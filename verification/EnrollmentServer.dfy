/**
 The enrollment handlers as the server runs them: tables and a nonce cache updated in
 place, statement by statement.  Each handler is proved to take the store of its tables to
 the store the corresponding step gives, and says what a caller can rely on afterwards;
 `Serve` carries the theorems about runs over to the tables.
 */
module EnrollmentServer {
  import opened Options
  import opened Text
  import opened ReplayCache
  import opened DeviceProof
  import opened Enrollment
  import opened EnrollmentRuns
  import opened EnrollmentRules
  import opened EnrollmentModes
  import opened EnrollmentAnswers

  /** Search of the credential candidates, first to last. */
  method HasEnrollmentCredential(tokens: map<string, Token>, id: string, candidates: seq<string>, bound: bool, now: int)
    returns (found: bool)
    ensures found == HasCredential(tokens, id, candidates, bound, now)
  {
    for i := 0 to |candidates|
      invariant forall j :: 0 <= j < i ==> !CredentialFits(tokens, id, candidates[j], bound, now)
    {
      var token := ValidateToken(tokens, candidates[i], now);
      if token.None? {
        continue;
      }
      if bound {
        if token.value.status == TokenActive && token.value.peerId == id {
          assert CredentialFits(tokens, id, candidates[i], bound, now);
          return true;
        }
        continue;
      }
      if token.value.peerId == "" || token.value.peerId == id {
        assert CredentialFits(tokens, id, candidates[i], bound, now);
        return true;
      }
    }
    return false;
  }

  /** The part of the running configuration an operator may change. */
  class EnrollmentConfig {
    var mode: Mode

    constructor (mode: Mode)
      ensures this.mode == mode
    {
      this.mode := mode;
    }
  }

  class Server {
    var peers: map<string, Peer>
    var pending: map<string, Pending>
    var rejected: map<string, bool>
    var decisions: map<string, Decision>
    var keys: map<string, Key>
    var bundles: map<string, string>
    var tokens: map<string, Token>
    const cache: NonceCache
    const cfg: EnrollmentConfig

    /** The tables and the cache as one value. */
    function Snapshot(): Store
      reads this, cache
    {
      Store(peers, pending, rejected, decisions, keys, bundles, tokens, cache.items)
    }

    constructor (mode: Mode)
      ensures cfg.mode == mode && fresh(cfg) && fresh(cache) && Snapshot() == EMPTY
    {
      peers, pending, rejected, decisions, keys, bundles, tokens := map[], map[], map[], map[], map[], map[], map[];
      var c := new NonceCache();
      cache := c;
      var config := new EnrollmentConfig(mode);
      cfg := config;
    }

    // -------------------------------------------------------------------------
    //  Helpers
    // -------------------------------------------------------------------------

    method CreatePeerFromEnrollment(id: string, uuid: string, bundleId: string, publicKey: KeyText, reset: bool)
      returns (ok: bool)
      modifies this
      ensures var created := CreatePeer(old(Snapshot()), id, uuid, bundleId, publicKey, reset);
              ok == created.Some? && Snapshot() == if ok then created.value else old(Snapshot())
    {
      if id == "" {
        return false;
      }
      if reset && id in peers && peers[id].softDeleted {
        return false;
      }
      if id in peers {
        var row := peers[id];
        if uuid != "" {
          row := row.(uuid := uuid);
        }
        peers := peers[id := row.(disabled := false)];
      } else {
        peers := peers[id := Peer(uuid, None, false, "", false, false)];
      }
      var bundle := NormalBundle(bundleId);
      if bundle != "" {
        bundles := bundles[id := bundle];
      }
      if publicKey.KeyText? {
        keys := keys[id := publicKey.key];
      }
      return true;
    }

    method StorePendingDevice(r: Request) returns (ok: bool)
      modifies this
      ensures var stored := StorePending(old(Snapshot()), r);
              ok == stored.Some? && Snapshot() == if ok then stored.value else old(Snapshot())
    {
      hide Contradicts, Enriched, Enriches, FirstPending;
      if r.deviceId in pending {
        var entry := pending[r.deviceId];
        EnrichmentIgnoresId(entry, r);
        if entry.deviceId == "" {
          entry := entry.(deviceId := r.deviceId);
        }
        var refused := IdentityConflict(entry, r);
        if refused {
          return false;
        }
        var changed;
        entry, changed := FillEntry(entry, r);
        if !changed {
          return true;
        }
        pending := pending[r.deviceId := entry];
        return true;
      }
      pending := pending[r.deviceId := FirstPending(r)];
      return true;
    }

    static lemma EnrichmentIgnoresId(p: Pending, r: Request)
      ensures var q := p.(deviceId := if p.deviceId == "" then r.deviceId else p.deviceId);
              && Enriched(q, r) == Enriched(p, r) && Enriches(q, r) == Enriches(p, r)
              && Contradicts(q, r) == Contradicts(p, r)
    {
    }

    /** The uuid, the key or the bundle of a later submission differs from what the entry holds. */
    static method IdentityConflict(entry: Pending, r: Request) returns (conflict: bool)
      ensures conflict == Contradicts(entry, r)
    {
      if entry.uuid != "" && r.uuid != "" && entry.uuid != r.uuid {
        return true;
      }
      if entry.publicKey != NoKey && r.publicKey != NoKey {
        var incoming, stored := Canonical(r.publicKey), Canonical(entry.publicKey);
        if stored.None? || incoming != stored {
          return true;
        }
      }
      if entry.bundleId != "" && r.bundleId != "" && NormalBundle(entry.bundleId) != NormalBundle(r.bundleId) {
        return true;
      }
      return false;
    }

    /** Field by field, what was empty is filled from the request. */
    static method FillEntry(p: Pending, r: Request) returns (entry: Pending, changed: bool)
      ensures entry == Enriched(p, r) && changed == Enriches(p, r)
    {
      hide NormalBundle, NormalTags, Trim;
      var hostname, c1 := FillText(p.hostname, r.hostname);
      var platform, c2 := FillText(p.platform, r.platform);
      var version, c3 := FillText(p.version, r.version);
      var deviceType, c4 := FillText(p.deviceType, Trim(r.deviceType));
      var bundleId, c5 := FillText(p.bundleId, NormalBundle(r.bundleId));
      var tags, c6 := FillText(p.tags, NormalTags(r.tags));
      var publicKey, c7 := p.publicKey, false;
      if p.publicKey == NoKey && r.publicKey != NoKey {
        publicKey, c7 := r.publicKey, true;
      }
      var uuid, c8 := FillText(p.uuid, r.uuid);
      var ip, c9 := FillText(p.ip, r.ip);
      var id := if p.deviceId == "" then r.deviceId else p.deviceId;
      entry := Pending(id, uuid, hostname, platform, version, deviceType, bundleId, tags, publicKey, ip);
      changed := c1 || c2 || c3 || c4 || c5 || c6 || c7 || c8 || c9;
    }

    static method FillText(had: string, sent: string) returns (value: string, changed: bool)
      ensures value == Fill(had, sent) && changed == (value != had)
    {
      if had == "" && sent != "" {
        return sent, true;
      }
      return had, false;
    }

    method IssueEnrollmentToken(id: string, text: string) returns (token: Option<string>)
      modifies this
      ensures (Snapshot(), token) == IssueToken(old(Snapshot()), id, text)
      ensures token.Some? ==> forall device, now :: CredentialFits(tokens, device, text, true, now) <==> device == id
      ensures forall t :: t in old(tokens) ==> t in tokens && tokens[t] == old(tokens)[t]
    {
      if text in tokens {
        return None;
      }
      tokens := tokens[text := Token(id, TokenActive, 0, 0, None)];
      return Some(text);
    }

    method AuthorizeTokenIssue(verb: string, path: string, id: string, publicKey: KeyText, candidates: seq<string>,
                               h: Headers, verified: bool, bound: bool, now: int) returns (ok: bool)
      modifies cache
      ensures var st := old(Snapshot());
              var a := IssueAttempt(st, verb, path, id, publicKey, h, now);
              && ok == Authorized(st, verified, a, h, id, candidates, bound, now)
              && Snapshot() == st.(nonces := NoncesAfter(st, verified, a, h))
      ensures ok <==>
                var tries := h.stamp != NoTime || h.nonce != "" || h.signature != NoSignature;
                || verified
                || (tries && ProofHolds(old(Snapshot()), verb, path, id, publicKey, h, now))
                || (!tries && exists text <- candidates :: Shows(tokens, id, text, bound, now))
      ensures ok && !verified && Provided(h) ==>
                forall later :: later <= now + NONCE_TTL ==>
                  !Authorized(Snapshot(), false, IssueAttempt(Snapshot(), verb, path, id, publicKey, h, later), h, id, candidates, bound, later)
    {
      hide Accepts, After, EnrollmentAttempt, ProofKey, HasCredential, ProofHolds, Shows;
      ProofAcceptedExactly(Snapshot(), verb, path, id, publicKey, h, now);
      AuthorizedExactly(Snapshot(), verified, IssueAttempt(Snapshot(), verb, path, id, publicKey, h, now), h, id, candidates, bound, now);
      AuthorizesOnce(Snapshot(), verb, path, id, publicKey, h, now);
      ok := CheckProofOrCredential(verb, path, id, publicKey, candidates, h, verified, bound, now);
    }

    method CheckProofOrCredential(verb: string, path: string, id: string, publicKey: KeyText, candidates: seq<string>,
                                  h: Headers, verified: bool, bound: bool, now: int) returns (ok: bool)
      modifies cache
      ensures var st := old(Snapshot());
              var a := IssueAttempt(st, verb, path, id, publicKey, h, now);
              && ok == Authorized(st, verified, a, h, id, candidates, bound, now)
              && Snapshot() == st.(nonces := NoncesAfter(st, verified, a, h))
    {
      if verified {
        return true;
      }
      if Provided(h) {
        var key := ProofKey(Snapshot(), id, publicKey);
        ok := VerifyEnrollmentProof(cache, verb, path, id, key, h, now);
        return;
      }
      ok := HasEnrollmentCredential(tokens, id, candidates, bound, now);
    }

    // -------------------------------------------------------------------------
    //  Registration and status poll
    // -------------------------------------------------------------------------

    method HandleDeviceRegister(r: Request) returns (answer: Answer)
      modifies this, cache
      ensures (Snapshot(), answer) == Register(old(Snapshot()), cfg.mode, r)
      ensures answer.status == StatusFor(old(Snapshot()), cfg.mode, r)
      ensures answer.status == Approved ==> ActiveRow(Snapshot(), r.deviceId)
      ensures answer.status == Approved && cfg.mode.Managed? ==> ActiveRow(old(Snapshot()), r.deviceId)
      ensures answer.status == Waiting ==> cfg.mode.Managed? && r.deviceId in pending
      ensures answer.status !in {Approved, Waiting} ==> OnlyTokens(old(Snapshot()), Snapshot())
    {
      hide Register, ActiveRow, OnlyTokens, Readmits, ReadmitRefusal, AdmittedOutright, Newcomer, Disputed;
      StatusExactly(Snapshot(), cfg.mode, r);
      hide StatusFor;
      RegisterAnswers(Snapshot(), cfg.mode, r);
      answer := ValidateAndAdmit(r);
    }

    method ValidateAndAdmit(r: Request) returns (answer: Answer)
      modifies this, cache
      ensures (Snapshot(), answer) == Register(old(Snapshot()), cfg.mode, r)
    {
      hide NormalBundle, Trim, Admit;
      if r.deviceId == "" {
        return Answer(Invalid, None);
      }
      if r.publicKey.BadKey? {
        return Answer(Invalid, None);
      }
      if r.supportAgent {
        if Trim(r.uuid) == "" || Trim(r.bundleId) == "" || r.publicKey == NoKey {
          return Answer(Invalid, None);
        }
        var key := ProofKey(Snapshot(), r.deviceId, r.publicKey);
        var ok := VerifyEnrollmentProof(cache, "POST", REGISTER_PATH, r.deviceId, key, r.headers, r.now);
        if !ok {
          return Answer(Refused, None);
        }
      }
      answer := AdmitDevice(r);
    }

    /** The handler behind request validation. */
    method AdmitDevice(r: Request) returns (answer: Answer)
      modifies this, cache
      ensures (Snapshot(), answer) == Admit(old(Snapshot()), cfg.mode, r)
    {
      hide Readmit, Trim, CreatePeer, Authorized, NoncesAfter, IssueAttempt, NextPending, ValidateToken, IssueToken, Candidates;
      var id := r.deviceId;
      if id in peers && peers[id].banned {
        return Answer(Refused, None);
      }
      if id in peers && peers[id].softDeleted {
        return Answer(Refused, None);
      }
      if id in rejected {
        return Answer(Refused, None);
      }
      var existing := GetPeer(Snapshot(), id);
      if existing.Some? {
        answer := ReadmitDevice(r);
        return;
      }
      match cfg.mode
      case Open =>
        var created := CreatePeerFromEnrollment(id, r.uuid, r.bundleId, r.publicKey, true);
        if !created {
          return Answer(Invalid, None);
        }
        var ok := AuthorizeTokenIssue("POST", REGISTER_PATH, id, r.publicKey, Candidates(r.token, r.bearer),
                                      r.headers, ProofCarried(r), false, r.now);
        var token: Option<string> := None;
        if ok {
          token := IssueEnrollmentToken(id, r.newToken);
        }
        return Answer(Approved, token);
      case Managed =>
        var stored := StorePendingDevice(r);
        if !stored {
          return Answer(Conflict, None);
        }
        return Answer(Waiting, None);
      case Locked =>
        answer := AdmitWithToken(r);
    }

    /** Locked mode: a usable token admits the device and is bound to it. */
    method AdmitWithToken(r: Request) returns (answer: Answer)
      requires !Blocked(Snapshot(), r.deviceId) && GetPeer(Snapshot(), r.deviceId).None?
      modifies this
      ensures (Snapshot(), answer) == Admit(old(Snapshot()), Locked, r)
    {
      hide CreatePeer, IssueToken, Blocked, GetPeer;
      var id := r.deviceId;
      if r.token != "" {
        var found := ValidateToken(tokens, r.token, r.now);
        if found.Some? && (found.value.peerId == "" || found.value.peerId == id) {
          if found.value.status == TokenPending {
            tokens := tokens[r.token := found.value.(peerId := id, status := TokenActive)];
          }
          tokens := tokens[r.token := tokens[r.token].(useCount := tokens[r.token].useCount + 1)];
          assert tokens == old(tokens)[r.token := tokens[r.token]];
          var created := CreatePeerFromEnrollment(id, r.uuid, r.bundleId, r.publicKey, true);
          if !created {
            return Answer(Invalid, None);
          }
          var token := IssueEnrollmentToken(id, r.newToken);
          if token.None? {
            token := Some(r.token);
          }
          return Answer(Approved, token);
        }
      }
      return Answer(Refused, None);
    }

    /** Registration of a device that already has a row. */
    method ReadmitDevice(r: Request) returns (answer: Answer)
      requires GetPeer(Snapshot(), r.deviceId).Some?
      modifies this, cache
      ensures (Snapshot(), answer) == Readmit(old(Snapshot()), r)
    {
      hide ReadmitRefusal, WithBundle, Recover;
      var refusal := IdentityRefusal(r);
      if refusal.Some? {
        return Answer(refusal.value, None);
      }
      BindBundle(r);
      answer := RecoverDevice(r);
    }

    method IdentityRefusal(r: Request) returns (refusal: Option<Status>)
      requires GetPeer(Snapshot(), r.deviceId).Some?
      ensures refusal == ReadmitRefusal(Snapshot(), r)
    {
      hide NormalBundle, LoadKey, Canonical;
      var id := r.deviceId;
      var existing := GetPeer(Snapshot(), id).value;
      if r.uuid != "" && existing.uuid != "" && !r.sameMachine {
        return Some(Conflict);
      }
      var bound := LoadKey(Snapshot(), id);
      if r.publicKey != NoKey && bound.Some? && Canonical(r.publicKey) != bound {
        return Some(Refused);
      }
      if r.supportAgent {
        var boundBundle := BoundBundle(Snapshot(), id);
        if boundBundle != "" && boundBundle != NormalBundle(r.bundleId) {
          return Some(Refused);
        }
      }
      return None;
    }

    method BindBundle(r: Request)
      modifies this
      ensures Snapshot() == WithBundle(old(Snapshot()), r)
    {
      if r.supportAgent {
        var boundBundle := BoundBundle(Snapshot(), r.deviceId);
        if boundBundle == "" {
          bundles := bundles[r.deviceId := NormalBundle(r.bundleId)];
        }
      }
    }

    method RecoverDevice(r: Request) returns (answer: Answer)
      modifies this, cache
      ensures (Snapshot(), answer) == Recover(old(Snapshot()), r)
    {
      hide Candidates, HasCredential, Authorized, NoncesAfter, IssueToken, IssueAttempt, ProofCarried, LoadKey;
      KeyIgnoresNonces(Snapshot(), r.deviceId);
      var id := r.deviceId;
      var bound := LoadKey(Snapshot(), id);
      var candidates := Candidates(r.token, r.bearer);
      var hasBound := HasEnrollmentCredential(tokens, id, candidates, true, r.now);
      var ok := AuthorizeTokenIssue("POST", REGISTER_PATH, id, r.publicKey, candidates, r.headers, ProofCarried(r), true, r.now);
      var token: Option<string> := None;
      if ok {
        if bound.None? && r.publicKey.KeyText? {
          keys := keys[id := r.publicKey.key];
        }
        if !hasBound {
          token := IssueEnrollmentToken(id, r.newToken);
        }
      }
      return Answer(Approved, token);
    }

    static lemma KeyIgnoresNonces(st: Store, id: string)
      ensures forall items :: LoadKey(st.(nonces := items), id) == LoadKey(st, id)
    {
    }

    method HandleDeviceRegisterStatus(q: PollRequest) returns (answer: Answer)
      modifies this, cache
      ensures (Snapshot(), answer) == Poll(old(Snapshot()), q)
      ensures OnlyTokens(old(Snapshot()), Snapshot())
      ensures answer.status == Approved ==> ActiveRow(Snapshot(), q.deviceId)
      ensures answer.status == Waiting ==> q.deviceId in pending && q.deviceId !in rejected
    {
      PollAnswers(Snapshot(), q);
      hide Candidates, HasCredential, Authorized, NoncesAfter, IssueToken, IssueAttempt;
      var id := q.deviceId;
      if id == "" {
        return Answer(Invalid, None);
      }
      if id in peers && peers[id].banned {
        return Answer(Refused, None);
      }
      if id in peers && peers[id].softDeleted {
        return Answer(Refused, None);
      }
      if id in rejected {
        return Answer(Refused, None);
      }
      var row := GetPeer(Snapshot(), id);
      if row.Some? {
        if row.value.disabled {
          return Answer(Refused, None);
        }
        var token: Option<string> := None;
        var hasBound := HasEnrollmentCredential(tokens, id, Candidates("", q.bearer), true, q.now);
        if !hasBound {
          var ok := AuthorizeTokenIssue("GET", STATUS_PATH, id, NoKey, Candidates("", q.bearer), q.headers, false, true, q.now);
          if ok {
            token := IssueEnrollmentToken(id, q.newToken);
          }
        }
        return Answer(Approved, token);
      }
      if id in pending {
        return Answer(Waiting, None);
      }
      return Answer(Unknown, None);
    }

    // -------------------------------------------------------------------------
    //  Operator decisions
    // -------------------------------------------------------------------------

    method HandleApproveDevice(id: string, wellFormed: bool) returns (answer: Answer)
      modifies this
      ensures (Snapshot(), answer) == Approve(old(Snapshot()), id, wellFormed)
      ensures Kept(old(Snapshot()), id) ==>
                (answer.status == Approved <==> wellFormed && id in old(pending))
      ensures Kept(old(Snapshot()), id) && answer.status == Approved ==>
                && ActiveRow(Snapshot(), id) && id !in pending && id !in rejected
                && (old(pending)[id].publicKey.KeyText? ==> LoadKey(Snapshot(), id) == Some(old(pending)[id].publicKey.key))
    {
      hide Kept, ActiveRow, LoadKey, NormalBundle;
      if Kept(Snapshot(), id) {
        ApprovalMeans(Snapshot(), id, wellFormed);
      }
      if id == "" || !wellFormed {
        return Answer(Invalid, None);
      }
      if id !in pending {
        return Answer(Unknown, None);
      }
      var p := pending[id];
      if p.deviceId == "" {
        p := p.(deviceId := id);
      }
      var ok := CreatePeerFromEnrollment(p.deviceId, p.uuid, p.bundleId, p.publicKey, true);
      if !ok {
        return Answer(Invalid, None);
      }
      pending := pending - {id};
      rejected := rejected - {id};
      decisions := decisions[id := ApprovedDecision];
      return Answer(Approved, None);
    }

    method HandleRejectDevice(id: string, ban: bool) returns (answer: Answer)
      modifies this
      ensures (Snapshot(), answer) == Reject(old(Snapshot()), id, ban)
      ensures Kept(old(Snapshot()), id) && id != "" ==>
                id !in pending && id in rejected && rejected[id] == ban && (ban ==> Banned(Snapshot(), id))
    {
      hide Kept, Banned, Reject;
      if Kept(Snapshot(), id) && id != "" {
        RejectionMeans(Snapshot(), id, ban);
      }
      answer := RejectDevice(id, ban);
    }

    method RejectDevice(id: string, ban: bool) returns (answer: Answer)
      modifies this
      ensures (Snapshot(), answer) == Reject(old(Snapshot()), id, ban)
    {
      hide NormalBundle, Upsert;
      if id == "" {
        return Answer(Invalid, None);
      }
      var p := if id in pending then pending[id] else NO_PENDING;
      if p.deviceId == "" {
        p := p.(deviceId := id);
      }
      pending := pending - {id};
      rejected := rejected[id := ban];
      if ban {
        var existing := GetPeer(Snapshot(), id);
        if existing.None? {
          var _ := CreatePeerFromEnrollment(p.deviceId, p.uuid, p.bundleId, p.publicKey, false);
        }
        if id in peers {
          peers := peers[id := peers[id].(banned := true, banReason := REJECT_REASON)];
        }
      }
      decisions := decisions[id := RejectedDecision(ban)];
      return Answer(Refused, None);
    }

    method ClearEnrollmentRejectionState(id: string)
      modifies this
      ensures Snapshot() == ClearRejectionState(old(Snapshot()), id)
    {
      rejected := rejected - {id};
      if id in decisions && decisions[id].RejectedDecision? {
        decisions := decisions - {id};
      }
    }

    method RemoveEnrollmentRejectAuditPeer(id: string)
      modifies this
      ensures Snapshot() == RemoveAuditPeer(old(Snapshot()), id)
    {
      keys := keys - {id};
      bundles := bundles - {id};
      peers := peers - {id};
    }

    method HandleClearEnrollmentRejection(id: string) returns (answer: Answer)
      modifies this
      ensures (Snapshot(), answer) == ClearRejection(old(Snapshot()), id)
      ensures Kept(old(Snapshot()), id) && id != "" ==> Lifted(old(Snapshot()), Snapshot(), id)
    {
      if Kept(Snapshot(), id) && id != "" {
        ClearMeans(Snapshot(), id);
      }
      if id == "" {
        return Answer(Invalid, None);
      }
      if id !in rejected && id !in decisions {
        return Answer(Unknown, None);
      }
      var audit := IsAuditPeer(GetPeer(Snapshot(), id), Lookup(rejected, id), Lookup(decisions, id));
      ClearEnrollmentRejectionState(id);
      if audit {
        RemoveEnrollmentRejectAuditPeer(id);
      }
      return Answer(Unknown, None);
    }

    method HandleUnbanPeer(id: string)
      modifies this
      ensures Snapshot() == Unban(old(Snapshot()), id)
      ensures Kept(old(Snapshot()), id) ==> Lifted(old(Snapshot()), Snapshot(), id)
    {
      hide Kept, Lifted;
      if Kept(Snapshot(), id) {
        UnbanMeans(Snapshot(), id);
      }
      var row := GetPeer(Snapshot(), id);
      if row.Some? && row.value.banReason == REJECT_REASON {
        ClearEnrollmentRejectionState(id);
        RemoveEnrollmentRejectAuditPeer(id);
        return;
      }
      if id in peers {
        peers := peers[id := peers[id].(banned := false, banReason := "")];
      }
      ClearEnrollmentRejectionState(id);
    }

    method QueueManagedViewerEnrollment(clientId: string, clientUuid: string, ip: string)
      modifies this
      ensures Snapshot() == QueueViewer(old(Snapshot()), cfg.mode, clientId, clientUuid, ip)
      ensures Snapshot() == old(Snapshot()).(pending := pending)
      ensures Trim(clientId) != "" && cfg.mode.Managed? && Free(old(Snapshot()), Trim(clientId)) ==> Trim(clientId) in pending
    {
      QueueMeans(Snapshot(), cfg.mode, clientId, clientUuid, ip);
      var id := Trim(clientId);
      if id == "" {
        return;
      }
      if cfg.mode != Managed {
        return;
      }
      if id in peers && peers[id].softDeleted {
        return;
      }
      if id in rejected {
        return;
      }
      if GetPeer(Snapshot(), id).Some? {
        return;
      }
      var _ := StorePendingDevice(ViewerRequest(clientId, clientUuid, ip));
    }

    /** An operator changes the mode. */
    method HandleSetEnrollmentMode(mode: Mode)
      modifies cfg
      ensures cfg.mode == mode
    {
      cfg.mode := mode;
    }

    // -------------------------------------------------------------------------
    //  Serving a run
    // -------------------------------------------------------------------------

    method Dispatch(e: Event) returns (answer: Answer)
      modifies this, cache
      ensures (Snapshot(), answer) == Step(old(Snapshot()), cfg.mode, e)
    {
      hide Register, Poll, Approve, Reject, ClearRejection, Unban, QueueViewer;
      answer := Answer(Unknown, None);
      match e
      case Registers(r) => answer := HandleDeviceRegister(r);
      case Polls(q) => answer := HandleDeviceRegisterStatus(q);
      case Approves(id, wellFormed) => answer := HandleApproveDevice(id, wellFormed);
      case Rejects(id, ban) => answer := HandleRejectDevice(id, ban);
      case Clears(id) => answer := HandleClearEnrollmentRejection(id);
      case Unbans(id) => HandleUnbanPeer(id);
      case LogsIn(clientId, clientUuid, ip) => QueueManagedViewerEnrollment(clientId, clientUuid, ip);
    }

    /**
     A server that starts empty serves a run while operators change the mode.  Its tables and
     answers are those of the run; every active row goes back to an approval or an outright
     admission; and in managed mode throughout no pending device has a row, and every approved
     answer goes back to an approval.
     */
    method Serve(modes: seq<Mode>, run: seq<Event>) returns (answers: seq<Answer>)
      requires |modes| == |run| && Snapshot() == EMPTY
      modifies this, cache, cfg
      ensures Snapshot() == StoreAcross(EMPTY, modes, run, |run|) && |answers| == |run|
      ensures forall i :: 0 <= i < |run| ==> answers[i] == Step(StoreAcross(EMPTY, modes, run, i), modes[i], run[i]).1
      ensures AllKept(Snapshot())
      ensures forall id :: ActiveRow(Snapshot(), id) ==> exists i: nat :: i < |run| && EnrolledAt(modes, run, i, id)
      ensures AlwaysManaged(modes) ==> AllSound(Snapshot())
      ensures AlwaysManaged(modes) ==>
                forall n: nat | n < |run| && (run[n].Registers? || run[n].Polls?) ::
                  answers[n].status == Approved ==> exists i: nat :: ApprovedAt(run, i, n, Subject(run[n]))
    {
      hide Step, AllKept, AllSound, EnrolledAt, ApprovedAt;
      answers := [];
      for i := 0 to |run|
        invariant Snapshot() == StoreAcross(EMPTY, modes, run, i) && |answers| == i
        invariant forall j :: 0 <= j < i ==> answers[j] == Step(StoreAcross(EMPTY, modes, run, j), modes[j], run[j]).1
      {
        HandleSetEnrollmentMode(modes[i]);
        var answer := Dispatch(run[i]);
        answers := answers + [answer];
      }
      EmptyIsKept();
      RunsKeep(EMPTY, modes, run, |run|);
      EveryRowEnrolled(modes, run);
      if AlwaysManaged(modes) {
        ManagedRun(modes, run);
        EveryApprovalGranted(modes, run);
      }
    }
  }
}
