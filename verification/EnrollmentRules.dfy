/**
 The rules of enrollment over the fields of the tables and requests: who may sign a proof, what
 authorizes a token, which answer a registration gets, and what is kept of it.
 */
module EnrollmentRules {
  import opened Options
  import opened Text
  import opened ReplayCache
  import opened DeviceProof
  import opened Enrollment
  import opened EnrollmentRuns

  predicate LiveRow(st: Store, id: string) {
    id in st.peers && !st.peers[id].softDeleted
  }

  // ---------------------------------------------------------------------------
  //  Proofs
  // ---------------------------------------------------------------------------

  /**
   Who may sign for a device: with a row its explicit key, else the row's own, and without either
   nobody; without a row the key captured while it was pending, else the key sent.  A key that is
   sent must in any case be the signer's.
   */
  predicate MaySign(st: Store, id: string, sent: KeyText, signer: Key) {
    && (sent != NoKey ==> sent.KeyText? && sent.key == signer)
    && if LiveRow(st, id) then
         if id in st.keys then signer == st.keys[id] else st.peers[id].pk == Some(signer)
       else if id in st.pending && st.pending[id].deviceId != "" && st.pending[id].publicKey != NoKey then
         st.pending[id].publicKey.KeyText? && signer == st.pending[id].publicKey.key
       else sent != NoKey
  }

  /** The headers carry a signature over the request, their timestamp and their nonce, by one who may sign. */
  predicate IsSigned(st: Store, verb: string, path: string, id: string, sent: KeyText, h: Headers) {
    && h.stamp.TimeText? && 0 < |h.nonce| <= 256 && h.signature.Signature?
    && h.signature.payload == EnrollmentPayload(verb, path, id, h.signature.signer, h.stamp.spelling, h.nonce)
    && MaySign(st, id, sent, h.signature.signer)
  }

  /** The proof is signed by one who may, timely, and its nonce is not remembered. */
  predicate ProofHolds(st: Store, verb: string, path: string, id: string, sent: KeyText, h: Headers, now: int) {
    && IsSigned(st, verb, path, id, sent, h)
    && WithinSkew(now, h.stamp.instant, CLOCK_SKEW)
    && "enrollment:" + id + ":" + h.nonce !in Live(st.nonces, now)
  }

  /** A proof is accepted exactly when it holds. */
  lemma ProofAcceptedExactly(st: Store, verb: string, path: string, id: string, sent: KeyText, h: Headers, now: int)
    ensures Accepts(st.nonces, IssueAttempt(st, verb, path, id, sent, h, now), CLOCK_SKEW) <==>
            ProofHolds(st, verb, path, id, sent, h, now)
  {
    hide EnrollmentPayload, WithinSkew, Live;
    SignerIsProofKey(st, id, sent);
  }

  lemma SignerIsProofKey(st: Store, id: string, sent: KeyText)
    ensures forall key: Key :: MaySign(st, id, sent, key) <==> ProofKey(st, id, sent) == Some(key)
  {
  }

  /** A device with a row and no key bound in any way cannot prove itself. */
  lemma WithoutKeyNoProof(st: Store, verb: string, path: string, id: string, sent: KeyText, h: Headers, now: int)
    requires LiveRow(st, id) && id !in st.keys && st.peers[id].pk.None?
    ensures !Accepts(st.nonces, IssueAttempt(st, verb, path, id, sent, h, now), CLOCK_SKEW)
  {
    hide EnrollmentPayload, WithinSkew, Live, IssueAttempt;
    ProofAcceptedExactly(st, verb, path, id, sent, h, now);
  }

  // ---------------------------------------------------------------------------
  //  Tokens
  // ---------------------------------------------------------------------------

  /** The text is that of a token that is not revoked, not past its expiry and not used up. */
  predicate UsableToken(tokens: map<string, Token>, text: string, now: int) {
    && text in tokens && tokens[text].status != TokenRevoked
    && (tokens[text].expiresAt.Some? ==> now <= tokens[text].expiresAt.value)
    && (tokens[text].maxUses == 0 || tokens[text].useCount < tokens[text].maxUses)
  }

  /** The text is a usable token: an active one of the device, or where none has to be bound, one of nobody else's. */
  predicate Shows(tokens: map<string, Token>, id: string, text: string, bound: bool, now: int) {
    && UsableToken(tokens, text, now)
    && if bound then tokens[text].status == TokenActive && tokens[text].peerId == id else tokens[text].peerId in {"", id}
  }

  lemma ShowsExactly(tokens: map<string, Token>, id: string, text: string, bound: bool, now: int)
    ensures CredentialFits(tokens, id, text, bound, now) <==> Shows(tokens, id, text, bound, now)
    ensures ValidateToken(tokens, text, now) == if UsableToken(tokens, text, now) then Some(tokens[text]) else None
  {
  }

  lemma CandidatesExactly(body: string, bearer: string, text: string)
    ensures text in Candidates(body, bearer) <==> text != "" && (text == Trim(body) || text == Trim(bearer))
  {
    hide Trim;
  }

  /**
   A token is authorized exactly by a proof verified before, by a proof that is accepted, or, when
   none of its three headers is there, by one of the candidates shown.
   */
  lemma AuthorizedExactly(st: Store, verified: bool, a: Attempt, h: Headers, id: string, candidates: seq<string>, bound: bool, now: int)
    ensures Authorized(st, verified, a, h, id, candidates, bound, now) <==>
            var tries := h.stamp != NoTime || h.nonce != "" || h.signature != NoSignature;
            || verified
            || (tries && Accepts(st.nonces, a, CLOCK_SKEW))
            || (!tries && exists text <- candidates :: Shows(st.tokens, id, text, bound, now))
  {
    hide Accepts, Shows, CredentialFits;
    forall text ensures CredentialFits(st.tokens, id, text, bound, now) <==> Shows(st.tokens, id, text, bound, now) {
      ShowsExactly(st.tokens, id, text, bound, now);
    }
  }

  /** The request shows an active token of its device. */
  ghost predicate ShowsActiveToken(st: Store, r: Request) {
    exists text :: text != "" && (text == Trim(r.token) || text == Trim(r.bearer)) && Shows(st.tokens, r.deviceId, text, true, r.now)
  }

  /** A device with a row and no key is authorized only by an active token of its own. */
  lemma FirstKeyNeedsToken(st: Store, r: Request)
    requires LiveRow(st, r.deviceId) && r.deviceId !in st.keys && st.peers[r.deviceId].pk.None?
    requires PassesValidation(st, r) && ReadmitAuthorized(Considered(st, r), r)
    ensures ShowsActiveToken(st, r)
  {
    hide Accepts, Shows, Authorized, IssueAttempt, After, Trim, Candidates;
    var s := Considered(st, r);
    WithoutKeyNoProof(st, "POST", REGISTER_PATH, r.deviceId, r.publicKey, r.headers, r.now);
    WithoutKeyNoProof(s, "POST", REGISTER_PATH, r.deviceId, r.publicKey, r.headers, r.now);
    var candidates := Candidates(r.token, r.bearer);
    AuthorizedExactly(s, ProofCarried(r), RegisterAttempt(s, r), r.headers, r.deviceId, candidates, true, r.now);
    var text :| text in candidates && Shows(s.tokens, r.deviceId, text, true, r.now);
    CandidatesExactly(r.token, r.bearer, text);
  }

  // ---------------------------------------------------------------------------
  //  Submissions
  // ---------------------------------------------------------------------------

  /** Another uuid, another key or another bundle than the entry holds. */
  predicate Clashes(p: Pending, r: Request) {
    || (p.uuid != "" && r.uuid != "" && p.uuid != r.uuid)
    || (p.publicKey != NoKey && r.publicKey != NoKey && !(p.publicKey.KeyText? && r.publicKey.KeyText? && p.publicKey.key == r.publicKey.key))
    || (p.bundleId != "" && r.bundleId != "" && NormalBundle(p.bundleId) != NormalBundle(r.bundleId))
  }

  function FirstOf(had: string, sent: string): string {
    if had != "" then had else sent
  }

  /** The tags kept are the trimmed, distinct parts between commas, separated by commas again. */
  lemma TagsKept(raw: string)
    ensures var tags := AddTags([], Split(raw, ','));
            if tags == [] then NormalTags(raw) == "" else Split(NormalTags(raw), ',') == tags
  {
    hide AddTags, Split;
    var parts := Split(raw, ',');
    SplitJoins(raw, ',');
    AddTagsWithout(parts, ',');
    if AddTags([], parts) != [] {
      JoinSplits(AddTags([], parts), ',');
    }
  }

  /** A submission is refused exactly when it clashes with the entry; otherwise every field is what it was, or what is sent where it was empty. */
  lemma SubmissionExactly(st: Store, r: Request)
    ensures StorePending(st, r).None? <==> r.deviceId in st.pending && Clashes(st.pending[r.deviceId], r)
    ensures StorePending(st, r).Some? ==>
              && r.deviceId in StorePending(st, r).value.pending
              && var p, q := Entry(st, r.deviceId), StorePending(st, r).value.pending[r.deviceId];
                 && q.uuid == FirstOf(p.uuid, r.uuid) && q.hostname == FirstOf(p.hostname, r.hostname)
                 && q.platform == FirstOf(p.platform, r.platform) && q.version == FirstOf(p.version, r.version)
                 && q.deviceType == FirstOf(p.deviceType, Trim(r.deviceType)) && q.bundleId == FirstOf(p.bundleId, NormalBundle(r.bundleId))
                 && q.tags == FirstOf(p.tags, NormalTags(r.tags)) && q.ip == FirstOf(p.ip, r.ip)
                 && q.publicKey == (if p.publicKey != NoKey then p.publicKey else r.publicKey)
                 && (p.deviceId != "" ==> q.deviceId == p.deviceId) && (r.deviceId !in st.pending ==> q.deviceId == r.deviceId)
  {
    hide Trim, NormalBundle, NormalTags;
    ClashesExactly(Entry(st, r.deviceId), r);
  }

  lemma ClashesExactly(p: Pending, r: Request)
    ensures Contradicts(p, r) <==> Clashes(p, r)
  {
    hide NormalBundle;
  }

  // ---------------------------------------------------------------------------
  //  The answer to a registration
  // ---------------------------------------------------------------------------

  predicate InvalidRequest(r: Request) {
    || r.deviceId == "" || r.publicKey.BadKey?
    || (r.supportAgent && (AllSpace(r.uuid) || AllSpace(r.bundleId) || r.publicKey == NoKey))
  }

  predicate Shut(st: Store, id: string) {
    (id in st.peers && (st.peers[id].banned || st.peers[id].softDeleted)) || id in st.rejected
  }

  predicate OtherMachine(st: Store, r: Request)
    requires r.deviceId in st.peers
  {
    r.uuid != "" && st.peers[r.deviceId].uuid != "" && !r.sameMachine
  }

  /** A key is sent and another one is bound. */
  predicate OtherKey(st: Store, r: Request)
    requires r.deviceId in st.peers
  {
    && r.publicKey.KeyText?
    && if r.deviceId in st.keys then r.publicKey.key != st.keys[r.deviceId]
       else st.peers[r.deviceId].pk.Some? && r.publicKey.key != st.peers[r.deviceId].pk.value
  }

  /** A support agent sends another bundle than the one bound. */
  predicate OtherBundle(st: Store, r: Request) {
    && r.supportAgent && r.deviceId in st.bundles
    && NormalBundle(st.bundles[r.deviceId]) != "" && NormalBundle(st.bundles[r.deviceId]) != NormalBundle(r.bundleId)
  }

  /** The headers of a registration prove it. */
  predicate RequestProved(st: Store, r: Request) {
    ProofHolds(st, "POST", "/api/devices/register", r.deviceId, r.publicKey, r.headers, r.now)
  }

  /** What a registration is answered, over the fields of the tables. */
  function StatusFor(st: Store, mode: Mode, r: Request): Status {
    var id := r.deviceId;
    if InvalidRequest(r) then Invalid
    else if r.supportAgent && !RequestProved(st, r) then Refused
    else if Shut(st, id) then Refused
    else if id in st.peers then
      if OtherMachine(st, r) then Conflict else if OtherKey(st, r) || OtherBundle(st, r) then Refused else Approved
    else
      match mode
      case Open => Approved
      case Managed => if id in st.pending && Clashes(st.pending[id], r) then Conflict else Waiting
      case Locked => if r.token != "" && Shows(st.tokens, id, r.token, false, r.now) then Approved else Refused
  }

  lemma InvalidExactly(r: Request)
    ensures InvalidRequest(r) <==> Malformed(r)
  {
    hide Trim;
    TrimsToNothing(r.uuid);
    TrimsToNothing(r.bundleId);
  }

  lemma RefusalExactly(st: Store, r: Request)
    requires GetPeer(st, r.deviceId).Some? && !r.publicKey.BadKey?
    ensures ReadmitRefusal(st, r) ==
            if OtherMachine(st, r) then Some(Conflict) else if OtherKey(st, r) || OtherBundle(st, r) then Some(Refused) else None
  {
    hide NormalBundle;
  }

  lemma ReadmitStatus(st: Store, mode: Mode, r: Request)
    requires Readmits(st, r)
    ensures Register(st, mode, r).1.status == if ReadmitRefusal(st, r).Some? then ReadmitRefusal(st, r).value else Approved
  {
    hide PassesValidation, Blocked, Register, GetPeer, Recover, ReadmitRefusal;
    var s := Considered(st, r);
    RegisterShape(st, mode, r);
    ReadersAgree(st, s, r);
    RecoverEffect(WithBundle(s, r), r);
  }

  /** Every registration is answered exactly so, in every mode and store. */
  lemma StatusExactly(st: Store, mode: Mode, r: Request)
    ensures Register(st, mode, r).1.status == StatusFor(st, mode, r)
  {
    hide Register, Accepts, IssueAttempt, ProofHolds, AllSpace, Trim, NormalBundle, Clashes, OtherMachine, OtherKey, OtherBundle, Shows, ReadmitRefusal;
    InvalidExactly(r);
    ProofAcceptedExactly(st, "POST", REGISTER_PATH, r.deviceId, r.publicKey, r.headers, r.now);
    if Readmits(st, r) {
      ReadmitStatus(st, mode, r);
      RefusalExactly(st, r);
    } else if Newcomer(st, r) {
      NewcomerStatus(st, mode, r);
    } else {
      ShutOut(st, mode, r);
    }
  }

  lemma NewcomerStatus(st: Store, mode: Mode, r: Request)
    requires Newcomer(st, r)
    ensures Register(st, mode, r).1.status ==
            match mode
            case Open => Approved
            case Managed => if r.deviceId in st.pending && Clashes(st.pending[r.deviceId], r) then Conflict else Waiting
            case Locked => if r.token != "" && Shows(st.tokens, r.deviceId, r.token, false, r.now) then Approved else Refused
  {
    hide Register, PassesValidation, StorePending, Clashes, NormalBundle, Trim, NormalTags;
    if mode.Managed? {
      NewcomerEffect(st, r);
      SubmissionExactly(st, r);
    } else {
      OutrightEffect(st, mode, r);
      ShowsExactly(st.tokens, r.deviceId, r.token, false, r.now);
    }
  }

  lemma ShutOut(st: Store, mode: Mode, r: Request)
    requires !Readmits(st, r) && !Newcomer(st, r)
    ensures Register(st, mode, r).1.status == if Malformed(r) then Invalid else Refused
  {
    hide Admit, Accepts, RegisterAttempt, Trim;
    if !Malformed(r) && PassesValidation(st, r) {
      ReadersAgree(st, Considered(st, r), r);
      BlockedRefused(Considered(st, r), mode, r);
    }
  }

  lemma BlockedRefused(st: Store, mode: Mode, r: Request)
    requires Blocked(st, r.deviceId)
    ensures Admit(st, mode, r) == (st, Answer(Refused, None))
  {
    hide Readmit, CreatePeer, ValidateToken;
  }

  // ---------------------------------------------------------------------------
  //  The token a registration gets
  // ---------------------------------------------------------------------------

  /** A nonce that was just entered is not accepted again at the same reading. */
  lemma NotTwice(items: Items, a: Attempt)
    ensures !Accepts(After(items, a, NONCE_TTL, CLOCK_SKEW), a, CLOCK_SKEW)
  {
    hide WithinSkew;
  }

  lemma RecoverToken(st: Store, r: Request)
    ensures Recover(st, r).1.token ==
            if ReadmitAuthorized(st, r) && !HasCredential(st.tokens, r.deviceId, Candidates(r.token, r.bearer), true, r.now) && r.newToken !in st.tokens
            then Some(r.newToken) else None
  {
    hide ReadmitAuthorized, HasCredential, NoncesAfter, RegisterAttempt, LoadKey, Candidates;
  }

  lemma CredentialExactly(st: Store, r: Request)
    ensures HasCredential(st.tokens, r.deviceId, Candidates(r.token, r.bearer), true, r.now) <==> ShowsActiveToken(st, r)
  {
    hide Shows, CredentialFits, Trim, Candidates;
    forall text ensures CredentialFits(st.tokens, r.deviceId, text, true, r.now) <==> Shows(st.tokens, r.deviceId, text, true, r.now) {
      ShowsExactly(st.tokens, r.deviceId, text, true, r.now);
    }
    forall text ensures text in Candidates(r.token, r.bearer) <==> text != "" && (text == Trim(r.token) || text == Trim(r.bearer)) {
      CandidatesExactly(r.token, r.bearer, text);
    }
  }

  /** A bundle does not change whether a request is authorized or shows a token. */
  lemma BundleAside(st: Store, r: Request)
    ensures ReadmitAuthorized(WithBundle(st, r), r) == ReadmitAuthorized(st, r) && WithBundle(st, r).tokens == st.tokens
  {
    hide ReadmitAuthorized, NormalBundle, BoundBundle;
    BundleIrrelevant(st, WithBundle(st, r), r);
  }

  /** The headers of a registration that is no carried proof are tried once more, on the nonces as they are then. */
  lemma ReauthorizedExactly(st: Store, r: Request)
    requires PassesValidation(st, r)
    ensures ReadmitAuthorized(Considered(st, r), r) && !ShowsActiveToken(st, r) <==>
            RequestProved(st, r) && !(r.supportAgent && AllSpace(r.deviceId)) && !ShowsActiveToken(st, r)
  {
    hide Accepts, Shows, IssueAttempt, After, Trim, ProofHolds, AllSpace, Authorized, Candidates, Malformed, HasCredential, ShowsActiveToken;
    var s := Considered(st, r);
    var a := RegisterAttempt(st, r);
    AttemptAside(st, s, r);
    ProofAcceptedExactly(st, "POST", REGISTER_PATH, r.deviceId, r.publicKey, r.headers, r.now);
    AuthorizedExactly(s, ProofCarried(r), a, r.headers, r.deviceId, Candidates(r.token, r.bearer), true, r.now);
    CandidatesShow(s, r);
    ShowsAside(st, s, r);
    TrimsToNothing(r.deviceId);
    NotTwice(st.nonces, a);
    ProofTries(st, r);
  }

  lemma AttemptAside(st: Store, s: Store, r: Request)
    requires s == st.(nonces := s.nonces)
    ensures RegisterAttempt(s, r) == RegisterAttempt(st, r)
  {
    hide EnrollmentAttempt;
  }

  lemma CandidatesShow(st: Store, r: Request)
    ensures (exists text <- Candidates(r.token, r.bearer) :: Shows(st.tokens, r.deviceId, text, true, r.now)) <==> ShowsActiveToken(st, r)
  {
    hide Shows, Trim, Candidates;
    forall text ensures text in Candidates(r.token, r.bearer) <==> text != "" && (text == Trim(r.token) || text == Trim(r.bearer)) {
      CandidatesExactly(r.token, r.bearer, text);
    }
  }

  lemma ShowsAside(st: Store, s: Store, r: Request)
    requires s.tokens == st.tokens
    ensures ShowsActiveToken(s, r) == ShowsActiveToken(st, r)
  {
  }

  lemma ProofTries(st: Store, r: Request)
    ensures RequestProved(st, r) ==> r.headers.nonce != ""
  {
    hide WithinSkew, Live, EnrollmentPayload;
  }

  /**
   A device with a row is handed a token exactly when its registration is not refused, proves
   itself, shows no active token of its own, and the new text is free; a support agent's id must
   not be blank.
   */
  lemma ReadmitTokenExactly(st: Store, mode: Mode, r: Request)
    requires Readmits(st, r)
    ensures Register(st, mode, r).1.token ==
            if StatusFor(st, mode, r) == Approved && RequestProved(st, r) && !(r.supportAgent && AllSpace(r.deviceId))
               && !ShowsActiveToken(st, r) && r.newToken !in st.tokens
            then Some(r.newToken) else None
  {
    hide Register, PassesValidation, Blocked, GetPeer, ReadmitRefusal, ReadmitAuthorized, HasCredential, RequestProved, AllSpace, ShowsActiveToken, Recover, StatusFor, Candidates;
    var s := Considered(st, r);
    RegisterShape(st, mode, r);
    ReadersAgree(st, s, r);
    StatusExactly(st, mode, r);
    ReadmitStatus(st, mode, r);
    RecoverToken(WithBundle(s, r), r);
    BundleAside(s, r);
    CredentialExactly(s, r);
    ShowsAside(st, s, r);
    ReauthorizedExactly(st, r);
  }

  /** Without a key bound, a registration is authorized exactly when it tries no proof and shows an active token. */
  lemma KeylessAuthorized(st: Store, r: Request)
    requires Readmits(st, r) && r.deviceId !in st.keys && st.peers[r.deviceId].pk.None?
    ensures ReadmitAuthorized(Considered(st, r), r) <==>
            r.headers.stamp == NoTime && r.headers.nonce == "" && r.headers.signature == NoSignature && ShowsActiveToken(st, r)
  {
    hide Accepts, Shows, Authorized, IssueAttempt, After, Trim, Candidates, Malformed;
    var s := Considered(st, r);
    WithoutKeyNoProof(st, "POST", REGISTER_PATH, r.deviceId, r.publicKey, r.headers, r.now);
    WithoutKeyNoProof(s, "POST", REGISTER_PATH, r.deviceId, r.publicKey, r.headers, r.now);
    AuthorizedExactly(s, ProofCarried(r), RegisterAttempt(s, r), r.headers, r.deviceId, Candidates(r.token, r.bearer), true, r.now);
    CandidatesShow(s, r);
    ShowsAside(st, s, r);
  }

  /**
   What a registration leaves of a device with a row: the row as it is; a key sent where none was
   bound, exactly when the request is approved, tries no proof and shows an active token; and a
   support agent's bundle where none was bound, exactly when the request is approved.
   */
  lemma ReadmitLeaves(st: Store, mode: Mode, r: Request)
    requires Readmits(st, r)
    ensures var s, id, h := Register(st, mode, r).0, r.deviceId, r.headers;
            var ok := StatusFor(st, mode, r) == Approved;
            && s.peers == st.peers && s.pending == st.pending && s.rejected == st.rejected && s.decisions == st.decisions
            && Lookup(s.keys, id) ==
                 (if ok && id !in st.keys && st.peers[id].pk.None? && r.publicKey.KeyText? && ShowsActiveToken(st, r)
                     && h.stamp == NoTime && h.nonce == "" && h.signature == NoSignature
                  then Some(r.publicKey.key) else Lookup(st.keys, id))
            && Lookup(s.bundles, id) ==
                 (if ok && r.supportAgent && (id !in st.bundles || NormalBundle(st.bundles[id]) == "")
                  then Some(NormalBundle(r.bundleId)) else Lookup(st.bundles, id))
  {
    hide Register, PassesValidation, ReadmitRefusal, ReadmitAuthorized, ShowsActiveToken, StatusFor, NormalBundle;
    ReadmitsEffect(st, mode, r);
    StatusExactly(st, mode, r);
    ReadersAgree(st, Considered(st, r), r);
    if r.deviceId !in st.keys && st.peers[r.deviceId].pk.None? {
      KeylessAuthorized(st, r);
    }
  }

  /** The bearer header of a poll is an active token of its device. */
  predicate PollShows(st: Store, q: PollRequest) {
    Trim(q.bearer) != "" && Shows(st.tokens, q.deviceId, Trim(q.bearer), true, q.now)
  }

  /**
   A poll is handed a token exactly for a device whose row is neither shut nor disabled, that shows
   no active token of its own and proves itself, when the new text is free.
   */
  lemma PollTokenExactly(st: Store, q: PollRequest)
    ensures var id := q.deviceId;
            Poll(st, q).1.token ==
            if id != "" && LiveRow(st, id) && !Shut(st, id) && !st.peers[id].disabled && !PollShows(st, q) && q.newToken !in st.tokens
               && ProofHolds(st, "GET", "/api/devices/register/status", id, NoKey, q.headers, q.now)
            then Some(q.newToken) else None
  {
    hide Accepts, Shows, IssueAttempt, Trim, ProofHolds, Authorized, NoncesAfter, Candidates, HasCredential;
    var candidates := Candidates("", q.bearer);
    ProofAcceptedExactly(st, "GET", STATUS_PATH, q.deviceId, NoKey, q.headers, q.now);
    AuthorizedExactly(st, false, PollAttempt(st, q), q.headers, q.deviceId, candidates, true, q.now);
    PollCredential(st, q);
    PollProofTries(st, q);
  }

  lemma PollCredential(st: Store, q: PollRequest)
    ensures HasCredential(st.tokens, q.deviceId, Candidates("", q.bearer), true, q.now) <==> PollShows(st, q)
    ensures (exists text <- Candidates("", q.bearer) :: Shows(st.tokens, q.deviceId, text, true, q.now)) <==> PollShows(st, q)
  {
    hide Shows, CredentialFits;
    forall text ensures CredentialFits(st.tokens, q.deviceId, text, true, q.now) <==> Shows(st.tokens, q.deviceId, text, true, q.now) {
      ShowsExactly(st.tokens, q.deviceId, text, true, q.now);
    }
    assert Trim("") == "";
  }

  lemma PollProofTries(st: Store, q: PollRequest)
    ensures ProofHolds(st, "GET", "/api/devices/register/status", q.deviceId, NoKey, q.headers, q.now) ==> q.headers.nonce != ""
  {
    hide WithinSkew, Live, EnrollmentPayload, MaySign;
  }

  /** The store a newcomer's request is judged by in open mode: its own row and the key it sent, and nothing captured before. */
  lemma OpenProof(st: Store, r: Request)
    requires !Blocked(st, r.deviceId) && GetPeer(st, r.deviceId).None? && r.deviceId != "" && r.deviceId !in st.keys && !r.publicKey.BadKey?
    ensures var s := CreatePeer(st, r.deviceId, r.uuid, r.bundleId, r.publicKey, true);
            s.Some? && s.value.tokens == st.tokens && s.value.nonces == st.nonces
            && (RequestProved(s.value, r) <==> RequestProved(st.(pending := map[]), r))
  {
    hide WithinSkew, Live, EnrollmentPayload, NormalBundle;
  }

  /**
   A newcomer in open mode is handed a token exactly when the new text is free and it carries a
   support agent's proof, or proves itself by the key it sends, or tries no proof and shows a token
   that is nobody else's.
   */
  lemma OpenTokenExactly(st: Store, r: Request)
    requires Newcomer(st, r) && r.deviceId !in st.keys
    ensures var s, h := Considered(st, r), r.headers;
            var tries := h.stamp != NoTime || h.nonce != "" || h.signature != NoSignature;
            Register(st, Open, r).1.token ==
            if r.newToken !in st.tokens &&
               ( || (r.supportAgent && !AllSpace(r.deviceId))
                 || (tries && RequestProved(s.(pending := map[]), r))
                 || (!tries && exists text <- Candidates(r.token, r.bearer) :: Shows(st.tokens, r.deviceId, text, false, r.now)))
            then Some(r.newToken) else None
  {
    hide Register, PassesValidation, Blocked, GetPeer, Authorized, Accepts, Shows, IssueAttempt, Trim, ProofHolds, AllSpace, Candidates, NormalBundle, Upsert, After, NoncesAfter;
    var s := Considered(st, r);
    RegisterShape(st, Open, r);
    ReadersAgree(st, s, r);
    ValidKey(st, r);
    OpenProof(s, r);
    var s2 := CreatePeer(s, r.deviceId, r.uuid, r.bundleId, r.publicKey, true).value;
    ProofAcceptedExactly(s2, "POST", REGISTER_PATH, r.deviceId, r.publicKey, r.headers, r.now);
    AuthorizedExactly(s2, ProofCarried(r), RegisterAttempt(s2, r), r.headers, r.deviceId, Candidates(r.token, r.bearer), false, r.now);
    TrimsToNothing(r.deviceId);
  }

  // ---------------------------------------------------------------------------
  //  Uses of a token
  // ---------------------------------------------------------------------------

  /** The event uses a token to admit a device in locked mode. */
  predicate UsesToken(st: Store, mode: Mode, e: Event, text: string) {
    mode.Locked? && e.Registers? && AdmittedOutright(st, mode, e.request) && e.request.token == text
  }

  /** The token is still there with its limit, and used once more if `used`. */
  predicate UsedBy(st: Store, s: Store, text: string, used: bool)
    requires text in st.tokens
  {
    && text in s.tokens && s.tokens[text].maxUses == st.tokens[text].maxUses
    && s.tokens[text].useCount == st.tokens[text].useCount + if used then 1 else 0
  }

  lemma IssueUses(st: Store, id: string, issued: string, text: string)
    requires text in st.tokens
    ensures UsedBy(st, IssueToken(st, id, issued).0, text, false)
  {
  }

  lemma RecoverUses(st: Store, r: Request, text: string)
    requires text in st.tokens
    ensures UsedBy(st, Recover(st, r).0, text, false)
  {
    hide ReadmitAuthorized, HasCredential, NoncesAfter, RegisterAttempt, LoadKey, Candidates, IssueToken;
    var s1 := st.(nonces := NoncesAfter(st, ProofCarried(r), RegisterAttempt(st, r), r.headers));
    IssueUses(WithFirstKey(s1, r), r.deviceId, r.newToken, text);
  }

  lemma ReadmitUses(st: Store, mode: Mode, r: Request, text: string)
    requires text in st.tokens && !Blocked(st, r.deviceId) && GetPeer(st, r.deviceId).Some?
    ensures UsedBy(st, Admit(st, mode, r).0, text, false)
  {
    hide Recover, ReadmitRefusal, Blocked, GetPeer, BoundBundle, NormalBundle;
    RecoverUses(WithBundle(st, r), r, text);
  }

  lemma OpenUses(st: Store, r: Request, text: string)
    requires text in st.tokens && !Blocked(st, r.deviceId) && GetPeer(st, r.deviceId).None? && r.deviceId != ""
    ensures UsedBy(st, Admit(st, Open, r).0, text, false)
  {
    hide Authorized, NoncesAfter, RegisterAttempt, NormalBundle, IssueToken, Candidates, Upsert;
    var s2 := CreatePeer(st, r.deviceId, r.uuid, r.bundleId, r.publicKey, true).value;
    var s3 := s2.(nonces := NoncesAfter(s2, ProofCarried(r), RegisterAttempt(s2, r), r.headers));
    IssueUses(s3, r.deviceId, r.newToken, text);
  }

  /** Admission by a token counts one use of it, binds it if it was pending, and leaves every other token alone. */
  lemma LockedUses(st: Store, r: Request)
    requires !Blocked(st, r.deviceId) && GetPeer(st, r.deviceId).None? && r.deviceId != "" && TokenAdmits(st, r)
    ensures r.token in st.tokens && UsableToken(st.tokens, r.token, r.now)
    ensures var s, t := Admit(st, Locked, r).0, st.tokens[r.token];
            && r.token in s.tokens
            && s.tokens[r.token] == t.(useCount := t.useCount + 1,
                                       peerId := if t.status == TokenPending then r.deviceId else t.peerId,
                                       status := if t.status == TokenPending then TokenActive else t.status)
            && forall text :: text in st.tokens && text != r.token ==> text in s.tokens && s.tokens[text] == st.tokens[text]
  {
    hide ValidateToken, NormalBundle, Upsert;
    ShowsExactly(st.tokens, r.deviceId, r.token, false, r.now);
  }

  lemma RegisterUses(st: Store, mode: Mode, r: Request, text: string)
    requires text in st.tokens
    ensures UsedBy(st, Register(st, mode, r).0, text, UsesToken(st, mode, Registers(r), text))
  {
    hide Register, Admit, PassesValidation, Blocked, GetPeer, ValidateToken;
    var s := Considered(st, r);
    RegisterShape(st, mode, r);
    ReadersAgree(st, s, r);
    if Readmits(st, r) {
      ReadmitUses(s, mode, r, text);
    } else if Newcomer(st, r) {
      ValidKey(st, r);
      NewcomerUses(s, mode, r, text);
    } else if PassesValidation(st, r) {
      BlockedRefused(s, mode, r);
    } else {
      InvalidUses(st, mode, r);
    }
  }

  lemma InvalidUses(st: Store, mode: Mode, r: Request)
    requires !PassesValidation(st, r)
    ensures Register(st, mode, r).0.tokens == st.tokens
  {
    hide Accepts, RegisterAttempt, After, Admit;
  }

  lemma NewcomerUses(st: Store, mode: Mode, r: Request, text: string)
    requires text in st.tokens && !Blocked(st, r.deviceId) && GetPeer(st, r.deviceId).None? && r.deviceId != ""
    ensures UsedBy(st, Admit(st, mode, r).0, text, mode.Locked? && TokenAdmits(st, r) && r.token == text)
  {
    hide Blocked, GetPeer, ValidateToken;
    match mode
    case Open =>
      hide Admit;
      OpenUses(st, r, text);
    case Managed => ManagedUses(st, r);
    case Locked =>
      hide Admit;
      LockedEffect(st, r);
      if TokenAdmits(st, r) {
        LockedUses(st, r);
      }
  }

  lemma ManagedUses(st: Store, r: Request)
    requires !Blocked(st, r.deviceId) && GetPeer(st, r.deviceId).None?
    ensures Admit(st, Managed, r).0.tokens == st.tokens
  {
    hide NextPending;
  }

  lemma PollUses(st: Store, q: PollRequest, text: string)
    requires text in st.tokens
    ensures UsedBy(st, Poll(st, q).0, text, false)
  {
    hide Authorized, NoncesAfter, PollAttempt, PollAsks, IssueToken;
    IssueUses(st.(nonces := NoncesAfter(st, false, PollAttempt(st, q), q.headers)), q.deviceId, q.newToken, text);
  }

  lemma CreateUses(st: Store, id: string, uuid: string, bundleId: string, publicKey: KeyText, reset: bool)
    ensures var created := CreatePeer(st, id, uuid, bundleId, publicKey, reset);
            created.Some? ==> created.value.tokens == st.tokens
  {
  }

  lemma ApproveUses(st: Store, id: string, wellFormed: bool)
    ensures Approve(st, id, wellFormed).0.tokens == st.tokens
  {
    hide CreatePeer;
    if id in st.pending {
      var p := st.pending[id];
      CreateUses(st, if p.deviceId == "" then id else p.deviceId, p.uuid, p.bundleId, p.publicKey, true);
    }
  }

  lemma RejectUses(st: Store, id: string, ban: bool)
    ensures Reject(st, id, ban).0.tokens == st.tokens
  {
    hide CreatePeer, Ban, GetPeer;
    var p := if id in st.pending then st.pending[id] else NO_PENDING;
    var s1 := st.(pending := st.pending - {id}, rejected := st.rejected[id := ban]);
    CreateUses(s1, if p.deviceId == "" then id else p.deviceId, p.uuid, p.bundleId, p.publicKey, false);
  }

  lemma LiftUses(st: Store, id: string)
    ensures ClearRejection(st, id).0.tokens == st.tokens && Unban(st, id).tokens == st.tokens
  {
    hide IsAuditPeer, GetPeer;
  }

  lemma DecisionUses(st: Store, mode: Mode, e: Event)
    requires !e.Registers? && !e.Polls?
    ensures Step(st, mode, e).0.tokens == st.tokens
  {
    hide Approve, Reject, ClearRejection, Unban, QueueViewer;
    match e
    case Approves(id, wellFormed) => ApproveUses(st, id, wellFormed);
    case Rejects(id, ban) => RejectUses(st, id, ban);
    case Clears(id) => LiftUses(st, id);
    case Unbans(id) => LiftUses(st, id);
    case LogsIn(clientId, clientUuid, ip) => QueueKeepsRows(st, mode, clientId, clientUuid, ip);
  }

  /** In any mode and store a token's uses grow by one exactly when it admits a device, and its limit never changes. */
  lemma TokenStep(st: Store, mode: Mode, e: Event, text: string)
    requires text in st.tokens
    ensures UsedBy(st, Step(st, mode, e).0, text, UsesToken(st, mode, e, text))
    ensures UsesToken(st, mode, e, text) ==> st.tokens[text].maxUses == 0 || st.tokens[text].useCount < st.tokens[text].maxUses
  {
    if e.Registers? {
      hide Register, PassesValidation, Blocked, GetPeer, ValidateToken;
      RegisterUses(st, mode, e.request, text);
      ShowsExactly(st.tokens, e.request.deviceId, e.request.token, false, e.request.now);
    } else if e.Polls? {
      hide Poll;
      PollUses(st, e.poll, text);
    } else {
      hide Step;
      DecisionUses(st, mode, e);
    }
  }

  /** How many devices a token admits in the first `n` events. */
  function Admissions(st: Store, modes: seq<Mode>, run: seq<Event>, n: nat, text: string): nat
    requires n <= |run| == |modes|
  {
    if n == 0 then 0
    else Admissions(st, modes, run, n - 1, text) +
         if UsesToken(StoreAcross(st, modes, run, n - 1), modes[n - 1], run[n - 1], text) then 1 else 0
  }

  /**
   Over every run with changing modes, from any store: a token counts its uses by the devices it
   admits, and with a limit that its uses do not exceed at first it never admits more than are left.
   */
  lemma {:induction false} AdmissionsWithinLimit(st: Store, modes: seq<Mode>, run: seq<Event>, n: nat, text: string)
    requires n <= |run| == |modes| && text in st.tokens
    ensures var s := StoreAcross(st, modes, run, n);
            && text in s.tokens && s.tokens[text].maxUses == st.tokens[text].maxUses
            && s.tokens[text].useCount == st.tokens[text].useCount + Admissions(st, modes, run, n, text)
            && (0 < st.tokens[text].maxUses && st.tokens[text].useCount <= st.tokens[text].maxUses ==>
                  st.tokens[text].useCount + Admissions(st, modes, run, n, text) <= st.tokens[text].maxUses)
  {
    hide Step, UsesToken;
    if n > 0 {
      AdmissionsWithinLimit(st, modes, run, n - 1, text);
      TokenStep(StoreAcross(st, modes, run, n - 1), modes[n - 1], run[n - 1], text);
    }
  }
}
