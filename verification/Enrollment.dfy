/**
 Device enrollment as a store and its steps: registration, status poll, approval,
 rejection, clearing a rejection, unban and the queueing of a logged-in viewer.
 Database calls succeed atomically.
 */
module Enrollment {
  import opened Options
  import opened Text
  import opened ReplayCache
  import opened DeviceProof

  // ---------------------------------------------------------------------------
  //  The store
  // ---------------------------------------------------------------------------

  const REJECT_REASON := "enrollment rejected"
  const REGISTER_PATH := "/api/devices/register"
  const STATUS_PATH := "/api/devices/register/status"
  const BUNDLE_MAX: nat := 128

  /** A row of the peers table; `pk` is set when it holds 32 bytes. */
  datatype Peer = Peer(uuid: string, pk: Option<Key>, banned: bool, banReason: string, disabled: bool, softDeleted: bool)

  datatype Pending = Pending(
    deviceId: string, uuid: string, hostname: string, platform: string, version: string,
    deviceType: string, bundleId: string, tags: string, publicKey: KeyText, ip: string)

  datatype Decision = ApprovedDecision | RejectedDecision(banned: bool)

  datatype TokenStatus = TokenPending | TokenActive | TokenRevoked | TokenExpired

  datatype Token = Token(peerId: string, status: TokenStatus, maxUses: nat, useCount: nat, expiresAt: Option<int>)

  datatype Store = Store(
    peers: map<string, Peer>,
    pending: map<string, Pending>,
    rejected: map<string, bool>,       // rejection markers; true when the rejection also banned
    decisions: map<string, Decision>,
    keys: map<string, Key>,            // explicit management keys
    bundles: map<string, string>,
    tokens: map<string, Token>,
    nonces: Items)                     // cache of used enrollment nonces

  const EMPTY := Store(map[], map[], map[], map[], map[], map[], map[], map[])

  datatype Mode = Open | Managed | Locked

  // ---------------------------------------------------------------------------
  //  Reading the store
  // ---------------------------------------------------------------------------

  function GetPeer(st: Store, id: string): Option<Peer> {
    if id in st.peers && !st.peers[id].softDeleted then Some(st.peers[id]) else None
  }

  predicate Banned(st: Store, id: string) {
    id in st.peers && st.peers[id].banned
  }

  predicate Removed(st: Store, id: string) {
    id in st.peers && st.peers[id].softDeleted
  }

  /** The key bound to a device: the explicit management key, else the peer's own key. */
  function LoadKey(st: Store, id: string): Option<Key> {
    if id in st.keys then Some(st.keys[id])
    else if GetPeer(st, id).Some? then GetPeer(st, id).value.pk
    else None
  }

  function Matching(bound: Option<Key>, incoming: KeyText): Option<Key> {
    if bound.None? || incoming == NoKey || Canonical(incoming) == bound then bound else None
  }

  /** The only key that may sign a proof for `id`: bound, else captured while pending, else the one sent. */
  function ProofKey(st: Store, id: string, incoming: KeyText): Option<Key> {
    if GetPeer(st, id).Some? then Matching(LoadKey(st, id), incoming)
    else if id in st.pending && st.pending[id].deviceId != "" && st.pending[id].publicKey != NoKey then
      Matching(Canonical(st.pending[id].publicKey), incoming)
    else Canonical(incoming)
  }

  function ValidateToken(tokens: map<string, Token>, text: string, now: int): Option<Token> {
    if text !in tokens then None
    else
      var t := tokens[text];
      if t.status == TokenRevoked then None
      else if t.expiresAt.Some? && now > t.expiresAt.value then None
      else if t.maxUses > 0 && t.useCount >= t.maxUses then None
      else Some(t)
  }

  /** Credentials come from the body field and from the bearer header, in this order. */
  function Candidates(body: string, bearer: string): seq<string> {
    (if Trim(body) != "" then [Trim(body)] else []) + (if Trim(bearer) != "" then [Trim(bearer)] else [])
  }

  predicate CredentialFits(tokens: map<string, Token>, id: string, text: string, bound: bool, now: int) {
    var t := ValidateToken(tokens, text, now);
    && t.Some?
    && if bound then t.value.status == TokenActive && t.value.peerId == id
       else t.value.peerId == "" || t.value.peerId == id
  }

  predicate HasCredential(tokens: map<string, Token>, id: string, candidates: seq<string>, bound: bool, now: int) {
    exists c <- candidates :: CredentialFits(tokens, id, c, bound, now)
  }

  // ---------------------------------------------------------------------------
  //  Requests and answers
  // ---------------------------------------------------------------------------

  /**
   A registration request with what the handler derives from it: whether it is a support
   agent's, whether its uuid denotes the same machine as the stored one, the clock, and the
   random text of the token it may be given.
   */
  datatype Request = Request(
    deviceId: string, uuid: string, hostname: string, platform: string, version: string,
    deviceType: string, bundleId: string, tags: string, publicKey: KeyText, token: string,
    bearer: string, headers: Headers, ip: string,
    supportAgent: bool, sameMachine: bool, now: int, newToken: string)

  datatype Status = Invalid | Refused | Conflict | Approved | Waiting | Unknown

  datatype Answer = Answer(status: Status, token: Option<string>)

  // ---------------------------------------------------------------------------
  //  Authorization of token issue
  // ---------------------------------------------------------------------------

  /** The proof a token-issuing request makes, when it makes one. */
  function IssueAttempt(st: Store, verb: string, path: string, id: string, publicKey: KeyText, h: Headers, now: int): Attempt {
    EnrollmentAttempt(verb, path, id, ProofKey(st, id, publicKey), h, now)
  }

  /** Proof already verified, or a fresh proof, or else (only when no proof is tried) a credential. */
  predicate Authorized(st: Store, verified: bool, a: Attempt, h: Headers, id: string, candidates: seq<string>, bound: bool, now: int) {
    if verified then true
    else if Provided(h) then Accepts(st.nonces, a, CLOCK_SKEW)
    else HasCredential(st.tokens, id, candidates, bound, now)
  }

  function NoncesAfter(st: Store, verified: bool, a: Attempt, h: Headers): Items {
    if !verified && Provided(h) then After(st.nonces, a, NONCE_TTL, CLOCK_SKEW) else st.nonces
  }

  /** A new active token bound to the device; creation fails when the text is taken. */
  function IssueToken(st: Store, id: string, text: string): (Store, Option<string>) {
    if text in st.tokens then (st, None)
    else (st.(tokens := st.tokens[text := Token(id, TokenActive, 0, 0, None)]), Some(text))
  }

  // ---------------------------------------------------------------------------
  //  Peer rows and pending entries
  // ---------------------------------------------------------------------------

  /** Trimmed, and cut to 128 characters. */
  function NormalBundle(raw: string): (b: string)
    ensures b <= Trim(raw) && |b| == if |Trim(raw)| <= 128 then |Trim(raw)| else 128
  {
    var t := Trim(raw);
    if |t| > BUNDLE_MAX then t[..BUNDLE_MAX] else t
  }

  function NormalTags(raw: string): string {
    Join(AddTags([], Split(raw, ',')), ",")
  }

  function Upsert(peers: map<string, Peer>, id: string, uuid: string): map<string, Peer> {
    if id in peers then
      var p := peers[id];
      peers[id := p.(uuid := if uuid != "" then uuid else p.uuid, disabled := false)]
    else peers[id := Peer(uuid, None, false, "", false, false)]
  }

  function CreatePeer(st: Store, id: string, uuid: string, bundleId: string, publicKey: KeyText, reset: bool): Option<Store> {
    if id == "" || (reset && Removed(st, id)) then None
    else Some(st.(
      peers := Upsert(st.peers, id, uuid),
      bundles := if NormalBundle(bundleId) != "" then st.bundles[id := NormalBundle(bundleId)] else st.bundles,
      keys := if publicKey.KeyText? then st.keys[id := publicKey.key] else st.keys))
  }

  function FirstPending(r: Request): Pending {
    Pending(r.deviceId, r.uuid, r.hostname, r.platform, r.version, Trim(r.deviceType),
            NormalBundle(r.bundleId), NormalTags(r.tags), r.publicKey, r.ip)
  }

  /** A later submission contradicts what the first ones said. */
  predicate Contradicts(p: Pending, r: Request) {
    || (p.uuid != "" && r.uuid != "" && p.uuid != r.uuid)
    || (p.publicKey != NoKey && r.publicKey != NoKey &&
        (Canonical(p.publicKey).None? || Canonical(p.publicKey) != Canonical(r.publicKey)))
    || (p.bundleId != "" && r.bundleId != "" && NormalBundle(p.bundleId) != NormalBundle(r.bundleId))
  }

  function Fill(had: string, sent: string): string {
    if had == "" then sent else had
  }

  function Enriched(p: Pending, r: Request): Pending {
    Pending(
      if p.deviceId == "" then r.deviceId else p.deviceId,
      Fill(p.uuid, r.uuid), Fill(p.hostname, r.hostname), Fill(p.platform, r.platform),
      Fill(p.version, r.version), Fill(p.deviceType, Trim(r.deviceType)),
      Fill(p.bundleId, NormalBundle(r.bundleId)), Fill(p.tags, NormalTags(r.tags)),
      if p.publicKey == NoKey then r.publicKey else p.publicKey, Fill(p.ip, r.ip))
  }

  /** The entry is rewritten only when a field it lacked has arrived. */
  predicate Enriches(p: Pending, r: Request) {
    Enriched(p, r).(deviceId := p.deviceId) != p
  }

  /** The first submission is kept; later ones may only fill in what it left empty. */
  function NextPending(pending: map<string, Pending>, r: Request): Option<map<string, Pending>> {
    if r.deviceId in pending then
      var p := pending[r.deviceId];
      if Contradicts(p, r) then None
      else if !Enriches(p, r) then Some(pending)
      else Some(pending[r.deviceId := Enriched(p, r)])
    else Some(pending[r.deviceId := FirstPending(r)])
  }

  function StorePending(st: Store, r: Request): Option<Store> {
    var next := NextPending(st.pending, r);
    if next.None? then None else Some(st.(pending := next.value))
  }

  // ---------------------------------------------------------------------------
  //  Registration
  // ---------------------------------------------------------------------------

  function RegisterAttempt(st: Store, r: Request): Attempt {
    IssueAttempt(st, "POST", REGISTER_PATH, r.deviceId, r.publicKey, r.headers, r.now)
  }

  /** The proof of a support agent counts for the rest of its request, unless its id is blank. */
  predicate ProofCarried(r: Request) {
    r.supportAgent && Trim(r.deviceId) != ""
  }

  predicate Malformed(r: Request) {
    || r.deviceId == "" || r.publicKey.BadKey?
    || (r.supportAgent && (Trim(r.uuid) == "" || Trim(r.bundleId) == "" || r.publicKey == NoKey))
  }

  predicate Blocked(st: Store, id: string) {
    Banned(st, id) || Removed(st, id) || id in st.rejected
  }

  function Register(st: Store, mode: Mode, r: Request): (Store, Answer) {
    if Malformed(r) then (st, Answer(Invalid, None))
    else
      var a := RegisterAttempt(st, r);
      var s1 := if r.supportAgent then st.(nonces := After(st.nonces, a, NONCE_TTL, CLOCK_SKEW)) else st;
      if r.supportAgent && !Accepts(st.nonces, a, CLOCK_SKEW) then (s1, Answer(Refused, None))
      else Admit(s1, mode, r)
  }

  /** Registration behind request validation and the support agent's proof. */
  function Admit(st: Store, mode: Mode, r: Request): (Store, Answer) {
    var id := r.deviceId;
    if Blocked(st, id) then (st, Answer(Refused, None))
    else if GetPeer(st, id).Some? then Readmit(st, r)
    else
      match mode
      case Open =>
        var created := CreatePeer(st, id, r.uuid, r.bundleId, r.publicKey, true);
        if created.None? then (st, Answer(Invalid, None))
        else
          var s2 := created.value;
          var a := RegisterAttempt(s2, r);
          var ok := Authorized(s2, ProofCarried(r), a, r.headers, id, Candidates(r.token, r.bearer), false, r.now);
          var s3 := s2.(nonces := NoncesAfter(s2, ProofCarried(r), a, r.headers));
          var (s4, token) := if ok then IssueToken(s3, id, r.newToken) else (s3, None);
          (s4, Answer(Approved, token))
      case Managed =>
        var stored := StorePending(st, r);
        if stored.None? then (st, Answer(Conflict, None)) else (stored.value, Answer(Waiting, None))
      case Locked =>
        var t := ValidateToken(st.tokens, r.token, r.now);
        if r.token == "" || t.None? || (t.value.peerId != "" && t.value.peerId != id) then (st, Answer(Refused, None))
        else
          var bound := if t.value.status == TokenPending then t.value.(peerId := id, status := TokenActive) else t.value;
          var s1 := st.(tokens := st.tokens[r.token := bound.(useCount := bound.useCount + 1)]);
          var created := CreatePeer(s1, id, r.uuid, r.bundleId, r.publicKey, true);
          if created.None? then (s1, Answer(Invalid, None))
          else
            var (s2, token) := IssueToken(created.value, id, r.newToken);
            (s2, Answer(Approved, if token.Some? then token else Some(r.token)))
  }

  /** Registration of a device that already has a row. */
  function Readmit(st: Store, r: Request): (Store, Answer)
    requires GetPeer(st, r.deviceId).Some?
  {
    var refusal := ReadmitRefusal(st, r);
    if refusal.Some? then (st, Answer(refusal.value, None)) else Recover(WithBundle(st, r), r)
  }

  function BoundBundle(st: Store, id: string): string {
    if id in st.bundles then NormalBundle(st.bundles[id]) else ""
  }

  /** Another machine, another key or another bundle than the enrolled one. */
  function ReadmitRefusal(st: Store, r: Request): (refusal: Option<Status>)
    requires GetPeer(st, r.deviceId).Some?
    ensures refusal.Some? ==> refusal.value in {Conflict, Refused}
  {
    var peer, bound := GetPeer(st, r.deviceId).value, LoadKey(st, r.deviceId);
    var boundBundle := BoundBundle(st, r.deviceId);
    if r.uuid != "" && peer.uuid != "" && !r.sameMachine then Some(Conflict)
    else if r.publicKey != NoKey && bound.Some? && Canonical(r.publicKey) != bound then Some(Refused)
    else if r.supportAgent && boundBundle != "" && boundBundle != NormalBundle(r.bundleId) then Some(Refused)
    else None
  }

  function WithBundle(st: Store, r: Request): Store {
    if r.supportAgent && BoundBundle(st, r.deviceId) == "" then
      st.(bundles := st.bundles[r.deviceId := NormalBundle(r.bundleId)])
    else st
  }

  predicate ReadmitAuthorized(st: Store, r: Request) {
    Authorized(st, ProofCarried(r), RegisterAttempt(st, r), r.headers, r.deviceId, Candidates(r.token, r.bearer), true, r.now)
  }

  /** An enrolled device that proves itself may bind a first key, and gets a new token unless it has one. */
  function Recover(st: Store, r: Request): (Store, Answer) {
    var s1 := st.(nonces := NoncesAfter(st, ProofCarried(r), RegisterAttempt(st, r), r.headers));
    if !ReadmitAuthorized(st, r) then (s1, Answer(Approved, None))
    else
      var s2 := WithFirstKey(s1, r);
      if HasCredential(st.tokens, r.deviceId, Candidates(r.token, r.bearer), true, r.now) then (s2, Answer(Approved, None))
      else
        var (s3, token) := IssueToken(s2, r.deviceId, r.newToken);
        (s3, Answer(Approved, token))
  }

  function WithFirstKey(st: Store, r: Request): Store {
    if LoadKey(st, r.deviceId).None? && r.publicKey.KeyText? then
      st.(keys := st.keys[r.deviceId := r.publicKey.key])
    else st
  }

  // ---------------------------------------------------------------------------
  //  Status poll
  // ---------------------------------------------------------------------------

  datatype PollRequest = PollRequest(deviceId: string, bearer: string, headers: Headers, now: int, newToken: string)

  function PollAttempt(st: Store, q: PollRequest): Attempt {
    IssueAttempt(st, "GET", STATUS_PATH, q.deviceId, NoKey, q.headers, q.now)
  }

  /** The poll gets as far as asking for authorization to issue a token. */
  predicate PollAsks(st: Store, q: PollRequest) {
    && q.deviceId != "" && !Blocked(st, q.deviceId)
    && GetPeer(st, q.deviceId).Some? && !GetPeer(st, q.deviceId).value.disabled
    && !HasCredential(st.tokens, q.deviceId, Candidates("", q.bearer), true, q.now)
  }

  function Poll(st: Store, q: PollRequest): (Store, Answer) {
    var id := q.deviceId;
    if id == "" then (st, Answer(Invalid, None))
    else if Blocked(st, id) then (st, Answer(Refused, None))
    else if GetPeer(st, id).Some? then
      if GetPeer(st, id).value.disabled then (st, Answer(Refused, None))
      else if !PollAsks(st, q) then (st, Answer(Approved, None))
      else
        var a := PollAttempt(st, q);
        var ok := Authorized(st, false, a, q.headers, id, Candidates("", q.bearer), true, q.now);
        var s1 := st.(nonces := NoncesAfter(st, false, a, q.headers));
        var (s2, token) := if ok then IssueToken(s1, id, q.newToken) else (s1, None);
        (s2, Answer(Approved, token))
    else if id in st.pending then (st, Answer(Waiting, None))
    else (st, Answer(Unknown, None))
  }

  // ---------------------------------------------------------------------------
  //  Operator decisions
  // ---------------------------------------------------------------------------

  /** Approval; `wellFormed` when the body decodes and names a known sync mode. */
  function Approve(st: Store, id: string, wellFormed: bool): (Store, Answer) {
    if id == "" || !wellFormed then (st, Answer(Invalid, None))
    else if id !in st.pending then (st, Answer(Unknown, None))
    else
      var p := st.pending[id];
      var target := if p.deviceId == "" then id else p.deviceId;
      var created := CreatePeer(st, target, p.uuid, p.bundleId, p.publicKey, true);
      if created.None? then (st, Answer(Invalid, None))
      else
        var s1 := created.value;
        (s1.(pending := s1.pending - {id}, rejected := s1.rejected - {id},
             decisions := s1.decisions[id := ApprovedDecision]), Answer(Approved, None))
  }

  const NO_PENDING := Pending("", "", "", "", "", "", "", "", NoKey, "")

  function Ban(peers: map<string, Peer>, id: string, reason: string): map<string, Peer> {
    if id in peers then peers[id := peers[id].(banned := true, banReason := reason)] else peers
  }

  /** Rejection; with `ban` a banned row is kept for the audit, created if need be. */
  function Reject(st: Store, id: string, ban: bool): (Store, Answer) {
    if id == "" then (st, Answer(Invalid, None))
    else
      var p := if id in st.pending then st.pending[id] else NO_PENDING;
      var target := if p.deviceId == "" then id else p.deviceId;
      var s1 := st.(pending := st.pending - {id}, rejected := st.rejected[id := ban]);
      var s2 :=
        if !ban then s1
        else
          var created := CreatePeer(s1, target, p.uuid, p.bundleId, p.publicKey, false);
          var s := if GetPeer(s1, id).None? && created.Some? then created.value else s1;
          s.(peers := Ban(s.peers, id, REJECT_REASON));
      (s2.(decisions := s2.decisions[id := RejectedDecision(ban)]), Answer(Refused, None))
  }

  function ClearRejectionState(st: Store, id: string): Store {
    st.(rejected := st.rejected - {id},
        decisions := if id in st.decisions && st.decisions[id].RejectedDecision? then st.decisions - {id} else st.decisions)
  }

  function RemoveAuditPeer(st: Store, id: string): Store {
    st.(keys := st.keys - {id}, bundles := st.bundles - {id}, peers := st.peers - {id})
  }

  /** The row exists only to show the ban, so it must go when the rejection is lifted. */
  predicate IsAuditPeer(peer: Option<Peer>, marker: Option<bool>, decision: Option<Decision>) {
    || (peer.Some? && peer.value.banReason == REJECT_REASON)
    || (decision.Some? && decision.value == RejectedDecision(true))
    || (marker.Some? && marker.value)
  }

  function Lookup<T>(m: map<string, T>, id: string): Option<T> {
    if id in m then Some(m[id]) else None
  }

  function ClearRejection(st: Store, id: string): (Store, Answer) {
    if id == "" then (st, Answer(Invalid, None))
    else if id !in st.rejected && id !in st.decisions then (st, Answer(Unknown, None))
    else
      var audit := IsAuditPeer(GetPeer(st, id), Lookup(st.rejected, id), Lookup(st.decisions, id));
      var s1 := ClearRejectionState(st, id);
      (if audit then RemoveAuditPeer(s1, id) else s1, Answer(Unknown, None))
  }

  function Unban(st: Store, id: string): Store {
    var row := GetPeer(st, id);
    if row.Some? && row.value.banReason == REJECT_REASON then RemoveAuditPeer(ClearRejectionState(st, id), id)
    else
      var peers := if id in st.peers then st.peers[id := st.peers[id].(banned := false, banReason := "")] else st.peers;
      ClearRejectionState(st.(peers := peers), id)
  }

  // ---------------------------------------------------------------------------
  //  Login of a viewer
  // ---------------------------------------------------------------------------

  const NO_HEADERS := Headers(NoTime, "", NoSignature)

  function ViewerRequest(clientId: string, clientUuid: string, ip: string): Request {
    Request(Trim(clientId), Trim(clientUuid), "", "", "", "", "", "", NoKey, "", "", NO_HEADERS, ip, false, false, 0, "")
  }

  function QueueViewer(st: Store, mode: Mode, clientId: string, clientUuid: string, ip: string): Store {
    var id := Trim(clientId);
    if id == "" || !mode.Managed? || Removed(st, id) || id in st.rejected || GetPeer(st, id).Some? then st
    else
      var stored := StorePending(st, ViewerRequest(clientId, clientUuid, ip));
      if stored.Some? then stored.value else st
  }

  // ---------------------------------------------------------------------------
  //  Runs
  // ---------------------------------------------------------------------------

  datatype Event =
    | Registers(request: Request)
    | Polls(poll: PollRequest)
    | Approves(id: string, wellFormed: bool)
    | Rejects(id: string, ban: bool)
    | Clears(id: string)
    | Unbans(id: string)
    | LogsIn(clientId: string, clientUuid: string, ip: string)

  function Step(st: Store, mode: Mode, e: Event): (Store, Answer) {
    match e
    case Registers(r) => Register(st, mode, r)
    case Polls(q) => Poll(st, q)
    case Approves(id, wellFormed) => Approve(st, id, wellFormed)
    case Rejects(id, ban) => Reject(st, id, ban)
    case Clears(id) => ClearRejection(st, id)
    case Unbans(id) => (Unban(st, id), Answer(Unknown, None))
    case LogsIn(clientId, clientUuid, ip) => (QueueViewer(st, mode, clientId, clientUuid, ip), Answer(Unknown, None))
  }

  /** The store after the first `n` events, from an initial one. */
  function StoreAt(st: Store, mode: Mode, run: seq<Event>, n: nat): Store
    requires n <= |run|
  {
    if n == 0 then st else Step(StoreAt(st, mode, run, n - 1), mode, run[n - 1]).0
  }

  /** The store after the first `n` events, from an initial one; `modes[m]` is in force at event `m`. */
  function StoreAcross(st: Store, modes: seq<Mode>, run: seq<Event>, n: nat): Store
    requires n <= |run| == |modes|
  {
    if n == 0 then st else Step(StoreAcross(st, modes, run, n - 1), modes[n - 1], run[n - 1]).0
  }

  function AnswerAt(st: Store, mode: Mode, run: seq<Event>, n: nat): Answer
    requires n < |run|
  {
    Step(StoreAt(st, mode, run, n), mode, run[n]).1
  }
}
