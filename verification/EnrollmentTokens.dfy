/** Device tokens handed to enrolled devices, counted against the proofs they signed. */
module EnrollmentTokens {
  import opened Options
  import opened Text
  import opened ReplayCache
  import opened DeviceProof
  import opened Enrollment
  import opened EnrollmentRuns

  // ---------------------------------------------------------------------------
  //  The proofs a step presents to the nonce cache
  // ---------------------------------------------------------------------------

  /** A proof is looked at when issuing a token unless one was carried along or none was tried. */
  function IssueProof(carried: bool, h: Headers, a: Attempt): seq<Attempt> {
    if !carried && Provided(h) then [a] else []
  }

  function AdmitAttempts(st: Store, mode: Mode, r: Request): seq<Attempt> {
    if Blocked(st, r.deviceId) then []
    else if GetPeer(st, r.deviceId).Some? then
      if ReadmitRefusal(st, r).Some? then [] else IssueProof(ProofCarried(r), r.headers, RegisterAttempt(WithBundle(st, r), r))
    else if !mode.Open? then []
    else
      var created := CreatePeer(st, r.deviceId, r.uuid, r.bundleId, r.publicKey, true);
      if created.None? then [] else IssueProof(ProofCarried(r), r.headers, RegisterAttempt(created.value, r))
  }

  function Attempts(st: Store, mode: Mode, e: Event): seq<Attempt> {
    match e
    case Registers(r) =>
      if Malformed(r) then []
      else
        (if r.supportAgent then [RegisterAttempt(st, r)] else []) +
        (if PassesValidation(st, r) then AdmitAttempts(Considered(st, r), mode, r) else [])
    case Polls(q) => if PollAsks(st, q) then IssueProof(false, q.headers, PollAttempt(st, q)) else []
    case _ => []
  }

  function CacheAfter(items: Items, attempts: seq<Attempt>): Items
    decreases |attempts|
  {
    if attempts == [] then items else After(CacheAfter(items, attempts[..|attempts| - 1]), attempts[|attempts| - 1], NONCE_TTL, CLOCK_SKEW)
  }

  lemma CacheAfterOne(items: Items, a: Attempt)
    ensures CacheAfter(items, [a]) == After(items, a, NONCE_TTL, CLOCK_SKEW)
    ensures CacheAfter(items, []) == items
  {
    assert [a][..0] == [];
  }

  lemma {:induction false} CacheAfterConcat(items: Items, a: seq<Attempt>, b: seq<Attempt>)
    ensures CacheAfter(items, a + b) == CacheAfter(CacheAfter(items, a), b)
    decreases |b|
  {
    hide After;
    if b == [] {
      assert a + b == a;
    } else {
      var init := b[..|b| - 1];
      CacheAfterConcat(items, a, init);
      assert (a + b)[..|a + b| - 1] == a + init;
    }
  }

  lemma IssueProofNonces(st: Store, carried: bool, a: Attempt, h: Headers)
    ensures NoncesAfter(st, carried, a, h) == CacheAfter(st.nonces, IssueProof(carried, h, a))
  {
    CacheAfterOne(st.nonces, a);
  }

  lemma ReadmitNonces(st: Store, mode: Mode, r: Request)
    requires !Blocked(st, r.deviceId) && GetPeer(st, r.deviceId).Some?
    ensures Admit(st, mode, r).0.nonces == CacheAfter(st.nonces, AdmitAttempts(st, mode, r))
  {
    hide Blocked, GetPeer, ReadmitRefusal, NoncesAfter, ReadmitAuthorized, HasCredential, RegisterAttempt, NormalBundle, BoundBundle, CacheAfter, IssueToken, LoadKey, IssueProof;
    var s1 := WithBundle(st, r);
    var a := RegisterAttempt(s1, r);
    IssueProofNonces(s1, ProofCarried(r), a, r.headers);
    var s2 := s1.(nonces := NoncesAfter(s1, ProofCarried(r), a, r.headers));
    IssueEffect(WithFirstKey(s2, r), r.deviceId, r.newToken);
    CacheAfterOne(st.nonces, a);
  }

  lemma OpenNonces(st: Store, r: Request)
    requires !Blocked(st, r.deviceId) && GetPeer(st, r.deviceId).None?
    ensures Admit(st, Open, r).0.nonces == CacheAfter(st.nonces, AdmitAttempts(st, Open, r))
  {
    hide Blocked, GetPeer, NoncesAfter, Authorized, RegisterAttempt, NormalBundle, CacheAfter, IssueToken, IssueProof, Upsert;
    CacheAfterOne(st.nonces, Attempt("", 0, false, 0));
    var created := CreatePeer(st, r.deviceId, r.uuid, r.bundleId, r.publicKey, true);
    if created.Some? {
      var s2 := created.value;
      var a := RegisterAttempt(s2, r);
      IssueProofNonces(s2, ProofCarried(r), a, r.headers);
      IssueEffect(s2.(nonces := NoncesAfter(s2, ProofCarried(r), a, r.headers)), r.deviceId, r.newToken);
    }
  }

  lemma ClosedNonces(st: Store, mode: Mode, r: Request)
    requires Blocked(st, r.deviceId) || (GetPeer(st, r.deviceId).None? && !mode.Open?)
    ensures Admit(st, mode, r).0.nonces == st.nonces && AdmitAttempts(st, mode, r) == []
  {
    hide Blocked, GetPeer, NextPending, ValidateToken, NormalBundle, Upsert;
  }

  lemma AdmitNonces(st: Store, mode: Mode, r: Request)
    ensures Admit(st, mode, r).0.nonces == CacheAfter(st.nonces, AdmitAttempts(st, mode, r))
  {
    hide Admit, AdmitAttempts, Blocked, GetPeer, CacheAfter;
    if Blocked(st, r.deviceId) || (GetPeer(st, r.deviceId).None? && !mode.Open?) {
      ClosedNonces(st, mode, r);
      CacheAfterOne(st.nonces, Attempt("", 0, false, 0));
    } else if GetPeer(st, r.deviceId).Some? {
      ReadmitNonces(st, mode, r);
    } else {
      OpenNonces(st, r);
    }
  }

  lemma RegisterNonces(st: Store, mode: Mode, r: Request)
    ensures Register(st, mode, r).0.nonces == CacheAfter(st.nonces, Attempts(st, mode, Registers(r)))
  {
    hide After, Admit, AdmitAttempts, RegisterAttempt, Accepts, CacheAfter;
    var a := RegisterAttempt(st, r);
    var first := if r.supportAgent then [a] else [];
    CacheAfterOne(st.nonces, a);
    AdmitNonces(Considered(st, r), mode, r);
    CacheAfterConcat(st.nonces, first, AdmitAttempts(Considered(st, r), mode, r));
    assert first + [] == first;
  }

  lemma PollNonces(st: Store, q: PollRequest)
    ensures Poll(st, q).0.nonces == CacheAfter(st.nonces, Attempts(st, Open, Polls(q)))
  {
    hide NoncesAfter, Authorized, PollAttempt, CacheAfter, IssueToken, IssueProof, HasCredential;
    var a := PollAttempt(st, q);
    CacheAfterOne(st.nonces, a);
    IssueProofNonces(st, false, a, q.headers);
    IssueEffect(st.(nonces := NoncesAfter(st, false, a, q.headers)), q.deviceId, q.newToken);
  }

  lemma CreateNonces(st: Store, id: string, uuid: string, bundleId: string, publicKey: KeyText, reset: bool)
    ensures var created := CreatePeer(st, id, uuid, bundleId, publicKey, reset);
            created.Some? ==> created.value.nonces == st.nonces
  {
  }

  lemma ApproveNonces(st: Store, id: string, wellFormed: bool)
    ensures Approve(st, id, wellFormed).0.nonces == st.nonces
  {
    hide CreatePeer;
    if id in st.pending {
      var p := st.pending[id];
      CreateNonces(st, if p.deviceId == "" then id else p.deviceId, p.uuid, p.bundleId, p.publicKey, true);
    }
  }

  lemma RejectNonces(st: Store, id: string, ban: bool)
    ensures Reject(st, id, ban).0.nonces == st.nonces
  {
    hide CreatePeer, Ban, GetPeer;
    var p := if id in st.pending then st.pending[id] else NO_PENDING;
    var s1 := st.(pending := st.pending - {id}, rejected := st.rejected[id := ban]);
    CreateNonces(s1, if p.deviceId == "" then id else p.deviceId, p.uuid, p.bundleId, p.publicKey, false);
  }

  lemma LiftNonces(st: Store, id: string)
    ensures ClearRejection(st, id).0.nonces == st.nonces && Unban(st, id).nonces == st.nonces
  {
    hide IsAuditPeer, GetPeer;
  }

  lemma QueueNonces(st: Store, mode: Mode, clientId: string, clientUuid: string, ip: string)
    ensures QueueViewer(st, mode, clientId, clientUuid, ip).nonces == st.nonces
  {
    hide NextPending, Trim, GetPeer;
  }

  /** The nonce cache after a step is the cache before it, with the step's proofs presented in order. */
  lemma StepNonces(st: Store, mode: Mode, e: Event)
    ensures Step(st, mode, e).0.nonces == CacheAfter(st.nonces, Attempts(st, mode, e))
  {
    if e.Registers? {
      hide Register, CacheAfter;
      RegisterNonces(st, mode, e.request);
    } else if e.Polls? {
      hide Poll, CacheAfter;
      PollNonces(st, e.poll);
    } else {
      hide Approve, Reject, ClearRejection, Unban, QueueViewer, CacheAfter;
      CacheAfterOne(st.nonces, Attempt("", 0, false, 0));
      match e
      case Approves(id, wellFormed) => ApproveNonces(st, id, wellFormed);
      case Rejects(id, ban) => RejectNonces(st, id, ban);
      case Clears(id) => LiftNonces(st, id);
      case Unbans(id) => LiftNonces(st, id);
      case LogsIn(clientId, clientUuid, ip) => QueueNonces(st, mode, clientId, clientUuid, ip);
    }
  }

  // ---------------------------------------------------------------------------
  //  A token for an enrolled device rests on a fresh proof
  // ---------------------------------------------------------------------------

  function HeadersOf(e: Event): Headers {
    match e
    case Registers(r) => r.headers
    case Polls(q) => q.headers
    case _ => NO_HEADERS
  }

  /** The step hands a token to a device that already has a row. */
  predicate Reissues(st: Store, mode: Mode, e: Event) {
    && (e.Registers? || e.Polls?)
    && GetPeer(st, Subject(e)).Some?
    && Step(st, mode, e).1.token.Some?
  }

  function NowOf(e: Event): int {
    match e
    case Registers(r) => r.now
    case Polls(q) => q.now
    case _ => 0
  }

  /** The only key that may sign a proof for the event's device at this moment. */
  function KeyFor(st: Store, e: Event): Option<Key> {
    match e
    case Registers(r) => ProofKey(st, r.deviceId, r.publicKey)
    case Polls(q) => ProofKey(st, q.deviceId, NoKey)
    case _ => None
  }

  /** The headers of the event carry an enrollment signature by `key` over `id`, that key and their own timestamp and nonce. */
  ghost predicate SignsFor(e: Event, id: string, key: Option<Key>) {
    var h := HeadersOf(e);
    && h.stamp.TimeText? && h.signature.Signature? && key == Some(h.signature.signer)
    && exists p: Signed ::
         && h.signature.payload == TextOf(p)
         && p.device == id && p.key == h.signature.signer && p.stamp == h.stamp.spelling && p.nonce == h.nonce
  }

  /** The attempt is the one the headers of the event make for its device, signed by `key`. */
  ghost predicate IsProofOf(a: Attempt, e: Event, key: Option<Key>) {
    var h := HeadersOf(e);
    && h.stamp.TimeText? && a.stamp == h.stamp.instant && a.now == NowOf(e)
    && a.key == EnrollmentCacheKey(Subject(e), h.nonce)
    && SignsFor(e, Subject(e), key)
  }

  lemma GenuineIsProof(verb: Line, path: Line, id: string, key: Option<Key>, h: Headers, now: int, e: Event)
    requires EnrollmentAttempt(verb, path, id, key, h, now).genuine
    requires Subject(e) == id && HeadersOf(e) == h && NowOf(e) == now
    ensures IsProofOf(EnrollmentAttempt(verb, path, id, key, h, now), e, key)
  {
    hide EnrollmentPayload;
    var p := Signed(verb, path, id, key.value, h.stamp.spelling, h.nonce);
    assert h.signature.payload == TextOf(p);
  }

  /**
   A poll hands a token to an enrolled device exactly when the device is neither blocked nor
   disabled, shows no bound credential, carries a proof that is accepted, and the new text is free.
   */
  lemma PollReissueExactly(st: Store, q: PollRequest)
    ensures GetPeer(st, q.deviceId).Some? && Poll(st, q).1.token.Some? <==>
            PollAsks(st, q) && Provided(q.headers) && Accepts(st.nonces, PollAttempt(st, q), CLOCK_SKEW) && q.newToken !in st.tokens
  {
    hide EnrollmentAttempt, ProofKey, Accepts, HasCredential, NoncesAfter;
  }

  lemma PollReissue(st: Store, q: PollRequest)
    requires GetPeer(st, q.deviceId).Some? && Poll(st, q).1.token.Some?
    ensures var a := PollAttempt(st, q);
            IssueProof(false, q.headers, a) == [a] && PollAsks(st, q) && Accepts(st.nonces, a, CLOCK_SKEW)
  {
    hide EnrollmentAttempt, ProofKey, Accepts, HasCredential, NoncesAfter;
  }

  lemma RecoverReissue(st: Store, r: Request)
    requires Recover(st, r).1.token.Some?
    ensures ProofCarried(r) || (Provided(r.headers) && Accepts(st.nonces, RegisterAttempt(st, r), CLOCK_SKEW))
  {
    hide RegisterAttempt, Accepts, HasCredential, NoncesAfter, LoadKey;
  }

  lemma RegisterReissue(st: Store, mode: Mode, r: Request)
    requires GetPeer(st, r.deviceId).Some? && Register(st, mode, r).1.token.Some?
    ensures PassesValidation(st, r)
    ensures !r.supportAgent ==>
              var a := RegisterAttempt(WithBundle(st, r), r);
              AdmitAttempts(st, mode, r) == [a] && Accepts(st.nonces, a, CLOCK_SKEW)
  {
    hide Register, PassesValidation, RegisterAttempt, Accepts, Recover, ReadmitRefusal, Blocked, GetPeer;
    RegisterShape(st, mode, r);
    var s1 := Considered(st, r);
    ReadersAgree(st, s1, r);
    if !r.supportAgent {
      RecoverReissue(WithBundle(st, r), r);
    }
  }

  lemma BundleKeepsProofKey(st: Store, r: Request)
    ensures ProofKey(WithBundle(st, r), r.deviceId, r.publicKey) == ProofKey(st, r.deviceId, r.publicKey)
  {
    hide NormalBundle, BoundBundle;
  }

  /** The first proof the step presents is accepted, and it is the one in its headers, signed by the device's key. */
  lemma ReissueHasProof(st: Store, mode: Mode, e: Event)
    requires Reissues(st, mode, e)
    ensures Attempts(st, mode, e) != []
    ensures Accepts(st.nonces, Attempts(st, mode, e)[0], CLOCK_SKEW)
    ensures IsProofOf(Attempts(st, mode, e)[0], e, KeyFor(st, e))
  {
    hide Register, Poll, ProofKey, AdmitAttempts, WithBundle, GetPeer, EnrollmentAttempt, IsProofOf, PollAsks;
    match e
    case Registers(r) =>
      RegisterReissue(st, mode, r);
      BundleKeepsProofKey(st, r);
      var base := if r.supportAgent then st else WithBundle(st, r);
      GenuineIsProof("POST", REGISTER_PATH, r.deviceId, ProofKey(base, r.deviceId, r.publicKey), r.headers, r.now, e);
      assert [] + AdmitAttempts(st, mode, r) == AdmitAttempts(st, mode, r);
    case Polls(q) =>
      PollReissue(st, q);
      GenuineIsProof("GET", STATUS_PATH, q.deviceId, ProofKey(st, q.deviceId, NoKey), q.headers, q.now, e);
  }

  // ---------------------------------------------------------------------------
  //  Runs
  // ---------------------------------------------------------------------------

  /** All proofs presented during the first `n` events, in order. */
  function AllAttempts(st: Store, modes: seq<Mode>, run: seq<Event>, n: nat): seq<Attempt>
    requires n <= |run| == |modes|
  {
    if n == 0 then [] else AllAttempts(st, modes, run, n - 1) + Attempts(StoreAcross(st, modes, run, n - 1), modes[n - 1], run[n - 1])
  }

  lemma {:induction false} CacheAfterIsCache(a: seq<Attempt>, b: seq<Attempt>)
    ensures CacheAt(a + b, |a|, NONCE_TTL, CLOCK_SKEW) == CacheAfter(map[], a)
    decreases |a|
  {
    hide After;
    if a != [] {
      var init, last := a[..|a| - 1], a[|a| - 1];
      assert a + b == init + ([last] + b);
      CacheAfterIsCache(init, [last] + b);
    }
  }

  lemma {:induction false} RunNonces(st: Store, modes: seq<Mode>, run: seq<Event>, n: nat)
    requires n <= |run| == |modes| && st.nonces == map[]
    ensures StoreAcross(st, modes, run, n).nonces == CacheAfter(map[], AllAttempts(st, modes, run, n))
  {
    hide Step, Attempts, CacheAfter;
    if n == 0 {
      CacheAfterOne(map[], Attempt("", 0, false, 0));
    } else {
      RunNonces(st, modes, run, n - 1);
      var s := StoreAcross(st, modes, run, n - 1);
      StepNonces(s, modes[n - 1], run[n - 1]);
      CacheAfterConcat(map[], AllAttempts(st, modes, run, n - 1), Attempts(s, modes[n - 1], run[n - 1]));
    }
  }

  lemma {:induction false} AttemptsGrow(st: Store, modes: seq<Mode>, run: seq<Event>, n: nat, m: nat) returns (rest: seq<Attempt>)
    requires n <= m <= |run| == |modes|
    ensures AllAttempts(st, modes, run, m) == AllAttempts(st, modes, run, n) + rest
    decreases m - n
  {
    hide Step, Attempts;
    if n == m {
      rest := [];
    } else {
      rest := AttemptsGrow(st, modes, run, n, m - 1);
      rest := rest + Attempts(StoreAcross(st, modes, run, m - 1), modes[m - 1], run[m - 1]);
    }
  }

  predicate ReissuedAt(st: Store, modes: seq<Mode>, run: seq<Event>, n: nat)
    requires n < |run| == |modes|
  {
    Reissues(StoreAcross(st, modes, run, n), modes[n], run[n])
  }

  /** Where the proof behind a reissued token stands among all proofs of the run. */
  lemma ReissuePosition(st: Store, modes: seq<Mode>, run: seq<Event>, n: nat) returns (k: nat)
    requires n < |run| == |modes| && st.nonces == map[] && ReissuedAt(st, modes, run, n)
    ensures k == |AllAttempts(st, modes, run, n)| < |AllAttempts(st, modes, run, n + 1)| <= |AllAttempts(st, modes, run, |run|)|
    ensures AcceptedAt(AllAttempts(st, modes, run, |run|), k, NONCE_TTL, CLOCK_SKEW)
    ensures IsProofOf(AllAttempts(st, modes, run, |run|)[k], run[n], KeyFor(StoreAcross(st, modes, run, n), run[n]))
  {
    hide Step, Attempts, IsProofOf, Accepts, CacheAfter, CacheAt, Reissues;
    var s := StoreAcross(st, modes, run, n);
    var mine, before := Attempts(s, modes[n], run[n]), AllAttempts(st, modes, run, n);
    k := |before|;
    ReissueHasProof(s, modes[n], run[n]);
    var rest := AttemptsGrow(st, modes, run, n + 1, |run|);
    var all := AllAttempts(st, modes, run, |run|);
    assert all == before + (mine + rest);
    assert all[k] == mine[0];
    RunNonces(st, modes, run, n);
    CacheAfterIsCache(before, mine + rest);
  }

  /** The instant and nonce of the proof an event brings. */
  function PairOf(e: Event): (int, string) {
    (if HeadersOf(e).stamp.TimeText? then HeadersOf(e).stamp.instant else 0, HeadersOf(e).nonce)
  }

  /** The timestamp of the event's proof can be measured from its own clock reading. */
  predicate Measurable(e: Event) {
    HeadersOf(e).stamp.TimeText? ==> !FarAhead(NowOf(e), HeadersOf(e).stamp.instant)
  }

  /**
   Token accounting: over every run whose readings reach the nonce cache in order, under any
   changes of mode and from any store with a fresh nonce cache, two tokens handed to the same
   enrolled device rest on different pairs of instant and nonce, unless the instant behind the
   first one was too far ahead to be measured.
   */
  lemma TokensNeedDistinctProofs(st: Store, modes: seq<Mode>, run: seq<Event>, n: nat, m: nat)
    requires n < m < |run| == |modes| && st.nonces == map[]
    requires Ordered(AllAttempts(st, modes, run, |run|), CLOCK_SKEW)
    ensures ReissuedAt(st, modes, run, n) && ReissuedAt(st, modes, run, m) && Subject(run[n]) == Subject(run[m]) ==>
              PairOf(run[n]) != PairOf(run[m]) || !Measurable(run[n])
  {
    hide AllAttempts, KeyFor, ReissuedAt, AcceptedAt, StoreAcross, Ordered, SignsFor;
    if ReissuedAt(st, modes, run, n) && ReissuedAt(st, modes, run, m) && Subject(run[n]) == Subject(run[m]) && PairOf(run[n]) == PairOf(run[m]) {
      var all := AllAttempts(st, modes, run, |run|);
      var i := ReissuePosition(st, modes, run, n);
      var j := ReissuePosition(st, modes, run, m);
      var rest := AttemptsGrow(st, modes, run, n + 1, m);
      assert Replayed(all, i, j, NONCE_TTL, CLOCK_SKEW);
      OrderedReplay(all, i, j);
    }
  }

  lemma OrderedReplay(run: seq<Attempt>, i: nat, j: nat)
    requires Ordered(run, CLOCK_SKEW) && Replayed(run, i, j, NONCE_TTL, CLOCK_SKEW)
    ensures FarAhead(run[i].now, run[i].stamp)
  {
    AtMostOnce(run, i, j, 0, NONCE_TTL, CLOCK_SKEW);
  }

  // ---------------------------------------------------------------------------
  //  Counting
  // ---------------------------------------------------------------------------

  /** Events that hand a token to the enrolled device `id` for a timestamp that can be measured. */
  ghost function ReissueEvents(st: Store, modes: seq<Mode>, run: seq<Event>, id: string): set<nat>
    requires |run| == |modes|
  {
    set n: nat | n < |run| && ReissuedAt(st, modes, run, n) && Subject(run[n]) == id && Measurable(run[n])
  }

  /** Pairs of instant and nonce signed for `id` in the run, each by the only key that may sign at that moment. */
  ghost function SignedPairs(st: Store, modes: seq<Mode>, run: seq<Event>, id: string): set<(int, string)>
    requires |run| == |modes|
  {
    set n: nat | n < |run| && SignsFor(run[n], id, KeyFor(StoreAcross(st, modes, run, n), run[n])) :: PairOf(run[n])
  }

  lemma {:induction false} InjectiveCount<T>(events: set<nat>, pairOf: nat -> T, pairs: set<T>)
    requires forall n :: n in events ==> pairOf(n) in pairs
    requires forall n, m :: n in events && m in events && n != m ==> pairOf(n) != pairOf(m)
    ensures |events| <= |pairs|
    decreases |events|
  {
    if events != {} {
      var n :| n in events;
      InjectiveCount(events - {n}, pairOf, pairs - {pairOf(n)});
    }
  }

  /** The tokens handed to an enrolled device for measurable instants never outnumber the pairs its key signed for it. */
  lemma TokensBoundedByProofs(st: Store, modes: seq<Mode>, run: seq<Event>, id: string)
    requires |run| == |modes| && st.nonces == map[] && Ordered(AllAttempts(st, modes, run, |run|), CLOCK_SKEW)
    ensures |ReissueEvents(st, modes, run, id)| <= |SignedPairs(st, modes, run, id)|
  {
    hide ReissuedAt, AllAttempts, Ordered, SignsFor, Measurable;
    var events := ReissueEvents(st, modes, run, id);
    var pairOf := (n: nat) => if n < |run| then PairOf(run[n]) else (0, "");
    forall n | n in events ensures pairOf(n) in SignedPairs(st, modes, run, id) {
      var k := ReissuePosition(st, modes, run, n);
      assert SignsFor(run[n], id, KeyFor(StoreAcross(st, modes, run, n), run[n]));
    }
    forall n, m | n in events && m in events && n != m ensures pairOf(n) != pairOf(m) {
      if n < m {
        TokensNeedDistinctProofs(st, modes, run, n, m);
      } else {
        TokensNeedDistinctProofs(st, modes, run, m, n);
      }
    }
    InjectiveCount(events, pairOf, SignedPairs(st, modes, run, id));
  }
}
