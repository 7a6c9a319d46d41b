/** What the answers and the tables say after each request. */
module EnrollmentAnswers {
  import opened Options
  import opened Text
  import opened ReplayCache
  import opened DeviceProof
  import opened Enrollment
  import opened EnrollmentRuns
  import opened EnrollmentRules
  import opened EnrollmentModes

  // ---------------------------------------------------------------------------
  //  Requests of devices
  // ---------------------------------------------------------------------------

  /** The request contradicts the entry that waits for its device. */
  predicate Disputed(st: Store, r: Request) {
    r.deviceId in st.pending && Contradicts(st.pending[r.deviceId], r)
  }

  /**
   A registration is approved exactly when it is readmitted without refusal or admitted
   outright, and then the device has an active row; it waits exactly when it is a newcomer's in
   managed mode and is not disputed, and then there is an entry; any other leaves the devices alone.
   */
  lemma RegisterAnswers(st: Store, mode: Mode, r: Request)
    ensures var (s, answer) := Register(st, mode, r);
            && (answer.status == Approved <==> (Readmits(st, r) && ReadmitRefusal(st, r).None?) || AdmittedOutright(st, mode, r))
            && (answer.status == Waiting <==> mode.Managed? && Newcomer(st, r) && !Disputed(st, r))
            && (answer.status == Approved ==> ActiveRow(s, r.deviceId))
            && (answer.status == Approved && mode.Managed? ==> ActiveRow(st, r.deviceId))
            && (answer.status == Waiting ==> r.deviceId in s.pending)
            && (answer.status !in {Approved, Waiting} ==> OnlyTokens(st, s))
  {
    hide Register, PassesValidation;
    if Readmits(st, r) {
      ReadmittedAnswer(st, mode, r);
    } else if Newcomer(st, r) {
      NewcomerAnswer(st, mode, r);
    } else {
      hide Blocked, GetPeer;
      OtherRegisterEffect(st, mode, r);
    }
  }

  lemma ReadmittedAnswer(st: Store, mode: Mode, r: Request)
    requires Readmits(st, r)
    ensures var (s, answer) := Register(st, mode, r);
            && ActiveRow(st, r.deviceId) && s.peers == st.peers
            && (answer.status == Approved <==> ReadmitRefusal(st, r).None?)
            && answer.status != Waiting
            && (answer.status != Approved ==> OnlyTokens(st, s))
  {
    hide Register, PassesValidation, ReadmitRefusal, BindsKey, WithBundle;
    ReadmitsEffect(st, mode, r);
    ReadmitNeverWaits(st, mode, r);
  }

  lemma NewcomerAnswer(st: Store, mode: Mode, r: Request)
    requires Newcomer(st, r)
    ensures var (s, answer) := Register(st, mode, r);
            && (answer.status == Approved <==> AdmittedOutright(st, mode, r))
            && (answer.status == Waiting <==> mode.Managed? && !Disputed(st, r))
            && (answer.status == Approved ==> ActiveRow(s, r.deviceId))
            && (answer.status == Waiting ==> r.deviceId in s.pending)
            && (answer.status !in {Approved, Waiting} ==> OnlyTokens(st, s))
  {
    hide Register, PassesValidation, Contradicts, FirstPending, TokenAdmits, NormalBundle;
    if mode.Managed? {
      NewcomerEffect(st, r);
    } else {
      OutrightEffect(st, mode, r);
    }
  }

  /** A poll changes no device; it is approved exactly for an active row that is not disabled or rejected. */
  lemma PollAnswers(st: Store, q: PollRequest)
    ensures var (s, answer) := Poll(st, q);
            var id := q.deviceId;
            && OnlyTokens(st, s)
            && (answer.status == Approved <==>
                  id != "" && !Blocked(st, id) && GetPeer(st, id).Some? && !GetPeer(st, id).value.disabled)
            && (answer.status == Approved ==> ActiveRow(s, id))
            && (answer.status == Waiting <==> id != "" && !Blocked(st, id) && GetPeer(st, id).None? && id in st.pending)
  {
    hide Authorized, NoncesAfter, PollAttempt, PollAsks, IssueToken;
    PollEffect(st, q);
  }

  lemma QueueMeans(st: Store, mode: Mode, clientId: string, clientUuid: string, ip: string)
    ensures var s, id := QueueViewer(st, mode, clientId, clientUuid, ip), Trim(clientId);
            && s == st.(pending := s.pending)
            && (id != "" && mode.Managed? && Free(st, id) ==> id in s.pending)
            && (id != "" && mode.Managed? && Free(st, id) && id !in st.pending ==>
                  s.pending == st.pending[id := Pending(id, Trim(clientUuid), "", "", "", "", "", "", NoKey, ip)])
            && (id == "" || !mode.Managed? || Removed(st, id) || id in st.rejected || id in st.peers ==> s == st)
  {
    hide Trim, Contradicts, Enriched, Enriches, NormalBundle, NormalTags;
    BlankFields();
  }

  lemma BlankFields()
    ensures Trim("") == "" && NormalBundle("") == "" && NormalTags("") == ""
  {
    var parts: seq<string> := Split("", ',');
    assert parts == [""] && parts[..0] == [];
    assert AddTags([], parts) == [];
  }

  // ---------------------------------------------------------------------------
  //  Proofs, tokens and rows
  // ---------------------------------------------------------------------------

  /** A proof that authorized a request authorizes no other one while its entry lives. */
  lemma AuthorizesOnce(st: Store, verb: string, path: string, id: string, publicKey: KeyText, h: Headers, now: int)
    ensures var a := IssueAttempt(st, verb, path, id, publicKey, h, now);
            Accepts(st.nonces, a, CLOCK_SKEW) ==>
              forall key, later :: later <= now + NONCE_TTL ==>
                !Accepts(After(st.nonces, a, NONCE_TTL, CLOCK_SKEW), EnrollmentAttempt(verb, path, id, key, h, later), CLOCK_SKEW)
  {
    hide ProofKey, WithinSkew;
  }

  lemma CreatedDevice(st: Store, id: string, uuid: string, bundleId: string, publicKey: KeyText, reset: bool)
    ensures var created := CreatePeer(st, id, uuid, bundleId, publicKey, reset);
            && (created.Some? <==> id != "" && !(reset && Removed(st, id)))
            && (created.Some? ==>
                  && id in created.value.peers
                  && created.value.peers[id] ==
                       (if id in st.peers then st.peers[id].(uuid := if uuid != "" then uuid else st.peers[id].uuid, disabled := false)
                        else Peer(uuid, None, false, "", false, false))
                  && Lookup(created.value.keys, id) == (if publicKey.KeyText? then Some(publicKey.key) else Lookup(st.keys, id))
                  && Lookup(created.value.bundles, id) == (if NormalBundle(bundleId) != "" then Some(NormalBundle(bundleId)) else Lookup(st.bundles, id))
                  && (publicKey.KeyText? ==> LoadKey(created.value, id) == Some(publicKey.key))
                  && forall other :: other != id ==> SameDevice(st, created.value, other))
  {
    hide NormalBundle;
  }

  // ---------------------------------------------------------------------------
  //  Operator decisions
  // ---------------------------------------------------------------------------

  lemma ApprovalMeans(st: Store, id: string, wellFormed: bool)
    requires Kept(st, id)
    ensures var (s, answer) := Approve(st, id, wellFormed);
            && (answer.status == Approved <==> wellFormed && id in st.pending)
            && (answer.status == Approved ==>
                  && ActiveRow(s, id) && id !in s.pending && id !in s.rejected
                  && (st.pending[id].publicKey.KeyText? ==> LoadKey(s, id) == Some(st.pending[id].publicKey.key)))
  {
    hide Approve, NormalBundle;
    if wellFormed && id in st.pending {
      ApproveEffect(st, id);
    } else {
      ApproveNothing(st, id, wellFormed);
    }
  }

  lemma RejectionMeans(st: Store, id: string, ban: bool)
    requires Kept(st, id) && id != ""
    ensures var s := Reject(st, id, ban).0;
            id !in s.pending && id in s.rejected && s.rejected[id] == ban && (ban ==> Banned(s, id))
  {
    hide Reject, NormalBundle;
    RejectEffect(st, id, ban);
  }

  /** No marker and no ban are left, and nothing at all of a device that was banned. */
  predicate Lifted(st: Store, s: Store, id: string) {
    && id !in s.rejected && !Banned(s, id)
    && (Banned(st, id) ==> id !in s.peers && id !in s.keys && id !in s.bundles)
  }

  lemma ClearMeans(st: Store, id: string)
    requires Kept(st, id) && id != ""
    ensures Lifted(st, ClearRejection(st, id).0, id)
  {
    hide ClearRejection;
    ClearForm(st, id);
  }

  /**
   Clearing does nothing without a marker or decision.  Otherwise the marker goes and so does a
   rejecting decision, and the row with its key and bundle goes exactly when one of them, or the
   row's reason, tells of a ban by rejection.
   */
  lemma ClearExactly(st: Store, id: string)
    requires id != ""
    ensures var s := ClearRejection(st, id).0;
            if id !in st.rejected && id !in st.decisions then s == st
            else
              var gone := || (LiveRow(st, id) && st.peers[id].banReason == "enrollment rejected")
                          || (id in st.rejected && st.rejected[id])
                          || (id in st.decisions && st.decisions[id] == RejectedDecision(true));
              && id !in s.rejected && s.pending == st.pending
              && Lookup(s.decisions, id) == (if id in st.decisions && st.decisions[id].ApprovedDecision? then Some(ApprovedDecision) else None)
              && Lookup(s.peers, id) == (if gone then None else Lookup(st.peers, id))
              && Lookup(s.keys, id) == (if gone then None else Lookup(st.keys, id))
              && Lookup(s.bundles, id) == (if gone then None else Lookup(st.bundles, id))
  {
    hide RemoveAuditPeer, ClearRejectionState, IsAuditPeer, GetPeer, LiveRow;
    ClearStateFields(st, id);
    RemovalFields(ClearRejectionState(st, id), id);
    AuditExactly(st, id);
  }

  lemma ClearStateFields(st: Store, id: string)
    ensures var s := ClearRejectionState(st, id);
            && s == st.(rejected := s.rejected, decisions := s.decisions) && id !in s.rejected
            && Lookup(s.decisions, id) == if id in st.decisions && st.decisions[id].ApprovedDecision? then Some(ApprovedDecision) else None
  {
  }

  lemma RemovalFields(st: Store, id: string)
    ensures var s := RemoveAuditPeer(st, id);
            && s == st.(peers := s.peers, keys := s.keys, bundles := s.bundles)
            && id !in s.peers && id !in s.keys && id !in s.bundles
  {
  }

  lemma AuditExactly(st: Store, id: string)
    ensures IsAuditPeer(GetPeer(st, id), Lookup(st.rejected, id), Lookup(st.decisions, id)) <==>
            || (LiveRow(st, id) && st.peers[id].banReason == "enrollment rejected")
            || (id in st.rejected && st.rejected[id])
            || (id in st.decisions && st.decisions[id] == RejectedDecision(true))
  {
  }

  lemma UnbanMeans(st: Store, id: string)
    requires Kept(st, id)
    ensures Lifted(st, Unban(st, id), id)
  {
    hide Unban;
    UnbanForm(st, id);
  }

  // ---------------------------------------------------------------------------
  //  Runs
  // ---------------------------------------------------------------------------

  predicate AlwaysManaged(modes: seq<Mode>) {
    forall m :: 0 <= m < |modes| ==> modes[m] == Managed
  }

  lemma EveryRowEnrolled(modes: seq<Mode>, run: seq<Event>)
    requires |modes| == |run|
    ensures forall id :: ActiveRow(StoreAcross(EMPTY, modes, run, |run|), id) ==> exists i: nat :: i < |run| && EnrolledAt(modes, run, i, id)
  {
    hide StoreAcross, EnrolledAt;
    forall id | ActiveRow(StoreAcross(EMPTY, modes, run, |run|), id)
      ensures exists i: nat :: i < |run| && EnrolledAt(modes, run, i, id)
    {
      var i := ActiveMeansEnrolled(modes, run, |run|, id);
    }
  }

  lemma ManagedRun(modes: seq<Mode>, run: seq<Event>)
    requires |modes| == |run| && AlwaysManaged(modes)
    ensures AllSound(StoreAcross(EMPTY, modes, run, |run|))
  {
    hide AllSound, StoreAcross, StoreAt;
    ConstantMode(EMPTY, Managed, modes, run, |run|);
    RunsAreSound(run, |run|);
  }

  lemma EveryApprovalGranted(modes: seq<Mode>, run: seq<Event>)
    requires |modes| == |run| && AlwaysManaged(modes)
    ensures forall n: nat | n < |run| && (run[n].Registers? || run[n].Polls?) ::
              Step(StoreAcross(EMPTY, modes, run, n), modes[n], run[n]).1.status == Approved ==>
                exists i: nat :: ApprovedAt(run, i, n, Subject(run[n]))
  {
    hide Step, StoreAcross, StoreAt, ApprovedAt;
    forall n: nat | n < |run| && (run[n].Registers? || run[n].Polls?) && Step(StoreAcross(EMPTY, modes, run, n), modes[n], run[n]).1.status == Approved
      ensures exists i: nat :: ApprovedAt(run, i, n, Subject(run[n]))
    {
      ConstantMode(EMPTY, Managed, modes, run, n);
      var i := ApprovedAnswerMeansApproved(run, n);
    }
  }
}
