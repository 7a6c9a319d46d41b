/** What a pending entry says, over runs during which an operator may change the mode. */
module EnrollmentPending {
  import opened Options
  import opened Text
  import opened DeviceProof
  import opened Enrollment
  import opened EnrollmentRuns
  import opened EnrollmentModes

  // ---------------------------------------------------------------------------
  //  One step
  // ---------------------------------------------------------------------------

  predicate Filled(before: string, now: string) {
    before != "" ==> now == before
  }

  /** `q` says everything `p` said, and possibly more. */
  predicate Extends(p: Pending, q: Pending) {
    && q.deviceId == p.deviceId
    && Filled(p.uuid, q.uuid) && Filled(p.hostname, q.hostname) && Filled(p.platform, q.platform)
    && Filled(p.version, q.version) && Filled(p.deviceType, q.deviceType) && Filled(p.bundleId, q.bundleId)
    && Filled(p.tags, q.tags) && Filled(p.ip, q.ip)
    && (p.publicKey != NoKey ==> q.publicKey == p.publicKey)
  }

  /** The event submits device `id` to the queue and is not refused. */
  predicate Submits(st: Store, mode: Mode, e: Event, id: string) {
    match e
    case Registers(r) => r.deviceId == id && Register(st, mode, r).1.status == Waiting
    case LogsIn(clientId, clientUuid, ip) =>
      && Trim(clientId) == id && id != "" && mode.Managed? && !Removed(st, id) && id !in st.rejected && GetPeer(st, id).None?
      && StorePending(st, ViewerRequest(clientId, clientUuid, ip)).Some?
    case _ => false
  }

  function SubmittedKey(e: Event): KeyText {
    if e.Registers? then e.request.publicKey else NoKey
  }

  /** What a step does to one pending entry. */
  predicate EntryStep(st: Store, mode: Mode, e: Event, id: string) {
    var s := Step(st, mode, e).0;
    if !Submits(st, mode, e, id) then id in s.pending ==> id in st.pending && s.pending[id] == st.pending[id]
    else
      && id in s.pending
      && (id in st.pending ==> Extends(st.pending[id], s.pending[id]))
      && s.pending[id].publicKey ==
           (if id in st.pending && st.pending[id].publicKey != NoKey then st.pending[id].publicKey else SubmittedKey(e))
  }

  lemma StoredEntry(st: Store, r: Request, id: string)
    requires AllKept(st) && StorePending(st, r).Some?
    ensures var s := StorePending(st, r).value;
            if id == r.deviceId then
              && id in s.pending
              && (id in st.pending ==> Extends(st.pending[id], s.pending[id]))
              && s.pending[id].publicKey ==
                   (if id in st.pending && st.pending[id].publicKey != NoKey then st.pending[id].publicKey else r.publicKey)
            else Lookup(s.pending, id) == Lookup(st.pending, id)
  {
    hide StorePending, Contradicts, NormalBundle, NormalTags, Trim;
    PendingEffect(st, r);
    assert Kept(st, r.deviceId);
  }

  lemma ReadmitEntryStep(st: Store, mode: Mode, r: Request, id: string)
    requires Readmits(st, r)
    ensures EntryStep(st, mode, Registers(r), id)
  {
    hide Register, PassesValidation, BindsKey, ReadmitRefusal, WithBundle, Extends;
    ReadmitsEffect(st, mode, r);
    ReadmitNeverWaits(st, mode, r);
  }

  lemma NewcomerEntryStep(st: Store, mode: Mode, r: Request, id: string)
    requires AllKept(st) && Newcomer(st, r)
    ensures EntryStep(st, mode, Registers(r), id)
  {
    hide Register, PassesValidation, StorePending, Extends, AllKept, TokenAdmits, NormalBundle;
    if mode.Managed? {
      NewcomerEffect(st, r);
      if StorePending(st, r).Some? {
        StoredEntry(st, r, id);
      }
    } else {
      OutrightEffect(st, mode, r);
    }
  }

  lemma RegisterEntryStep(st: Store, mode: Mode, r: Request, id: string)
    requires AllKept(st)
    ensures EntryStep(st, mode, Registers(r), id)
  {
    if Readmits(st, r) {
      hide Register, PassesValidation, EntryStep;
      ReadmitEntryStep(st, mode, r, id);
    } else if Newcomer(st, r) {
      hide Register, PassesValidation, EntryStep;
      NewcomerEntryStep(st, mode, r, id);
    } else {
      hide Register, PassesValidation, Extends, AllKept;
      OtherRegisterEffect(st, mode, r);
    }
  }

  lemma QueueEntryStep(st: Store, mode: Mode, clientId: string, clientUuid: string, ip: string, id: string)
    requires AllKept(st)
    ensures EntryStep(st, mode, LogsIn(clientId, clientUuid, ip), id)
  {
    hide StorePending, Extends, Trim, AllKept;
    var r := ViewerRequest(clientId, clientUuid, ip);
    if StorePending(st, r).Some? {
      StoredEntry(st, r, id);
    }
  }

  lemma RejectEntries(st: Store, id: string, ban: bool)
    requires Kept(st, id)
    ensures Reject(st, id, ban).0.pending in {st.pending, st.pending - {id}}
  {
    hide Reject, NormalBundle;
    if id != "" {
      RejectEffect(st, id, ban);
    } else {
      RejectNobody(st, ban);
    }
  }

  lemma LiftEntries(st: Store, s: Store, id: string)
    requires LiftedFrom(st, s, id)
    ensures s.pending == st.pending
  {
  }

  lemma ApproveEntries(st: Store, id: string, wellFormed: bool)
    requires Kept(st, id)
    ensures Approve(st, id, wellFormed).0.pending in {st.pending, st.pending - {id}}
  {
    hide NormalBundle;
    if id != "" && wellFormed && id in st.pending {
      ApproveEffect(st, id);
    }
  }

  lemma EntrySteps(st: Store, mode: Mode, e: Event, id: string)
    requires AllKept(st)
    ensures EntryStep(st, mode, e, id)
  {
    hide Register, Poll, Approve, Reject, ClearRejection, Unban, QueueViewer, StorePending, Extends, Trim, LiftedFrom, Kept;
    assert Kept(st, Subject(e));
    match e
    case Registers(r) => RegisterEntryStep(st, mode, r, id);
    case LogsIn(clientId, clientUuid, ip) => QueueEntryStep(st, mode, clientId, clientUuid, ip, id);
    case Polls(q) => PollEffect(st, q);
    case Approves(a, wellFormed) => ApproveEntries(st, a, wellFormed);
    case Rejects(a, ban) => RejectEntries(st, a, ban);
    case Clears(a) =>
      ClearForm(st, a);
      LiftEntries(st, ClearRejection(st, a).0, a);
    case Unbans(a) =>
      UnbanLifts(st, a);
      LiftEntries(st, Unban(st, a), a);
  }

  // ---------------------------------------------------------------------------
  //  Runs
  // ---------------------------------------------------------------------------

  lemma ExtendsTransitive(p: Pending, q: Pending, t: Pending)
    requires Extends(p, q) && Extends(q, t)
    ensures Extends(p, t)
  {
  }

  /**
   Over every run with changing modes, from any kept store: while a device stays pending, each
   field of its entry moves from empty to non-empty at most once.
   */
  lemma {:induction false} PendingWriteOnce(st: Store, modes: seq<Mode>, run: seq<Event>, i: nat, n: nat, id: string)
    requires i <= n <= |run| == |modes| && AllKept(st)
    requires forall m :: i <= m <= n ==> id in StoreAcross(st, modes, run, m).pending
    ensures Extends(StoreAcross(st, modes, run, i).pending[id], StoreAcross(st, modes, run, n).pending[id])
    decreases n - i
  {
    hide Step, AllKept, Submits, Extends;
    if i == n {
      ExtendsItself(StoreAcross(st, modes, run, i).pending[id]);
    } else {
      PendingWriteOnce(st, modes, run, i, n - 1, id);
      var s := StoreAcross(st, modes, run, n - 1);
      RunsKeep(st, modes, run, n - 1);
      EntrySteps(s, modes[n - 1], run[n - 1], id);
      ExtendsItself(s.pending[id]);
      ExtendsTransitive(StoreAcross(st, modes, run, i).pending[id], s.pending[id], StoreAcross(st, modes, run, n).pending[id]);
    }
  }

  lemma ExtendsItself(p: Pending)
    ensures Extends(p, p)
  {
  }

  /** The first key of the entry since the device last was not pending: an initial one, or the first one submitted. */
  function FirstKey(st: Store, modes: seq<Mode>, run: seq<Event>, n: nat, id: string): KeyText
    requires n <= |run| == |modes|
  {
    if id !in StoreAcross(st, modes, run, n).pending then NoKey
    else if n == 0 then st.pending[id].publicKey
    else
      var earlier := FirstKey(st, modes, run, n - 1, id);
      if earlier == NoKey && Submits(StoreAcross(st, modes, run, n - 1), modes[n - 1], run[n - 1], id) then SubmittedKey(run[n - 1])
      else earlier
  }

  /** Over every run with changing modes, from any kept store, a pending entry holds the first key submitted in its episode. */
  lemma {:induction false} EntryHoldsFirstKey(st: Store, modes: seq<Mode>, run: seq<Event>, n: nat, id: string)
    requires n <= |run| == |modes| && AllKept(st) && id in StoreAcross(st, modes, run, n).pending
    ensures StoreAcross(st, modes, run, n).pending[id].publicKey == FirstKey(st, modes, run, n, id)
  {
    hide Step, AllKept, Submits, Extends;
    if n > 0 {
      var s := StoreAcross(st, modes, run, n - 1);
      RunsKeep(st, modes, run, n - 1);
      EntrySteps(s, modes[n - 1], run[n - 1], id);
      if id in s.pending {
        EntryHoldsFirstKey(st, modes, run, n - 1, id);
      } else {
        assert FirstKey(st, modes, run, n - 1, id) == NoKey;
      }
    }
  }

  /** The key in force after the approval of an entry: the entry's when it holds one, else the one bound before. */
  lemma ApprovedKey(st: Store, mode: Mode, id: string)
    requires AllKept(st) && id in st.pending
    ensures LoadKey(Step(st, mode, Approves(id, true)).0, id) ==
            if st.pending[id].publicKey == NoKey then LoadKey(st, id) else Canonical(st.pending[id].publicKey)
  {
    hide Approve, NormalBundle;
    assert Kept(st, id);
    ApproveEffect(st, id);
  }

  /**
   Over every run with changing modes, from any kept store: the key in force after the approval of
   a pending device is the first one submitted while it was pending exactly when one was submitted
   or none was bound before; without a row beside the entry none is.
   */
  lemma ApprovalBindsFirstKey(st: Store, modes: seq<Mode>, run: seq<Event>, n: nat, id: string)
    requires n < |run| == |modes| && AllKept(st)
    requires run[n] == Approves(id, true) && id in StoreAcross(st, modes, run, n).pending
    ensures KeyAcross(st, modes, run, n + 1, id) == Canonical(FirstKey(st, modes, run, n, id)) <==>
            FirstKey(st, modes, run, n, id) != NoKey || KeyAcross(st, modes, run, n, id).None?
    ensures id !in StoreAcross(st, modes, run, n).peers ==> KeyAcross(st, modes, run, n, id).None?
  {
    hide Step, FirstKey, AllKept, LoadKey;
    var s := StoreAcross(st, modes, run, n);
    RunsKeep(st, modes, run, n);
    EntryHoldsFirstKey(st, modes, run, n, id);
    ApprovedKey(s, modes[n], id);
    NoRowNoKey(s, id);
  }

  lemma NoRowNoKey(st: Store, id: string)
    requires AllKept(st)
    ensures id !in st.peers ==> LoadKey(st, id).None?
    ensures id in st.pending ==> !st.pending[id].publicKey.BadKey?
  {
    assert Kept(st, id);
  }

  /** In managed mode throughout, an approval always binds that first key, or none. */
  lemma ManagedApprovalBindsFirstKey(modes: seq<Mode>, run: seq<Event>, n: nat, id: string)
    requires n < |run| == |modes| && forall m :: 0 <= m < |modes| ==> modes[m] == Managed
    requires run[n] == Approves(id, true) && id in StoreAcross(EMPTY, modes, run, n).pending
    ensures KeyAcross(EMPTY, modes, run, n + 1, id) == Canonical(FirstKey(EMPTY, modes, run, n, id))
  {
    hide Step, FirstKey, AllKept, KeyAcross;
    EmptyIsKept();
    ConstantMode(EMPTY, Managed, modes, run, n);
    RunsAreSound(run, n);
    assert Sound(StoreAcross(EMPTY, modes, run, n), id);
    ApprovalBindsFirstKey(EMPTY, modes, run, n, id);
  }

  /**
   A registration without a key in managed mode, one with a key in open mode, and then the approval
   of the entry: the key in force is the second one's, although none was submitted to the entry.
   */
  lemma ApprovalKeepsOtherKey(r: Request, q: Request)
    requires !Malformed(r) && !r.supportAgent && r.publicKey == NoKey
    requires !Malformed(q) && !q.supportAgent && q.publicKey.KeyText? && q.deviceId == r.deviceId
    ensures var id, modes, run := r.deviceId, [Managed, Open, Open], [Registers(r), Registers(q), Approves(r.deviceId, true)];
            && id in StoreAcross(EMPTY, modes, run, 2).pending && FirstKey(EMPTY, modes, run, 2, id) == NoKey
            && KeyAcross(EMPTY, modes, run, 3, id) == Some(q.publicKey.key)
  {
    hide Step, LoadKey, AllKept, FirstKey;
    var id, modes, run := r.deviceId, [Managed, Open, Open], [Registers(r), Registers(q), Approves(r.deviceId, true)];
    var s1, s2 := StoreAcross(EMPTY, modes, run, 1), StoreAcross(EMPTY, modes, run, 2);
    assert StoreAcross(EMPTY, modes, run, 0) == EMPTY;
    assert s1 == Step(EMPTY, Managed, Registers(r)).0;
    assert s2 == Step(s1, Open, Registers(q)).0;
    QueuedFirst(r);
    AdmittedSecond(s1, q);
    EmptyIsKept();
    RunsKeep(EMPTY, modes, run, 2);
    EntryHoldsFirstKey(EMPTY, modes, run, 2, id);
    ApprovedKey(s2, Open, id);
    assert StoreAcross(EMPTY, modes, run, 3) == Step(s2, Open, Approves(id, true)).0;
  }
}
