/** Which key is bound to an enrolled device, and what may change it. */
module EnrollmentKeys {
  import opened Options
  import opened DeviceProof
  import opened Enrollment
  import opened EnrollmentRuns
  import opened EnrollmentRules

  predicate IsRegistration(e: Event) {
    e.Registers? || e.Polls? || e.LogsIn?
  }

  /** The request reaches the enrolled device, is not refused, and proves itself. */
  predicate AuthorizedFor(st: Store, r: Request, id: string) {
    r.deviceId == id && Readmits(st, r) && ReadmitRefusal(st, r).None? && ReadmitAuthorized(Considered(st, r), r)
  }

  /** The event binds a first key to an enrolled device that has none. */
  predicate BindsFirst(st: Store, e: Event, id: string) {
    e.Registers? && AuthorizedFor(st, e.request, id) && LoadKey(st, id).None? && e.request.publicKey.KeyText?
  }

  /** The event approves an entry that holds a key, beside the row of the same device. */
  predicate StaleApproval(st: Store, e: Event, id: string) {
    e == Approves(id, true) && Stale(st, id) && st.pending[id].publicKey.KeyText?
  }

  /** A first key of an enrolled device is bound only by a request that shows an active token of that device. */
  lemma FirstKeyShowsToken(st: Store, e: Event, id: string)
    requires BindsFirst(st, e, id)
    ensures ShowsActiveToken(st, e.request) && e.request.deviceId == id
  {
    hide PassesValidation, ReadmitAuthorized, ReadmitRefusal, ShowsActiveToken, Blocked;
    FirstKeyNeedsToken(st, e.request);
  }

  lemma SameDeviceSameKey(st: Store, s: Store, id: string)
    requires SameDevice(st, s, id)
    ensures LoadKey(s, id) == LoadKey(st, id)
  {
    assert Lookup(s.peers, id) == Lookup(st.peers, id) && Lookup(s.keys, id) == Lookup(st.keys, id);
  }

  // ---------------------------------------------------------------------------
  //  Registration steps
  // ---------------------------------------------------------------------------

  lemma RegisterKeyStep(st: Store, mode: Mode, r: Request)
    requires GetPeer(st, r.deviceId).Some?
    ensures var s, id := Register(st, mode, r).0, r.deviceId;
            && Lookup(s.peers, id) == Lookup(st.peers, id)
            && LoadKey(s, id) == if BindsFirst(st, Registers(r), id) then Canonical(r.publicKey) else LoadKey(st, id)
  {
    hide Register, PassesValidation, ReadmitAuthorized, ReadmitRefusal, WithBundle;
    if Readmits(st, r) {
      ReadmitsEffect(st, mode, r);
      ReadersAgree(st, Considered(st, r), r);
    } else {
      OtherRegisterEffect(st, mode, r);
    }
  }

  /**
   One registration step, in any mode and any store: the row of an enrolled device stays as
   it is, and its key changes exactly when an authorized request binds a first one.
   */
  lemma RegistrationKeyStep(st: Store, mode: Mode, e: Event, id: string)
    requires IsRegistration(e) && GetPeer(st, id).Some?
    ensures var s := Step(st, mode, e).0;
            && Lookup(s.peers, id) == Lookup(st.peers, id)
            && LoadKey(s, id) == if BindsFirst(st, e, id) then Canonical(e.request.publicKey) else LoadKey(st, id)
  {
    hide Register, Poll, Readmits, Considered, QueueViewer, GetPeer;
    match e
    case Registers(r) =>
      if r.deviceId == id {
        RegisterKeyStep(st, mode, r);
      } else {
        RegisterIsLocal(st, mode, r, id);
        SameDeviceSameKey(st, Register(st, mode, r).0, id);
      }
    case Polls(q) =>
      PollEffect(st, q);
      SameDeviceSameKey(st, Poll(st, q).0, id);
    case LogsIn(clientId, clientUuid, ip) =>
      QueueKeepsRows(st, mode, clientId, clientUuid, ip);
      SameKey(st, QueueViewer(st, mode, clientId, clientUuid, ip), id);
  }

  lemma SameKey(st: Store, s: Store, id: string)
    requires Lookup(s.peers, id) == Lookup(st.peers, id) && Lookup(s.keys, id) == Lookup(st.keys, id)
    ensures LoadKey(s, id) == LoadKey(st, id)
  {
  }

  /**
   From any store at all, under any changes of mode: as long as only registrations, polls and logins
   happen, the row of an enrolled device never changes, and once a key is bound to it that key stays.
   */
  lemma {:induction false} BoundKeyStable(st: Store, modes: seq<Mode>, run: seq<Event>, i: nat, n: nat, id: string)
    requires i <= n <= |run| == |modes| && (forall m :: i <= m < n ==> IsRegistration(run[m]))
    requires GetPeer(StoreAcross(st, modes, run, i), id).Some?
    ensures var a, b := StoreAcross(st, modes, run, i), StoreAcross(st, modes, run, n);
            && Lookup(b.peers, id) == Lookup(a.peers, id)
            && (LoadKey(a, id).Some? ==> LoadKey(b, id) == LoadKey(a, id))
    decreases n - i
  {
    hide Step, AuthorizedFor, LoadKey;
    if i < n {
      BoundKeyStable(st, modes, run, i, n - 1, id);
      RegistrationKeyStep(StoreAcross(st, modes, run, n - 1), modes[n - 1], run[n - 1], id);
    }
  }

  // ---------------------------------------------------------------------------
  //  Every step
  // ---------------------------------------------------------------------------

  lemma ApproveKey(st: Store, id: string, wellFormed: bool)
    requires Kept(st, id) && id in st.peers
    ensures LoadKey(Approve(st, id, wellFormed).0, id) ==
            if StaleApproval(st, Approves(id, wellFormed), id) then Canonical(st.pending[id].publicKey) else LoadKey(st, id)
  {
    hide Approve, NormalBundle;
    if id != "" && wellFormed && id in st.pending {
      ApproveEffect(st, id);
    } else {
      ApproveNothing(st, id, wellFormed);
    }
  }

  lemma RejectKey(st: Store, id: string, ban: bool)
    requires Kept(st, id) && id in st.peers
    ensures LoadKey(Reject(st, id, ban).0, id) == LoadKey(st, id)
  {
    hide Reject, NormalBundle;
    if id != "" {
      RejectEffect(st, id, ban);
    } else {
      RejectNobody(st, ban);
    }
  }

  lemma LiftKey(st: Store, s: Store, id: string)
    requires LiftedFrom(st, s, id) && id in s.peers
    ensures LoadKey(s, id) == LoadKey(st, id)
  {
  }

  /**
   One step in any mode: as long as the row of a device exists, its key changes exactly when an
   authorized request binds a first one, or when a stale entry that holds a key is approved.
   */
  lemma KeyStep(st: Store, mode: Mode, e: Event, id: string)
    requires AllKept(st) && id in st.peers && id in Step(st, mode, e).0.peers
    ensures LoadKey(Step(st, mode, e).0, id) ==
            if StaleApproval(st, e, id) then Canonical(st.pending[id].publicKey)
            else if BindsFirst(st, e, id) then Canonical(e.request.publicKey)
            else LoadKey(st, id)
  {
    hide Register, Poll, Approve, Reject, QueueViewer, ClearRejection, Unban, LoadKey, AuthorizedFor, LiftedFrom;
    assert Kept(st, id);
    if IsRegistration(e) {
      RegistrationKeyStep(st, mode, e, id);
    } else if Subject(e) != id {
      StepIsLocal(st, mode, e, id);
      SameDeviceSameKey(st, Step(st, mode, e).0, id);
    } else {
      match e
      case Approves(a, wellFormed) => ApproveKey(st, a, wellFormed);
      case Rejects(a, ban) => RejectKey(st, a, ban);
      case Clears(a) =>
        ClearForm(st, a);
        LiftKey(st, ClearRejection(st, a).0, a);
      case Unbans(a) =>
        UnbanLifts(st, a);
        LiftKey(st, Unban(st, a), a);
    }
  }

  // ---------------------------------------------------------------------------
  //  Managed-mode runs
  // ---------------------------------------------------------------------------

  /** The device has a row throughout. */
  predicate HasRow(run: seq<Event>, i: nat, n: nat, id: string)
    requires n <= |run|
  {
    forall m :: i <= m <= n ==> id in StoreAt(EMPTY, Managed, run, m).peers
  }

  /** The key of a device becomes `key` at step `m` of a managed-mode run, through a registration that shows an active token. */
  ghost predicate BoundAt(run: seq<Event>, m: nat, id: string, key: Option<Key>)
    requires m < |run|
  {
    && BindsFirst(StoreAt(EMPTY, Managed, run, m), run[m], id) && key == Canonical(run[m].request.publicKey)
    && ShowsActiveToken(StoreAt(EMPTY, Managed, run, m), run[m].request)
  }

  /**
   Over every managed-mode run, whatever operators do meanwhile: as long as the row of a device
   exists a bound key is never replaced, and a first key appears only through a registration that
   brings it and shows an active token of the device.
   */
  lemma {:induction false} ManagedKeyStable(run: seq<Event>, i: nat, n: nat, id: string)
    requires i <= n <= |run| && HasRow(run, i, n, id)
    ensures var a, b := LoadKey(StoreAt(EMPTY, Managed, run, i), id), LoadKey(StoreAt(EMPTY, Managed, run, n), id);
            a == b || (a.None? && exists m :: i <= m < n && BoundAt(run, m, id, b))
    decreases n
  {
    hide Step, AllSound, AllKept, AuthorizedFor, LoadKey, ShowsActiveToken;
    if i < n {
      ManagedKeyStable(run, i, n - 1, id);
      var st := StoreAt(EMPTY, Managed, run, n - 1);
      RunsAreSound(run, n - 1);
      SoundIsKept(st);
      assert id in st.peers && id in StoreAt(EMPTY, Managed, run, n).peers;
      KeyStep(st, Managed, run[n - 1], id);
      if BindsFirst(st, run[n - 1], id) {
        FirstKeyShowsToken(st, run[n - 1], id);
        assert BoundAt(run, n - 1, id, LoadKey(StoreAt(EMPTY, Managed, run, n), id));
      }
    }
  }
}
