/** Enrollment runs during which an operator changes the mode. */
module EnrollmentModes {
  import opened Options
  import opened DeviceProof
  import opened Enrollment
  import opened EnrollmentRuns
  import opened EnrollmentKeys

  lemma {:induction false} ConstantMode(st: Store, mode: Mode, modes: seq<Mode>, run: seq<Event>, n: nat)
    requires n <= |run| == |modes| && forall m :: 0 <= m < |modes| ==> modes[m] == mode
    ensures StoreAcross(st, modes, run, n) == StoreAt(st, mode, run, n)
  {
    hide Step;
    if n > 0 {
      ConstantMode(st, mode, modes, run, n - 1);
    }
  }

  /** Whatever the modes, what is kept is kept. */
  lemma {:induction false} RunsKeep(st: Store, modes: seq<Mode>, run: seq<Event>, n: nat)
    requires n <= |run| == |modes| && AllKept(st)
    ensures AllKept(StoreAcross(st, modes, run, n))
  {
    hide Step;
    if n > 0 {
      RunsKeep(st, modes, run, n - 1);
      StepKeeps(StoreAcross(st, modes, run, n - 1), modes[n - 1], run[n - 1]);
    }
  }

  // ---------------------------------------------------------------------------
  //  Pending entries beside rows
  // ---------------------------------------------------------------------------

  /** The event admits a device outright whose entry is still waiting. */
  predicate Overlooks(st: Store, mode: Mode, e: Event) {
    Admission(st, mode, e) && Subject(e) in st.pending
  }

  ghost predicate NoneStale(st: Store) {
    forall id :: !Stale(st, id)
  }

  lemma StaleStep(st: Store, mode: Mode, e: Event)
    requires AllKept(st) && NoneStale(st)
    ensures NoneStale(Step(st, mode, e).0) <==> !Overlooks(st, mode, e)
  {
    hide Step, AllKept, Stale, Admission;
    var s := Step(st, mode, e).0;
    forall id ensures Stale(s, id) <==> Overlooks(st, mode, e) && Subject(e) == id {
      StaleOrigin(st, mode, e, id);
      assert !Stale(st, id);
    }
    if Overlooks(st, mode, e) {
      assert Stale(s, Subject(e));
    }
  }

  /** No pending device has a row after `n` events. */
  ghost predicate CleanAt(st: Store, modes: seq<Mode>, run: seq<Event>, n: nat)
    requires n <= |run| == |modes|
  {
    NoneStale(StoreAcross(st, modes, run, n))
  }

  /** Event `n` admits a device outright whose entry is still waiting. */
  predicate OverlooksAt(st: Store, modes: seq<Mode>, run: seq<Event>, n: nat)
    requires n < |run| == |modes|
  {
    Overlooks(StoreAcross(st, modes, run, n), modes[n], run[n])
  }

  /**
   Over every run with changing modes, from any kept store: a pending device never has a row exactly
   when no registration is ever admitted outright while an entry of its device is waiting.
   */
  lemma {:induction false} NeverStaleExactly(st: Store, modes: seq<Mode>, run: seq<Event>, n: nat)
    requires n <= |run| == |modes| && AllKept(st) && NoneStale(st)
    ensures (forall m: nat :: m <= n ==> CleanAt(st, modes, run, m)) <==> (forall m: nat :: m < n ==> !OverlooksAt(st, modes, run, m))
  {
    hide CleanAt, OverlooksAt, AllKept, NoneStale;
    if n == 0 {
      CleanStart(st, modes, run);
    } else {
      NeverStaleExactly(st, modes, run, n - 1);
      CleanStep(st, modes, run, n - 1);
      if forall m: nat :: m <= n - 1 ==> CleanAt(st, modes, run, m) {
        assert CleanAt(st, modes, run, n - 1) && CleanAt(st, modes, run, n - 1 + 1) <==> !OverlooksAt(st, modes, run, n - 1);
      }
    }
  }

  lemma CleanStep(st: Store, modes: seq<Mode>, run: seq<Event>, n: nat)
    requires n < |run| == |modes| && AllKept(st)
    ensures CleanAt(st, modes, run, n) ==> (CleanAt(st, modes, run, n + 1) <==> !OverlooksAt(st, modes, run, n))
  {
    hide Step, NoneStale, Overlooks, AllKept;
    RunsKeep(st, modes, run, n);
    if CleanAt(st, modes, run, n) {
      StaleStep(StoreAcross(st, modes, run, n), modes[n], run[n]);
    }
  }

  lemma CleanStart(st: Store, modes: seq<Mode>, run: seq<Event>)
    requires |run| == |modes| && NoneStale(st)
    ensures CleanAt(st, modes, run, 0)
  {
  }

  // ---------------------------------------------------------------------------
  //  Where active rows come from
  // ---------------------------------------------------------------------------

  /** The event at `i` approved the pending device `id` or admitted it outright. */
  predicate EnrolledAt(modes: seq<Mode>, run: seq<Event>, i: nat, id: string)
    requires i < |run| == |modes|
  {
    var st := StoreAcross(EMPTY, modes, run, i);
    (run[i] == Approves(id, true) && id in st.pending) || (Admission(st, modes[i], run[i]) && Subject(run[i]) == id)
  }

  /** Whatever the modes, every active row goes back to an approval or an outright admission, and has existed since. */
  lemma {:induction false} ActiveMeansEnrolled(modes: seq<Mode>, run: seq<Event>, n: nat, id: string) returns (i: nat)
    requires n <= |run| == |modes| && ActiveRow(StoreAcross(EMPTY, modes, run, n), id)
    ensures i < n && EnrolledAt(modes, run, i, id)
    ensures forall m :: i < m <= n ==> id in StoreAcross(EMPTY, modes, run, m).peers
  {
    hide Step, AllKept, Admission;
    EmptyIsKept();
    RunsKeep(EMPTY, modes, run, n - 1);
    var st := StoreAcross(EMPTY, modes, run, n - 1);
    RowOrigin(st, modes[n - 1], run[n - 1], id);
    if ActiveRow(st, id) {
      i := ActiveMeansEnrolled(modes, run, n - 1, id);
    } else {
      i := n - 1;
    }
  }

  // ---------------------------------------------------------------------------
  //  Keys
  // ---------------------------------------------------------------------------

  function KeyAcross(st: Store, modes: seq<Mode>, run: seq<Event>, n: nat, id: string): Option<Key>
    requires n <= |run| == |modes|
  {
    LoadKey(StoreAcross(st, modes, run, n), id)
  }

  /** The approval of a stale entry puts another key in the place of the one bound. */
  predicate Replaces(st: Store, e: Event, id: string) {
    StaleApproval(st, e, id) && Canonical(st.pending[id].publicKey) != LoadKey(st, id)
  }

  predicate ReplacesAt(st: Store, modes: seq<Mode>, run: seq<Event>, n: nat, id: string)
    requires n < |run| == |modes|
  {
    Replaces(StoreAcross(st, modes, run, n), run[n], id)
  }

  predicate HasRowAt(st: Store, modes: seq<Mode>, run: seq<Event>, n: nat, id: string)
    requires n <= |run| == |modes|
  {
    id in StoreAcross(st, modes, run, n).peers
  }

  lemma KeyStepAcross(st: Store, modes: seq<Mode>, run: seq<Event>, n: nat, id: string)
    requires n < |run| == |modes| && AllKept(st)
    requires HasRowAt(st, modes, run, n, id) && HasRowAt(st, modes, run, n + 1, id)
    ensures KeyAcross(st, modes, run, n, id).Some? ==>
              (KeyAcross(st, modes, run, n + 1, id) == KeyAcross(st, modes, run, n, id) <==> !ReplacesAt(st, modes, run, n, id))
  {
    hide Step, AllKept, LoadKey, AuthorizedFor, StaleApproval;
    RunsKeep(st, modes, run, n);
    KeyStep(StoreAcross(st, modes, run, n), modes[n], run[n], id);
  }

  /**
   Over every run with changing modes, from any kept store, while the row of a device with a bound
   key exists: the key stays the same throughout exactly when no stale entry that holds another
   key is approved.
   */
  lemma {:induction false} KeyStableExactly(st: Store, modes: seq<Mode>, run: seq<Event>, i: nat, n: nat, id: string)
    requires i <= n <= |run| == |modes| && AllKept(st) && KeyAcross(st, modes, run, i, id).Some?
    requires forall m: nat :: i <= m <= n ==> HasRowAt(st, modes, run, m, id)
    ensures (forall m: nat :: i <= m <= n ==> KeyAcross(st, modes, run, m, id) == KeyAcross(st, modes, run, i, id)) <==>
            (forall m: nat :: i <= m < n ==> !ReplacesAt(st, modes, run, m, id))
    decreases n
  {
    hide AllKept, KeyAcross, ReplacesAt, HasRowAt;
    if i < n {
      KeyStableExactly(st, modes, run, i, n - 1, id);
      KeyStepAcross(st, modes, run, n - 1, id);
      if forall m: nat :: i <= m <= n - 1 ==> KeyAcross(st, modes, run, m, id) == KeyAcross(st, modes, run, i, id) {
        assert KeyAcross(st, modes, run, n - 1, id) == KeyAcross(st, modes, run, i, id);
        assert KeyAcross(st, modes, run, n - 1 + 1, id) == KeyAcross(st, modes, run, i, id) <==> !ReplacesAt(st, modes, run, n - 1, id);
      }
    }
  }

  /** A registration with one key in managed mode, one with another key in open mode, and then the approval of the first. */
  lemma ModeChangeReplacesKey(r: Request, q: Request)
    requires !Malformed(r) && !r.supportAgent && r.publicKey.KeyText?
    requires !Malformed(q) && !q.supportAgent && q.publicKey.KeyText? && q.deviceId == r.deviceId
    ensures var id, modes, run := r.deviceId, [Managed, Open, Open], [Registers(r), Registers(q), Approves(r.deviceId, true)];
            && id in StoreAcross(EMPTY, modes, run, 2).peers && id in StoreAcross(EMPTY, modes, run, 3).peers
            && KeyAcross(EMPTY, modes, run, 2, id) == Some(q.publicKey.key)
            && KeyAcross(EMPTY, modes, run, 3, id) == Some(r.publicKey.key)
  {
    hide Step, LoadKey, StaleApproval, AuthorizedFor, AllKept;
    var id, modes, run := r.deviceId, [Managed, Open, Open], [Registers(r), Registers(q), Approves(r.deviceId, true)];
    var s1, s2 := StoreAcross(EMPTY, modes, run, 1), StoreAcross(EMPTY, modes, run, 2);
    assert StoreAcross(EMPTY, modes, run, 0) == EMPTY;
    assert s1 == Step(EMPTY, Managed, Registers(r)).0;
    assert s2 == Step(s1, Open, Registers(q)).0;
    QueuedFirst(r);
    AdmittedSecond(s1, q);
    EmptyIsKept();
    RunsKeep(EMPTY, modes, run, 2);
    ApprovedThird(s2, id);
    assert StoreAcross(EMPTY, modes, run, 3) == Step(s2, Open, Approves(id, true)).0;
  }

  lemma QueuedFirst(r: Request)
    requires !Malformed(r) && !r.supportAgent
    ensures var s := Step(EMPTY, Managed, Registers(r)).0;
            s == EMPTY.(nonces := s.nonces, pending := map[r.deviceId := FirstPending(r)])
  {
    hide Register, Contradicts, FirstPending, RegisterAttempt;
    NewcomerEffect(EMPTY, r);
  }

  lemma AdmittedSecond(st: Store, q: Request)
    requires !Malformed(q) && !q.supportAgent && q.publicKey.KeyText? && Free(st, q.deviceId)
    ensures var s := Step(st, Open, Registers(q)).0;
            s.pending == st.pending && q.deviceId in s.peers && LoadKey(s, q.deviceId) == Some(q.publicKey.key)
  {
    hide Register, RegisterAttempt, NormalBundle;
    OutrightEffect(st, Open, q);
  }

  lemma ApprovedThird(st: Store, id: string)
    requires AllKept(st) && Stale(st, id) && st.pending[id].publicKey.KeyText?
    ensures var s := Step(st, Open, Approves(id, true)).0;
            id in s.peers && LoadKey(s, id) == Some(st.pending[id].publicKey.key)
  {
    hide Approve, NormalBundle;
    assert Kept(st, id);
    ApproveEffect(st, id);
  }
}
