/**
 Client sessions: logging in revokes the device's earlier sessions, and every authenticated
 request slides the expiry up to an absolute limit.  The clock is in nanoseconds; stored times
 are whole seconds.
 */
module ClientSessions {

  const SECOND: int := 1000000000
  const DAY_SECONDS: int := 24 * 3600

  /** The whole seconds of an instant, as stored. */
  function Sec(t: int): int {
    t / SECOND
  }

  datatype Settings = Settings(sliding: bool, expiryDays: nat, maxDays: nat)

  /** A row of the session table, under the hash of its token. */
  datatype Session = Session(user: int, device: Device, created: int, expires: int, lastUsed: int, revoked: bool)

  datatype Device = Device(client: string, uuid: string)

  type Token = string
  type Rows = map<Token, Session>

  /**
   `Login` carries the server's clock and the whole second the database stamps on the row;
   `Request` the second at which the row is looked up, whether the user still exists, and the
   server's clock after that.
   */
  datatype Event =
    | Login(user: int, device: Device, token: Token, now: int, stamp: int)
    | Request(token: Token, lookup: int, userKnown: bool, now: int)
    | Logout(token: Token)

  // ---------------------------------------------------------------------------
  //  Steps
  // ---------------------------------------------------------------------------

  predicate SameDevice(s: Session, user: int, device: Device) {
    s.user == user && s.device == device
  }

  /** The table after the earlier sessions of a device are revoked. */
  function RevokeDevice(rows: Rows, user: int, device: Device): Rows {
    map t | t in rows :: if SameDevice(rows[t], user, device) then rows[t].(revoked := true) else rows[t]
  }

  predicate Usable(rows: Rows, token: Token, lookup: int) {
    token in rows && !rows[token].revoked && rows[token].expires > lookup
  }

  predicate Accepted(rows: Rows, e: Event) {
    match e
    case Login(user, _, token, _, _) => user > 0 && token !in rows
    case Request(token, lookup, userKnown, _) => Usable(rows, token, lookup) && userKnown
    case Logout(_) => true
  }

  function Slid(p: Settings, s: Session, now: int): int {
    var limit := s.created * SECOND + p.maxDays * DAY_SECONDS * SECOND;
    var next := now + p.expiryDays * DAY_SECONDS * SECOND;
    Sec(if next > limit then limit else next)
  }

  function Step(p: Settings, rows: Rows, e: Event): Rows {
    match e
    case Login(user, device, token, now, stamp) =>
      if user <= 0 then rows
      else
        var revoked := RevokeDevice(rows, user, device);
        if token in rows then revoked
        else
          revoked[token := Session(user, device, stamp, Sec(now + p.expiryDays * DAY_SECONDS * SECOND), Sec(now), false)]
    case Request(token, _, _, now) =>
      if !Accepted(rows, e) then rows
      else
        var s := rows[token];
        rows[token := s.(expires := if p.sliding then Slid(p, s, now) else s.expires, lastUsed := Sec(now))]
    case Logout(token) =>
      if token in rows then rows[token := rows[token].(revoked := true)] else rows
  }

  class SessionStore {
    var rows: Rows
    const settings: Settings

    constructor (settings: Settings)
      ensures this.settings == settings && rows == map[]
    {
      this.settings := settings;
      rows := map[];
    }

    method IssueClientSession(user: int, device: Device, token: Token, now: int, stamp: int) returns (ok: bool)
      modifies this
      ensures rows == Step(settings, old(rows), Login(user, device, token, now, stamp))
      ensures ok == Accepted(old(rows), Login(user, device, token, now, stamp))
      ensures ok ==> forall lookup :: Usable(rows, token, lookup) <==> lookup < Sec(now) + settings.expiryDays * DAY_SECONDS
      ensures user > 0 ==>
                forall t :: t in old(rows) && t != token && SameDevice(old(rows)[t], user, device) ==> t in rows && rows[t].revoked
      ensures forall t :: t in old(rows) && !SameDevice(old(rows)[t], user, device) ==> t in rows && rows[t] == old(rows)[t]
    {
      AddSeconds(now, settings.expiryDays * DAY_SECONDS);
      if user <= 0 {
        return false;
      }
      rows := RevokeDevice(rows, user, device);
      var expires := now + settings.expiryDays * DAY_SECONDS * SECOND;
      if token in rows {
        return false;
      }
      rows := rows[token := Session(user, device, stamp, Sec(expires), Sec(now), false)];
      return true;
    }

    method AuthenticateClientSession(token: Token, lookup: int, userKnown: bool, now: int) returns (ok: bool)
      modifies this
      ensures rows == Step(settings, old(rows), Request(token, lookup, userKnown, now))
      ensures ok == Accepted(old(rows), Request(token, lookup, userKnown, now))
      ensures !ok ==> rows == old(rows)
      ensures ok ==> token in rows && rows == old(rows)[token := rows[token]] && rows[token].lastUsed == Sec(now)
      ensures ok && settings.sliding ==> rows[token].expires <= rows[token].created + settings.maxDays * DAY_SECONDS
      ensures ok && !settings.sliding ==> rows[token].expires == old(rows)[token].expires
    {
      if Accepted(rows, Request(token, lookup, userKnown, now)) {
        SlidInSeconds(settings, rows[token], now);
      }
      if !(token in rows && !rows[token].revoked && rows[token].expires > lookup) {
        return false;
      }
      var s := rows[token];
      if !userKnown {
        return false;
      }
      if settings.sliding {
        var maxDeadline := s.created * SECOND + settings.maxDays * DAY_SECONDS * SECOND;
        var newExpiry := now + settings.expiryDays * DAY_SECONDS * SECOND;
        if newExpiry > maxDeadline {
          newExpiry := maxDeadline;
        }
        rows := rows[token := s.(expires := Sec(newExpiry), lastUsed := Sec(now))];
      } else {
        rows := rows[token := s.(lastUsed := Sec(now))];
      }
      return true;
    }

    method RevokeClientSessionToken(token: Token)
      modifies this
      ensures rows == Step(settings, old(rows), Logout(token))
      ensures forall lookup :: !Usable(rows, token, lookup)
      ensures forall t :: t in old(rows) && t != token ==> t in rows && rows[t] == old(rows)[t]
    {
      if token in rows {
        rows := rows[token := rows[token].(revoked := true)];
      }
    }

    method Dispatch(e: Event) returns (ok: bool)
      modifies this
      ensures rows == Step(settings, old(rows), e) && ok == Accepted(old(rows), e)
    {
      hide Step, Usable, SameDevice;
      ok := true;
      match e
      case Login(user, device, token, now, stamp) => ok := IssueClientSession(user, device, token, now, stamp);
      case Request(token, lookup, userKnown, now) => ok := AuthenticateClientSession(token, lookup, userKnown, now);
      case Logout(token) => RevokeClientSessionToken(token);
    }

    /**
     An empty table serves a run.  It ends as the run says; a device has at most one session that
     is not revoked; and with readings in order, under sliding and an expiry within the maximum,
     every expiry is the last use plus the expiry days, capped at creation plus the maximum.
     */
    method Serve(run: seq<Event>) returns (accepted: seq<bool>)
      requires rows == map[]
      modifies this
      ensures rows == RowsAt(settings, run, |run|) && |accepted| == |run|
      ensures forall i :: 0 <= i < |run| ==> accepted[i] == Accepted(RowsAt(settings, run, i), run[i])
      ensures forall t, u :: t in rows && u in rows && t != u && !rows[t].revoked && !rows[u].revoked ==>
                !SameDevice(rows[t], rows[u].user, rows[u].device)
      ensures Ordered(run) && settings.sliding && settings.expiryDays <= settings.maxDays ==>
                forall t :: t in rows ==> rows[t].expires == Expiry(settings, rows[t])
    {
      hide Step, Accepted, SameDevice, Ordered, Expiry;
      accepted := [];
      for i := 0 to |run|
        invariant rows == RowsAt(settings, run, i) && |accepted| == i
        invariant forall j :: 0 <= j < i ==> accepted[j] == Accepted(RowsAt(settings, run, j), run[j])
      {
        var ok := Dispatch(run[i]);
        accepted := accepted + [ok];
      }
      forall t, u | t in rows && u in rows && t != u && !rows[t].revoked && !rows[u].revoked
        ensures !SameDevice(rows[t], rows[u].user, rows[u].device)
      {
        OneSessionPerDevice(settings, run, |run|, t, u);
      }
      if Ordered(run) && settings.sliding && settings.expiryDays <= settings.maxDays {
        forall t | t in rows ensures rows[t].expires == Expiry(settings, rows[t]) {
          FormulaAt(settings, run, |run|, t);
        }
      }
    }
  }

  // ---------------------------------------------------------------------------
  //  Runs
  // ---------------------------------------------------------------------------

  function RowsAt(p: Settings, run: seq<Event>, n: nat): Rows
    requires n <= |run|
  {
    if n == 0 then map[] else Step(p, RowsAt(p, run, n - 1), run[n - 1])
  }

  /** The first and last second an event reads from the clock. */
  function Begins(e: Event): int {
    match e
    case Login(_, _, _, now, _) => Sec(now)
    case Request(_, lookup, _, _) => lookup
    case Logout(_) => 0
  }

  function Ends(e: Event): int {
    match e
    case Login(_, _, _, _, stamp) => stamp
    case Request(_, _, _, now) => Sec(now)
    case Logout(_) => 0
  }

  /** Clock readings never decrease, inside an event and from one event to the next. */
  predicate Ordered(run: seq<Event>) {
    && (forall i :: 0 <= i < |run| && !run[i].Logout? ==> Begins(run[i]) <= Ends(run[i]))
    && forall i, j :: 0 <= i < j < |run| && !run[i].Logout? && !run[j].Logout? ==> Ends(run[i]) <= Begins(run[j])
  }

  function Min(a: int, b: int): int {
    if a < b then a else b
  }

  /** Truncating to seconds commutes with adding days and with the cap. */
  lemma SlidInSeconds(p: Settings, s: Session, now: int)
    ensures Slid(p, s, now) == Min(Sec(now) + p.expiryDays * DAY_SECONDS, s.created + p.maxDays * DAY_SECONDS)
    ensures Sec(now) == now / 1_000_000_000 && DAY_SECONDS == 86400
    ensures Sec(now + p.expiryDays * DAY_SECONDS * SECOND) == Sec(now) + p.expiryDays * DAY_SECONDS
  {
    var e, m := p.expiryDays * DAY_SECONDS, p.maxDays * DAY_SECONDS;
    AddSeconds(now, e);
    AddSeconds(0, s.created + m);
    var next, limit := now + e * SECOND, s.created * SECOND + m * SECOND;
    assert limit == 0 + (s.created + m) * SECOND;
    assert next > limit ==> Sec(next) >= Sec(limit);
    assert next <= limit ==> Sec(next) <= Sec(limit);
  }

  lemma AddSeconds(t: int, n: int)
    ensures Sec(t + n * SECOND) == Sec(t) + n
  {
  }

  /** What a row's expiry should be. */
  function Expiry(p: Settings, s: Session): int {
    Min(s.lastUsed + p.expiryDays * DAY_SECONDS, s.created + p.maxDays * DAY_SECONDS)
  }

  /** The second of the last login or accepted request of a token in the first `n` events. */
  function LastUse(p: Settings, run: seq<Event>, n: nat, token: Token): int
    requires n <= |run|
  {
    if n == 0 then 0
    else
      var e := run[n - 1];
      if !e.Logout? && e.token == token && Accepted(RowsAt(p, run, n - 1), e) then Sec(e.now)
      else LastUse(p, run, n - 1, token)
  }

  /** The last-used column is the last use. */
  lemma {:induction false} LastUsedColumn(p: Settings, run: seq<Event>, n: nat, token: Token)
    requires n <= |run| && token in RowsAt(p, run, n)
    ensures RowsAt(p, run, n)[token].lastUsed == LastUse(p, run, n, token)
  {
    hide Slid;
    var rows, e := RowsAt(p, run, n - 1), run[n - 1];
    if token in rows {
      LastUsedColumn(p, run, n - 1, token);
    }
  }

  /** A row's times are not ahead of any later reading. */
  ghost predicate Behind(s: Session, run: seq<Event>, n: nat)
    requires n <= |run|
  {
    forall j :: n <= j < |run| && !run[j].Logout? ==> s.lastUsed <= Begins(run[j]) && s.created <= Begins(run[j])
  }

  lemma {:induction false} RowsBehind(p: Settings, run: seq<Event>, n: nat, token: Token)
    requires n <= |run| && Ordered(run) && token in RowsAt(p, run, n)
    ensures Behind(RowsAt(p, run, n)[token], run, n)
  {
    hide Slid, Sec;
    var rows, e := RowsAt(p, run, n - 1), run[n - 1];
    if token in rows {
      RowsBehind(p, run, n - 1, token);
    }
  }

  // ---------------------------------------------------------------------------
  //  What holds over every run
  // ---------------------------------------------------------------------------

  /** The row just logged in or touched has the expiry the formula gives, when the limit is no shorter. */
  lemma {:induction false} FormulaAt(p: Settings, run: seq<Event>, n: nat, token: Token)
    requires n <= |run| && Ordered(run) && token in RowsAt(p, run, n)
    requires p.sliding && p.expiryDays <= p.maxDays
    ensures RowsAt(p, run, n)[token].expires == Expiry(p, RowsAt(p, run, n)[token])
  {
    hide Slid, Sec;
    var rows, e := RowsAt(p, run, n - 1), run[n - 1];
    if token in rows {
      FormulaAt(p, run, n - 1, token);
    }
    if !e.Logout? && e.token == token {
      var s := RowsAt(p, run, n)[token];
      SlidInSeconds(p, s, e.now);
      if token in rows && e.Request? && Accepted(rows, e) {
        SlidInSeconds(p, rows[token], e.now);
      }
    }
  }

  ghost predicate FormulaHolds(p: Settings) {
    forall run: seq<Event>, n: nat, token | n <= |run| && Ordered(run) && token in RowsAt(p, run, n) ::
      RowsAt(p, run, n)[token].expires == Expiry(p, RowsAt(p, run, n)[token])
  }

  ghost predicate NeverBackwards(p: Settings) {
    forall run: seq<Event>, n: nat, token | n < |run| && Ordered(run) && token in RowsAt(p, run, n) ::
      token in RowsAt(p, run, n + 1) && RowsAt(p, run, n)[token].expires <= RowsAt(p, run, n + 1)[token].expires
  }

  /** No request is accepted at or after the absolute limit. */
  ghost predicate WithinLimit(p: Settings) {
    forall run: seq<Event>, n: nat | n < |run| && Ordered(run) && run[n].Request? && Accepted(RowsAt(p, run, n), run[n]) ::
      run[n].lookup < RowsAt(p, run, n)[run[n].token].created + p.maxDays * DAY_SECONDS
  }

  lemma StepForward(p: Settings, run: seq<Event>, n: nat, token: Token)
    requires n < |run| && Ordered(run) && token in RowsAt(p, run, n)
    requires !p.sliding || p.expiryDays <= p.maxDays
    ensures token in RowsAt(p, run, n + 1) && RowsAt(p, run, n)[token].expires <= RowsAt(p, run, n + 1)[token].expires
  {
    hide Slid, Sec;
    var rows, e := RowsAt(p, run, n), run[n];
    if p.sliding && e.Request? && e.token == token && Accepted(rows, e) {
      FormulaAt(p, run, n, token);
      SlidInSeconds(p, rows[token], e.now);
      RowsBehind(p, run, n, token);
    }
  }

  /** A row never outlives the limit, when the limit is no shorter than the expiry. */
  lemma {:induction false} LimitAt(p: Settings, run: seq<Event>, n: nat, token: Token)
    requires n <= |run| && Ordered(run) && token in RowsAt(p, run, n)
    requires p.expiryDays <= p.maxDays
    ensures RowsAt(p, run, n)[token].expires <= RowsAt(p, run, n)[token].created + p.maxDays * DAY_SECONDS
  {
    hide Slid, Sec;
    var rows, e := RowsAt(p, run, n - 1), run[n - 1];
    if token in rows {
      LimitAt(p, run, n - 1, token);
    }
    if !e.Logout? && e.token == token {
      SlidInSeconds(p, RowsAt(p, run, n)[token], e.now);
      if token in rows {
        SlidInSeconds(p, rows[token], e.now);
      }
    }
  }

  /** A login, and a request at second `t`. */
  function Witness(t: int): seq<Event> {
    [Login(1, Device("1", ""), "a", 0, 0), Request("a", t, true, t * SECOND)]
  }

  lemma WitnessRun(p: Settings, t: int)
    requires 0 <= t < p.expiryDays * DAY_SECONDS
    ensures Ordered(Witness(t))
    ensures RowsAt(p, Witness(t), 1) == map["a" := Session(1, Device("1", ""), 0, p.expiryDays * DAY_SECONDS, 0, false)]
    ensures Accepted(RowsAt(p, Witness(t), 1), Witness(t)[1])
    ensures "a" in RowsAt(p, Witness(t), 2)
    ensures p.sliding ==> RowsAt(p, Witness(t), 2)["a"].expires == Min(t + p.expiryDays * DAY_SECONDS, p.maxDays * DAY_SECONDS)
  {
    hide Slid;
    var run := Witness(t);
    AddSeconds(0, t);
    assert RowsAt(p, run, 0) == map[];
    var first := RowsAt(p, run, 1);
    assert first == Step(p, map[], run[0]);
    SlidInSeconds(p, Session(1, Device("1", ""), 0, 0, 0, false), 0);
    SlidInSeconds(p, first["a"], t * SECOND);
  }

  /**
   With the sliding policy, after every run every row's expiry is the last use plus the expiry
   days, capped at creation plus the maximum, exactly when the expiry is no longer than the
   maximum: the first expiry of a login is not capped.
   */
  lemma FormulaExactly(p: Settings)
    requires p.sliding
    ensures FormulaHolds(p) <==> p.expiryDays <= p.maxDays
  {
    if p.expiryDays <= p.maxDays {
      forall run: seq<Event>, n: nat, token | n <= |run| && Ordered(run) && token in RowsAt(p, run, n)
        ensures RowsAt(p, run, n)[token].expires == Expiry(p, RowsAt(p, run, n)[token])
      {
        FormulaAt(p, run, n, token);
      }
    } else {
      WitnessRun(p, 0);
      var rows := RowsAt(p, Witness(0), 1);
      assert "a" in rows && rows["a"].expires != Expiry(p, rows["a"]);
    }
  }

  /** Expiry never moves backwards, over every run, exactly when not sliding or the expiry fits the maximum. */
  lemma NeverBackwardsExactly(p: Settings)
    ensures NeverBackwards(p) <==> !p.sliding || p.expiryDays <= p.maxDays
  {
    if !p.sliding || p.expiryDays <= p.maxDays {
      forall run: seq<Event>, n: nat, token | n < |run| && Ordered(run) && token in RowsAt(p, run, n)
        ensures token in RowsAt(p, run, n + 1) && RowsAt(p, run, n)[token].expires <= RowsAt(p, run, n + 1)[token].expires
      {
        StepForward(p, run, n, token);
      }
    } else {
      WitnessRun(p, 0);
      var run := Witness(0);
      assert "a" in RowsAt(p, run, 1) && RowsAt(p, run, 1)["a"].expires > RowsAt(p, run, 1 + 1)["a"].expires;
    }
  }

  /** No request is accepted past the absolute limit, over every run, exactly when the expiry fits the maximum. */
  lemma WithinLimitExactly(p: Settings)
    ensures WithinLimit(p) <==> p.expiryDays <= p.maxDays
  {
    if p.expiryDays <= p.maxDays {
      forall run: seq<Event>, n: nat | n < |run| && Ordered(run) && run[n].Request? && Accepted(RowsAt(p, run, n), run[n])
        ensures run[n].lookup < RowsAt(p, run, n)[run[n].token].created + p.maxDays * DAY_SECONDS
      {
        LimitAt(p, run, n, run[n].token);
      }
    } else {
      var t := p.maxDays * DAY_SECONDS;
      WitnessRun(p, t);
      assert Witness(t)[1].Request? && Witness(t)[1].lookup == t;
    }
  }

  /** However the settings are chosen, one use caps the expiry for good. */
  lemma UseCaps(p: Settings, rows: Rows, e: Event)
    requires p.sliding && e.Request? && Accepted(rows, e)
    ensures Step(p, rows, e)[e.token].expires <= rows[e.token].created + p.maxDays * DAY_SECONDS
  {
    hide Slid, Sec;
    SlidInSeconds(p, rows[e.token], e.now);
  }

  /** A device has at most one session that is not revoked. */
  lemma {:induction false} OneSessionPerDevice(p: Settings, run: seq<Event>, n: nat, t: Token, u: Token)
    requires n <= |run| && t in RowsAt(p, run, n) && u in RowsAt(p, run, n) && t != u
    requires !RowsAt(p, run, n)[t].revoked && !RowsAt(p, run, n)[u].revoked
    ensures !SameDevice(RowsAt(p, run, n)[t], RowsAt(p, run, n)[u].user, RowsAt(p, run, n)[u].device)
  {
    hide Slid, Sec;
    var rows := RowsAt(p, run, n - 1);
    if t in rows && u in rows {
      OneSessionPerDevice(p, run, n - 1, t, u);
    }
  }

  /** A revoked session never comes back, and none of its requests is accepted again. */
  lemma {:induction false} RevokedForGood(p: Settings, run: seq<Event>, m: nat, n: nat, token: Token)
    requires m <= n <= |run| && token in RowsAt(p, run, m) && RowsAt(p, run, m)[token].revoked
    ensures token in RowsAt(p, run, n) && RowsAt(p, run, n)[token].revoked
    ensures n < |run| && run[n].Request? && run[n].token == token ==> !Accepted(RowsAt(p, run, n), run[n])
    decreases n - m
  {
    hide Slid, Sec;
    if m < n {
      RevokedForGood(p, run, m, n - 1, token);
    }
  }
}
