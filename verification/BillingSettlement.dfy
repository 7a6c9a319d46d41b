/**
 Settling a session that crosses month boundaries: the pieces it is cut into, the minutes each
 is charged, and what becomes of the contract, the monthly history and the session's totals.
 */
module BillingSettlement {
  import opened Options
  import opened Decimal
  import opened BillingPeriod

  const SECOND: int := 1000000000

  // ---------------------------------------------------------------------------
  //  Minutes
  // ---------------------------------------------------------------------------

  /** Seconds in minutes, rounded up to a multiple of the rounding, which is at least one. */
  function RoundUpMinutes(seconds: int, rounding: int): int {
    var r := if rounding <= 0 then 1 else rounding;
    (seconds + 60 * r - 1) / (60 * r) * r
  }

  /** The least multiple of the rounding that covers the seconds. */
  lemma RoundUpCovers(seconds: int, rounding: int)
    ensures var r := if rounding <= 0 then 1 else rounding;
            var minutes := RoundUpMinutes(seconds, rounding);
            60 * (minutes - r) < seconds <= 60 * minutes && exists k: int :: minutes == k * r
  {
    var r := if rounding <= 0 then 1 else rounding;
    var k := (seconds + 60 * r - 1) / (60 * r);
    QuotientBounds(seconds + 60 * r - 1, 60 * r);
    assert RoundUpMinutes(seconds, rounding) == k * r;
    assert 60 * (k * r) == k * (60 * r);
  }

  lemma QuotientBounds(a: int, b: int)
    requires b > 0
    ensures (a / b) * b <= a < (a / b) * b + b
  {
  }

  function Min(a: int, b: int): int {
    if a < b then a else b
  }

  /** A settled piece of a session, with the month key it is billed to and its minutes. */
  datatype Segment = Segment(from: int, to: int, period: Text, billed: int, included: int, overage: int)

  /** The whole seconds of the piece are billed, and every billed minute is included or overage. */
  predicate Charged(s: Segment, rounding: int) {
    s.billed == RoundUpMinutes((s.to - s.from) / SECOND, rounding) && s.included + s.overage == s.billed
  }

  /** The minutes of one piece: what the session has left is included, the rest is overage. */
  method ChargePiece(from: int, to: int, period: Text, remaining: int, rounding: int) returns (s: Segment)
    requires from <= to
    ensures s.from == from && s.to == to && s.period == period && Charged(s, rounding)
    ensures s.billed >= 0 && s.included == Min(s.billed, remaining)
  {
    hide RoundUpMinutes;
    var rawSeconds := (to - from) / SECOND;
    var billed := RoundUpMinutes(rawSeconds, rounding);
    RoundUpCovers(rawSeconds, rounding);
    var included := if billed < remaining then billed else remaining;
    var overage := 0;
    if billed > remaining {
      overage := billed - remaining;
    }
    s := Segment(from, to, period, billed, included, overage);
  }

  // ---------------------------------------------------------------------------
  //  Contract, history and totals
  // ---------------------------------------------------------------------------

  /** A contract: minutes left in its current month, and the minutes its package includes each month. */
  datatype Contract = Contract(remaining: int, period: Text, package: Option<int>)

  /** The usage recorded for a month. */
  datatype Usage = Usage(included: int, overage: int, amount: real)

  type History = map<Text, Usage>

  /** The totals of the session's own row. */
  datatype Totals = Totals(billed: int, included: int, overage: int, amountOverage: real, amountIncluded: real)

  datatype Rates = Rates(overage: real, hourly: real)

  /** The session and the rows that settling touches. */
  datatype Books = Books(startedAt: int, remaining: int, contract: Option<Contract>, history: History, totals: Option<Totals>)

  function Price(minutes: int, rate: real): real {
    minutes as real / 60.0 * rate
  }

  /** The contract with minutes taken from it, never below none. */
  function Drawn(c: Contract, minutes: int): Contract {
    c.(remaining := if c.remaining - minutes < 0 then 0 else c.remaining - minutes)
  }

  /** The contract moved on to a month: the package's minutes are available again. */
  function InPeriod(c: Contract, period: Text): Contract {
    if c.period == period then c
    else c.(period := period, remaining := if c.package.Some? then c.package.value else c.remaining)
  }

  /** What the contract shows as used of its package. */
  function Shown(c: Contract): int {
    if c.package.None? || c.package.value - c.remaining < 0 then 0 else c.package.value - c.remaining
  }

  /** When the contract moves on and its month has no record yet, one is made from what the contract shows. */
  function Seeded(h: History, c: Contract, period: Text): History {
    if c.period == period || c.period == [] || c.period in h then h else h[c.period := Usage(Shown(c), 0, 0.0)]
  }

  function Recorded(h: History, period: Text): Usage {
    if period in h then h[period] else Usage(0, 0, 0.0)
  }

  /** The usage of a piece added to a record. */
  function Plus(u: Usage, s: Segment, rate: real): Usage {
    Usage(u.included + s.included, u.overage + s.overage, u.amount + s.overage as real / 60.0 * rate)
  }

  function AddUsage(h: History, s: Segment, rate: real): History {
    h[s.period := Plus(Recorded(h, s.period), s, rate)]
  }

  function AddTotals(t: Option<Totals>, s: Segment, rates: Rates): Option<Totals> {
    if t.None? then None
    else Some(Totals(t.value.billed + s.billed, t.value.included + s.included, t.value.overage + s.overage,
                     t.value.amountOverage + Price(s.overage, rates.overage), t.value.amountIncluded + Price(s.included, rates.hourly)))
  }

  // ---------------------------------------------------------------------------
  //  What the pieces are
  // ---------------------------------------------------------------------------

  /** Piece `i` is month `i` of the session, from its start or the session's to the start of the next. */
  predicate IsMonth(z: Zone, startedAt: int, i: nat, s: Segment) {
    var k := MonthAt(z, startedAt) + i;
    && s.period == PeriodText(k)
    && s.from == (if i == 0 then startedAt else MonthStart(z, k))
    && s.to == MonthStart(z, k + 1)
  }

  /** The pieces are the months of the session up to `rest`. */
  predicate AreMonths(z: Zone, startedAt: int, segments: seq<Segment>, rest: int) {
    && (forall i :: 0 <= i < |segments| ==> IsMonth(z, startedAt, i, segments[i]))
    && rest == (if segments == [] then startedAt else MonthStart(z, MonthAt(z, startedAt) + |segments|))
  }

  /** The pieces run on from `start` to `end`, none is empty, and each lies in the month it is billed to. */
  ghost predicate Partition(z: Zone, segments: seq<Segment>, start: int, end: int) {
    && (if segments == [] then start == end else segments[0].from == start && segments[|segments| - 1].to == end)
    && (forall i :: 0 < i < |segments| ==> segments[i - 1].to == segments[i].from)
    && forall i :: 0 <= i < |segments| ==> BilledRight(z, segments[i])
  }

  ghost predicate BilledRight(z: Zone, s: Segment) {
    s.from < s.to && forall t :: s.from <= t < s.to ==> PeriodAt(z, t) == s.period
  }

  lemma MonthIsBilledRight(z: Zone, w: nat, startedAt: int, i: nat, s: Segment)
    requires Steady(z, w) && IsMonth(z, startedAt, i, s)
    ensures BilledRight(z, s)
  {
    hide PeriodText, MonthAt, MonthStart;
    var k := MonthAt(z, startedAt) + i;
    MonthsNotEmpty(z, w, k);
    MonthIsInterval(z, w, startedAt, MonthAt(z, startedAt));
    forall t | s.from <= t < s.to ensures PeriodAt(z, t) == s.period {
      MonthIsInterval(z, w, t, k);
    }
  }

  /** Months partition the session. */
  lemma MonthsPartition(z: Zone, w: nat, startedAt: int, segments: seq<Segment>, rest: int)
    requires Steady(z, w) && AreMonths(z, startedAt, segments, rest)
    ensures Partition(z, segments, startedAt, rest)
  {
    hide PeriodText, MonthAt, MonthStart, BilledRight;
    forall i | 0 <= i < |segments| ensures BilledRight(z, segments[i]) {
      MonthIsBilledRight(z, w, startedAt, i, segments[i]);
    }
    forall i | 0 < i < |segments| ensures segments[i - 1].to == segments[i].from {
      assert IsMonth(z, startedAt, i - 1, segments[i - 1]) && IsMonth(z, startedAt, i, segments[i]);
    }
  }

  function Included(segments: seq<Segment>): int {
    if segments == [] then 0 else Included(segments[..|segments| - 1]) + segments[|segments| - 1].included
  }

  function Billed(segments: seq<Segment>): int {
    if segments == [] then 0 else Billed(segments[..|segments| - 1]) + segments[|segments| - 1].billed
  }

  function Overage(segments: seq<Segment>): int {
    if segments == [] then 0 else Overage(segments[..|segments| - 1]) + segments[|segments| - 1].overage
  }

  // ---------------------------------------------------------------------------
  //  What the pieces draw on
  // ---------------------------------------------------------------------------

  /**
   Pieces that draw on what the contract shows once it has moved on: all of them, or all but the
   first when the contract is behind and moving on refills it.
   */
  function Drawing(c: Contract, period: Text, segments: seq<Segment>): seq<Segment> {
    if c.period == period || c.package.None? || segments == [] then segments else segments[1..]
  }

  /** The allowance they draw on. */
  function Allowance(c: Contract, period: Text): int {
    if c.period == period || c.package.None? then c.remaining else c.package.value
  }

  /** Each piece includes its billed minutes as far as the allowance goes behind the pieces before it. */
  predicate DrawsOn(pieces: seq<Segment>, allowance: int) {
    forall i :: 0 <= i < |pieces| ==> pieces[i].included == Min(pieces[i].billed, allowance - Included(pieces[..i]))
  }

  /** The session knows what is left of the contract, and no minutes are negative. */
  predicate InStep(c: Contract, remaining: int) {
    c.remaining == remaining >= 0 && (c.package.Some? ==> c.package.value >= 0)
  }

  /** The balance of the allowance after some pieces: `now` is the contract as it stands. */
  predicate Balanced(c: Contract, period: Text, segments: seq<Segment>, now: Contract) {
    && DrawsOn(Drawing(c, period, segments), Allowance(c, period))
    && (segments != [] ==> Included(Drawing(c, period, segments)) + now.remaining == Allowance(c, period))
  }

  lemma IncludedGrows(pieces: seq<Segment>, s: Segment)
    ensures Included(pieces + [s]) == Included(pieces) + s.included
    ensures Billed(pieces + [s]) == Billed(pieces) + s.billed
    ensures Overage(pieces + [s]) == Overage(pieces) + s.overage
  {
    assert (pieces + [s])[..|pieces|] == pieces;
  }

  lemma DrawsOnGrows(pieces: seq<Segment>, s: Segment, allowance: int)
    requires DrawsOn(pieces, allowance) && s.included == Min(s.billed, allowance - Included(pieces))
    ensures DrawsOn(pieces + [s], allowance)
  {
    hide Included, Min;
    var all := pieces + [s];
    forall i | 0 <= i < |all| ensures all[i].included == Min(all[i].billed, allowance - Included(all[..i])) {
      PrefixOfGrown(pieces, s, i);
    }
  }

  lemma PrefixOfGrown(pieces: seq<Segment>, s: Segment, i: nat)
    requires i <= |pieces|
    ensures (pieces + [s])[..i] == pieces[..i]
    ensures i == |pieces| ==> pieces[..i] == pieces && (pieces + [s])[i] == s
    ensures i < |pieces| ==> (pieces + [s])[i] == pieces[i]
  {
  }

  /** One more piece keeps the balance of the allowance. */
  lemma BalanceStep(c: Contract, remainingAtStart: int, period: Text, segments: seq<Segment>, s: Segment, now: Contract)
    requires InStep(c, remainingAtStart) && InStep(now, now.remaining) && now.package == c.package
    requires segments == [] ==> now == c
    requires segments != [] ==> now.period == period
    requires Balanced(c, period, segments, now)
    requires s.billed >= 0 && s.included == Min(s.billed, now.remaining)
    ensures var next := InPeriod(Drawn(now, s.included), period);
            InStep(next, next.remaining) && Balanced(c, period, segments + [s], next)
  {
    hide Included, DrawsOn, Billed, Overage;
    var before, after := Drawing(c, period, segments), Drawing(c, period, segments + [s]);
    Empty();
    if segments == [] && c.period != period && c.package.Some? {
      assert after == [];
    } else {
      assert after == before + [s];
      DrawsOnGrows(before, s, Allowance(c, period));
      IncludedGrows(before, s);
    }
  }

  lemma Empty()
    ensures Included([]) == 0 && Billed([]) == 0 && Overage([]) == 0
    ensures forall allowance :: DrawsOn([], allowance)
  {
  }

  // ---------------------------------------------------------------------------
  //  What the rows record
  // ---------------------------------------------------------------------------

  /** The history the pieces are added to: a record is made when the contract moves on at the first of them. */
  function Basis(b: Books, period: Text, segments: seq<Segment>): History {
    if b.contract.None? || segments == [] then b.history
    else Seeded(b.history, Drawn(b.contract.value, segments[0].included), period)
  }

  predicate Bills(segments: seq<Segment>, period: Text) {
    exists i :: 0 <= i < |segments| && segments[i].period == period
  }

  /** Each piece is added to the record of its own month, once, and no other record changes. */
  ghost predicate AddedTo(basis: History, segments: seq<Segment>, rate: real, h: History) {
    && (forall i :: 0 <= i < |segments| ==>
          segments[i].period in h && h[segments[i].period] == Plus(Recorded(basis, segments[i].period), segments[i], rate))
    && forall p :: !Bills(segments, p) ==> (p in h <==> p in basis) && Recorded(h, p) == Recorded(basis, p)
  }

  /** The totals grow by the sums over the pieces. */
  predicate TotalsGrow(t: Option<Totals>, segments: seq<Segment>, rates: Rates, u: Option<Totals>) {
    if t.None? then u.None?
    else
      && u.Some?
      && u.value.billed == t.value.billed + Billed(segments)
      && u.value.included == t.value.included + Included(segments)
      && u.value.overage == t.value.overage + Overage(segments)
      && u.value.amountOverage == t.value.amountOverage + Overage(segments) as real / 60.0 * rates.overage
      && u.value.amountIncluded == t.value.amountIncluded + Included(segments) as real / 60.0 * rates.hourly
  }

  lemma TotalsStep(t: Option<Totals>, segments: seq<Segment>, rates: Rates, u: Option<Totals>, s: Segment)
    requires TotalsGrow(t, segments, rates, u)
    ensures TotalsGrow(t, segments + [s], rates, AddTotals(u, s, rates))
  {
    hide Included, Billed, Overage;
    IncludedGrows(segments, s);
    PriceAdds(Overage(segments), s.overage, rates.overage);
    PriceAdds(Included(segments), s.included, rates.hourly);
  }

  lemma PriceAdds(a: int, b: int, rate: real)
    ensures Price(a + b, rate) == Price(a, rate) + Price(b, rate)
  {
  }

  lemma AddedStep(basis: History, segments: seq<Segment>, rate: real, h: History, s: Segment)
    requires AddedTo(basis, segments, rate, h) && !Bills(segments, s.period)
    ensures AddedTo(basis, segments + [s], rate, AddUsage(h, s, rate))
  {
    hide Plus;
    var all, next := segments + [s], AddUsage(h, s, rate);
    assert Recorded(h, s.period) == Recorded(basis, s.period);
    assert all[|segments|] == s;
    forall i | 0 <= i < |segments| ensures all[i].period in next && next[all[i].period] == h[all[i].period] {
      assert segments[i] == all[i] && segments[i].period != s.period;
    }
    forall p | !Bills(all, p)
      ensures (p in next <==> p in basis) && Recorded(next, p) == Recorded(basis, p)
    {
      assert all[|segments|].period != p;
      assert forall i :: 0 <= i < |segments| ==> segments[i] == all[i];
    }
  }

  // ---------------------------------------------------------------------------
  //  The loop
  // ---------------------------------------------------------------------------

  /** The session and the rows after one piece. */
  function Advance(b: Books, s: Segment, period: Text, rates: Rates): Books {
    var totals := AddTotals(b.totals, s, rates);
    if b.contract.None? then Books(s.to, 0, None, AddUsage(b.history, s, rates.overage), totals)
    else
      var drawn := Drawn(b.contract.value, s.included);
      var next := InPeriod(drawn, period);
      Books(s.to, next.remaining, Some(next), AddUsage(Seeded(b.history, drawn, period), s, rates.overage), totals)
  }

  /** The pieces are the months of the session so far, each charged in full. */
  predicate ChargedMonths(z: Zone, b: Books, rounding: int, segments: seq<Segment>, rest: int) {
    && AreMonths(z, b.startedAt, segments, rest)
    && forall i :: 0 <= i < |segments| ==> Charged(segments[i], rounding) && segments[i].billed >= 0
  }

  /** What is included is drawn from one allowance, and the contract stands in the month `period`. */
  predicate Drawings(b: Books, period: Text, segments: seq<Segment>, after: Books) {
    if b.contract.None? then
      && after.contract.None? && (segments != [] ==> after.remaining == 0)
      && forall i :: 0 <= i < |segments| ==> segments[i].included == Min(segments[i].billed, if i == 0 then b.remaining else 0)
    else
      && after.contract.Some? && after.contract.value.package == b.contract.value.package
      && (segments != [] ==> after.contract.value.period == period && after.contract.value.remaining == after.remaining)
      && (InStep(b.contract.value, b.remaining) ==>
            InStep(after.contract.value, after.remaining) && Balanced(b.contract.value, period, segments, after.contract.value))
  }

  /** Every piece is recorded once in its month and in the totals. */
  ghost predicate Records(b: Books, period: Text, segments: seq<Segment>, rates: Rates, after: Books) {
    && AddedTo(Basis(b, period, segments), segments, rates.overage, after.history)
    && TotalsGrow(b.totals, segments, rates, after.totals)
  }

  /** The settlement after some of its pieces. */
  ghost predicate SoFar(z: Zone, b: Books, period: Text, rounding: int, rates: Rates, segments: seq<Segment>, after: Books) {
    && ChargedMonths(z, b, rounding, segments, after.startedAt)
    && Drawings(b, period, segments, after)
    && Records(b, period, segments, rates, after)
    && (segments == [] ==> after == b)
  }

  /**
   What settling `b` at `now` comes to: all of the above, and what is left of the session lies in
   one month.
   */
  ghost predicate Settled(z: Zone, b: Books, now: int, rounding: int, rates: Rates, segments: seq<Segment>, after: Books) {
    && SoFar(z, b, PeriodAt(z, now), rounding, rates, segments, after)
    && (segments != [] ==> after.startedAt < now)
    && (segments == [] <==> SplitAtMonthBoundary(z, b.startedAt, now).None?)
    && (YearOf(MonthAt(z, b.startedAt)) >= 1970 ==> OneMonth(z, after.startedAt, now))
  }

  lemma MonthStep(z: Zone, w: nat, b: Books, rounding: int, segments: seq<Segment>, rest: int, s: Segment)
    requires Steady(z, w) && ChargedMonths(z, b, rounding, segments, rest)
    requires s.from == rest && s.period == PeriodAt(z, rest) && s.to == MonthStart(z, MonthAt(z, rest) + 1)
    requires Charged(s, rounding) && s.billed >= 0
    ensures ChargedMonths(z, b, rounding, segments + [s], s.to)
    ensures !Bills(segments, s.period)
  {
    hide PeriodText, MonthAt, MonthStart, Charged;
    var k := MonthAt(z, b.startedAt) + |segments|;
    if segments != [] {
      MonthsNotEmpty(z, w, k);
      MonthIsInterval(z, w, rest, k);
    }
    forall i | 0 <= i < |segments| ensures segments[i].period != s.period {
      assert IsMonth(z, b.startedAt, i, segments[i]);
      KeysDiffer(MonthAt(z, b.startedAt) + i, k);
    }
    assert IsMonth(z, b.startedAt, |segments|, s);
  }

  lemma DrawingStep(b: Books, period: Text, segments: seq<Segment>, after: Books, s: Segment, rates: Rates)
    requires Drawings(b, period, segments, after) && (segments == [] ==> after == b)
    requires s.billed >= 0 && s.included == Min(s.billed, after.remaining)
    ensures Drawings(b, period, segments + [s], Advance(after, s, period, rates))
  {
    hide Balanced, Seeded, AddUsage, AddTotals;
    var next := Advance(after, s, period, rates);
    if b.contract.Some? && InStep(b.contract.value, b.remaining) {
      BalanceStep(b.contract.value, b.remaining, period, segments, s, after.contract.value);
    }
  }

  lemma RecordStep(b: Books, period: Text, segments: seq<Segment>, after: Books, s: Segment, rates: Rates)
    requires Records(b, period, segments, rates, after) && (segments == [] ==> after == b) && !Bills(segments, s.period)
    requires segments != [] && b.contract.Some? ==> after.contract.Some? && after.contract.value.period == period
    requires b.contract.None? ==> after.contract.None?
    ensures Records(b, period, segments + [s], rates, Advance(after, s, period, rates))
  {
    hide AddedTo, AddUsage, TotalsGrow, AddTotals, Bills, Included;
    TotalsStep(b.totals, segments, rates, after.totals, s);
    var basis := Basis(b, period, segments + [s]);
    if segments == [] {
      NothingAdded(basis, rates.overage);
      AddedStep(basis, [], rates.overage, basis, s);
      assert [] + [s] == [s] && segments + [s] == [s];
    } else {
      assert (segments + [s])[0] == segments[0];
      AddedStep(basis, segments, rates.overage, after.history, s);
    }
  }

  lemma NothingAdded(h: History, rate: real)
    ensures AddedTo(h, [], rate, h) && forall p :: !Bills([], p)
  {
  }

  lemma NothingYet(z: Zone, b: Books, period: Text, rounding: int, rates: Rates)
    ensures SoFar(z, b, period, rounding, rates, [], b)
  {
    NothingAdded(b.history, rates.overage);
    Empty();
  }

  lemma SoFarStep(z: Zone, w: nat, b: Books, period: Text, rounding: int, rates: Rates, segments: seq<Segment>, after: Books, s: Segment)
    requires Steady(z, w) && SoFar(z, b, period, rounding, rates, segments, after)
    requires s.from == after.startedAt && s.period == PeriodAt(z, s.from) && s.to == MonthStart(z, MonthAt(z, s.from) + 1)
    requires Charged(s, rounding) && s.billed >= 0 && s.included == Min(s.billed, after.remaining)
    ensures SoFar(z, b, period, rounding, rates, segments + [s], Advance(after, s, period, rates))
  {
    hide Steady, ChargedMonths, Records, Balanced, InStep, Charged, PeriodAt, MonthAt, MonthStart, Seeded, AddUsage, AddTotals, Bills;
    MonthStep(z, w, b, rounding, segments, after.startedAt, s);
    DrawingStep(b, period, segments, after, s, rates);
    RecordStep(b, period, segments, after, s, rates);
  }

  /** The settling loop: it ends, and leaves the books settled. */
  method SettleCrossingMonth(z: Zone, ghost w: nat, b: Books, now: int, rounding: int, rates: Rates)
    returns (segments: seq<Segment>, after: Books)
    requires Steady(z, w)
    ensures Settled(z, b, now, rounding, rates, segments, after)
    ensures Partition(z, segments, b.startedAt, after.startedAt)
  {
    hide SoFar, Steady, Advance, PeriodAt, MonthAt, MonthStart, YearOf, SplitAtMonthBoundary, OneMonth, AreMonths, Charged;
    segments, after := [], b;
    var period := PeriodAt(z, now);
    NothingYet(z, b, period, rounding, rates);
    while true
      invariant SoFar(z, b, period, rounding, rates, segments, after)
      invariant segments == [] ==> after == b
      invariant segments != [] ==> after.startedAt < now && SplitAtMonthBoundary(z, b.startedAt, now).Some?
      invariant YearOf(MonthAt(z, b.startedAt)) >= 1970 ==> YearOf(MonthAt(z, after.startedAt)) >= 1970
      decreases now - after.startedAt
    {
      SplitExactly(z, w, after.startedAt, now);
      var boundary := SplitAtMonthBoundary(z, after.startedAt, now);
      if boundary.None? {
        break;
      }
      LaterYear(MonthAt(z, after.startedAt));
      var segment := ChargePiece(after.startedAt, boundary.value, PeriodAt(z, after.startedAt), after.remaining, rounding);
      SoFarStep(z, w, b, period, rounding, rates, segments, after, segment);
      Moves(after, segment, period, rates);
      segments, after := segments + [segment], Advance(after, segment, period, rates);
    }
    AreMonthsSoFar(z, b, period, rounding, rates, segments, after);
    MonthsPartition(z, w, b.startedAt, segments, after.startedAt);
  }

  lemma AreMonthsSoFar(z: Zone, b: Books, period: Text, rounding: int, rates: Rates, segments: seq<Segment>, after: Books)
    requires SoFar(z, b, period, rounding, rates, segments, after)
    ensures AreMonths(z, b.startedAt, segments, after.startedAt)
  {
  }

  lemma Moves(b: Books, s: Segment, period: Text, rates: Rates)
    ensures Advance(b, s, period, rates).startedAt == s.to
  {
  }

  lemma LaterYear(k: int)
    ensures YearOf(k + 1) >= YearOf(k)
  {
  }

  // ---------------------------------------------------------------------------
  //  One allowance for several months
  // ---------------------------------------------------------------------------

  /** Every piece gets a month's allowance of its own. */
  predicate OwnAllowances(pieces: seq<Segment>, package: int) {
    forall i :: 0 <= i < |pieces| ==> pieces[i].included == Min(pieces[i].billed, package)
  }

  predicate NoneNegative(pieces: seq<Segment>) {
    forall i :: 0 <= i < |pieces| ==> pieces[i].billed >= 0
  }

  /** No piece asks for more than a month's allowance, and all of them together not for more than there is. */
  predicate AllFit(pieces: seq<Segment>, allowance: int, package: int) {
    Billed(pieces) <= allowance && forall i :: 0 <= i < |pieces| ==> pieces[i].billed <= package
  }

  /** Piece `k` asks for more than a month's allowance, finds exactly that, and nothing is asked for after it. */
  predicate TakesTheRest(pieces: seq<Segment>, allowance: int, package: int, k: nat) {
    && k < |pieces| && pieces[k].billed > package && Billed(pieces[..k]) == allowance - package
    && (forall j :: 0 <= j < k ==> pieces[j].billed <= package)
    && forall j :: k < j < |pieces| ==> pieces[j].billed == 0 || package == 0
  }

  lemma PrefixStep(pieces: seq<Segment>, i: nat)
    requires i < |pieces|
    ensures Included(pieces[..i + 1]) == Included(pieces[..i]) + pieces[i].included
    ensures Billed(pieces[..i + 1]) == Billed(pieces[..i]) + pieces[i].billed
  {
    assert pieces[..i + 1][..i] == pieces[..i];
  }

  lemma {:induction false} BilledMonotone(pieces: seq<Segment>, i: nat, j: nat)
    requires i <= j <= |pieces| && NoneNegative(pieces)
    ensures Billed(pieces[..i]) <= Billed(pieces[..j])
    decreases j
  {
    if i < j {
      BilledMonotone(pieces, i, j - 1);
      PrefixStep(pieces, j - 1);
    }
  }

  /** What is drawn never exceeds the allowance, and what is left never grows. */
  lemma {:induction false} DrawnWithin(pieces: seq<Segment>, allowance: int, i: nat, j: nat)
    requires DrawsOn(pieces, allowance) && NoneNegative(pieces) && allowance >= 0 && i <= j <= |pieces|
    ensures Included(pieces[..i]) <= Included(pieces[..j]) <= allowance
    decreases j
  {
    hide Billed;
    if j > 0 {
      DrawnWithin(pieces, allowance, if i < j then i else j - 1, j - 1);
      PrefixStep(pieces, j - 1);
    }
  }

  lemma {:induction false} AllOfIt(pieces: seq<Segment>, n: nat)
    requires n <= |pieces| && forall i :: 0 <= i < n ==> pieces[i].included == pieces[i].billed
    ensures Included(pieces[..n]) == Billed(pieces[..n])
  {
    if n > 0 {
      AllOfIt(pieces, n - 1);
      PrefixStep(pieces, n - 1);
    }
  }

  lemma OwnMeansFits(pieces: seq<Segment>, allowance: int, package: int)
    requires DrawsOn(pieces, allowance) && NoneNegative(pieces) && allowance >= 0 && package >= 0 && OwnAllowances(pieces, package)
    ensures AllFit(pieces, allowance, package) || exists k: nat :: TakesTheRest(pieces, allowance, package, k)
  {
    hide Included, Billed;
    var k := FirstOver(pieces, package);
    AllOfIt(pieces, k);
    DrawnWithin(pieces, allowance, k, k);
    assert pieces[..|pieces|] == pieces;
    if k < |pieces| {
      PrefixStep(pieces, k);
      forall j | k < j < |pieces| ensures pieces[j].billed == 0 || package == 0 {
        DrawnWithin(pieces, allowance, k + 1, j);
        assert pieces[j].included == Min(pieces[j].billed, allowance - Included(pieces[..j]));
      }
      assert TakesTheRest(pieces, allowance, package, k);
    }
  }

  /** The first piece that asks for more than a month's allowance, or the number of pieces. */
  lemma {:induction false} FirstOver(pieces: seq<Segment>, package: int) returns (k: nat)
    ensures k <= |pieces| && (forall j :: 0 <= j < k ==> pieces[j].billed <= package)
    ensures k < |pieces| ==> pieces[k].billed > package
    decreases |pieces|
  {
    if pieces == [] {
      k := 0;
    } else {
      var init := pieces[..|pieces| - 1];
      k := FirstOver(init, package);
      assert forall j :: 0 <= j < |init| ==> init[j] == pieces[j];
      if k == |init| && pieces[k].billed <= package {
        k := |pieces|;
      }
    }
  }

  /** Pieces that fit are included in full. */
  lemma {:induction false} FitsMeansAll(pieces: seq<Segment>, allowance: int, n: nat)
    requires DrawsOn(pieces, allowance) && NoneNegative(pieces) && n <= |pieces| && Billed(pieces[..n]) <= allowance
    ensures forall i :: 0 <= i < n ==> pieces[i].included == pieces[i].billed
  {
    hide Included, Billed;
    if n > 0 {
      PrefixStep(pieces, n - 1);
      FitsMeansAll(pieces, allowance, n - 1);
      AllOfIt(pieces, n - 1);
    }
  }

  lemma FitsMeansOwn(pieces: seq<Segment>, allowance: int, package: int)
    requires DrawsOn(pieces, allowance) && NoneNegative(pieces) && allowance >= 0 && package >= 0
    requires AllFit(pieces, allowance, package) || exists k: nat :: TakesTheRest(pieces, allowance, package, k)
    ensures OwnAllowances(pieces, package)
  {
    hide Included, Billed;
    if AllFit(pieces, allowance, package) {
      assert pieces[..|pieces|] == pieces;
      FitsMeansAll(pieces, allowance, |pieces|);
    } else {
      var k: nat :| TakesTheRest(pieces, allowance, package, k);
      FitsMeansAll(pieces, allowance, k);
      AllOfIt(pieces, k);
      PrefixStep(pieces, k);
      forall j | k < j < |pieces| ensures pieces[j].included == Min(pieces[j].billed, package) {
        DrawnWithin(pieces, allowance, k + 1, j);
        DrawnWithin(pieces, allowance, j, j);
        assert pieces[j].included == Min(pieces[j].billed, allowance - Included(pieces[..j]));
      }
    }
  }

  /** At most one piece bills a minute. */
  predicate OneBills(pieces: seq<Segment>) {
    forall i, j :: 0 <= i < j < |pieces| ==> pieces[i].billed == 0 || pieces[j].billed == 0
  }

  lemma {:induction false} NothingBilled(pieces: seq<Segment>, n: nat)
    requires n <= |pieces| && NoneNegative(pieces)
    ensures Billed(pieces[..n]) >= 0
    ensures Billed(pieces[..n]) == 0 <==> forall i :: 0 <= i < n ==> pieces[i].billed == 0
  {
    if n > 0 {
      NothingBilled(pieces, n - 1);
      PrefixStep(pieces, n - 1);
    }
  }

  /** When there is just one month's allowance, every piece gets one of its own if they fit in it, if one bills, or if it is none. */
  lemma OneAllowance(pieces: seq<Segment>, package: int)
    requires NoneNegative(pieces) && package >= 0
    ensures (AllFit(pieces, package, package) || exists k: nat :: TakesTheRest(pieces, package, package, k)) ==>
              Billed(pieces) <= package || OneBills(pieces) || package == 0
  {
    hide Billed;
    if k: nat :| TakesTheRest(pieces, package, package, k) {
      NothingBilled(pieces, k);
    }
  }

  lemma OneAllowanceBack(pieces: seq<Segment>, package: int)
    requires NoneNegative(pieces) && package >= 0 && (Billed(pieces) <= package || OneBills(pieces) || package == 0)
    ensures AllFit(pieces, package, package) || exists k: nat :: TakesTheRest(pieces, package, package, k)
  {
    hide Billed;
    var k := FirstOver(pieces, package);
    assert pieces[..|pieces|] == pieces;
    if k < |pieces| {
      NothingBilled(pieces, k);
      PrefixStep(pieces, k);
      BilledMonotone(pieces, k + 1, |pieces|);
      assert forall j :: 0 <= j < k ==> pieces[j].billed == 0;
      assert TakesTheRest(pieces, package, package, k);
    } else if Billed(pieces) > package {
      OneBillsFits(pieces, package);
    }
  }

  lemma {:induction false} OneBillsFits(pieces: seq<Segment>, package: int)
    requires NoneNegative(pieces) && package >= 0 && (OneBills(pieces) || package == 0)
    requires forall i :: 0 <= i < |pieces| ==> pieces[i].billed <= package
    ensures Billed(pieces) <= package
    decreases |pieces|
  {
    hide Billed;
    if pieces == [] {
      Empty();
    } else {
      var init, last := pieces[..|pieces| - 1], pieces[|pieces| - 1];
      assert forall i :: 0 <= i < |init| ==> init[i] == pieces[i];
      PrefixStep(pieces, |pieces| - 1);
      assert pieces[..|pieces|] == pieces;
      if last.billed == 0 {
        OneBillsFits(init, package);
      } else {
        NothingBilled(pieces, |pieces| - 1);
      }
    }
  }

  /**
   When every month of a settled session gets an allowance of its own: exactly when no piece that
   draws on the one allowance asks for more than a package and they fit together, or the last of
   them that asks at all finds exactly one package left.  If the one allowance is a package, as it
   is whenever the contract was behind, that means that the pieces fit in it together, that at most
   one of them bills a minute, or that the package includes nothing.
   */
  lemma OwnAllowancesExactly(z: Zone, b: Books, now: int, rounding: int, rates: Rates, segments: seq<Segment>, after: Books)
    requires b.contract.Some? && InStep(b.contract.value, b.remaining) && b.contract.value.package.Some?
    ensures var c := b.contract.value;
            var pieces, allowance, package := Drawing(c, PeriodAt(z, now), segments), Allowance(c, PeriodAt(z, now)), c.package.value;
            Settled(z, b, now, rounding, rates, segments, after) ==>
            && (OwnAllowances(pieces, package) <==>
                  AllFit(pieces, allowance, package) || exists k: nat :: TakesTheRest(pieces, allowance, package, k))
            && (allowance == package ==>
                  (OwnAllowances(pieces, package) <==> Billed(pieces) <= package || OneBills(pieces) || package == 0))
            && (c.period != PeriodAt(z, now) ==> allowance == package)
  {
    hide PeriodAt, AreMonths, Charged, DrawsOn, Included, Billed, AllFit, TakesTheRest, OwnAllowances, Records, OneBills, SplitAtMonthBoundary, MonthAt, OneMonth;
    if Settled(z, b, now, rounding, rates, segments, after) {
      var c := b.contract.value;
      var pieces, allowance, package := Drawing(c, PeriodAt(z, now), segments), Allowance(c, PeriodAt(z, now)), c.package.value;
      assert NoneNegative(pieces);
      OwnExactly(pieces, allowance, package);
    }
  }

  lemma OwnExactly(pieces: seq<Segment>, allowance: int, package: int)
    requires DrawsOn(pieces, allowance) && NoneNegative(pieces) && allowance >= 0 && package >= 0
    ensures OwnAllowances(pieces, package) <==>
            AllFit(pieces, allowance, package) || exists k: nat :: TakesTheRest(pieces, allowance, package, k)
    ensures allowance == package ==>
              (OwnAllowances(pieces, package) <==> Billed(pieces) <= package || OneBills(pieces) || package == 0)
  {
    hide DrawsOn, Billed, AllFit, TakesTheRest, OwnAllowances, OneBills;
    if OwnAllowances(pieces, package) {
      OwnMeansFits(pieces, allowance, package);
    }
    if AllFit(pieces, allowance, package) || exists k: nat :: TakesTheRest(pieces, allowance, package, k) {
      FitsMeansOwn(pieces, allowance, package);
    }
    OneAllowance(pieces, package);
    if Billed(pieces) <= package || OneBills(pieces) || package == 0 {
      OneAllowanceBack(pieces, package);
    }
  }

  lemma StartInUtc(z: Zone, k: int)
    requires forall t :: z(t) == 0
    ensures MonthStart(z, k) == DAY * StartDay(k)
  {
    hide StartDay;
  }

  /** In UTC the first days of January, February and March 1970 are days 0, 31 and 59. */
  lemma EarlyStarts(z: Zone)
    requires forall t :: z(t) == 0
    ensures MonthStart(z, 0) == 0 && MonthStart(z, 1) == 31 * DAY && MonthStart(z, 2) == 59 * DAY && MonthStart(z, 3) == 90 * DAY
  {
    hide StartDay, MonthStart;
    EarlyDays();
    StartInUtc(z, 0);
    StartInUtc(z, 1);
    StartInUtc(z, 2);
    StartInUtc(z, 3);
  }

  lemma EarlyMonths(z: Zone)
    requires forall t :: z(t) == 0
    ensures Steady(z, 0)
    ensures MonthStart(z, 1) == 31 * DAY && MonthStart(z, 2) == 59 * DAY
    ensures MonthAt(z, 0) == 0 && MonthAt(z, 31 * DAY) == 1 && MonthAt(z, 59 * DAY) == 2 && MonthAt(z, 59 * DAY + 1) == 2
  {
    hide MonthAt, Steady, MonthStart;
    FixedOffsetSteady(z, 0);
    EarlyStarts(z);
    MonthIsInterval(z, 0, 0, 0);
    MonthIsInterval(z, 0, 31 * DAY, 1);
    MonthIsInterval(z, 0, 59 * DAY, 2);
    MonthIsInterval(z, 0, 59 * DAY + 1, 2);
  }

  lemma EarlyDays()
    ensures StartDay(0) == 0 && StartDay(1) == 31 && StartDay(2) == 59 && StartDay(3) == 90
  {
    hide StartDay, DaysIn;
    EpochStart();
    NextMonth(0);
    NextMonth(1);
    NextMonth(2);
    EarlyYear();
  }

  lemma EarlyYear()
    ensures YearOf(0) == 1970 && YearOf(1) == 1970 && YearOf(2) == 1970 && MonthOf(0) == 1 && MonthOf(1) == 2 && MonthOf(2) == 3
    ensures !IsLeap(1970)
  {
  }

  /**
   A session over two boundaries that draws on 60 minutes a month: January takes all of them and
   February gets none, although it would have had 60 of its own.
   */
  method TwoMonthsShare(rates: Rates) returns (segments: seq<Segment>, after: Books)
    ensures |segments| >= 2
    ensures segments[0].billed == 44640 && segments[0].included == 60
    ensures segments[1].billed == 40320 && segments[1].included == 0
    ensures !OwnAllowances(segments, 60)
  {
    hide Settled, PeriodAt, RoundUpMinutes, DAY, Partition;
    var z: Zone := (t: int) => 0;
    var now := 59 * DAY + 1;
    var b := Books(0, 60, Some(Contract(60, PeriodAt(z, now), Some(60))), map[], None);
    FixedOffsetSteady(z, 0);
    segments, after := SettleCrossingMonth(z, 0, b, now, 1, rates);
    SharedAllowance(z, rates, segments, after);
  }

  lemma SharedAllowance(z: Zone, rates: Rates, segments: seq<Segment>, after: Books)
    requires forall t :: z(t) == 0
    requires Settled(z, Books(0, 60, Some(Contract(60, PeriodAt(z, 59 * DAY + 1), Some(60))), map[], None), 59 * DAY + 1, 1, rates, segments, after)
    ensures |segments| >= 2
    ensures segments[0].billed == 44640 && segments[0].included == 60
    ensures segments[1].billed == 40320 && segments[1].included == 0
    ensures !OwnAllowances(segments, 60)
  {
    hide MonthAt, PeriodAt, SplitAtMonthBoundary, Records, YearOf, OneMonth, AreMonths, RoundUpMinutes, DrawsOn, Included, DAY;
    TwoPieces(z, 60, 1, rates, segments, after);
    January();
    FirstTwo(segments, 60);
  }

  lemma TwoPieces(z: Zone, minutes: int, rounding: int, rates: Rates, segments: seq<Segment>, after: Books)
    requires forall t :: z(t) == 0
    requires Settled(z, Books(0, minutes, Some(Contract(minutes, PeriodAt(z, 59 * DAY + 1), Some(minutes))), map[], None), 59 * DAY + 1, rounding, rates, segments, after)
    ensures |segments| >= 2
    ensures segments[0].from == 0 && segments[0].to == segments[1].from == 31 * DAY && segments[1].to == 59 * DAY
  {
    hide MonthAt, PeriodText, MonthStart, SplitAtMonthBoundary, Steady, Records, Drawings, YearOf, DAY, Charged;
    var now := 59 * DAY + 1;
    EarlyMonths(z);
    SplitExactly(z, 0, 0, now);
    YearAt0();
    assert IsMonth(z, 0, 0, segments[0]);
    KeysDiffer(1, 2);
    TwoMonths();
    assert PeriodAt(z, 59 * DAY) != PeriodAt(z, 31 * DAY);
    assert !OneMonth(z, 31 * DAY, now);
    assert |segments| != 1;
    assert IsMonth(z, 0, 1, segments[1]);
  }

  lemma FirstTwo(pieces: seq<Segment>, allowance: int)
    requires |pieces| >= 2 && DrawsOn(pieces, allowance)
    ensures pieces[0].included == Min(pieces[0].billed, allowance)
    ensures pieces[1].included == Min(pieces[1].billed, allowance - pieces[0].included)
  {
    assert pieces[..0] == [];
    PrefixStep(pieces, 0);
  }

  lemma YearAt0()
    ensures YearOf(0) == 1970
  {
  }

  lemma TwoMonths()
    ensures 0 < 31 * DAY < 59 * DAY
  {
  }

  lemma January()
    ensures RoundUpMinutes((31 * DAY - 0) / SECOND, 1) == 44640
    ensures RoundUpMinutes((59 * DAY - 31 * DAY) / SECOND, 1) == 40320
  {
  }

  // ---------------------------------------------------------------------------
  //  The record of the month left behind
  // ---------------------------------------------------------------------------

  /**
   The record of the month in which a session and its contract started, once the contract has
   moved on: the piece is added to it, but when there was none it is made from the contract after
   the piece has been drawn, so the piece counts twice.  The record agrees with the contract
   exactly when nothing of the piece was included.
   */
  lemma RecordCountsTwice(z: Zone, w: nat, b: Books, now: int, rounding: int, rates: Rates, segments: seq<Segment>, after: Books)
    requires segments != [] && b.contract.Some?
    ensures var c, used := b.contract.value, segments[0].included;
            var left := Max(0, c.remaining - used);
            var shown := if c.package.Some? then Max(0, c.package.value - left) else 0;
            Steady(z, w) && Settled(z, b, now, rounding, rates, segments, after) && c.period == PeriodAt(z, b.startedAt) ==>
            && c.period in after.history
            && after.history[c.period].included == (if c.period in b.history then b.history[c.period].included else shown) + used
            && (c.period !in b.history ==> (after.history[c.period].included == shown <==> used == 0))
  {
    ShownAfter(b.contract.value, segments[0].included);
    hide MonthAt, MonthStart, SplitAtMonthBoundary, OneMonth, ChargedMonths, Drawings, Records, Shown, Drawn, PeriodAt, Steady, Max, YearOf;
    if Steady(z, w) && Settled(z, b, now, rounding, rates, segments, after) && b.contract.value.period == PeriodAt(z, b.startedAt) {
      FirstMonth(z, w, b, now, rounding, segments, after.startedAt);
      FirstRecord(b, PeriodAt(z, now), segments, rates, after);
    }
  }

  /** The first piece lies in the month the session started in, and `now` in a later one. */
  lemma FirstMonth(z: Zone, w: nat, b: Books, now: int, rounding: int, segments: seq<Segment>, rest: int)
    requires Steady(z, w) && ChargedMonths(z, b, rounding, segments, rest) && segments != []
    requires SplitAtMonthBoundary(z, b.startedAt, now).Some?
    ensures segments[0].period == PeriodAt(z, b.startedAt) != PeriodAt(z, now) && segments[0].period != []
  {
    hide MonthAt, MonthStart, SplitAtMonthBoundary, ChargedMonths, PeriodText, Steady, YearOf, OneMonth;
    SplitExactly(z, w, b.startedAt, now);
    var k := MonthAt(z, b.startedAt);
    MonthIsInterval(z, w, now, k);
    KeysDiffer(k, MonthAt(z, now));
    FirstPeriod(z, b, rounding, segments, rest);
    KeyNotEmpty(k);
  }

  lemma FirstPeriod(z: Zone, b: Books, rounding: int, segments: seq<Segment>, rest: int)
    requires ChargedMonths(z, b, rounding, segments, rest) && segments != []
    ensures segments[0].period == PeriodText(MonthAt(z, b.startedAt))
  {
    hide MonthAt, MonthStart, Charged, PeriodText;
    assert IsMonth(z, b.startedAt, 0, segments[0]);
  }

  function Max(a: int, b: int): int {
    if a < b then b else a
  }

  lemma ShownAfter(c: Contract, used: int)
    ensures Shown(Drawn(c, used)) == if c.package.Some? then Max(0, c.package.value - Max(0, c.remaining - used)) else 0
  {
  }

  lemma FirstRecord(b: Books, period: Text, segments: seq<Segment>, rates: Rates, after: Books)
    requires Records(b, period, segments, rates, after) && segments != []
    requires b.contract.Some? && b.contract.value.period == segments[0].period != period && segments[0].period != []
    ensures var c, used := b.contract.value, segments[0].included;
            && c.period in after.history
            && after.history[c.period].included ==
                 (if c.period in b.history then b.history[c.period].included else Shown(Drawn(c, used))) + used
  {
    hide TotalsGrow, Shown, Bills;
  }

  lemma KeyNotEmpty(k: int)
    ensures PeriodText(k) != []
  {
  }
}
