/**
 Billing months: the month key of an instant, the bounds of a month, and the splitting of a
 session at month boundaries.  Instants are integers, nanoseconds since the start of 1970 UTC.
 */
module BillingPeriod {
  import opened Options
  import opened Decimal

  const DAY: int := 86400 * 1000000000
  const MINUS: byte := 45
  const PLUS: byte := 43

  // ---------------------------------------------------------------------------
  //  The calendar: months are numbered from January 1970
  // ---------------------------------------------------------------------------

  function YearOf(k: int): int {
    1970 + k / 12
  }

  function MonthOf(k: int): int {
    1 + k % 12
  }

  predicate IsLeap(y: int) {
    y % 4 == 0 && (y % 100 != 0 || y % 400 == 0)
  }

  /** The day a year starts on, counted from the start of 1970. */
  function YearStart(y: int): int {
    365 * (y - 1970) + Quotient(y - 1, 4) - Quotient(y - 1, 100) + Quotient(y - 1, 400) - 477
  }

  function Quotient(y: int, n: int): int
    requires n > 0
  {
    y / n
  }

  lemma YearLength(y: int)
    ensures YearStart(y + 1) - YearStart(y) == if IsLeap(y) then 366 else 365
  {
    hide Quotient, IsLeap;
    StepQuotient(y);
  }

  /** Each quotient steps at its multiples, which nest. */
  lemma StepQuotient(y: int)
    ensures Quotient(y, 4) - Quotient(y - 1, 4) - (Quotient(y, 100) - Quotient(y - 1, 100)) + (Quotient(y, 400) - Quotient(y - 1, 400))
         == if IsLeap(y) then 1 else 0
  {
    hide Quotient;
    StepBy4(y);
    StepBy100(y);
    StepBy400(y);
    MultiplesNest(y);
  }

  lemma StepBy4(y: int)
    ensures Quotient(y, 4) - Quotient(y - 1, 4) == if y % 4 == 0 then 1 else 0
  {
  }

  lemma StepBy100(y: int)
    ensures Quotient(y, 100) - Quotient(y - 1, 100) == if y % 100 == 0 then 1 else 0
  {
  }

  lemma StepBy400(y: int)
    ensures Quotient(y, 400) - Quotient(y - 1, 400) == if y % 400 == 0 then 1 else 0
  {
  }

  lemma MultiplesNest(y: int)
    ensures y % 400 == 0 ==> y % 100 == 0
    ensures y % 100 == 0 ==> y % 4 == 0
  {
  }

  function DaysBefore(y: int, m: int): int
    requires 1 <= m <= 12
  {
    [0, 31, 59, 90, 120, 151, 181, 212, 243, 273, 304, 334][m - 1] + if m > 2 && IsLeap(y) then 1 else 0
  }

  function DaysIn(y: int, m: int): int
    requires 1 <= m <= 12
  {
    if m == 2 then if IsLeap(y) then 29 else 28
    else if m in {4, 6, 9, 11} then 30
    else 31
  }

  /** The day a month starts on. */
  function StartDay(k: int): int {
    YearStart(YearOf(k)) + DaysBefore(YearOf(k), MonthOf(k))
  }

  lemma NextMonth(k: int)
    ensures StartDay(k + 1) == StartDay(k) + DaysIn(YearOf(k), MonthOf(k))
    ensures DaysIn(YearOf(k), MonthOf(k)) ==
            [31, 28, 31, 30, 31, 30, 31, 31, 30, 31, 30, 31][MonthOf(k) - 1] + if MonthOf(k) == 2 && IsLeap(YearOf(k)) then 1 else 0
  {
    YearLength(YearOf(k));
    if k % 12 == 11 {
      assert YearOf(k + 1) == YearOf(k) + 1 && MonthOf(k + 1) == 1;
    } else {
      assert YearOf(k + 1) == YearOf(k) && MonthOf(k + 1) == MonthOf(k) + 1;
    }
  }

  /** The month a day lies in, found by walking from January 1970. */
  function MonthOfDay(day: int): (k: int)
    ensures StartDay(k) <= day < StartDay(k + 1)
  {
    hide StartDay;
    EpochStart();
    if day >= 0 then WalkUp(day, 0) else WalkDown(day, -1)
  }

  lemma EpochStart()
    ensures StartDay(0) == 0
  {
  }

  lemma MonthNotEmpty(k: int)
    ensures StartDay(k) < StartDay(k + 1)
  {
    NextMonth(k);
  }

  function WalkUp(day: int, k: int): (r: int)
    requires StartDay(k) <= day
    ensures StartDay(r) <= day < StartDay(r + 1)
    decreases day - StartDay(k)
  {
    hide StartDay;
    MonthNotEmpty(k);
    if day < StartDay(k + 1) then k else WalkUp(day, k + 1)
  }

  function WalkDown(day: int, k: int): (r: int)
    requires day < StartDay(k + 1)
    ensures StartDay(r) <= day < StartDay(r + 1)
    decreases StartDay(k + 1) - day
  {
    hide StartDay;
    MonthNotEmpty(k);
    if StartDay(k) <= day then k else WalkDown(day, k - 1)
  }

  lemma {:induction false} MonthsIncrease(j: int, k: int)
    requires j < k
    ensures StartDay(j) < StartDay(k)
    decreases k - j
  {
    hide StartDay;
    MonthNotEmpty(k - 1);
    if j < k - 1 {
      MonthsIncrease(j, k - 1);
    }
  }

  // ---------------------------------------------------------------------------
  //  Zones
  // ---------------------------------------------------------------------------

  /** A zone: how far local time is ahead at each instant. */
  type Zone = int -> int

  /** Local midnight at the start of a month, on the local clock. */
  function Midnight(k: int): int {
    DAY * StartDay(k)
  }

  function Local(z: Zone, t: int): int {
    t + z(t)
  }

  /** The instant of a local time: the offset is looked up twice, the second time at the first guess. */
  function DateIn(z: Zone, local: int): int {
    local - z(local - z(local))
  }

  /**
   Offsets stay within `w`, and the clock is not changed within `w` of the start of a month.
   Every fixed offset is steady.
   */
  ghost predicate Steady(z: Zone, w: nat) {
    && (forall t :: 0 - w <= z(t) <= w)
    && forall k, t :: Midnight(k) - w <= t <= Midnight(k) + w ==> z(t) == z(Midnight(k))
  }

  lemma FixedOffsetSteady(z: Zone, offset: int)
    requires forall t :: z(t) == offset
    ensures Steady(z, if offset < 0 then -offset else offset)
  {
  }

  /** The number of the month an instant lies in on the local clock. */
  function MonthAt(z: Zone, t: int): (k: int)
    ensures Midnight(k) <= Local(z, t) < Midnight(k + 1)
  {
    hide StartDay;
    var day := Local(z, t) / DAY;
    var k := MonthOfDay(day);
    DayWithin(Local(z, t), StartDay(k), StartDay(k + 1));
    k
  }

  lemma DayWithin(local: int, first: int, next: int)
    ensures first <= local / DAY < next <==> DAY * first <= local < DAY * next
  {
  }

  // ---------------------------------------------------------------------------
  //  Month keys as text
  // ---------------------------------------------------------------------------

  /** Zero-padded to at least `w` digits. */
  function Padded(n: nat, w: nat): (d: Text)
    ensures d != [] && Digits(d, |d|) && Value(d, |d|) == n && w <= |d|
    decreases n + w
  {
    if n < 10 && w <= 1 then
      var d: Text := [48 + n];
      assert Value(d, 0) == 0;
      d
    else
      var high := Padded(n / 10, if w > 0 then w - 1 else 0);
      var d: Text := high + [48 + n % 10];
      ValueAgrees(d, high, |high|);
      d
  }

  function Power(w: nat): nat {
    if w == 0 then 1 else 10 * Power(w - 1)
  }

  /** A number that fits is padded to exactly that many digits. */
  lemma {:induction false} PaddedWidth(n: nat, w: nat)
    requires 0 < w && n < Power(w)
    ensures |Padded(n, w)| == w
  {
    if w > 1 {
      PaddedWidth(n / 10, w - 1);
    }
  }

  function YearText(y: int): Text {
    if y < 0 then [MINUS] + Padded(-y, 3) else Padded(y, 4)
  }

  /** The key YYYY-MM of a month. */
  function PeriodText(k: int): Text {
    YearText(YearOf(k)) + [MINUS] + Padded(MonthOf(k), 2)
  }

  function PeriodAt(z: Zone, t: int): Text {
    PeriodText(MonthAt(z, t))
  }

  datatype Scanned = Scanned(value: int, rest: Text)

  /** A number at the front: a sign or none, then digits. */
  function ScanInt(s: Text): Option<Scanned> {
    if s != [] && s[0] == MINUS then ScanDigits(s[1..], true)
    else if s != [] && s[0] == PLUS then ScanDigits(s[1..], false)
    else ScanDigits(s, false)
  }

  function ScanDigits(s: Text, negative: bool): Option<Scanned> {
    var k := DigitRun(s);
    if k == 0 then None else Some(Scanned(Signed(Value(s, k), negative), s[k..]))
  }

  function Signed(n: int, negative: bool): int {
    if negative then -n else n
  }

  /** The year and month of a key; what follows the month is ignored. */
  function ScanPeriod(s: Text): Option<(int, int)> {
    var y := ScanInt(s);
    if y.None? || y.value.rest == [] || y.value.rest[0] != MINUS then None
    else
      var m := ScanInt(y.value.rest[1..]);
      if m.None? then None else Some((y.value.value, m.value.value))
  }

  lemma DigitsScan(d: Text, rest: Text, negative: bool)
    requires d != [] && Digits(d, |d|) && (rest == [] || !IsDigit(rest[0]))
    ensures ScanDigits(d + rest, negative) == Some(Scanned(Signed(Value(d, |d|), negative), rest))
  {
    hide DigitRun, Value;
    var s := d + rest;
    assert forall i :: 0 <= i < |d| ==> s[i] == d[i];
    assert rest != [] ==> s[|d|] == rest[0];
    assert DigitRun(s) == |d|;
    assert s[|d|..] == rest && s[..|d|] == d;
    ValueAgrees(s, d, |d|);
  }

  lemma YearScans(y: int, rest: Text)
    requires rest == [] || !IsDigit(rest[0])
    ensures ScanInt(YearText(y) + rest) == Some(Scanned(y, rest))
  {
    hide Value, ScanDigits, Padded;
    var d := if y < 0 then Padded(-y, 3) else Padded(y, 4);
    var s := YearText(y) + rest;
    if y < 0 {
      DigitsScan(d, rest, true);
      assert s[1..] == d + rest;
    } else {
      DigitsScan(d, rest, false);
      assert s[0] == d[0] && IsDigit(d[0]);
    }
  }

  /** Every key reads back as its year and month, so different months have different keys. */
  lemma PeriodRoundTrip(k: int)
    ensures ScanPeriod(PeriodText(k)) == Some((YearOf(k), MonthOf(k)))
  {
    hide YearOf, MonthOf, ScanInt, YearText, Value, Padded;
    var m := Padded(MonthNumber(k), 2);
    var rest: Text := [MINUS] + m;
    YearScans(YearOf(k), rest);
    assert PeriodText(k) == YearText(YearOf(k)) + rest;
    MonthScans(m);
    assert rest[1..] == m;
  }

  lemma MonthScans(d: Text)
    requires d != [] && Digits(d, |d|)
    ensures ScanInt(d) == Some(Scanned(Value(d, |d|), []))
  {
    hide Value, ScanDigits;
    assert IsDigit(d[0]) && d + [] == d;
    DigitsScan(d, [], false);
  }

  function MonthNumber(k: int): (m: nat)
    ensures m == MonthOf(k)
  {
    MonthOf(k)
  }

  /** Keys of the years 0 to 9999 are four digits, a hyphen and two digits. */
  lemma KeyShape(k: int)
    requires 0 <= YearOf(k) <= 9999
    ensures |PeriodText(k)| == 7 && PeriodText(k)[4] == 45
    ensures forall i :: 0 <= i < 7 && i != 4 ==> IsDigit(PeriodText(k)[i])
  {
    hide Value;
    PaddedWidth(YearOf(k), 4);
    PaddedWidth(MonthNumber(k), 2);
  }

  lemma KeysDiffer(j: int, k: int)
    ensures PeriodText(j) == PeriodText(k) <==> j == k
  {
    hide PeriodText;
    PeriodRoundTrip(j);
    PeriodRoundTrip(k);
    assert YearOf(j) == YearOf(k) && MonthOf(j) == MonthOf(k) ==> j == k;
  }

  // ---------------------------------------------------------------------------
  //  Bounds and splitting
  // ---------------------------------------------------------------------------

  /** One month later on the local clock; an overflowing day runs on into the month after. */
  function AddMonth(z: Zone, t: int): int {
    var k := MonthAt(z, t);
    DateIn(z, Midnight(k + 1) + Local(z, t) - Midnight(k))
  }

  datatype Bounds = Bounds(start: int, end: int)

  function MonthBounds(z: Zone, period: Text): Option<Bounds> {
    match ScanPeriod(period)
    case None => None
    case Some((y, m)) =>
      if y < 1970 || m < 1 || m > 12 then None
      else
        var start := DateIn(z, Midnight(12 * (y - 1970) + m - 1));
        Some(Bounds(start, AddMonth(z, start)))
  }

  predicate CrossesMonthBoundary(z: Zone, from: int, to: int) {
    PeriodAt(z, from) != PeriodAt(z, to)
  }

  function SplitAtMonthBoundary(z: Zone, from: int, to: int): Option<int> {
    if !CrossesMonthBoundary(z, from, to) then None
    else
      match MonthBounds(z, PeriodAt(z, from))
      case None => None
      case Some(b) => if to > b.end then Some(b.end) else None
  }

  /** The first instant of a month. */
  function MonthStart(z: Zone, k: int): int {
    DateIn(z, Midnight(k))
  }

  /** In a steady zone the start of a month divides the instants as midnight divides the local clock. */
  lemma MonthStartDivides(z: Zone, w: nat, k: int, t: int)
    requires Steady(z, w)
    ensures Local(z, MonthStart(z, k)) == Midnight(k)
    ensures MonthStart(z, k) <= t <==> Midnight(k) <= Local(z, t)
  {
    hide Midnight;
    var m := Midnight(k);
    assert z(m - z(m)) == z(m);
    assert MonthStart(z, k) == m - z(m);
    assert z(m - z(m)) == z(m);
  }

  lemma SameMonthAt(z: Zone, t: int, k: int)
    ensures MonthAt(z, t) == k <==> Midnight(k) <= Local(z, t) < Midnight(k + 1)
  {
    hide StartDay;
    var j := MonthAt(z, t);
    if j < k {
      if j + 1 < k { MonthsIncrease(j + 1, k); }
    } else if k < j {
      if k + 1 < j { MonthsIncrease(k + 1, j); }
    }
  }

  /** A month, by number, holds exactly the instants from its start to the start of the next. */
  lemma MonthIsInterval(z: Zone, w: nat, t: int, k: int)
    requires Steady(z, w)
    ensures MonthAt(z, t) == k <==> MonthStart(z, k) <= t < MonthStart(z, k + 1)
  {
    hide Midnight, MonthAt, MonthStart;
    MonthStartDivides(z, w, k, t);
    MonthStartDivides(z, w, k + 1, t);
    SameMonthAt(z, t, k);
  }

  lemma MonthsNotEmpty(z: Zone, w: nat, k: int)
    requires Steady(z, w)
    ensures MonthStart(z, k) < MonthStart(z, k + 1)
  {
    hide Midnight, MonthStart;
    MonthStartDivides(z, w, k, MonthStart(z, k));
    MonthStartDivides(z, w, k + 1, MonthStart(z, k));
    MonthsIncrease(k, k + 1);
    MidnightsIncrease(k);
  }

  lemma MidnightsIncrease(k: int)
    ensures Midnight(k) < Midnight(k + 1)
  {
    hide StartDay;
    MonthsIncrease(k, k + 1);
  }

  /** The bounds of a key are the first instants of its month and of the next; keys before 1970 have none. */
  lemma BoundsOfKey(z: Zone, w: nat, k: int)
    requires Steady(z, w)
    ensures MonthBounds(z, PeriodText(k)) == if k < 0 then None else Some(Bounds(MonthStart(z, k), MonthStart(z, k + 1)))
  {
    hide Midnight, PeriodText, ScanPeriod, MonthAt, DateIn;
    PeriodRoundTrip(k);
    assert YearOf(k) < 1970 <==> k < 0;
    assert 12 * (YearOf(k) - 1970) + MonthOf(k) - 1 == k;
    var start := MonthStart(z, k);
    MonthStartDivides(z, w, k, start);
    MidnightsIncrease(k);
    SameMonthAt(z, start, k);
  }

  /**
   The bounds of the month of an instant contain it, and hold exactly the instants with the same
   key, from 1970 on; an earlier instant has no bounds.
   */
  lemma BoundsContain(z: Zone, w: nat, t: int)
    requires Steady(z, w)
    ensures MonthBounds(z, PeriodAt(z, t)).Some? <==> YearOf(MonthAt(z, t)) >= 1970
    ensures var b := MonthBounds(z, PeriodAt(z, t));
            b.Some? ==>
              && b.value.start <= t < b.value.end
              && forall s :: b.value.start <= s < b.value.end <==> PeriodAt(z, s) == PeriodAt(z, t)
  {
    hide PeriodText, MonthBounds, MonthAt, MonthStart;
    var k := MonthAt(z, t);
    BoundsOfKey(z, w, k);
    MonthIsInterval(z, w, t, k);
    forall s ensures MonthStart(z, k) <= s < MonthStart(z, k + 1) <==> PeriodAt(z, s) == PeriodAt(z, t) {
      MonthIsInterval(z, w, s, k);
      KeysDiffer(MonthAt(z, s), k);
    }
  }

  /** All instants of an interval have the key of its start. */
  ghost predicate OneMonth(z: Zone, from: int, to: int) {
    forall t :: from <= t < to ==> PeriodAt(z, t) == PeriodAt(z, from)
  }

  /**
   A split happens exactly when the next month after `from`, from 1970 on, starts before `to`;
   the boundary is then that start, and all before it lies in one month.
   */
  lemma SplitExactly(z: Zone, w: nat, from: int, to: int)
    requires Steady(z, w)
    ensures var k := MonthAt(z, from);
            SplitAtMonthBoundary(z, from, to) ==
            if YearOf(k) >= 1970 && MonthStart(z, k + 1) < to then Some(MonthStart(z, k + 1)) else None
    ensures var s := SplitAtMonthBoundary(z, from, to);
            s.Some? ==>
              && from < s.value < to
              && OneMonth(z, from, s.value)
              && MonthAt(z, s.value) == MonthAt(z, from) + 1
    ensures SplitAtMonthBoundary(z, from, to).None? && YearOf(MonthAt(z, from)) >= 1970 ==> OneMonth(z, from, to)
  {
    hide PeriodText, MonthBounds, MonthAt, MonthStart;
    var k := MonthAt(z, from);
    BoundsOfKey(z, w, k);
    MonthIsInterval(z, w, from, k);
    MonthIsInterval(z, w, to, k);
    KeysDiffer(MonthAt(z, to), k);
    MonthsNotEmpty(z, w, k + 1);
    MonthIsInterval(z, w, MonthStart(z, k + 1), k + 1);
    forall t | from <= t < MonthStart(z, k + 1) ensures PeriodAt(z, t) == PeriodAt(z, from) {
      MonthIsInterval(z, w, t, k);
    }
  }

  /** A split is refused exactly for an interval in one month, or one that starts before 1970. */
  lemma RefusedExactly(z: Zone, w: nat, from: int, to: int)
    requires Steady(z, w)
    ensures SplitAtMonthBoundary(z, from, to).None? <==> OneMonth(z, from, to) || YearOf(MonthAt(z, from)) < 1970
  {
    hide PeriodText, MonthBounds, MonthAt, MonthStart, SplitAtMonthBoundary;
    SplitExactly(z, w, from, to);
    var s := SplitAtMonthBoundary(z, from, to);
    if s.Some? {
      KeysDiffer(MonthAt(z, s.value), MonthAt(z, from));
      assert PeriodAt(z, s.value) != PeriodAt(z, from);
    }
  }
}
