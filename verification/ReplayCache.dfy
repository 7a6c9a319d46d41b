/**
 Replay protection of signed device proofs: a clock-skew window and a cache of used
 nonces that forgets its entries after a while.  Times are nanoseconds.
 */
module ReplayCache {

  const SECOND: int := 1_000_000_000
  const CLOCK_SKEW: int := 300 * SECOND
  const NONCE_TTL: int := 600 * SECOND
  const MIN_DURATION: int := -0x8000_0000_0000_0000
  const MAX_DURATION: int := 0x7FFF_FFFF_FFFF_FFFF

  // ---------------------------------------------------------------------------
  //  The skew window
  // ---------------------------------------------------------------------------

  /** Difference of two instants as a 64-bit duration; it saturates. */
  function Sub(t: int, u: int): int {
    if t - u < MIN_DURATION then MIN_DURATION
    else if t - u > MAX_DURATION then MAX_DURATION
    else t - u
  }

  /** Negation of a 64-bit duration; the smallest one is its own negation. */
  function Negate(d: int): int {
    if d == MIN_DURATION then MIN_DURATION else -d
  }

  predicate WithinSkew(now: int, stamp: int, skew: int) {
    var delta := Sub(now, stamp);
    var distance := if delta < 0 then Negate(delta) else delta;
    distance <= skew
  }

  /** So far ahead of the clock that the distance does not fit a 64-bit duration. */
  predicate FarAhead(now: int, stamp: int) {
    stamp - now >= 0x8000_0000_0000_0000
  }

  /** The window is the closed interval of the skew, plus every instant too far ahead to be measured. */
  lemma SkewWindow(now: int, stamp: int, skew: int)
    requires 0 <= skew < MAX_DURATION
    ensures WithinSkew(now, stamp, skew) <==> stamp - skew <= now <= stamp + skew || FarAhead(now, stamp)
  {
  }

  // ---------------------------------------------------------------------------
  //  The nonce cache
  // ---------------------------------------------------------------------------

  type Items = map<string, int>

  /** Entries that have not expired. */
  function Live(items: Items, now: int): Items {
    map k | k in items && now <= items[k] :: items[k]
  }

  function Marked(items: Items, key: string, now: int, ttl: int): Items {
    var live := Live(items, now);
    if key in live then live else live[key := now + ttl]
  }

  class NonceCache {
    var items: Items

    constructor ()
      ensures items == map[]
    {
      items := map[];
    }

    /** Evicts what has expired, reports whether `key` is still there, and enters it if not. */
    method MarkUsed(key: string, now: int) returns (used: bool)
      modifies this
      ensures used == (key in Live(old(items), now))
      ensures items == Marked(old(items), key, now, NONCE_TTL)
    {
      var rest := items.Keys;
      while rest != {}
        invariant rest <= items.Keys <= old(items).Keys
        invariant forall k :: k in items ==> items[k] == old(items)[k]
        invariant forall k :: k in old(items) ==>
                    (k in items <==> k in rest || now <= old(items)[k])
        decreases |rest|
      {
        var k :| k in rest;
        rest := rest - {k};
        if now > items[k] {
          items := items - {k};
        }
      }
      assert items == Live(old(items), now);
      if key in items {
        return true;
      }
      items := items[key := now + NONCE_TTL];
      return false;
    }
  }

  // ---------------------------------------------------------------------------
  //  Runs
  // ---------------------------------------------------------------------------

  /** A presented proof: `genuine` when its headers and its signature are in order. */
  datatype Attempt = Attempt(key: string, stamp: int, genuine: bool, now: int)

  /** A proof reaches the cache only when it is genuine and inside the window. */
  predicate Reaches(a: Attempt, skew: int) {
    a.genuine && WithinSkew(a.now, a.stamp, skew)
  }

  predicate Accepts(items: Items, a: Attempt, skew: int) {
    Reaches(a, skew) && a.key !in Live(items, a.now)
  }

  function After(items: Items, a: Attempt, ttl: int, skew: int): Items {
    if Reaches(a, skew) then Marked(items, a.key, a.now, ttl) else items
  }

  /** The cache after the first `n` attempts of a run. */
  function CacheAt(run: seq<Attempt>, n: nat, ttl: int, skew: int): Items
    requires n <= |run|
  {
    if n == 0 then map[] else After(CacheAt(run, n - 1, ttl, skew), run[n - 1], ttl, skew)
  }

  predicate AcceptedAt(run: seq<Attempt>, i: nat, ttl: int, skew: int)
    requires i < |run|
  {
    Accepts(CacheAt(run, i, ttl, skew), run[i], skew)
  }

  /** Readings that reach the cache are at most `d` behind one that reached it before. */
  predicate Disordered(run: seq<Attempt>, d: int, skew: int) {
    forall i, j :: 0 <= i < j < |run| && Reaches(run[i], skew) && Reaches(run[j], skew) ==> run[i].now <= run[j].now + d
  }

  /** Readings reach the cache in order; those that do not reach it do not matter. */
  predicate Ordered(run: seq<Attempt>, skew: int) {
    Disordered(run, 0, skew)
  }

  /** The same proof, accepted twice. */
  predicate Replayed(run: seq<Attempt>, i: nat, j: nat, ttl: int, skew: int) {
    && i < j < |run|
    && run[i].key == run[j].key && run[i].stamp == run[j].stamp
    && AcceptedAt(run, i, ttl, skew) && AcceptedAt(run, j, ttl, skew)
  }

  /** An accepted key stays in the cache until a reading that reaches it passes the entry's expiry. */
  lemma {:induction false} EntryStays(run: seq<Attempt>, i: nat, n: nat, ttl: int, skew: int)
    requires i < n <= |run| && 0 <= ttl && AcceptedAt(run, i, ttl, skew)
    requires forall k :: i < k < n && Reaches(run[k], skew) ==> run[k].now <= run[i].now + ttl
    ensures var items := CacheAt(run, n, ttl, skew);
            run[i].key in items && items[run[i].key] == run[i].now + ttl
    decreases n - i
  {
    hide WithinSkew;
    if n > i + 1 {
      EntryStays(run, i, n - 1, ttl, skew);
    }
  }

  /**
   At most once: over every run whose readings at the cache are out of order by at most `d`,
   when an entry lives at least twice the skew and `d`, a proof is accepted a second time only
   if its timestamp was too far ahead of the clock to be measured when it was first accepted,
   and its entry has expired, give or take `d`.
   */
  lemma AtMostOnce(run: seq<Attempt>, i: nat, j: nat, d: nat, ttl: int, skew: int)
    requires Disordered(run, d, skew) && 0 <= skew && 2 * skew + d <= ttl < MAX_DURATION
    requires Replayed(run, i, j, ttl, skew)
    ensures FarAhead(run[i].now, run[i].stamp) && run[j].now + d > run[i].now + ttl
  {
    hide WithinSkew, Live;
    SkewWindow(run[i].now, run[i].stamp, skew);
    SkewWindow(run[j].now, run[j].stamp, skew);
    assert run[i].now <= run[j].now + d;
    if run[j].now + d <= run[i].now + ttl {
      forall k | i < k < j && Reaches(run[k], skew) ensures run[k].now <= run[i].now + ttl {
        assert run[k].now <= run[j].now + d;
      }
      EntryStays(run, i, j, ttl, skew);
      StaysLive(CacheAt(run, j, ttl, skew), run[i].key, run[j].now);
    }
  }

  lemma StaysLive(items: Items, key: string, now: int)
    requires key in items && now <= items[key]
    ensures key in Live(items, now)
  {
  }

  /** Every entry of the cache was made by an accepted attempt. */
  lemma {:induction false} EntryOrigin(run: seq<Attempt>, n: nat, key: string, ttl: int, skew: int)
    requires n <= |run| && key in CacheAt(run, n, ttl, skew)
    ensures exists i: nat :: i < n && AcceptedAt(run, i, ttl, skew) && run[i].key == key && CacheAt(run, n, ttl, skew)[key] == run[i].now + ttl
  {
    hide WithinSkew;
    if key in CacheAt(run, n - 1, ttl, skew) {
      EntryOrigin(run, n - 1, key, ttl, skew);
    }
    if AcceptedAt(run, n - 1, ttl, skew) && run[n - 1].key == key {
      assert CacheAt(run, n, ttl, skew)[key] == run[n - 1].now + ttl;
    }
  }

  /** Attempt `i` was accepted under the same cache key, and its entry still lives at `j`. */
  predicate Blocks(run: seq<Attempt>, i: nat, j: nat, ttl: int, skew: int)
    requires j < |run|
  {
    i < j && AcceptedAt(run, i, ttl, skew) && run[i].key == run[j].key && run[j].now <= run[i].now + ttl
  }

  /** With ordered readings, a proof that reaches the cache is refused exactly because of an earlier one under the same key. */
  lemma RefusedExactly(run: seq<Attempt>, j: nat, ttl: int, skew: int)
    requires j < |run| && Ordered(run, skew) && Reaches(run[j], skew) && 0 <= ttl
    ensures !AcceptedAt(run, j, ttl, skew) <==> exists i: nat :: Blocks(run, i, j, ttl, skew)
  {
    hide WithinSkew, CacheAt;
    if !AcceptedAt(run, j, ttl, skew) {
      EntryOrigin(run, j, run[j].key, ttl, skew);
      var i: nat :| i < j && AcceptedAt(run, i, ttl, skew) && run[i].key == run[j].key && CacheAt(run, j, ttl, skew)[run[j].key] == run[i].now + ttl;
      assert Blocks(run, i, j, ttl, skew);
    }
    if i: nat :| Blocks(run, i, j, ttl, skew) {
      EntryStays(run, i, j, ttl, skew);
    }
  }

  /** No proof with a timestamp that can be measured is accepted twice, in any run disordered by at most `d`. */
  ghost predicate ReplayFree(d: nat, ttl: int, skew: int) {
    forall run: seq<Attempt>, i: nat, j: nat ::
      Disordered(run, d, skew) && Replayed(run, i, j, ttl, skew) ==> FarAhead(run[i].now, run[i].stamp)
  }

  /** A proof at both ends of its window, and between them another whose reading is `d` ahead. */
  function Disorder(d: nat, skew: int): seq<Attempt> {
    [Attempt("a", skew, true, 0), Attempt("b", 2 * skew + d, true, 2 * skew + d), Attempt("a", skew, true, 2 * skew)]
  }

  lemma DisorderReplays(d: nat, ttl: int, skew: int)
    requires 0 <= ttl < 2 * skew + d && 0 <= skew < MAX_DURATION
    ensures Disordered(Disorder(d, skew), d, skew) && Replayed(Disorder(d, skew), 0, 2, ttl, skew)
    ensures !FarAhead(0, skew)
  {
    hide WithinSkew;
    var run := Disorder(d, skew);
    SkewWindow(0, skew, skew);
    SkewWindow(2 * skew + d, 2 * skew + d, skew);
    SkewWindow(2 * skew, skew, skew);
    assert CacheAt(run, 0, ttl, skew) == map[];
    assert CacheAt(run, 1, ttl, skew) == map["a" := ttl];
    assert CacheAt(run, 2, ttl, skew) == map["b" := 2 * skew + d + ttl];
  }

  /**
   The entry lifetime is exact: readings out of order by at most `d` never replay a measurable
   proof iff an entry lives at least twice the skew and `d`.  With the shipped constants that is
   so for ordered readings only: a disorder of one nanosecond is already too much.
   */
  lemma LifetimeIsExact(d: nat, ttl: int, skew: int)
    requires 0 <= ttl < MAX_DURATION && 0 <= skew < MAX_DURATION
    ensures ReplayFree(d, ttl, skew) <==> 2 * skew + d <= ttl
    ensures ReplayFree(d, NONCE_TTL, CLOCK_SKEW) <==> d == 0
    ensures CLOCK_SKEW == 5 * 60 * 1_000_000_000 && NONCE_TTL == 10 * 60 * 1_000_000_000
  {
    LifetimeIsExactFor(d, ttl, skew);
    LifetimeIsExactFor(d, NONCE_TTL, CLOCK_SKEW);
  }

  lemma LifetimeIsExactFor(d: nat, ttl: int, skew: int)
    requires 0 <= ttl < MAX_DURATION && 0 <= skew < MAX_DURATION
    ensures ReplayFree(d, ttl, skew) <==> 2 * skew + d <= ttl
  {
    hide AcceptedAt, Disordered;
    if 2 * skew + d <= ttl {
      forall run: seq<Attempt>, i: nat, j: nat | Disordered(run, d, skew) && Replayed(run, i, j, ttl, skew)
        ensures FarAhead(run[i].now, run[i].stamp)
      {
        AtMostOnce(run, i, j, d, ttl, skew);
      }
    } else {
      DisorderReplays(d, ttl, skew);
    }
  }

  /** Some run with ordered readings accepts the proof at `first` and accepts it again later. */
  ghost predicate AcceptedAgain(key: string, stamp: int, first: int, ttl: int, skew: int) {
    exists run: seq<Attempt>, i: nat, j: nat ::
      Ordered(run, skew) && Replayed(run, i, j, ttl, skew) && run[i] == Attempt(key, stamp, true, first)
  }

  /**
   The exception is exact too: a genuine proof inside the window at `first` can be accepted a
   second time, in some run with ordered readings, iff its timestamp is too far ahead at `first`.
   */
  lemma AcceptedAgainExactly(key: string, stamp: int, first: int, ttl: int, skew: int)
    requires 0 <= 2 * skew <= ttl < MAX_DURATION && WithinSkew(first, stamp, skew)
    ensures AcceptedAgain(key, stamp, first, ttl, skew) <==> FarAhead(first, stamp)
  {
    hide WithinSkew;
    if AcceptedAgain(key, stamp, first, ttl, skew) {
      var run: seq<Attempt>, i: nat, j: nat :|
        Ordered(run, skew) && Replayed(run, i, j, ttl, skew) && run[i] == Attempt(key, stamp, true, first);
      AtMostOnce(run, i, j, 0, ttl, skew);
    }
    if FarAhead(first, stamp) {
      var a, b := Attempt(key, stamp, true, first), Attempt(key, stamp, true, stamp);
      SkewWindow(stamp, stamp, skew);
      TwoAttempts(a, b, ttl, skew);
      assert Ordered([a, b], skew) && [a, b][0] == a;
    }
  }

  lemma TwoAttempts(a: Attempt, b: Attempt, ttl: int, skew: int)
    requires a.key == b.key && a.stamp == b.stamp
    requires Reaches(a, skew) && Reaches(b, skew) && b.now > a.now + ttl
    ensures Replayed([a, b], 0, 1, ttl, skew)
  {
    hide WithinSkew;
    var run := [a, b];
    assert CacheAt(run, 0, ttl, skew) == map[];
    assert CacheAt(run, 1, ttl, skew) == map[a.key := a.now + ttl];
  }
}
