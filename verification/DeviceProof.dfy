/**
 Signed device proofs: which key, payload and headers a request must bring, and how the
 verdict depends on the clock and on the nonce cache.  Keys, timestamps and signatures are
 symbolic: a text either does not decode, or it spells one value in one of several ways.
 */
module DeviceProof {
  import opened Options
  import opened ReplayCache

  /** Text without a line break: header values (section 5.5 of RFC 9110) and base64 are such text. */
  type Line = s: string | '\n' !in s

  /** A 32-byte Ed25519 public key, as its canonical base64 text. */
  type Key = Line

  /** A public key as text: empty, not the base64 of 32 bytes, or one spelling of a key. */
  datatype KeyText = NoKey | BadKey(text: string) | KeyText(key: Key, spelling: string)

  function Canonical(k: KeyText): Option<Key> {
    if k.KeyText? then Some(k.key) else None
  }

  /** A timestamp header: missing, not RFC 3339, or one spelling of an instant. */
  datatype TimeText = NoTime | BadTime(text: string) | TimeText(instant: int, spelling: Line)

  /** The signed text of a management request. */
  function ManagementPayload(device: string, stamp: string, nonce: string): string {
    "bd-mgmt-v1\n" + device + "\n" + stamp + "\n" + nonce
  }

  /** The signed text of an enrollment proof. */
  function EnrollmentPayload(verb: string, path: string, device: string, key: string, stamp: string, nonce: string): string {
    "bd-enrollment-v1\n" + verb + "\n" + path + "\n" + device + "\n" + key + "\n" + stamp + "\n" + nonce
  }

  /** A signature header: missing, not 64 bytes, made by a key over a text, or anything else. */
  datatype SignatureText =
    | NoSignature
    | BadSignature(text: string)
    | Signature(signer: Key, payload: string)
    | OtherSignature(text: string)

  predicate Verifies(key: Key, payload: string, signature: SignatureText) {
    signature == Signature(key, payload)
  }

  datatype Headers = Headers(stamp: TimeText, nonce: Line, signature: SignatureText)

  predicate Present(h: Headers) {
    h.stamp != NoTime && h.nonce != "" && h.signature != NoSignature
  }

  /** Any of the three headers is there, so the request tries to prove possession. */
  predicate Provided(h: Headers) {
    h.stamp != NoTime || h.nonce != "" || h.signature != NoSignature
  }

  // ---------------------------------------------------------------------------
  //  Enrollment proofs
  // ---------------------------------------------------------------------------

  const NONCE_MAX: nat := 256

  function EnrollmentCacheKey(device: string, nonce: string): string {
    "enrollment:" + device + ":" + nonce
  }

  /** The attempt an enrollment proof makes on the cache; `key` is the only key that may have signed it. */
  function EnrollmentAttempt(verb: string, path: string, device: string, key: Option<Key>, h: Headers, now: int): Attempt {
    var genuine :=
      && Present(h) && |h.nonce| <= NONCE_MAX && h.stamp.TimeText? && key.Some?
      && Verifies(key.value, EnrollmentPayload(verb, path, device, key.value, h.stamp.spelling, h.nonce), h.signature);
    Attempt(EnrollmentCacheKey(device, h.nonce), if h.stamp.TimeText? then h.stamp.instant else 0, genuine, now)
  }

  /** The checks of an enrollment proof in their order; only the last one touches the cache. */
  method VerifyEnrollmentProof(cache: NonceCache, verb: string, path: string, device: string, key: Option<Key>, h: Headers, now: int)
    returns (ok: bool)
    modifies cache
    ensures var a := EnrollmentAttempt(verb, path, device, key, h, now);
            && ok == Accepts(old(cache.items), a, CLOCK_SKEW)
            && cache.items == After(old(cache.items), a, NONCE_TTL, CLOCK_SKEW)
  {
    if h.stamp == NoTime || h.nonce == "" || h.signature == NoSignature {
      return false;
    }
    if |h.nonce| > NONCE_MAX {
      return false;
    }
    if !h.stamp.TimeText? {
      return false;
    }
    var delta := Sub(now, h.stamp.instant);
    if delta < 0 {
      delta := Negate(delta);
    }
    if delta > CLOCK_SKEW {
      return false;
    }
    if key.None? {
      return false;
    }
    if h.signature.BadSignature? {
      return false;
    }
    if !Verifies(key.value, EnrollmentPayload(verb, path, device, key.value, h.stamp.spelling, h.nonce), h.signature) {
      return false;
    }
    var used := cache.MarkUsed("enrollment:" + device + ":" + h.nonce, now);
    return !used;
  }

  // ---------------------------------------------------------------------------
  //  Management-channel proofs
  // ---------------------------------------------------------------------------

  function ManagementAttempt(device: string, key: Option<Key>, h: Headers, now: int): Attempt {
    var genuine :=
      && Present(h) && h.stamp.TimeText? && key.Some?
      && Verifies(key.value, ManagementPayload(device, h.stamp.spelling, h.nonce), h.signature);
    Attempt(device + ":" + h.nonce, if h.stamp.TimeText? then h.stamp.instant else 0, genuine, now)
  }

  method VerifyManagementRequest(cache: NonceCache, device: string, key: Option<Key>, h: Headers, now: int)
    returns (ok: bool)
    modifies cache
    ensures var a := ManagementAttempt(device, key, h, now);
            && ok == Accepts(old(cache.items), a, CLOCK_SKEW)
            && cache.items == After(old(cache.items), a, NONCE_TTL, CLOCK_SKEW)
  {
    if h.stamp == NoTime || h.nonce == "" || h.signature == NoSignature {
      return false;
    }
    if !h.stamp.TimeText? {
      return false;
    }
    var delta := Sub(now, h.stamp.instant);
    if delta < 0 {
      delta := Negate(delta);
    }
    if delta > CLOCK_SKEW {
      return false;
    }
    if key.None? {
      return false;
    }
    if h.signature.BadSignature? {
      return false;
    }
    if !Verifies(key.value, ManagementPayload(device, h.stamp.spelling, h.nonce), h.signature) {
      return false;
    }
    var used := cache.MarkUsed(device + ":" + h.nonce, now);
    return !used;
  }

  // ---------------------------------------------------------------------------
  //  What a signature says
  // ---------------------------------------------------------------------------

  /** A text is cut at its first line break, and at its last one, in one way only. */
  lemma CutOnce(a: string, b: string, c: string, d: string)
    requires a + "\n" + b == c + "\n" + d
    requires ('\n' !in a && '\n' !in c) || ('\n' !in b && '\n' !in d)
    ensures a == c && b == d
  {
    var s, t := a + "\n" + b, c + "\n" + d;
    assert s[|a|] == '\n' && t[|c|] == '\n';
    assert |a| == |c|;
    assert s[..|a|] == a && t[..|c|] == c && s[|a| + 1..] == b && t[|c| + 1..] == d;
  }

  lemma SamePrefix(p: string, a: string, b: string)
    requires p + a == p + b
    ensures a == b
  {
    assert (p + a)[|p|..] == a && (p + b)[|p|..] == b;
  }

  /** The text of a management request determines its fields, even when a device id has line breaks. */
  lemma ManagementPayloadReads(device: string, stamp: Line, nonce: Line, device': string, stamp': Line, nonce': Line)
    requires ManagementPayload(device, stamp, nonce) == ManagementPayload(device', stamp', nonce')
    ensures device == device' && stamp == stamp' && nonce == nonce'
  {
    var a, b := "bd-mgmt-v1\n" + device, "bd-mgmt-v1\n" + device';
    CutOnce(a + "\n" + stamp, nonce, b + "\n" + stamp', nonce');
    CutOnce(a, stamp, b, stamp');
    SamePrefix("bd-mgmt-v1\n", device, device');
  }

  datatype Signed = Signed(verb: Line, path: Line, device: string, key: Line, stamp: Line, nonce: Line)

  function TextOf(p: Signed): string {
    EnrollmentPayload(p.verb, p.path, p.device, p.key, p.stamp, p.nonce)
  }

  /** The text of an enrollment proof determines its fields, even when a device id has line breaks. */
  lemma EnrollmentPayloadReads(p: Signed, q: Signed)
    requires TextOf(p) == TextOf(q)
    ensures p == q
  {
    var a, b := HeadOf(p), HeadOf(q);
    CutOnce(a + "\n" + p.key + "\n" + p.stamp, p.nonce, b + "\n" + q.key + "\n" + q.stamp, q.nonce);
    CutOnce(a + "\n" + p.key, p.stamp, b + "\n" + q.key, q.stamp);
    CutOnce(a, p.key, b, q.key);
    HeadReads(p, q);
  }

  function HeadOf(p: Signed): string {
    "bd-enrollment-v1\n" + p.verb + "\n" + p.path + "\n" + p.device
  }

  lemma HeadReads(p: Signed, q: Signed)
    requires HeadOf(p) == HeadOf(q)
    ensures p.verb == q.verb && p.path == q.path && p.device == q.device
  {
    var a, b := p.path + "\n" + p.device, q.path + "\n" + q.device;
    assert HeadOf(p) == "bd-enrollment-v1\n" + (p.verb + "\n" + a);
    assert HeadOf(q) == "bd-enrollment-v1\n" + (q.verb + "\n" + b);
    SamePrefix("bd-enrollment-v1\n", p.verb + "\n" + a, q.verb + "\n" + b);
    CutOnce(p.verb, a, q.verb, b);
    CutOnce(p.path, p.device, q.path, q.device);
  }

  /** No text is both, whatever the fields hold. */
  lemma PayloadsDiffer(verb: string, path: string, device: string, key: string, stamp: string, nonce: string,
                       device': string, stamp': string, nonce': string)
    ensures EnrollmentPayload(verb, path, device, key, stamp, nonce) != ManagementPayload(device', stamp', nonce')
  {
    assert EnrollmentPayload(verb, path, device, key, stamp, nonce)[3] == 'e';
    assert ManagementPayload(device', stamp', nonce')[3] == 'm';
  }

  /**
   A signature proves one thing.  Used for two enrollment requests it names the same key, verb,
   path, device, timestamp and nonce in both; used for two management requests the same device,
   timestamp and nonce; and it never serves for both kinds.
   */
  lemma SignatureProvesOneThing(verb: Line, path: Line, device: string, key: Option<Key>, h: Headers, now: int,
                                verb': Line, path': Line, device': string, key': Option<Key>, h': Headers, now': int)
    requires h.signature == h'.signature
    ensures EnrollmentAttempt(verb, path, device, key, h, now).genuine && EnrollmentAttempt(verb', path', device', key', h', now').genuine ==>
              && verb == verb' && path == path' && device == device' && key == key'
              && h.stamp.spelling == h'.stamp.spelling && h.nonce == h'.nonce
    ensures ManagementAttempt(device, key, h, now).genuine && ManagementAttempt(device', key', h', now').genuine ==>
              device == device' && key == key' && h.stamp.spelling == h'.stamp.spelling && h.nonce == h'.nonce
    ensures !(EnrollmentAttempt(verb, path, device, key, h, now).genuine && ManagementAttempt(device', key', h', now').genuine)
  {
    hide EnrollmentPayload, ManagementPayload;
    if h.stamp.TimeText? && h'.stamp.TimeText? && key.Some? && key'.Some? {
      var stamp, stamp' := h.stamp.spelling, h'.stamp.spelling;
      var p, q := Signed(verb, path, device, key.value, stamp, h.nonce), Signed(verb', path', device', key'.value, stamp', h'.nonce);
      if TextOf(p) == TextOf(q) {
        EnrollmentPayloadReads(p, q);
      }
      if ManagementPayload(device, stamp, h.nonce) == ManagementPayload(device', stamp', h'.nonce) {
        ManagementPayloadReads(device, stamp, h.nonce, device', stamp', h'.nonce);
      }
      PayloadsDiffer(verb, path, device, key.value, stamp, h.nonce, device', stamp', h'.nonce);
    }
  }

  /** A management request is genuine exactly when all headers are there and the bound key signed its text. */
  lemma ManagementGenuineExactly(device: string, key: Option<Key>, h: Headers, now: int)
    ensures var a := ManagementAttempt(device, key, h, now);
            && (a.genuine <==>
                  && h.stamp.TimeText? && h.nonce != "" && key.Some?
                  && h.signature == Signature(key.value, "bd-mgmt-v1\n" + device + "\n" + h.stamp.spelling + "\n" + h.nonce))
            && a.key == device + ":" + h.nonce && a.now == now && (h.stamp.TimeText? ==> a.stamp == h.stamp.instant)
  {
  }

  // ---------------------------------------------------------------------------
  //  Management proofs over runs
  // ---------------------------------------------------------------------------

  /** One presentation of a management proof. */
  datatype Presented = Presented(device: string, key: Option<Key>, headers: Headers, now: int)

  function ManagementAttempts(run: seq<Presented>): seq<Attempt> {
    seq(|run|, i requires 0 <= i < |run| => ManagementAttempt(run[i].device, run[i].key, run[i].headers, run[i].now))
  }

  /**
   Management proofs: over every run whose readings reach the cache in order, no device, nonce
   and timestamp is accepted twice, whatever keys are bound meanwhile, unless the timestamp was
   too far ahead to be measured when it was first accepted.
   */
  lemma ManagementProofOnce(run: seq<Presented>, i: nat, j: nat)
    requires i < j < |run| && Ordered(ManagementAttempts(run), CLOCK_SKEW)
    requires run[i].device == run[j].device && run[i].headers.nonce == run[j].headers.nonce
    requires run[i].headers.stamp == run[j].headers.stamp
    ensures AcceptedAt(ManagementAttempts(run), i, NONCE_TTL, CLOCK_SKEW) && AcceptedAt(ManagementAttempts(run), j, NONCE_TTL, CLOCK_SKEW) ==>
              run[i].headers.stamp.TimeText? && FarAhead(run[i].now, run[i].headers.stamp.instant)
  {
    var attempts := ManagementAttempts(run);
    if Replayed(attempts, i, j, NONCE_TTL, CLOCK_SKEW) {
      AtMostOnce(attempts, i, j, 0, NONCE_TTL, CLOCK_SKEW);
    }
  }

  // ---------------------------------------------------------------------------
  //  Cache keys
  // ---------------------------------------------------------------------------

  /** The second device id is the first with a tail, and the tail is the head of the first nonce. */
  ghost predicate Shifted(device: string, nonce: string, device': string, nonce': string) {
    exists tail: string :: device' == device + ":" + tail && nonce == tail + ":" + nonce'
  }

  lemma ShiftedKey(device: string, nonce: string, device': string, nonce': string)
    requires device + ":" + nonce == device' + ":" + nonce' && |device| < |device'|
    ensures Shifted(device, nonce, device', nonce')
  {
    var s, t := device + ":" + nonce, device' + ":" + nonce';
    var tail := device'[|device| + 1..];
    assert s[|device|] == ':' && t[..|device'|] == device' && s[..|device|] == device;
    assert device' == device + ":" + tail;
    assert nonce == s[|device| + 1..] == t[|device| + 1..];
    assert nonce == tail + ":" + nonce';
  }

  /** Two device and nonce pairs share a cache key exactly when they are the same or one is the other with a colon shifted. */
  lemma SharedKeyExactly(device: string, nonce: string, device': string, nonce': string)
    ensures device + ":" + nonce == device' + ":" + nonce' <==>
            || (device == device' && nonce == nonce')
            || Shifted(device, nonce, device', nonce') || Shifted(device', nonce', device, nonce)
    ensures EnrollmentCacheKey(device, nonce) == EnrollmentCacheKey(device', nonce') <==> device + ":" + nonce == device' + ":" + nonce'
  {
    var s, t := device + ":" + nonce, device' + ":" + nonce';
    if s == t {
      if |device| < |device'| {
        ShiftedKey(device, nonce, device', nonce');
      } else if |device'| < |device| {
        ShiftedKey(device', nonce', device, nonce);
      } else {
        assert s[..|device|] == device && t[..|device'|] == device' && s[|device| + 1..] == nonce && t[|device'| + 1..] == nonce';
      }
    }
    ShiftedShares(device, nonce, device', nonce');
    ShiftedShares(device', nonce', device, nonce);
    assert EnrollmentCacheKey(device, nonce) == "enrollment:" + s && EnrollmentCacheKey(device', nonce') == "enrollment:" + t;
    if "enrollment:" + s == "enrollment:" + t {
      SamePrefix("enrollment:", s, t);
    }
  }

  lemma ShiftedShares(device: string, nonce: string, device': string, nonce': string)
    ensures Shifted(device, nonce, device', nonce') ==> device + ":" + nonce == device' + ":" + nonce'
  {
    if tail: string :| device' == device + ":" + tail && nonce == tail + ":" + nonce' {
      assert device + ":" + (tail + ":" + nonce') == (device + ":" + tail) + ":" + nonce';
    }
  }

  /** Device ids without a colon, or nonces without one, never share a key unless they are the same. */
  lemma NoColonNoShare(device: string, nonce: string, device': string, nonce': string)
    requires (':' !in device && ':' !in device') || (':' !in nonce && ':' !in nonce')
    ensures !Shifted(device, nonce, device', nonce') && !Shifted(device', nonce', device, nonce)
  {
  }

  /** The two presentations use the same device and nonce, or two that share a cache key. */
  ghost predicate SharesKey(p: Presented, q: Presented) {
    || (p.device == q.device && p.headers.nonce == q.headers.nonce)
    || Shifted(p.device, p.headers.nonce, q.device, q.headers.nonce) || Shifted(q.device, q.headers.nonce, p.device, p.headers.nonce)
  }

  /**
   Over every run with ordered readings a genuine and timely management proof is refused exactly
   when an earlier accepted one shares its cache key and its entry still lives.
   */
  lemma ManagementRefusedExactly(run: seq<Presented>, j: nat)
    requires j < |run| && Ordered(ManagementAttempts(run), CLOCK_SKEW) && Reaches(ManagementAttempts(run)[j], CLOCK_SKEW)
    ensures !AcceptedAt(ManagementAttempts(run), j, NONCE_TTL, CLOCK_SKEW) <==>
            exists i: nat :: i < j && AcceptedAt(ManagementAttempts(run), i, NONCE_TTL, CLOCK_SKEW)
              && SharesKey(run[i], run[j]) && run[j].now <= run[i].now + NONCE_TTL
  {
    hide AcceptedAt, Reaches, Ordered, Shifted;
    var attempts := ManagementAttempts(run);
    RefusedExactly(attempts, j, NONCE_TTL, CLOCK_SKEW);
    forall i: nat | i < j ensures SharesKey(run[i], run[j]) <==> attempts[i].key == attempts[j].key {
      SharedKeyExactly(run[i].device, run[i].headers.nonce, run[j].device, run[j].headers.nonce);
    }
    if i: nat :| Blocks(attempts, i, j, NONCE_TTL, CLOCK_SKEW) {
      assert SharesKey(run[i], run[j]);
    }
    if i: nat :| i < j && AcceptedAt(attempts, i, NONCE_TTL, CLOCK_SKEW) && SharesKey(run[i], run[j]) && run[j].now <= run[i].now + NONCE_TTL {
      assert Blocks(attempts, i, j, NONCE_TTL, CLOCK_SKEW);
    }
  }

  /** A proof of a device, with the key that signs it. */
  function Proof(device: string, nonce: Line, key: Key, now: int): Presented {
    Presented(device, Some(key), Headers(TimeText(now, "t"), nonce, Signature(key, ManagementPayload(device, "t", nonce))), now)
  }

  /** A device that never presented anything is refused, because another one used a nonce that starts with the rest of its id. */
  lemma OtherDeviceRefused(device: string, tail: Line, nonce: Line, key: Key, key': Key, now: int)
    requires nonce != ""
    ensures var run := [Proof(device, tail + ":" + nonce, key, now), Proof(device + ":" + tail, nonce, key', now)];
            && Reaches(ManagementAttempts(run)[1], CLOCK_SKEW)
            && AcceptedAt(ManagementAttempts(run), 0, NONCE_TTL, CLOCK_SKEW)
            && !AcceptedAt(ManagementAttempts(run), 1, NONCE_TTL, CLOCK_SKEW)
  {
    hide ManagementPayload, WithinSkew;
    var run := [Proof(device, tail + ":" + nonce, key, now), Proof(device + ":" + tail, nonce, key', now)];
    var attempts := ManagementAttempts(run);
    SkewWindow(now, now, CLOCK_SKEW);
    assert CacheAt(attempts, 0, NONCE_TTL, CLOCK_SKEW) == map[];
    assert Shifted(device, tail + ":" + nonce, device + ":" + tail, nonce);
    assert SharesKey(run[0], run[1]);
    ManagementRefusedExactly(run, 1);
  }
}
