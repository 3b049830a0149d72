/** Spending rules above the replay caches: access hints and admission tokens. */
module Admission {
  import opened Bytes
  import opened Wire
  import MC = MemoryCache

  const GRACE_SECONDS: nat := 600

  // ---------- retention deadlines ----------

  function RetentionDeadline(base: uint64): (d: Option<uint64>)
    ensures d.Some? ==> d.value == base + GRACE_SECONDS
  {
    if base == 0 || base > MAX_U64 - GRACE_SECONDS then None else Some(base + GRACE_SECONDS)
  }

  ghost predicate IsLatest(latest: uint64, values: seq<uint64>) {
    (forall i :: 0 <= i < |values| ==> values[i] <= latest) && latest in values
  }

  /** The deadline outlasts the latest of the given times, all of which must be set. */
  method MaximumRetentionDeadline(values: seq<uint64>) returns (d: Option<uint64>)
    ensures d.Some? ==> d.value >= GRACE_SECONDS && IsLatest(d.value - GRACE_SECONDS, values)
    ensures d.None? <==>
            0 in values || values == [] || exists i :: 0 <= i < |values| && values[i] > MAX_U64 - GRACE_SECONDS
  {
    var latest: uint64 := 0;
    for i := 0 to |values|
      invariant 0 !in values[..i]
      invariant forall j :: 0 <= j < i ==> values[j] <= latest
      invariant i > 0 ==> latest in values[..i] && latest > 0
      invariant i == 0 ==> latest == 0
    {
      if values[i] == 0 {
        return None;
      }
      if values[i] > latest {
        latest := values[i];
      }
    }
    assert values[..|values|] == values;
    return RetentionDeadline(latest);
  }

  function Later(a: uint64, b: uint64): uint64 {
    if a < b then b else a
  }

  /** The same rule for the two times of an access hint. */
  function HintDeadline(expiry: uint64, epochUntil: uint64): Option<uint64> {
    if expiry == 0 || epochUntil == 0 then None else RetentionDeadline(Later(expiry, epochUntil))
  }

  // ---------- access hints ----------

  /** The keyed and unkeyed hash functions, as parameters. */
  datatype Crypto = Crypto(mac: (Octets, Octets) -> Octets, hash: Octets -> Octets)

  ghost predicate CollisionFree(c: Crypto) {
    forall x, y :: c.hash(x) == c.hash(y) ==> x == y
  }

  datatype Credential = Credential(
    issuer: Octets, bucket: Octets, epoch: uint64, selector: Octets, secret: Octets, expiry: uint64, maxUses: nat)

  predicate ValidCredential(c: Credential) {
    |c.issuer| == 16 && |c.bucket| == 16 && |c.selector| == 16 && |c.secret| == 32 && c.maxUses == 1
  }

  function AccessHint(k: Crypto, c: Credential, binding: Octets, nonce: Octets): Option<Octets> {
    if !ValidCredential(c) || |binding| != 48 || |nonce| != 32 then None
    else
      Some(k.mac(c.secret, Ascii("aurora v2.0 access hint") + c.issuer + c.selector + c.bucket
                           + EncodeBE(c.epoch, 8) + binding + nonce))
  }

  function SpentPreimage(c: Credential): Octets {
    Ascii("aurora v2.0 spent hint credential") + (c.issuer + (c.bucket + (EncodeBE(c.epoch, 8) + c.selector)))
  }

  function SpentKey(k: Crypto, c: Credential): Octets {
    k.hash(SpentPreimage(c))
  }

  /** The spent key identifies issuer, bucket, epoch and selector, and nothing else: not the expiry. */
  lemma SpentKeyIdentifies(k: Crypto, a: Credential, b: Credential)
    requires CollisionFree(k) && ValidCredential(a) && ValidCredential(b)
    ensures SpentKey(k, a) == SpentKey(k, b) <==>
            a.issuer == b.issuer && a.bucket == b.bucket && a.epoch == b.epoch && a.selector == b.selector
  {
    if SpentKey(k, a) == SpentKey(k, b) {
      var prefix := Ascii("aurora v2.0 spent hint credential");
      FixedPrefix(prefix, a.issuer + (a.bucket + (EncodeBE(a.epoch, 8) + a.selector)),
                  prefix, b.issuer + (b.bucket + (EncodeBE(b.epoch, 8) + b.selector)));
      FixedPrefix(a.issuer, a.bucket + (EncodeBE(a.epoch, 8) + a.selector),
                  b.issuer, b.bucket + (EncodeBE(b.epoch, 8) + b.selector));
      FixedPrefix(a.bucket, EncodeBE(a.epoch, 8) + a.selector, b.bucket, EncodeBE(b.epoch, 8) + b.selector);
      FixedPrefix(EncodeBE(a.epoch, 8), a.selector, EncodeBE(b.epoch, 8), b.selector);
      Widths();
      DecodeEncodeBE(a.epoch, 8);
      DecodeEncodeBE(b.epoch, 8);
    }
  }

  /** One presentation of a hint; `now` is 0 when the caller has no clock. */
  datatype Presentation = Presentation(
    cred: Credential, binding: Octets, nonce: Octets, hint: Octets, now: uint64, epochUntil: uint64)

  datatype Verdict = Verdict(cache: MC.Cache, admitted: bool)

  /** Everything that is checked before the cache is asked. */
  predicate Presentable(k: Crypto, p: Presentation) {
    && (p.now != 0 ==> (p.cred.expiry == 0 || p.now < p.cred.expiry) && p.epochUntil != 0 && p.now < p.epochUntil)
    && AccessHint(k, p.cred, p.binding, p.nonce) == Some(p.hint)
    && (p.now != 0 ==> HintDeadline(p.cred.expiry, p.epochUntil).Some?)
  }

  /** The cache operation a presentable hint amounts to. */
  function SpendEvent(k: Crypto, p: Presentation): MC.Event
    requires Presentable(k, p)
  {
    var key := SpentKey(k, p.cred);
    if p.now == 0 then MC.Permanent(key) else MC.Timed(key, HintDeadline(p.cred.expiry, p.epochUntil).value, p.now)
  }

  ghost function SpendHint(k: Crypto, c: MC.Cache, p: Presentation): Verdict {
    if !Presentable(k, p) then Verdict(c, false)
    else
      var a := MC.Respond(c, SpendEvent(k, p));
      Verdict(a.cache, a.inserted && a.ok)
  }

  method VerifyAndSpendAccessHintAt(k: Crypto, cache: MC.MemoryReplayCache, p: Presentation) returns (admitted: bool)
    modifies cache
    ensures var v := SpendHint(k, old(cache.View()), p); cache.View() == v.cache && admitted == v.admitted
  {
    if p.now != 0 && p.cred.expiry != 0 && p.now >= p.cred.expiry {
      return false;
    }
    if p.now != 0 && (p.epochUntil == 0 || p.now >= p.epochUntil) {
      return false;
    }
    var expected := AccessHint(k, p.cred, p.binding, p.nonce);
    if expected != Some(p.hint) {
      return false;
    }
    var key := SpentKey(k, p.cred);
    if p.now == 0 {
      admitted := cache.InsertIfAbsent(key);
    } else {
      var deadline := MaximumRetentionDeadline([p.cred.expiry, p.epochUntil]);
      HintDeadlineIsMaximum(p.cred.expiry, p.epochUntil, deadline);
      if deadline.None? {
        return false;
      }
      var ok;
      admitted, ok := cache.InsertIfAbsentUntil(key, deadline.value, p.now);
      admitted := admitted && ok;
    }
  }

  lemma HintDeadlineIsMaximum(expiry: uint64, epochUntil: uint64, d: Option<uint64>)
    requires d.Some? ==> d.value >= GRACE_SECONDS && IsLatest(d.value - GRACE_SECONDS, [expiry, epochUntil])
    requires d.None? <==>
             0 in [expiry, epochUntil] || exists i :: 0 <= i < 2 && [expiry, epochUntil][i] > MAX_U64 - GRACE_SECONDS
    ensures d == HintDeadline(expiry, epochUntil)
  {
    var s := [expiry, epochUntil];
    assert s[0] == expiry && s[1] == epochUntil;
  }

  // ---------- runs of presentations ----------

  ghost function Present(k: Crypto, s: MC.State, p: Presentation): MC.State {
    if Presentable(k, p) then MC.Execute(s, SpendEvent(k, p)) else s
  }

  ghost predicate Admitted(k: Crypto, s: MC.State, p: Presentation) {
    SpendHint(k, s.cache, p).admitted
  }

  /** The clock does not go back between presentations that reach the cache with a time. */
  ghost predicate InOrder(k: Crypto, s: MC.State, run: seq<Presentation>)
    decreases |run|
  {
    run == [] || ((Presentable(k, run[0]) ==> MC.Enabled(s, SpendEvent(k, run[0])))
                  && InOrder(k, Present(k, s, run[0]), run[1..]))
  }

  ghost function AfterRun(k: Crypto, s: MC.State, run: seq<Presentation>): MC.State
    decreases |run|
  {
    if run == [] then s else AfterRun(k, Present(k, s, run[0]), run[1..])
  }

  lemma {:induction false} RunKeepsInv(k: Crypto, s: MC.State, run: seq<Presentation>)
    requires MC.Inv(s) && InOrder(k, s, run)
    ensures MC.Inv(AfterRun(k, s, run))
    decreases |run|
  {
    if run != [] {
      if Presentable(k, run[0]) {
        MC.StepKeepsInv(s, SpendEvent(k, run[0]));
      }
      RunKeepsInv(k, Present(k, s, run[0]), run[1..]);
    }
  }

  /** The log holds a record of `key` that is permanent or lasts at least until `deadline`. */
  predicate Recorded(log: MC.Records, key: Octets, deadline: nat) {
    key in log && (log[key] == 0 || log[key] >= deadline)
  }

  lemma StepKeepsRecord(s: MC.State, e: MC.Event, key: Octets, deadline: nat)
    requires MC.Inv(s) && MC.Enabled(s, e) && Recorded(s.log, key, deadline)
    ensures Recorded(MC.Execute(s, e).log, key, deadline)
    ensures MC.Respond(s.cache, e).inserted && e.key == key ==>
              s.log[key] != 0 && (e.Timed? ==> deadline <= e.now)
  {
    MC.StepKeepsInv(s, e);
  }

  lemma {:induction false} RunKeepsRecord(k: Crypto, s: MC.State, run: seq<Presentation>, key: Octets, deadline: nat)
    requires MC.Inv(s) && InOrder(k, s, run) && Recorded(s.log, key, deadline)
    ensures Recorded(AfterRun(k, s, run).log, key, deadline)
    decreases |run|
  {
    if run != [] {
      if Presentable(k, run[0]) {
        MC.StepKeepsInv(s, SpendEvent(k, run[0]));
        StepKeepsRecord(s, SpendEvent(k, run[0]), key, deadline);
      }
      RunKeepsRecord(k, Present(k, s, run[0]), run[1..], key, deadline);
    }
  }

  /**
   * If two presentations with one spent key are both admitted in a run, the first carried a time, and the second
   * either carried none or came after the retention of the first, so that it shows a later expiry.
   */
  lemma TwiceAdmitted(k: Crypto, before: seq<Presentation>, p: Presentation, between: seq<Presentation>,
                      q: Presentation)
    requires var s1 := AfterRun(k, MC.START, before);
             var s2 := AfterRun(k, Present(k, s1, p), between);
             && InOrder(k, MC.START, before) && InOrder(k, s1, [p])
             && InOrder(k, Present(k, s1, p), between) && InOrder(k, s2, [q])
             && Admitted(k, s1, p) && Admitted(k, s2, q)
    requires SpentKey(k, p.cred) == SpentKey(k, q.cred)
    ensures p.now != 0
    ensures q.now == 0 || HintDeadline(p.cred.expiry, p.epochUntil).value <= q.now
    ensures q.now == 0 || q.cred.expiry > Later(p.cred.expiry, p.epochUntil) + GRACE_SECONDS
  {
    RunKeepsInv(k, MC.START, before);
    var s1 := AfterRun(k, MC.START, before);
    var e := SpendEvent(k, p);
    assert InOrder(k, s1, [p]) ==> MC.Enabled(s1, e);
    MC.StepKeepsInv(s1, e);
    var t := Present(k, s1, p);
    var deadline := if p.now == 0 then MAX_U64 + 1 else e.deadline;
    assert Recorded(t.log, e.key, deadline);
    RunKeepsInv(k, t, between);
    RunKeepsRecord(k, t, between, e.key, deadline);
    var s2 := AfterRun(k, t, between);
    StepKeepsRecord(s2, SpendEvent(k, q), e.key, deadline);
  }

  /** A hint whose expiry is fixed is admitted at most once, ever, by callers that pass the time. */
  lemma HintAdmittedOnce(k: Crypto, before: seq<Presentation>, p: Presentation, between: seq<Presentation>,
                         q: Presentation)
    requires var s1 := AfterRun(k, MC.START, before);
             var s2 := AfterRun(k, Present(k, s1, p), between);
             && InOrder(k, MC.START, before) && InOrder(k, s1, [p])
             && InOrder(k, Present(k, s1, p), between) && InOrder(k, s2, [q])
             && Admitted(k, s1, p)
    requires SpentKey(k, p.cred) == SpentKey(k, q.cred) && p.cred.expiry == q.cred.expiry && q.now != 0
    ensures !Admitted(k, AfterRun(k, Present(k, AfterRun(k, MC.START, before), p), between), q)
  {
    if Admitted(k, AfterRun(k, Present(k, AfterRun(k, MC.START, before), p), between), q) {
      TwiceAdmitted(k, before, p, between, q);
    }
  }

  /** No presentation of the run is admitted under the key. */
  ghost predicate Untouched(k: Crypto, s: MC.State, run: seq<Presentation>, key: Octets)
    decreases |run|
  {
    run == [] || (!(Admitted(k, s, run[0]) && SpentKey(k, run[0].cred) == key)
                  && Untouched(k, Present(k, s, run[0]), run[1..], key))
  }

  /** Presentations always come within their deadline, so every one of them sweeps what has expired. */
  ghost predicate Swept(s: MC.State) {
    s.cache.seen == MC.Unexpired(s.log, s.clock)
  }

  lemma PresentKeepsSwept(k: Crypto, s: MC.State, p: Presentation)
    requires MC.Inv(s) && Swept(s) && Presentable(k, p) && MC.Enabled(s, SpendEvent(k, p))
    ensures Swept(Present(k, s, p))
  {
    if p.now != 0 {
      MC.SweepIsValid(s.cache, p.now);
      UnexpiredLater(s.log, s.clock, p.now);
      InsertKeepsSwept(s, SpentKey(k, p.cred), HintDeadline(p.cred.expiry, p.epochUntil).value, p.now);
    }
  }

  lemma UnexpiredLater(log: MC.Records, clock: nat, now: nat)
    requires clock <= now
    ensures MC.Unexpired(MC.Unexpired(log, clock), now) == MC.Unexpired(log, now)
  {
  }

  lemma InsertKeepsSwept(s: MC.State, key: Octets, deadline: uint64, now: uint64)
    requires 0 < now < deadline && MC.Sweep(s.cache, now).seen == MC.Unexpired(s.log, now)
    ensures Swept(MC.Execute(s, MC.Timed(key, deadline, now)))
  {
    var seen := MC.Unexpired(s.log, now);
    assert MC.Unexpired(s.log[key := deadline], now) == seen[key := deadline];
  }

  lemma {:induction false} RunKeepsSwept(k: Crypto, s: MC.State, run: seq<Presentation>)
    requires MC.Inv(s) && Swept(s) && InOrder(k, s, run)
    ensures MC.Inv(AfterRun(k, s, run)) && Swept(AfterRun(k, s, run))
    decreases |run|
  {
    if run != [] {
      if Presentable(k, run[0]) {
        MC.StepKeepsInv(s, SpendEvent(k, run[0]));
        PresentKeepsSwept(k, s, run[0]);
      }
      RunKeepsSwept(k, Present(k, s, run[0]), run[1..]);
    }
  }

  lemma {:induction false} UntouchedKeepsRecord(k: Crypto, s: MC.State, run: seq<Presentation>, key: Octets)
    requires key in s.log && Untouched(k, s, run, key)
    ensures key in AfterRun(k, s, run).log && AfterRun(k, s, run).log[key] == s.log[key]
    decreases |run|
  {
    if run != [] {
      UntouchedKeepsRecord(k, Present(k, s, run[0]), run[1..], key);
    }
  }

  /** The time at which a presentation is judged: its own, or the latest that any presentation has carried. */
  function JudgedAt(s: MC.State, q: Presentation): nat {
    if q.now == 0 then s.clock else q.now
  }

  lemma AdmittedIff(k: Crypto, s: MC.State, q: Presentation)
    requires MC.Inv(s) && Swept(s) && Presentable(k, q) && MC.Enabled(s, SpendEvent(k, q))
    ensures Admitted(k, s, q) <==> MC.LogAdmits(s.log, SpentKey(k, q.cred), JudgedAt(s, q))
  {
    MC.StepKeepsInv(s, SpendEvent(k, q));
  }

  /**
   * The condition is exact. After an admission of its key and any presentations that do not admit the key again, a
   * presentation is admitted if and only if the first carried a time and its retention has passed.
   */
  lemma ReadmittedIff(k: Crypto, before: seq<Presentation>, p: Presentation, between: seq<Presentation>,
                      q: Presentation)
    requires var s1 := AfterRun(k, MC.START, before);
             var s2 := AfterRun(k, Present(k, s1, p), between);
             && InOrder(k, MC.START, before) && InOrder(k, s1, [p])
             && InOrder(k, Present(k, s1, p), between) && InOrder(k, s2, [q])
             && Admitted(k, s1, p) && Presentable(k, q)
             && Untouched(k, Present(k, s1, p), between, SpentKey(k, p.cred))
    requires SpentKey(k, p.cred) == SpentKey(k, q.cred)
    ensures var s2 := AfterRun(k, Present(k, AfterRun(k, MC.START, before), p), between);
            Admitted(k, s2, q) <==> p.now != 0 && HintDeadline(p.cred.expiry, p.epochUntil).value <= JudgedAt(s2, q)
  {
    assert Swept(MC.START);
    RunKeepsSwept(k, MC.START, before);
    var s1 := AfterRun(k, MC.START, before);
    var e := SpendEvent(k, p);
    assert InOrder(k, s1, [p]) ==> MC.Enabled(s1, e);
    MC.StepKeepsInv(s1, e);
    PresentKeepsSwept(k, s1, p);
    var t := Present(k, s1, p);
    RunKeepsSwept(k, t, between);
    UntouchedKeepsRecord(k, t, between, e.key);
    AdmittedIff(k, AfterRun(k, t, between), q);
  }

  /** So a hint shown with a later expiry is admitted a second time after the retention of the first. */
  lemma ReadmittedAfterRetention(k: Crypto, p: Presentation, q: Presentation)
    requires Presentable(k, p) && Presentable(k, q) && p.now != 0 && q.now != 0
    requires SpentKey(k, p.cred) == SpentKey(k, q.cred)
    requires HintDeadline(p.cred.expiry, p.epochUntil).value <= q.now
    ensures InOrder(k, MC.START, [p, q])
    ensures Admitted(k, MC.START, p) && Admitted(k, Present(k, MC.START, p), q)
  {
    var e := SpendEvent(k, p);
    MC.StepKeepsInv(MC.START, e);
    var t := Present(k, MC.START, p);
    MC.StepKeepsInv(t, SpendEvent(k, q));
    assert [p, q][1..] == [q] && [q][1..] == [];
    assert InOrder(k, Present(k, t, q), []);
    assert InOrder(k, t, [q]);
  }

  /** And one without a time once another presentation has swept the expired record. */
  lemma ReadmittedWithoutClock(k: Crypto, p: Presentation, r: Presentation, q: Presentation)
    requires Presentable(k, p) && Presentable(k, r) && Presentable(k, q)
    requires p.now != 0 && r.now != 0 && q.now == 0
    requires SpentKey(k, p.cred) == SpentKey(k, q.cred) != SpentKey(k, r.cred)
    requires HintDeadline(p.cred.expiry, p.epochUntil).value <= r.now
    ensures Admitted(k, MC.START, p)
    ensures Admitted(k, Present(k, Present(k, MC.START, p), r), q)
  {
    MC.StepKeepsInv(MC.START, SpendEvent(k, p));
    var t := Present(k, MC.START, p);
    MC.SweepIsValid(t.cache, r.now);
    MC.StepKeepsInv(t, SpendEvent(k, r));
  }

  // ---------- admission tokens ----------

  datatype Proof = Proof(
    kind: uint64, issuer: Octets, keyId: Octets, bucket: Octets, scope: Octets, expiry: uint64, nonce: Octets,
    context: Octets, metadata: Octets, authenticator: Octets, binding: Octets)

  /** The field widths that the structural check and the encoder enforce. */
  predicate Encodable(p: Proof) {
    && p.kind <= MAX_VARINT && |p.issuer| == 16 && |p.keyId| == 32 && |p.bucket| == 16 && |p.scope| == 16
    && |p.nonce| == 32 && |p.context| == 48
    && |p.metadata| <= 0xffff && |p.authenticator| <= 0xffff && |p.binding| <= 0xffff
  }

  function RedemptionPreimage(p: Proof): Octets
    requires Encodable(p)
  {
    Ascii("aurora v2.0 token redemption")
    + (Varint(p.kind) + (FixedPart(p)
                         + (Opaque16(p.metadata) + (Opaque16(p.authenticator) + (Opaque16(p.binding) + [])))))
  }

  function FixedPart(p: Proof): (s: Octets)
    requires Encodable(p)
    ensures |s| == 168
  {
    p.issuer + (p.keyId + (p.bucket + (p.scope + (EncodeBE(p.expiry, 8) + (p.nonce + p.context)))))
  }

  function RedemptionHash(k: Crypto, p: Proof): Octets
    requires Encodable(p)
  {
    k.hash(RedemptionPreimage(p))
  }

  function TokenKey(k: Crypto, p: Proof): Octets
    requires Encodable(p)
  {
    k.hash(Ascii("aurora v2.0 token spent") + RedemptionHash(k, p))
  }

  lemma FixedPartIdentifies(a: Proof, b: Proof)
    requires Encodable(a) && Encodable(b) && FixedPart(a) == FixedPart(b)
    ensures a.issuer == b.issuer && a.keyId == b.keyId && a.bucket == b.bucket && a.scope == b.scope
    ensures a.expiry == b.expiry && a.nonce == b.nonce && a.context == b.context
  {
    var ea, eb := EncodeBE(a.expiry, 8), EncodeBE(b.expiry, 8);
    FixedPrefix(a.issuer, a.keyId + (a.bucket + (a.scope + (ea + (a.nonce + a.context)))),
                b.issuer, b.keyId + (b.bucket + (b.scope + (eb + (b.nonce + b.context)))));
    FixedPrefix(a.keyId, a.bucket + (a.scope + (ea + (a.nonce + a.context))),
                b.keyId, b.bucket + (b.scope + (eb + (b.nonce + b.context))));
    FixedPrefix(a.bucket, a.scope + (ea + (a.nonce + a.context)), b.bucket, b.scope + (eb + (b.nonce + b.context)));
    FixedPrefix(a.scope, ea + (a.nonce + a.context), b.scope, eb + (b.nonce + b.context));
    FixedPrefix(ea, a.nonce + a.context, eb, b.nonce + b.context);
    FixedPrefix(a.nonce, a.context, b.nonce, b.context);
    Widths();
    DecodeEncodeBE(a.expiry, 8);
    DecodeEncodeBE(b.expiry, 8);
  }

  /** Two proofs share a spent key exactly when they are the same proof, expiry included. */
  lemma TokenKeyIdentifies(k: Crypto, a: Proof, b: Proof)
    requires CollisionFree(k) && Encodable(a) && Encodable(b)
    ensures TokenKey(k, a) == TokenKey(k, b) <==> a == b
  {
    if TokenKey(k, a) == TokenKey(k, b) {
      var spent := Ascii("aurora v2.0 token spent");
      FixedPrefix(spent, k.hash(RedemptionPreimage(a)), spent, k.hash(RedemptionPreimage(b)));
      var prefix := Ascii("aurora v2.0 token redemption");
      var ta := Opaque16(a.metadata) + (Opaque16(a.authenticator) + (Opaque16(a.binding) + []));
      var tb := Opaque16(b.metadata) + (Opaque16(b.authenticator) + (Opaque16(b.binding) + []));
      FixedPrefix(prefix, Varint(a.kind) + (FixedPart(a) + ta), prefix, Varint(b.kind) + (FixedPart(b) + tb));
      VarintPrefixFree(a.kind, FixedPart(a) + ta, b.kind, FixedPart(b) + tb);
      FixedPrefix(FixedPart(a), ta, FixedPart(b), tb);
      FixedPartIdentifies(a, b);
      Opaque16PrefixFree(a.metadata, Opaque16(a.authenticator) + (Opaque16(a.binding) + []),
                         b.metadata, Opaque16(b.authenticator) + (Opaque16(b.binding) + []));
      Opaque16PrefixFree(a.authenticator, Opaque16(a.binding) + [], b.authenticator, Opaque16(b.binding) + []);
      Opaque16PrefixFree(a.binding, [], b.binding, []);
    }
  }

  /** What the client adds to bind its token to one attempt. */
  datatype ReplayProof = ReplayProof(tokenHash: Octets, nonce: Octets, epoch: uint64, contextHash: Octets,
                                     window: Octets)

  /** The hop of the route that is being opened, with its two context values. */
  datatype Hop = Hop(route: uint64, index: byte, binding: Octets, context: Octets)

  predicate ReplayEncodable(r: ReplayProof, h: Hop) {
    && |r.tokenHash| == 48 && |r.nonce| == 32 && |r.contextHash| == 48 && |r.window| == 16
    && h.route <= MAX_VARINT && |h.binding| <= 0xffff && |h.context| == 48
  }

  function ContextPreimage(r: ReplayProof, h: Hop): Octets
    requires ReplayEncodable(r, h)
  {
    Ascii("aurora v2.0 replay context")
    + (r.tokenHash + (r.nonce + (EncodeBE(r.epoch, 8)
                                 + (Varint(h.route) + ([h.index] + (Opaque16(h.binding) + h.context))))))
  }

  /** `sound` stands for the checks of versions, proof types, token metadata and extensions. */
  datatype Attempt = Attempt(
    proof: Proof, replay: ReplayProof, hop: Hop, sound: bool, now: uint64, replayUntil: uint64, relayUntil: uint64)

  /** The attempt names its own token and its own context. */
  predicate Bound(k: Crypto, a: Attempt) {
    && Encodable(a.proof) && ReplayEncodable(a.replay, a.hop)
    && a.replay.tokenHash == RedemptionHash(k, a.proof)
    && a.replay.contextHash == k.hash(ContextPreimage(a.replay, a.hop))
  }

  function DedupKey(k: Crypto, a: Attempt): Octets {
    k.hash(Ascii("aurora v2.0 bootstrap dedup") + (a.replay.contextHash + a.replay.window))
  }

  predicate Spendable(k: Crypto, a: Attempt) {
    && a.sound && Bound(k, a) && a.now < a.proof.expiry
    && a.now != 0 && a.now < a.replayUntil && a.now < a.relayUntil
    && RetentionDeadline(a.proof.expiry).Some?
    && RetentionDeadline(Later(a.proof.expiry, Later(a.replayUntil, a.relayUntil))).Some?
  }

  lemma ContextIdentifies(a: ReplayProof, ha: Hop, b: ReplayProof, hb: Hop)
    requires ReplayEncodable(a, ha) && ReplayEncodable(b, hb) && ContextPreimage(a, ha) == ContextPreimage(b, hb)
    ensures a.tokenHash == b.tokenHash && a.nonce == b.nonce && a.epoch == b.epoch && ha == hb
  {
    var prefix := Ascii("aurora v2.0 replay context");
    var oa, ob := Opaque16(ha.binding) + ha.context, Opaque16(hb.binding) + hb.context;
    var va, vb := Varint(ha.route) + ([ha.index] + oa), Varint(hb.route) + ([hb.index] + ob);
    var ea, eb := EncodeBE(a.epoch, 8), EncodeBE(b.epoch, 8);
    FixedPrefix(prefix, a.tokenHash + (a.nonce + (ea + va)), prefix, b.tokenHash + (b.nonce + (eb + vb)));
    FixedPrefix(a.tokenHash, a.nonce + (ea + va), b.tokenHash, b.nonce + (eb + vb));
    FixedPrefix(a.nonce, ea + va, b.nonce, eb + vb);
    FixedPrefix(ea, va, eb, vb);
    VarintPrefixFree(ha.route, [ha.index] + oa, hb.route, [hb.index] + ob);
    FixedPrefix([ha.index], oa, [hb.index], ob);
    Opaque16PrefixFree(ha.binding, ha.context, hb.binding, hb.context);
    Widths();
    DecodeEncodeBE(a.epoch, 8);
    DecodeEncodeBE(b.epoch, 8);
  }

  /** Two attempts share a bootstrap key exactly when they agree on the token, the replay proof and the hop. */
  lemma DedupKeyIdentifies(k: Crypto, a: Attempt, b: Attempt)
    requires CollisionFree(k) && Bound(k, a) && Bound(k, b)
    ensures DedupKey(k, a) == DedupKey(k, b) <==> a.proof == b.proof && a.replay == b.replay && a.hop == b.hop
  {
    if DedupKey(k, a) == DedupKey(k, b) {
      var prefix := Ascii("aurora v2.0 bootstrap dedup");
      FixedPrefix(prefix, a.replay.contextHash + a.replay.window, prefix, b.replay.contextHash + b.replay.window);
      FixedPrefix(a.replay.contextHash, a.replay.window, b.replay.contextHash, b.replay.window);
      ContextIdentifies(a.replay, a.hop, b.replay, b.hop);
      TokenKeyIdentifies(k, a.proof, b.proof);
    }
  }

  function TokenEvent(k: Crypto, a: Attempt): MC.Event
    requires Spendable(k, a)
  {
    MC.Timed(TokenKey(k, a.proof), a.proof.expiry + GRACE_SECONDS, a.now)
  }

  function BootstrapEvent(k: Crypto, a: Attempt): MC.Event
    requires Spendable(k, a)
  {
    MC.Timed(DedupKey(k, a), Later(a.proof.expiry, Later(a.replayUntil, a.relayUntil)) + GRACE_SECONDS, a.now)
  }

  /** The token is spent first; a failure of the second insert leaves it spent. */
  method VerifyAndSpendReplay(k: Crypto, tokens: MC.MemoryReplayCache, bootstraps: MC.MemoryReplayCache, a: Attempt)
    returns (admitted: bool)
    requires tokens != bootstraps
    modifies tokens, bootstraps
    ensures !Spendable(k, a) ==>
              !admitted && tokens.View() == old(tokens.View()) && bootstraps.View() == old(bootstraps.View())
    ensures Spendable(k, a) ==>
              var t := MC.Respond(old(tokens.View()), TokenEvent(k, a));
              var b := MC.Respond(old(bootstraps.View()), BootstrapEvent(k, a));
              && tokens.View() == t.cache
              && bootstraps.View() == (if t.inserted && t.ok then b.cache else old(bootstraps.View()))
              && admitted == (t.inserted && t.ok && b.inserted && b.ok)
  {
    if !a.sound || !Encodable(a.proof) || a.now >= a.proof.expiry || !ReplayEncodable(a.replay, a.hop) {
      return false;
    }
    if a.now == 0 || a.replayUntil == 0 || a.relayUntil == 0 || a.now >= a.replayUntil || a.now >= a.relayUntil {
      return false;
    }
    var tokenHash := RedemptionHash(k, a.proof);
    if tokenHash != a.replay.tokenHash {
      return false;
    }
    var contextHash := k.hash(ContextPreimage(a.replay, a.hop));
    if contextHash != a.replay.contextHash {
      return false;
    }
    var tokenDeadline := RetentionDeadline(a.proof.expiry);
    if tokenDeadline.None? {
      return false;
    }
    var bootstrapDeadline := MaximumRetentionDeadline([a.proof.expiry, a.replayUntil, a.relayUntil]);
    ThreeTimes(a.proof.expiry, a.replayUntil, a.relayUntil, bootstrapDeadline);
    if bootstrapDeadline.None? {
      return false;
    }
    var inserted, ok := tokens.InsertIfAbsentUntil(TokenKey(k, a.proof), tokenDeadline.value, a.now);
    if !inserted || !ok {
      return false;
    }
    inserted, ok := bootstraps.InsertIfAbsentUntil(DedupKey(k, a), bootstrapDeadline.value, a.now);
    return inserted && ok;
  }

  lemma ThreeTimes(x: uint64, y: uint64, z: uint64, d: Option<uint64>)
    requires x > 0 && y > 0 && z > 0
    requires d.Some? ==> d.value >= GRACE_SECONDS && IsLatest(d.value - GRACE_SECONDS, [x, y, z])
    requires d.None? <==> exists i :: 0 <= i < 3 && [x, y, z][i] > MAX_U64 - GRACE_SECONDS
    ensures d == RetentionDeadline(Later(x, Later(y, z)))
  {
    var s := [x, y, z];
    assert s[0] == x && s[1] == y && s[2] == z;
  }

  // ---------- runs of attempts ----------

  ghost function Try(k: Crypto, s: MC.State, a: Attempt): MC.State {
    if Spendable(k, a) then MC.Execute(s, TokenEvent(k, a)) else s
  }

  ghost predicate Spends(k: Crypto, s: MC.State, a: Attempt) {
    Spendable(k, a) && MC.Respond(s.cache, TokenEvent(k, a)).inserted
  }

  ghost predicate AttemptsInOrder(s: MC.State, k: Crypto, run: seq<Attempt>)
    decreases |run|
  {
    run == [] || ((Spendable(k, run[0]) ==> s.clock <= run[0].now) && AttemptsInOrder(Try(k, s, run[0]), k, run[1..]))
  }

  ghost function AfterAttempts(k: Crypto, s: MC.State, run: seq<Attempt>): MC.State
    decreases |run|
  {
    if run == [] then s else AfterAttempts(k, Try(k, s, run[0]), run[1..])
  }

  lemma {:induction false} AttemptsKeep(k: Crypto, s: MC.State, run: seq<Attempt>)
    requires MC.Inv(s) && AttemptsInOrder(s, k, run)
    ensures MC.Inv(AfterAttempts(k, s, run))
    ensures forall key, deadline: nat :: Recorded(s.log, key, deadline) ==>
              Recorded(AfterAttempts(k, s, run).log, key, deadline)
    decreases |run|
  {
    if run != [] {
      var a := run[0];
      if Spendable(k, a) {
        MC.StepKeepsInv(s, TokenEvent(k, a));
        forall key, deadline: nat | Recorded(s.log, key, deadline) ensures Recorded(Try(k, s, a).log, key, deadline) {
          StepKeepsRecord(s, TokenEvent(k, a), key, deadline);
        }
      }
      AttemptsKeep(k, Try(k, s, a), run[1..]);
    }
  }

  /**
   * A token is spent at most once, ever: the retention of its record outlasts its expiry, so
   * forgetting the record never admits it again.
   */
  lemma TokenSpentOnce(k: Crypto, before: seq<Attempt>, a: Attempt, between: seq<Attempt>, b: Attempt)
    requires var s1 := AfterAttempts(k, MC.START, before);
             var s2 := AfterAttempts(k, Try(k, s1, a), between);
             && AttemptsInOrder(MC.START, k, before) && AttemptsInOrder(s1, k, [a])
             && AttemptsInOrder(Try(k, s1, a), k, between) && AttemptsInOrder(s2, k, [b])
             && Spends(k, s1, a)
    requires a.proof == b.proof
    ensures !Spends(k, AfterAttempts(k, Try(k, AfterAttempts(k, MC.START, before), a), between), b)
  {
    AttemptsKeep(k, MC.START, before);
    var s1 := AfterAttempts(k, MC.START, before);
    MC.StepKeepsInv(s1, TokenEvent(k, a));
    var t := Try(k, s1, a);
    var deadline := a.proof.expiry + GRACE_SECONDS;
    assert Recorded(t.log, TokenKey(k, a.proof), deadline);
    AttemptsKeep(k, t, between);
    var s2 := AfterAttempts(k, t, between);
    if Spendable(k, b) {
      StepKeepsRecord(s2, TokenEvent(k, b), TokenKey(k, a.proof), deadline);
    }
  }

  // ---------- both caches ----------

  /** The token cache and the bootstrap cache of a server. */
  datatype Both = Both(tokens: MC.State, bootstraps: MC.State)

  const BOTH_EMPTY := Both(MC.START, MC.START)

  ghost function TryBoth(k: Crypto, s: Both, a: Attempt): Both {
    if Spends(k, s.tokens, a) then Both(Try(k, s.tokens, a), MC.Execute(s.bootstraps, BootstrapEvent(k, a)))
    else s.(tokens := Try(k, s.tokens, a))
  }

  ghost function AfterBoth(k: Crypto, run: seq<Attempt>): Both {
    if run == [] then BOTH_EMPTY else TryBoth(k, AfterBoth(k, run[..|run| - 1]), run[|run| - 1])
  }

  ghost predicate BothInOrder(k: Crypto, run: seq<Attempt>) {
    run == [] ||
      (BothInOrder(k, run[..|run| - 1])
       && (Spendable(k, run[|run| - 1]) ==> AfterBoth(k, run[..|run| - 1]).tokens.clock <= run[|run| - 1].now))
  }

  /** A bootstrap key in the log belongs to an attempt whose token is on record too. */
  ghost predicate Backs(k: Crypto, tokens: MC.Records, a: Attempt, key: Octets) {
    Spendable(k, a) && DedupKey(k, a) == key && Recorded(tokens, TokenKey(k, a.proof), a.proof.expiry + GRACE_SECONDS)
  }

  ghost predicate Backed(k: Crypto, s: Both, run: seq<Attempt>) {
    forall key :: key in s.bootstraps.log ==> exists i :: 0 <= i < |run| && Backs(k, s.tokens.log, run[i], key)
  }

  ghost predicate BothInv(k: Crypto, s: Both, run: seq<Attempt>) {
    MC.Inv(s.tokens) && MC.Inv(s.bootstraps) && s.bootstraps.clock <= s.tokens.clock && Backed(k, s, run)
  }

  lemma StaysBacked(k: Crypto, s: Both, run: seq<Attempt>, a: Attempt, key: Octets)
    requires BothInv(k, s, run) && Spendable(k, a) && s.tokens.clock <= a.now && key in TryBoth(k, s, a).bootstraps.log
    ensures exists i :: 0 <= i <= |run| && Backs(k, TryBoth(k, s, a).tokens.log, (run + [a])[i], key)
  {
    var t := TryBoth(k, s, a);
    if key in s.bootstraps.log {
      var i :| 0 <= i < |run| && Backs(k, s.tokens.log, run[i], key);
      StepKeepsRecord(s.tokens, TokenEvent(k, a), TokenKey(k, run[i].proof), run[i].proof.expiry + GRACE_SECONDS);
      assert Backs(k, t.tokens.log, (run + [a])[i], key);
    } else {
      assert Backs(k, t.tokens.log, (run + [a])[|run|], key);
    }
  }

  lemma TryBothKeeps(k: Crypto, s: Both, run: seq<Attempt>, a: Attempt)
    requires BothInv(k, s, run) && (Spendable(k, a) ==> s.tokens.clock <= a.now)
    ensures BothInv(k, TryBoth(k, s, a), run + [a])
  {
    var t := TryBoth(k, s, a);
    if Spendable(k, a) {
      MC.StepKeepsInv(s.tokens, TokenEvent(k, a));
      MC.StepKeepsInv(s.bootstraps, BootstrapEvent(k, a));
      forall key | key in t.bootstraps.log
        ensures exists i :: 0 <= i <= |run| && Backs(k, t.tokens.log, (run + [a])[i], key) {
        StaysBacked(k, s, run, a, key);
      }
    } else {
      forall key | key in t.bootstraps.log
        ensures exists i :: 0 <= i <= |run| && Backs(k, t.tokens.log, (run + [a])[i], key) {
        var i :| 0 <= i < |run| && Backs(k, s.tokens.log, run[i], key);
        assert Backs(k, t.tokens.log, (run + [a])[i], key);
      }
    }
  }

  lemma NextKeeps(k: Crypto, s: Both, before: seq<Attempt>, a: Attempt, t: Both, run: seq<Attempt>)
    requires BothInv(k, s, before) && (Spendable(k, a) ==> s.tokens.clock <= a.now)
    requires t == TryBoth(k, s, a) && run == before + [a]
    ensures BothInv(k, t, run)
  {
    TryBothKeeps(k, s, before, a);
  }

  lemma EmptyIsInv(k: Crypto)
    ensures BothInv(k, BOTH_EMPTY, [])
  {
  }

  lemma LastAttempt(k: Crypto, run: seq<Attempt>, before: seq<Attempt>, a: Attempt)
    requires run != [] && before == run[..|run| - 1] && a == run[|run| - 1] && BothInOrder(k, run)
    ensures run == before + [a] && BothInOrder(k, before) && AfterBoth(k, run) == TryBoth(k, AfterBoth(k, before), a)
    ensures Spendable(k, a) ==> AfterBoth(k, before).tokens.clock <= a.now
  {
  }

  lemma {:induction false} BothKeep(k: Crypto, run: seq<Attempt>)
    requires BothInOrder(k, run)
    ensures BothInv(k, AfterBoth(k, run), run)
    decreases |run|
  {
    if run == [] {
      EmptyIsInv(k);
    } else {
      var last := |run| - 1;
      var before, a := run[..last], run[last];
      BothKeep(k, before);
      LastAttempt(k, run, before, a);
      NextKeeps(k, AfterBoth(k, before), before, a, AfterBoth(k, run), run);
    }
  }

  lemma FreshKeyIsNew(k: Crypto, s: Both, run: seq<Attempt>, a: Attempt)
    requires CollisionFree(k) && BothInv(k, s, run) && Spends(k, s.tokens, a) && s.tokens.clock <= a.now
    ensures DedupKey(k, a) !in s.bootstraps.log
  {
    var key := DedupKey(k, a);
    if key in s.bootstraps.log {
      var i :| 0 <= i < |run| && Backs(k, s.tokens.log, run[i], key);
      DedupKeyIdentifies(k, run[i], a);
      StepKeepsRecord(s.tokens, TokenEvent(k, a), TokenKey(k, a.proof), a.proof.expiry + GRACE_SECONDS);
    }
  }

  lemma NewKeyIsInserted(s: MC.State, e: MC.Event)
    requires MC.Inv(s) && e.key !in s.log && e.Timed? && s.clock <= e.now && e.deadline > e.now > 0
    ensures var r := MC.Respond(s.cache, e); r.inserted && r.ok
  {
    MC.StepKeepsInv(s, e);
  }

  /**
   * The two caches never disagree: in every run, an attempt whose token is fresh finds its bootstrap key fresh too, so
   * that a token which the server takes is never lost to a refusal by the second cache.
   */
  lemma FreshTokenIsAdmitted(k: Crypto, run: seq<Attempt>, a: Attempt)
    requires CollisionFree(k) && BothInOrder(k, run + [a]) && Spends(k, AfterBoth(k, run).tokens, a)
    ensures var r := MC.Respond(AfterBoth(k, run).bootstraps.cache, BootstrapEvent(k, a)); r.inserted && r.ok
  {
    LastAttempt(k, run + [a], run, a);
    BothKeep(k, run);
    var s := AfterBoth(k, run);
    FreshKeyIsNew(k, s, run, a);
    NewKeyIsInserted(s.bootstraps, BootstrapEvent(k, a));
  }
}
