/** When the cache of API keys is invisible, over every interleaving of validations and revocations. */
module KeyCache {
  import opened Prelude
  import opened ApiKeys

  /** Equal in everything but the time of last use. */
  ghost predicate SameKey(a: ApiKey, b: ApiKey) {
    a.(lastUsedAt := None) == b.(lastUsedAt := None)
  }

  ghost predicate SameAnswer(a: Option<ApiKey>, b: Option<ApiKey>) {
    (a.Some? <==> b.Some?) && (a.Some? ==> SameKey(a.value, b.value))
  }

  /** A call of `revoke_key` has deactivated the id and not yet looked at the cache. */
  ghost predicate InFlight(s: Service, id: KeyId) {
    exists call :: call in s.revoking && s.revoking[call] == id
  }

  /** From now on, a key without a revocation in flight is answered as the repository would. */
  ghost predicate Transparent(s: Service) {
    forall h, now ::
      s.clock <= now && !(h in s.keys && InFlight(s, s.keys[h].keyId)) ==>
        SameAnswer(Answer(s, h, now), Direct(s.keys, h, now))
  }

  // ----- What every step keeps

  /** The copy was made when the key was active. */
  ghost predicate Copies(copy: ApiKey, keys: Keys, h: Hash, active: bool) {
    h in keys && SameKey(keys[h], copy.(isActive := active))
  }

  ghost predicate CopyLinked(keys: Keys, h: Hash, copy: ApiKey) {
    copy.isActive && h in keys && Copies(copy, keys, h, keys[h].isActive)
  }

  ghost predicate CacheLinked(s: Service) {
    forall h :: h in s.cache ==> CopyLinked(s.keys, h, s.cache[h])
  }

  /** No revocation of the id fell between the read and now. */
  ghost predicate Unrevoked(s: Service, r: Reading, id: KeyId) {
    r.seen <= |s.revoked| && id !in s.revoked[r.seen..]
  }

  ghost predicate ReadLinked(s: Service, r: Reading) {
    && r.seen <= |s.revoked|
    && (r.fetched.Some? ==>
          Copies(r.fetched.value, s.keys, r.h, r.fetched.value.isActive && Unrevoked(s, r, r.fetched.value.keyId)))
  }

  ghost predicate Linked(s: Service) {
    && CacheLinked(s)
    && (forall call :: call in s.reading ==> ReadLinked(s, s.reading[call]))
    && (forall call :: call in s.revoking ==> s.revoking[call] in s.revoked)
    && (forall h :: h in s.keys && s.keys[h].isActive ==> s.keys[h].keyId !in s.revoked)
  }

  lemma {:induction false} DeactivateKeepsReads(s: Service, call: CallId, id: KeyId, r: Reading)
    requires ReadLinked(s, r)
    ensures ReadLinked(Step(s, Deactivate(call, id)), r)
  {
    assert (s.revoked + [id])[r.seen..] == s.revoked[r.seen..] + [id];
  }

  lemma {:induction false} StepKeepsReads(s: Service, op: Op, r: Reading)
    requires ReadLinked(s, r) && Legal(s, op)
    ensures ReadLinked(Step(s, op), r)
  {
    if op.Deactivate? {
      DeactivateKeepsReads(s, op.call, op.id, r);
    }
  }

  lemma {:induction false} CopyStays(s: Service, op: Op, h: Hash, copy: ApiKey)
    requires CopyLinked(s.keys, h, copy) && Legal(s, op)
    ensures CopyLinked(Step(s, op).keys, h, copy)
  {
  }

  lemma {:induction false} StepKeepsCache(s: Service, op: Op)
    requires Linked(s) && Legal(s, op)
    ensures CacheLinked(Step(s, op))
  {
    var t := Step(s, op);
    if op.EndRead? && Caches(s, op.call) {
      assert ReadLinked(s, s.reading[op.call]);
    }
    forall h | h in t.cache ensures CopyLinked(t.keys, h, t.cache[h]) {
      if h in s.cache && t.cache[h] == s.cache[h] {
        CopyStays(s, op, h, s.cache[h]);
      }
    }
  }

  lemma {:induction false} StepKeepsLinked(s: Service, op: Op)
    requires Linked(s) && Legal(s, op)
    ensures Linked(Step(s, op))
  {
    var t := Step(s, op);
    StepKeepsCache(s, op);
    forall call | call in t.reading ensures ReadLinked(t, t.reading[call]) {
      if call in s.reading {
        StepKeepsReads(s, op, s.reading[call]);
      }
    }
  }

  /** A cached key that would still be accepted is active in the repository, or a revocation is in flight. */
  ghost predicate Sound(s: Service, h: Hash) {
    Hit(s.cache, h, s.clock) ==> h in s.keys && (s.keys[h].isActive || InFlight(s, s.keys[h].keyId))
  }

  ghost predicate AllSound(s: Service) {
    forall h :: h in s.cache ==> Sound(s, h)
  }

  lemma {:induction false} TransparentIff(s: Service)
    requires Linked(s)
    ensures Transparent(s) <==> AllSound(s)
  {
    if Transparent(s) {
      forall h | h in s.cache ensures Sound(s, h) {
        if !InFlight(s, s.keys[h].keyId) {
          assert SameAnswer(Answer(s, h, s.clock), Direct(s.keys, h, s.clock));
        }
      }
    }
    if AllSound(s) {
      forall h, now | s.clock <= now && !(h in s.keys && InFlight(s, s.keys[h].keyId))
        ensures SameAnswer(Answer(s, h, now), Direct(s.keys, h, now))
      {
        assert h in s.cache ==> Sound(s, h);
      }
    }
  }

  // ----- The exact condition

  /** Another call still has to look at the cache for this id. */
  ghost predicate Covered(s: Service, call: CallId, id: KeyId) {
    exists other :: other != call && other in s.revoking && s.revoking[other] == id
  }

  /** If the read is cached, no revocation of its key fell in between, or one is still in flight. */
  ghost predicate CachesFresh(s: Service, call: CallId)
    requires call in s.reading
  {
    Caches(s, call) ==>
      var r := s.reading[call];
      Unrevoked(s, r, r.fetched.value.keyId) || InFlight(s, r.fetched.value.keyId)
  }

  /** The one deletion reaches every usable copy, or another revocation of the id is in flight. */
  ghost predicate ClearsAll(s: Service, call: CallId, first: Option<Hash>)
    requires call in s.revoking
  {
    || Covered(s, call, s.revoking[call])
    || forall h :: Matches(s.cache, s.revoking[call], h) && Hit(s.cache, h, s.clock) ==> first == Some(h)
  }

  /** A step that keeps the cache transparent; a revocation that raised after its effect deletes nothing. */
  ghost predicate Safe(s: Service, op: Op)
    requires Legal(s, op)
  {
    match op
    case EndRead(call) => CachesFresh(s, call)
    case EndRevoke(call, first) => ClearsAll(s, call, first)
    case Fail(call) => call in s.revoking ==> ClearsAll(s, call, None)
    case _ => true
  }

  lemma {:induction false} EndReadIff(s: Service, call: CallId)
    requires Linked(s) && AllSound(s) && Legal(s, EndRead(call))
    ensures AllSound(Step(s, EndRead(call))) <==> Safe(s, EndRead(call))
  {
    var t := Step(s, EndRead(call));
    var r := s.reading[call];
    forall id ensures InFlight(t, id) <==> InFlight(s, id) { }
    if Caches(s, call) {
      assert ReadLinked(s, r);
      assert Sound(t, r.h) <==> Safe(s, EndRead(call));
      forall h | h in t.cache && h != r.h ensures Sound(t, h) {
        assert Sound(s, h);
      }
    } else {
      forall h | h in t.cache ensures Sound(t, h) {
        assert Sound(s, h);
      }
    }
  }

  lemma {:induction false} RemainingFlights(s: Service, t: Service, call: CallId, id: KeyId)
    requires call in s.revoking && t.revoking == s.revoking - {call}
    ensures InFlight(t, id) <==> if id == s.revoking[call] then Covered(s, call, id) else InFlight(s, id)
  {
    if InFlight(s, id) && id != s.revoking[call] {
      var other :| other in s.revoking && s.revoking[other] == id;
      assert other in t.revoking;
    }
    if Covered(s, call, id) {
      var other :| other != call && other in s.revoking && s.revoking[other] == id;
      assert other in t.revoking;
    }
  }

  /** The end of a revocation: what stays in the cache. */
  lemma {:induction false} RemainderSound(s: Service, t: Service, call: CallId, h: Hash)
    requires Linked(s) && Sound(s, h) && call in s.revoking
    requires t.revoking == s.revoking - {call} && t.keys == s.keys && t.clock == s.clock
    requires h in s.cache && h in t.cache && t.cache[h] == s.cache[h]
    ensures Sound(t, h) <==>
      (Matches(s.cache, s.revoking[call], h) && Hit(s.cache, h, s.clock) ==> Covered(s, call, s.revoking[call]))
  {
    RemainingFlights(s, t, call, s.keys[h].keyId);
  }

  lemma {:induction false} EndRevokeIff(s: Service, call: CallId, first: Option<Hash>)
    requires Linked(s) && AllSound(s) && Legal(s, EndRevoke(call, first))
    ensures AllSound(Step(s, EndRevoke(call, first))) <==> Safe(s, EndRevoke(call, first))
  {
    var t := Step(s, EndRevoke(call, first));
    forall h | h in t.cache
      ensures Sound(t, h) <==>
        (Matches(s.cache, s.revoking[call], h) && Hit(s.cache, h, s.clock) ==> Covered(s, call, s.revoking[call]))
    {
      assert Sound(s, h);
      RemainderSound(s, t, call, h);
    }
  }

  lemma {:induction false} FailIff(s: Service, call: CallId)
    requires Linked(s) && AllSound(s) && Legal(s, Fail(call))
    ensures AllSound(Step(s, Fail(call))) <==> Safe(s, Fail(call))
  {
    var t := Step(s, Fail(call));
    if call in s.revoking {
      forall h | h in t.cache
        ensures Sound(t, h) <==>
          (Matches(s.cache, s.revoking[call], h) && Hit(s.cache, h, s.clock) ==> Covered(s, call, s.revoking[call]))
      {
        assert Sound(s, h);
        RemainderSound(s, t, call, h);
      }
    } else {
      assert t.revoking == s.revoking;
      forall h | h in t.cache ensures Sound(t, h) {
        assert Sound(s, h);
      }
    }
  }

  lemma {:induction false} OtherStepsSafe(s: Service, op: Op)
    requires Linked(s) && AllSound(s) && Legal(s, op) && !op.EndRead? && !op.EndRevoke? && !op.Fail?
    ensures AllSound(Step(s, op))
  {
    var t := Step(s, op);
    assert op.Deactivate? ==> t.revoking[op.call] == op.id;
    forall id | InFlight(s, id) ensures InFlight(t, id) {
      var call :| call in s.revoking && s.revoking[call] == id;
      assert call in t.revoking && t.revoking[call] == id;
    }
    forall h | h in t.cache ensures Sound(t, h) {
      assert Sound(s, h);
    }
  }

  /** One step leaves the cache transparent if and only if it is safe. */
  lemma {:induction false} StepTransparentIff(s: Service, op: Op)
    requires Linked(s) && Transparent(s) && Legal(s, op)
    ensures Transparent(Step(s, op)) <==> Safe(s, op)
  {
    StepKeepsLinked(s, op);
    TransparentIff(s);
    TransparentIff(Step(s, op));
    match op
    case EndRead(call) => EndReadIff(s, call);
    case EndRevoke(call, first) => EndRevokeIff(s, call, first);
    case Fail(call) => FailIff(s, call);
    case _ => OtherStepsSafe(s, op);
  }

  // ----- Whole runs

  ghost predicate Starts(s: Service) {
    s == Idle(map[], s.keys, s.clock)
  }

  lemma {:induction false} LegalPrefix(s: Service, ops: seq<Op>, k: nat)
    requires LegalRun(s, ops) && k <= |ops|
    ensures LegalRun(s, ops[..k])
    decreases |ops|
  {
    if k == |ops| {
      assert ops[..k] == ops;
    } else {
      LegalPrefix(s, ops[..|ops| - 1], k);
      assert ops[..|ops| - 1][..k] == ops[..k];
    }
  }

  lemma {:induction false} LegalNext(s: Service, ops: seq<Op>, k: nat)
    requires LegalRun(s, ops) && k < |ops|
    ensures Legal(Run(s, ops[..k]), ops[k]) && Run(s, ops[..k + 1]) == Step(Run(s, ops[..k]), ops[k])
  {
    LegalPrefix(s, ops, k + 1);
    assert ops[..k + 1] == ops[..k] + [ops[k]];
    RunOneMore(s, ops[..k], ops[k]);
  }

  lemma {:induction false} RunPrefix(s: Service, ops: seq<Op>, k: nat)
    requires Starts(s) && LegalRun(s, ops) && k <= |ops|
    ensures LegalRun(s, ops[..k]) && Linked(Run(s, ops[..k]))
    ensures k < |ops| ==> Legal(Run(s, ops[..k]), ops[k]) && Run(s, ops[..k + 1]) == Step(Run(s, ops[..k]), ops[k])
  {
    LegalPrefix(s, ops, k);
    if k < |ops| { LegalNext(s, ops, k); }
    if k > 0 {
      RunPrefix(s, ops, k - 1);
      StepKeepsLinked(Run(s, ops[..k - 1]), ops[k - 1]);
    }
  }

  ghost predicate TransparentAt(s: Service, ops: seq<Op>, k: nat)
    requires k <= |ops|
  {
    Transparent(Run(s, ops[..k]))
  }

  ghost predicate SafeAt(s: Service, ops: seq<Op>, k: nat)
    requires k < |ops|
  {
    Legal(Run(s, ops[..k]), ops[k]) && Safe(Run(s, ops[..k]), ops[k])
  }

  lemma {:induction false} TransparentWhileSafe(s: Service, ops: seq<Op>, k: nat)
    requires Starts(s) && LegalRun(s, ops) && k <= |ops| && forall i :: 0 <= i < k ==> SafeAt(s, ops, i)
    ensures TransparentAt(s, ops, k)
  {
    if k > 0 {
      TransparentWhileSafe(s, ops, k - 1);
      RunPrefix(s, ops, k - 1);
      assert SafeAt(s, ops, k - 1);
      StepTransparentIff(Run(s, ops[..k - 1]), ops[k - 1]);
    }
  }

  /** In every run the cache is transparent throughout if and only if every step is safe. */
  lemma {:induction false} TransparentExactlyWhenSafe(s: Service, ops: seq<Op>)
    requires Starts(s) && LegalRun(s, ops)
    ensures
      (forall k :: 0 <= k <= |ops| ==> TransparentAt(s, ops, k)) <==>
      forall k :: 0 <= k < |ops| ==> SafeAt(s, ops, k)
  {
    if forall k :: 0 <= k <= |ops| ==> TransparentAt(s, ops, k) {
      forall k | 0 <= k < |ops| ensures SafeAt(s, ops, k) {
        RunPrefix(s, ops, k);
        assert TransparentAt(s, ops, k) && TransparentAt(s, ops, k + 1);
        StepTransparentIff(Run(s, ops[..k]), ops[k]);
      }
    }
    if forall k :: 0 <= k < |ops| ==> SafeAt(s, ops, k) {
      forall k | 0 <= k <= |ops| ensures TransparentAt(s, ops, k) {
        TransparentWhileSafe(s, ops, k);
      }
    }
  }

  // ----- One hash for each id

  ghost predicate UniqueIds(keys: Keys) {
    forall g, h :: g in keys && h in keys && keys[g].keyId == keys[h].keyId ==> g == h
  }

  lemma {:induction false} StepKeepsUnique(s: Service, op: Op)
    requires UniqueIds(s.keys) && Legal(s, op)
    ensures UniqueIds(Step(s, op).keys)
  {
  }

  lemma {:induction false} UniqueAt(s: Service, ops: seq<Op>, k: nat)
    requires Starts(s) && UniqueIds(s.keys) && LegalRun(s, ops) && k <= |ops|
    ensures UniqueIds(Run(s, ops[..k]).keys)
  {
    if k > 0 {
      UniqueAt(s, ops, k - 1);
      RunPrefix(s, ops, k - 1);
      StepKeepsUnique(Run(s, ops[..k - 1]), ops[k - 1]);
    }
  }

  /**
   If operation `k` caches a read, no revocation of the key fell since the read, or one is in flight at
   the insertion.
  */
  ghost predicate FreshAt(s: Service, ops: seq<Op>, k: nat)
    requires k < |ops|
  {
    var before := Run(s, ops[..k]);
    ops[k].EndRead? && ops[k].call in before.reading ==> CachesFresh(before, ops[k].call)
  }

  /** Operation `k` is not a revocation that raises after it took effect. */
  ghost predicate CleanAt(s: Service, ops: seq<Op>, k: nat)
    requires k < |ops|
  {
    ops[k].Fail? ==> ops[k].call !in Run(s, ops[..k]).revoking
  }

  lemma {:induction false} SafeAtIffFresh(s: Service, ops: seq<Op>, k: nat)
    requires Starts(s) && UniqueIds(s.keys) && LegalRun(s, ops) && k < |ops| && CleanAt(s, ops, k)
    ensures SafeAt(s, ops, k) <==> FreshAt(s, ops, k)
  {
    RunPrefix(s, ops, k);
    UniqueAt(s, ops, k);
  }

  /**
   With one hash for each id and no revocation that raises after its effect, the cache is transparent
   throughout if and only if no revocation of a key runs completely between a read and its insertion,
   unless another revocation of that key is in flight at the insertion.
  */
  lemma {:induction false} TransparentExactlyWithoutRace(s: Service, ops: seq<Op>)
    requires Starts(s) && UniqueIds(s.keys) && LegalRun(s, ops)
    requires forall k :: 0 <= k < |ops| ==> CleanAt(s, ops, k)
    ensures
      (forall k :: 0 <= k <= |ops| ==> TransparentAt(s, ops, k)) <==>
      forall k :: 0 <= k < |ops| ==> FreshAt(s, ops, k)
  {
    TransparentExactlyWhenSafe(s, ops);
    forall k | 0 <= k < |ops| ensures SafeAt(s, ops, k) <==> FreshAt(s, ops, k) {
      assert CleanAt(s, ops, k);
      SafeAtIffFresh(s, ops, k);
    }
  }

  // ----- Without overlap

  /** No validation and revocation are in flight together. */
  ghost predicate ApartAt(s: Service, ops: seq<Op>, k: nat)
    requires k <= |ops|
  {
    Run(s, ops[..k]).reading == map[] || Run(s, ops[..k]).revoking == map[]
  }

  ghost predicate ReadsCurrent(s: Service) {
    forall call :: call in s.reading ==> s.reading[call].seen == |s.revoked|
  }

  lemma {:induction false} StepKeepsCurrent(s: Service, op: Op)
    requires ReadsCurrent(s) && Legal(s, op)
    requires Step(s, op).reading == map[] || Step(s, op).revoking == map[]
    ensures ReadsCurrent(Step(s, op))
  {
    if op.Deactivate? {
      assert op.call in Step(s, op).revoking;
    }
  }

  lemma {:induction false} CurrentAt(s: Service, ops: seq<Op>, k: nat)
    requires Starts(s) && LegalRun(s, ops) && k <= |ops| && forall i :: 0 <= i <= |ops| ==> ApartAt(s, ops, i)
    ensures ReadsCurrent(Run(s, ops[..k]))
  {
    if k > 0 {
      CurrentAt(s, ops, k - 1);
      RunPrefix(s, ops, k - 1);
      assert ApartAt(s, ops, k);
      StepKeepsCurrent(Run(s, ops[..k - 1]), ops[k - 1]);
    }
  }

  /** The same run against the repository alone: only revocations and new keys matter for validity. */
  function Uncached(keys: Keys, ops: seq<Op>): Keys {
    if ops == [] then keys else UncachedStep(Uncached(keys, ops[..|ops| - 1]), ops[|ops| - 1])
  }

  function UncachedStep(keys: Keys, op: Op): Keys {
    match op
    case Deactivate(_, id) => Revoked(keys, id)
    case Issue(h, key) => keys[h := key]
    case _ => keys
  }

  ghost predicate SameKeys(a: Keys, b: Keys) {
    a.Keys == b.Keys && forall h :: h in a ==> SameKey(a[h], b[h])
  }

  lemma {:induction false} StepKeepsSame(s: Service, keys: Keys, op: Op)
    requires SameKeys(s.keys, keys)
    ensures SameKeys(Step(s, op).keys, UncachedStep(keys, op))
  {
  }

  lemma {:induction false} SameValidity(s: Service, ops: seq<Op>)
    ensures SameKeys(Run(s, ops).keys, Uncached(s.keys, ops))
    decreases |ops|
  {
    if ops != [] {
      var front := ops[..|ops| - 1];
      SameValidity(s, front);
      StepKeepsSame(Run(s, front), Uncached(s.keys, front), ops[|ops| - 1]);
    }
  }

  /** One hash for each id, no revocation that raises after its effect, and no overlap. */
  ghost predicate Orderly(s: Service, ops: seq<Op>) {
    && Starts(s) && UniqueIds(s.keys) && LegalRun(s, ops)
    && (forall k :: 0 <= k < |ops| ==> CleanAt(s, ops, k))
    && (forall k :: 0 <= k <= |ops| ==> ApartAt(s, ops, k))
  }

  /**
   If validations and revocations do not overlap, the service answers after every run as a repository
   without any cache would after the same operations, up to the time of last use.
  */
  lemma {:induction false} CacheIsTransparent(s: Service, ops: seq<Op>, h: Hash, now: Time)
    requires Orderly(s, ops)
    requires Run(s, ops).clock <= now && Run(s, ops).revoking == map[]
    ensures SameAnswer(Answer(Run(s, ops), h, now), Direct(Uncached(s.keys, ops), h, now))
  {
    forall k | 0 <= k < |ops| ensures FreshAt(s, ops, k) {
      CurrentAt(s, ops, k);
    }
    TransparentExactlyWithoutRace(s, ops);
    assert TransparentAt(s, ops, |ops|) && ops[..|ops|] == ops;
    SameValidity(s, ops);
  }

  // ----- Expiry

  /** Whatever happened before, no key is answered that is inactive as read or that has reached its expiry. */
  lemma {:induction false} NeverAnsweredExpired(s: Service, ops: seq<Op>, h: Hash, now: Time)
    ensures
      var r := Answer(Run(s, ops), h, now);
      r.Some? ==> r.value.isActive && forall end :: r.value.expiresAt == Some(end) ==> now < end
    ensures
      var t := Run(s, ops);
      h in t.keys && t.keys[h].isActive && (forall end :: t.keys[h].expiresAt == Some(end) ==> now < end) ==>
        Answer(t, h, now).Some?
  {
  }

  /** Once cached, a key is answered at most until the expiry that the repository holds for it. */
  lemma {:induction false} CacheRespectsExpiry(s: Service, ops: seq<Op>, h: Hash, now: Time)
    requires Starts(s) && LegalRun(s, ops) && Answer(Run(s, ops), h, now).Some?
    ensures h in Run(s, ops).keys && forall end :: Run(s, ops).keys[h].expiresAt == Some(end) ==> now < end
  {
    RunPrefix(s, ops, |ops|);
    assert ops[..|ops|] == ops;
    NeverAnsweredExpired(s, ops, h, now);
  }

  // ----- Where it fails

  /** A validated key is in the cache. */
  lemma {:induction false} Validate(s: Service, ops: seq<Op>, h: Hash) returns (more: seq<Op>)
    requires LegalRun(s, ops) && CALL !in Run(s, ops).reading.Keys + Run(s, ops).revoking.Keys
    requires !Hit(Run(s, ops).cache, h, Run(s, ops).clock) && Hit(Run(s, ops).keys, h, Run(s, ops).clock)
    ensures more == ops + [Read(CALL, h)] + [EndRead(CALL)] && LegalRun(s, more)
    ensures Run(s, more) == Run(s, ops).(cache := Run(s, ops).cache[h := Run(s, ops).keys[h]])
  {
    more := ops + [Read(CALL, h)] + [EndRead(CALL)];
    RunOneMore(s, ops, Read(CALL, h));
    RunOneMore(s, ops + [Read(CALL, h)], EndRead(CALL));
    assert Run(s, more).reading == Run(s, ops).reading;
  }

  /** A revocation that runs to its end. */
  lemma {:induction false} Revoke(s: Service, ops: seq<Op>, call: CallId, id: KeyId, first: Option<Hash>)
    returns (more: seq<Op>)
    requires LegalRun(s, ops) && call !in Run(s, ops).reading.Keys + Run(s, ops).revoking.Keys
    requires FirstMatch(Run(s, ops).cache, id, first)
    ensures more == ops + [Deactivate(call, id)] + [EndRevoke(call, first)] && LegalRun(s, more)
    ensures Run(s, more).keys == Revoked(Run(s, ops).keys, id) && Run(s, more).clock == Run(s, ops).clock
    ensures Run(s, more).cache == Run(s, ops).cache - if first.Some? then {first.value} else {}
    ensures Run(s, more).reading == Run(s, ops).reading && Run(s, more).revoking == Run(s, ops).revoking
  {
    more := ops + [Deactivate(call, id)] + [EndRevoke(call, first)];
    RunOneMore(s, ops, Deactivate(call, id));
    RunOneMore(s, ops + [Deactivate(call, id)], EndRevoke(call, first));
    assert Run(s, more).revoking == Run(s, ops).revoking;
  }

  /** The service accepts `key` whenever it is unexpired, the repository never. */
  ghost predicate AcceptedForGood(s: Service, h: Hash, key: ApiKey) {
    && s.reading == map[] && s.revoking == map[]
    && forall now :: Accepts(key, now) ==> Answer(s, h, now) == Some(key) && Direct(s.keys, h, now) == None
  }

  /** A revocation that runs completely between the read and the insertion of a validation. */
  lemma {:induction false} RaceKeepsRevokedKey(h: Hash, key: ApiKey, clock: Time) returns (s: Service, ops: seq<Op>)
    requires Accepts(key, clock)
    ensures s == Idle(map[], map[h := key], clock) && LegalRun(s, ops) && AcceptedForGood(Run(s, ops), h, key)
  {
    s := Idle(map[], map[h := key], clock);
    RunOneMore(s, [], Read(CALL, h));
    ops := Revoke(s, [] + [Read(CALL, h)], CallId(1), key.keyId, None);
    RunOneMore(s, ops, EndRead(CALL));
    ops := ops + [EndRead(CALL)];
  }

  /** A revocation that raises after it took effect. */
  lemma {:induction false} FailureKeepsRevokedKey(h: Hash, key: ApiKey, clock: Time) returns (s: Service, ops: seq<Op>)
    requires Accepts(key, clock)
    ensures s == Idle(map[], map[h := key], clock) && LegalRun(s, ops) && AcceptedForGood(Run(s, ops), h, key)
  {
    s := Idle(map[], map[h := key], clock);
    ops := Validate(s, [], h);
    RunOneMore(s, ops, Deactivate(CALL, key.keyId));
    ops := ops + [Deactivate(CALL, key.keyId)];
    RunOneMore(s, ops, Fail(CALL));
    ops := ops + [Fail(CALL)];
  }

  /** Two hashes with one id, validated and then revoked: the second stays cached. */
  lemma {:induction false} SharedIdKeepsRevokedKey(g: Hash, h: Hash, key: ApiKey, clock: Time)
    returns (s: Service, ops: seq<Op>)
    requires g != h && Accepts(key, clock)
    ensures s == Idle(map[], map[g := key, h := key], clock) && LegalRun(s, ops)
    ensures AcceptedForGood(Run(s, ops), h, key)
  {
    s := Idle(map[], map[g := key, h := key], clock);
    ops := Validate(s, [], g);
    ops := Validate(s, ops, h);
    ops := Revoke(s, ops, CALL, key.keyId, Some(g));
  }
}
