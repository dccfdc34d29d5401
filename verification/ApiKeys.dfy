/**
 API keys behind a cache (app/core/security/api_key_service.py): the calls of one service object as a
 machine whose steps are the awaited repository calls, and the service itself with its calls run to the end.
*/
module ApiKeys {
  import opened Prelude

  /** The hash of a plain key; hashing itself is not modelled. */
  datatype Hash = Hash(hex: string)

  datatype KeyId = KeyId(hex: string)

  datatype ApiKey = ApiKey(keyId: KeyId, hashedKey: Hash, tenantId: string, name: string, permissions: seq<string>,
                           createdAt: Time, expiresAt: Option<Time>, lastUsedAt: Option<Time>, isActive: bool,
                           rateLimit: nat)

  type Keys = map<Hash, ApiKey>

  predicate Accepts(key: ApiKey, now: Time) {
    key.isActive && (key.expiresAt.None? || key.expiresAt.value > now)
  }

  predicate Hit(keys: Keys, h: Hash, now: Time) {
    h in keys && Accepts(keys[h], now)
  }

  /** The answer of the repository alone. */
  function Direct(keys: Keys, h: Hash, now: Time): Option<ApiKey> {
    if Hit(keys, h, now) then Some(keys[h]) else None
  }

  function Touched(keys: Keys, id: KeyId, now: Time): Keys {
    map h | h in keys :: if keys[h].keyId == id then keys[h].(lastUsedAt := Some(now)) else keys[h]
  }

  function Revoked(keys: Keys, id: KeyId): Keys {
    map h | h in keys :: if keys[h].keyId == id then keys[h].(isActive := false) else keys[h]
  }

  ghost predicate Matches(cache: Keys, id: KeyId, h: Hash) {
    h in cache && cache[h].keyId == id
  }

  /** `first` is an entry the loop over the cache may meet first. */
  ghost predicate FirstMatch(cache: Keys, id: KeyId, first: Option<Hash>) {
    if first.Some? then Matches(cache, id, first.value) else forall h :: h in cache ==> !Matches(cache, id, h)
  }

  /** Active, and without an expiry or before it. */
  ghost predicate Usable(isActive: bool, expiresAt: Option<Time>, now: Time) {
    isActive && forall end :: expiresAt == Some(end) ==> now < end
  }

  // ----- The machine

  /** One pending call of `validate_key` or `revoke_key`. */
  datatype CallId = CallId(n: nat)

  /** A `validate_key` waiting for its read; `seen` is the number of revocations before the read. */
  datatype Reading = Reading(h: Hash, fetched: Option<ApiKey>, seen: nat)

  /**
   The service, its repository and its pending calls: `revoking` are the calls of `revoke_key` that have
   deactivated their key and not yet looked at the cache. `revoked` is the history of revocations.
  */
  datatype Service = Service(cache: Keys, keys: Keys, clock: Time, reading: map<CallId, Reading>,
                             revoking: map<CallId, KeyId>, revoked: seq<KeyId>)

  function Idle(cache: Keys, keys: Keys, clock: Time): Service {
    Service(cache, keys, clock, map[], map[], [])
  }

  datatype Op =
    | Wait(duration: nat)
    | Read(call: CallId, h: Hash)
    | EndRead(call: CallId)
    | Touch(id: KeyId)
    | Deactivate(call: CallId, id: KeyId)
    | EndRevoke(call: CallId, first: Option<Hash>)
    | Fail(call: CallId)
    | Issue(h: Hash, key: ApiKey)

  /** What `validate_key` answers when nothing interrupts it. */
  function Answer(s: Service, h: Hash, now: Time): Option<ApiKey> {
    if Hit(s.cache, h, now) then Some(s.cache[h]) else Direct(s.keys, h, now)
  }

  /** The read of `call` found a key that `validate_key` accepts, and so caches. */
  predicate Caches(s: Service, call: CallId) {
    call in s.reading && s.reading[call].fetched.Some? && Accepts(s.reading[call].fetched.value, s.clock)
  }

  /**
   Calls are told apart, only a cache miss is read, and a new key comes with a hash and an id that were
   never seen.
  */
  ghost predicate Legal(s: Service, op: Op) {
    match op
    case Wait(_) => true
    case Read(call, h) => call !in s.reading.Keys + s.revoking.Keys && !Hit(s.cache, h, s.clock)
    case EndRead(call) => call in s.reading
    case Touch(_) => true
    case Deactivate(call, _) => call !in s.reading.Keys + s.revoking.Keys
    case EndRevoke(call, first) => call in s.revoking && FirstMatch(s.cache, s.revoking[call], first)
    case Fail(call) => call in s.reading.Keys + s.revoking.Keys
    case Issue(h, key) =>
      h !in s.keys && key.keyId !in s.revoked && forall g :: g in s.keys ==> s.keys[g].keyId != key.keyId
  }

  function Step(s: Service, op: Op): Service {
    match op
    case Wait(duration) => s.(clock := s.clock + duration)
    case Read(call, h) =>
      s.(reading := s.reading[call := Reading(h, if h in s.keys then Some(s.keys[h]) else None, |s.revoked|)])
    case EndRead(call) =>
      s.(reading := s.reading - {call},
         cache := if Caches(s, call) then s.cache[s.reading[call].h := s.reading[call].fetched.value] else s.cache)
    case Touch(id) => s.(keys := Touched(s.keys, id, s.clock))
    case Deactivate(call, id) =>
      s.(keys := Revoked(s.keys, id), revoking := s.revoking[call := id], revoked := s.revoked + [id])
    case EndRevoke(call, first) =>
      s.(revoking := s.revoking - {call}, cache := if first.Some? then s.cache - {first.value} else s.cache)
    case Fail(call) => s.(reading := s.reading - {call}, revoking := s.revoking - {call})
    case Issue(h, key) => s.(keys := s.keys[h := key])
  }

  function Run(s: Service, ops: seq<Op>): Service {
    if ops == [] then s else Step(Run(s, ops[..|ops| - 1]), ops[|ops| - 1])
  }

  ghost predicate LegalRun(s: Service, ops: seq<Op>) {
    ops == [] || (LegalRun(s, ops[..|ops| - 1]) && Legal(Run(s, ops[..|ops| - 1]), ops[|ops| - 1]))
  }

  lemma {:induction false} RunOneMore(s: Service, ops: seq<Op>, op: Op)
    ensures Run(s, ops + [op]) == Step(Run(s, ops), op)
    ensures LegalRun(s, ops + [op]) <==> LegalRun(s, ops) && Legal(Run(s, ops), op)
  {
    assert (ops + [op])[..|ops|] == ops;
  }

  lemma {:induction false} RunTwo(s: Service, a: Op, b: Op)
    ensures Run(s, [a, b]) == Step(Step(s, a), b)
    ensures LegalRun(s, [a, b]) <==> Legal(s, a) && Legal(Step(s, a), b)
  {
    RunOneMore(s, [], a);
    RunOneMore(s, [a], b);
    assert [] + [a] == [a] && [a] + [b] == [a, b];
  }

  // ----- The service

  class KeyRepository {
    var keys: Keys

    /** `update_last_used`; a failure is swallowed by the caller. */
    method UpdateLastUsed(id: KeyId, now: Time, works: bool)
      modifies this
      ensures keys == if works then Touched(old(keys), id, now) else old(keys)
      ensures keys.Keys == old(keys.Keys)
      ensures forall h :: h in keys ==>
        keys[h] == if works && old(keys)[h].keyId == id then old(keys)[h].(lastUsedAt := Some(now)) else old(keys)[h]
    {
      if works {
        keys := Touched(keys, id, now);
      }
    }

    /** `revoke`, which may raise before or after it takes effect. */
    method Revoke(id: KeyId, outcome: Outcome) returns (ok: bool)
      modifies this
      ensures ok == outcome.Works?
      ensures keys == if outcome.Refused? then old(keys) else Revoked(old(keys), id)
      ensures keys.Keys == old(keys.Keys)
      ensures forall h :: h in keys ==>
        keys[h] == if outcome.Refused? || old(keys)[h].keyId != id then old(keys)[h]
                   else old(keys)[h].(isActive := false)
    {
      if !outcome.Refused? {
        keys := Revoked(keys, id);
      }
      ok := outcome.Works?;
    }
  }

  datatype Outcome = Works | Refused | HalfDone

  const CALL := CallId(0)

  /** The steps of an uninterrupted `validate_key`. */
  function Validation(s: Service, h: Hash, touchWorks: bool): seq<Op> {
    if Hit(s.cache, h, s.clock) then []
    else if Hit(s.keys, h, s.clock) && touchWorks then
      [Read(CALL, h), EndRead(CALL)] + [Touch(s.keys[h].keyId)]
    else [Read(CALL, h), EndRead(CALL)]
  }

  /** The steps of an uninterrupted `revoke_key`. */
  function Revocation(id: KeyId, outcome: Outcome, first: Option<Hash>): seq<Op> {
    match outcome
    case Refused => []
    case HalfDone => [Deactivate(CALL, id), Fail(CALL)]
    case Works => [Deactivate(CALL, id), EndRevoke(CALL, first)]
  }

  lemma {:induction false} ValidationRun(s: Service, h: Hash, touchWorks: bool)
    requires s == Idle(s.cache, s.keys, s.clock)
    ensures
      var steps, cached := Validation(s, h, touchWorks), !Hit(s.cache, h, s.clock) && Hit(s.keys, h, s.clock);
      && LegalRun(s, steps)
      && Run(s, steps) == s.(cache := if cached then s.cache[h := s.keys[h]] else s.cache,
                             keys := if cached && touchWorks then Touched(s.keys, s.keys[h].keyId, s.clock) else s.keys)
  {
    RunTwo(s, Read(CALL, h), EndRead(CALL));
    if Hit(s.keys, h, s.clock) {
      RunOneMore(s, [Read(CALL, h), EndRead(CALL)], Touch(s.keys[h].keyId));
    }
  }

  lemma {:induction false} RevocationRun(s: Service, id: KeyId, outcome: Outcome, first: Option<Hash>)
    requires s == Idle(s.cache, s.keys, s.clock) && (outcome.Works? ==> FirstMatch(s.cache, id, first))
    ensures
      var steps := Revocation(id, outcome, first);
      && LegalRun(s, steps)
      && Run(s, steps).cache == (if outcome.Works? && first.Some? then s.cache - {first.value} else s.cache)
      && Run(s, steps).keys == (if outcome.Refused? then s.keys else Revoked(s.keys, id))
  {
    RunTwo(s, Deactivate(CALL, id), if outcome.Works? then EndRevoke(CALL, first) else Fail(CALL));
  }

  class ApiKeyService {
    const repository: KeyRepository?
    var cache: Keys

    constructor (repository: KeyRepository?)
      ensures this.repository == repository && cache == map[]
    {
      this.repository := repository;
      cache := map[];
    }

    /** `validate_key` on the hash of the presented key. */
    method ValidateKey(h: Hash, now: Time, touchWorks: bool) returns (r: Option<ApiKey>)
      modifies this, repository
      ensures repository == null ==> cache == old(cache) && r == Answer(Idle(old(cache), map[], now), h, now)
      ensures repository != null ==>
        var s := Idle(old(cache), old(repository.keys), now);
        && r == Answer(s, h, now)
        && LegalRun(s, Validation(s, h, touchWorks))
        && Idle(cache, repository.keys, now) == Run(s, Validation(s, h, touchWorks))
      // a live cached key is returned and nothing changes
      ensures h in old(cache) && Usable(old(cache)[h].isActive, old(cache)[h].expiresAt, now) ==>
        && r == Some(old(cache)[h]) && cache == old(cache)
        && (repository != null ==> repository.keys == old(repository.keys))
      // otherwise a live key of the repository is returned, cached and touched, and no other is
      ensures !(h in old(cache) && Usable(old(cache)[h].isActive, old(cache)[h].expiresAt, now)) ==>
        if repository != null && h in old(repository.keys) &&
           Usable(old(repository.keys)[h].isActive, old(repository.keys)[h].expiresAt, now)
        then
          && r == Some(old(repository.keys)[h]) && cache == old(cache)[h := old(repository.keys)[h]]
          && repository.keys == if touchWorks then Touched(old(repository.keys), r.value.keyId, now)
                                else old(repository.keys)
        else
          r == None && cache == old(cache) && (repository != null ==> repository.keys == old(repository.keys))
    {
      if repository != null {
        ValidationRun(Idle(cache, repository.keys, now), h, touchWorks);
      }
      if h in cache && Accepts(cache[h], now) {
        return Some(cache[h]);
      }
      if repository != null && h in repository.keys && repository.keys[h].isActive {
        var key := repository.keys[h];
        if key.expiresAt.Some? && key.expiresAt.value <= now {
          return None;
        }
        cache := cache[h := key];
        repository.UpdateLastUsed(key.keyId, now, touchWorks);
        return Some(key);
      }
      return None;
    }

    /** `revoke_key`: deactivate in the repository, then drop the first cached entry with that id. */
    method RevokeKey(id: KeyId, outcome: Outcome) returns (ok: bool, ghost first: Option<Hash>)
      modifies this, repository
      ensures ok <==> repository != null && outcome.Works?
      ensures repository == null ==> cache == old(cache)
      ensures repository != null ==>
        var s, steps := Idle(old(cache), old(repository.keys), 0), Revocation(id, outcome, first);
        LegalRun(s, steps) && cache == Run(s, steps).cache && repository.keys == Run(s, steps).keys
      // at most one entry leaves the cache, one with the id if there is any
      ensures cache == if ok && first.Some? then old(cache) - {first.value} else old(cache)
      ensures ok ==> if first.Some? then first.value in old(cache) && old(cache)[first.value].keyId == id
                     else forall h :: h in old(cache) ==> old(cache)[h].keyId != id
      ensures repository != null ==>
        repository.keys == if outcome.Refused? then old(repository.keys) else Revoked(old(repository.keys), id)
    {
      first := None;
      if repository == null {
        return false, None;
      }
      ghost var s := Idle(cache, repository.keys, 0);
      ok := repository.Revoke(id, outcome);
      if !ok {
        RevocationRun(s, id, outcome, None);
        return;
      }
      var rest := cache.Keys;
      while rest != {}
        invariant rest <= cache.Keys && cache == s.cache && repository.keys == Revoked(s.keys, id)
        invariant forall h :: h in cache && h !in rest ==> cache[h].keyId != id
        decreases |rest|
      {
        var h :| h in rest;
        if cache[h].keyId == id {
          first := Some(h);
          cache := cache - {h};
          break;
        }
        rest := rest - {h};
      }
      RevocationRun(s, id, outcome, first);
    }
  }
}
