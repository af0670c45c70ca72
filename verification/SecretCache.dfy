/**
 The owner-scoped cache in front of the secret backends. Follows `SecretResolutionService` in
 src/gigaloom/secrets.py.

 A reference's identity hashes all of it, so the reference itself is the key. A request carries what
 the service reads from outside: the wall clock, the monotonic clock, when the backend was read, and
 what it answered.
 */
module SecretCache {
  import opened Wrappers
  import Text

  const MAX_CACHE_TTL_SECONDS: nat := 300

  datatype Kind = Environment | Keychain | Test

  datatype Reference = Reference(
    kind: Kind,
    name: string,
    service: Option<string>,
    account: Option<string>,
    expiresAt: Option<int>,
    cacheTtlSeconds: nat)

  datatype Key = Key(reference: Reference, owner: string)

  /** A resolved value, bound to the pair it was read for. */
  datatype Resolved = Resolved(reference: Reference, owner: string, value: string)

  datatype Entry = Entry(secret: Resolved, expiresAt: int)

  type Cache = map<Key, Entry>

  datatype Code = Unavailable | Missing | Denied | Expired

  datatype Answer = Value(value: string) | Fails(code: Code)

  datatype Request =
    | Resolve(reference: Reference, owner: string, wall: int, monotonic: int, readAt: int, answer: Answer)
    | Invalidate(selected: Option<Reference>, selectedOwner: Option<string>)

  datatype Outcome =
    | Rejected                        // ValueError: the owning boundary is not printable and bounded
    | Failed(code: Code)
    | FromCache(secret: Resolved)
    | Fetched(secret: Resolved)
    | Removed(count: nat)

  predicate ValidReference(r: Reference) {
    r.cacheTtlSeconds <= MAX_CACHE_TTL_SECONDS
  }

  predicate ValidOwner(owner: string) {
    && |owner| <= 256 && (forall c :: c in owner ==> c as int >= 32)
    && exists c :: c in owner && !Text.IsSpace(c)
  }

  predicate HasExpired(r: Reference, wall: int) {
    r.expiresAt.Some? && r.expiresAt.value <= wall
  }

  predicate Selects(reference: Option<Reference>, owner: Option<string>, key: Key) {
    (reference.None? || key.reference == reference.value) && (owner.None? || key.owner == owner.value)
  }

  /** One request, as a function of the cache before it. */
  function Step(cache: Cache, request: Request): (Cache, Outcome) {
    match request
    case Resolve(reference, owner, wall, monotonic, readAt, answer) =>
      var key := Key(reference, owner);
      if !ValidOwner(owner) then (cache, Rejected)
      else if HasExpired(reference, wall) then (cache, Failed(Expired))
      else if key in cache && cache[key].expiresAt > monotonic then (cache, FromCache(cache[key].secret))
      else
        (match answer
         case Fails(code) => (cache - {key}, Failed(code))
         case Value(value) =>
           var secret := Resolved(reference, owner, value);
           if reference.cacheTtlSeconds == 0 then (cache - {key}, Fetched(secret))
           else (cache[key := Entry(secret, monotonic + reference.cacheTtlSeconds)], Fetched(secret)))
    case Invalidate(reference, owner) =>
      if owner.Some? && !ValidOwner(owner.value) then (cache, Rejected)
      else
        var selected := set key | key in cache && Selects(reference, owner, key);
        (cache - selected, Removed(|selected|))
  }

  // ---------- The service ----------

  class SecretResolutionService {
    var cache: Cache

    constructor ()
      ensures cache == map[]
    {
      cache := map[];
    }

    method Resolve(reference: Reference, owner: string, wall: int, monotonic: int, readAt: int, answer: Answer)
      returns (o: Outcome)
      modifies this
      ensures (cache, o) == Step(old(cache), Request.Resolve(reference, owner, wall, monotonic, readAt, answer))
    {
      if !ValidOwner(owner) {
        return Rejected;
      }
      if HasExpired(reference, wall) {
        return Failed(Expired);
      }
      var key := Key(reference, owner);
      if key in cache && cache[key].expiresAt > monotonic {
        return FromCache(cache[key].secret);
      }
      cache := cache - {key};
      match answer
      case Fails(code) =>
        return Failed(code);
      case Value(value) =>
        var secret := Resolved(reference, owner, value);
        if reference.cacheTtlSeconds != 0 {
          ghost var entry := Entry(secret, monotonic + reference.cacheTtlSeconds);
          assert cache[key := entry] == old(cache)[key := entry];
          cache := cache[key := Entry(secret, monotonic + reference.cacheTtlSeconds)];
        }
        return Fetched(secret);
    }

    /** Selects the matching keys, then removes them one by one. */
    method Invalidate(reference: Option<Reference>, owner: Option<string>) returns (o: Outcome)
      modifies this
      ensures (cache, o) == Step(old(cache), Request.Invalidate(reference, owner))
    {
      if owner.Some? && !ValidOwner(owner.value) {
        return Rejected;
      }
      var selected := set key | key in cache && Selects(reference, owner, key);
      var rest := selected;
      while rest != {}
        invariant rest <= selected
        invariant cache == old(cache) - (selected - rest)
        decreases rest
      {
        var key :| key in rest;
        cache := cache - {key};
        rest := rest - {key};
      }
      assert selected - {} == selected;
      return Removed(|selected|);
    }

    method Rotate(reference: Reference, owner: Option<string>) returns (o: Outcome)
      modifies this
      ensures (cache, o) == Step(old(cache), Request.Invalidate(Some(reference), owner))
    {
      o := Invalidate(Some(reference), owner);
    }
  }

  // ---------- Runs ----------

  /** The cache after the first `n` requests of a run that starts empty. */
  function CacheAfter(run: seq<Request>, n: nat): Cache
    requires n <= |run|
  {
    if n == 0 then map[] else Step(CacheAfter(run, n - 1), run[n - 1]).0
  }

  function OutcomeAt(run: seq<Request>, i: nat): Outcome
    requires i < |run|
  {
    Step(CacheAfter(run, i), run[i]).1
  }

  /** The backend is read no earlier than the clock reading the service took for the same request. */
  predicate WellTimed(run: seq<Request>) {
    forall i :: 0 <= i < |run| && run[i].Resolve? ==>
      run[i].monotonic <= run[i].readAt && ValidReference(run[i].reference)
  }

  predicate Asks(request: Request, key: Key) {
    request.Resolve? && request.reference == key.reference && request.owner == key.owner
  }

  /** An owner that is refused: too long, with a control character, or blank. */
  predicate Unusable(owner: string) {
    || |owner| > 256
    || (exists c :: c in owner && c < ' ')
    || (forall c :: c in owner ==> Text.IsSpace(c))
  }

  lemma UnusableExactly(owner: string)
    ensures ValidOwner(owner) <==> !Unusable(owner)
  {
    assert ' ' as int == 32;
  }

  /** An accepted invalidation that names the pair: by nothing, by its reference, by its owner, or by both. */
  predicate Drops(request: Request, key: Key) {
    && request.Invalidate?
    && match (request.selected, request.selectedOwner)
       case (None, None) => true
       case (Some(r), None) => key.reference == r
       case (None, Some(o)) => key.owner == o && !Unusable(o)
       case (Some(r), Some(o)) => key == Key(r, o) && !Unusable(o)
  }

  lemma DropsExactly(cache: Cache, request: Request, key: Key)
    requires request.Invalidate? && key in cache
    ensures key in Step(cache, request).0 <==> !Drops(request, key)
  {
    if request.selectedOwner.Some? {
      UnusableExactly(request.selectedOwner.value);
    }
  }

  /** Request `j` read this secret from the backend for this very pair, and nothing in between has
      dropped it or asked the backend again. */
  ghost predicate Origin(run: seq<Request>, j: nat, n: nat, key: Key, secret: Resolved) {
    && j < n <= |run| && Asks(run[j], key)
    && run[j].answer == Value(secret.value) && OutcomeAt(run, j) == Fetched(secret)
    && secret == Resolved(key.reference, key.owner, secret.value)
    && forall k :: j < k < n ==> !Drops(run[k], key) && !(Asks(run[k], key) && OutcomeAt(run, k).Fetched?)
  }

  /** Every entry of every reachable cache has an origin and the expiry that its origin gave it. */
  lemma {:induction false} EntriesHaveOrigins(run: seq<Request>, n: nat, key: Key) returns (j: nat)
    requires n <= |run| && key in CacheAfter(run, n)
    ensures Origin(run, j, n, key, CacheAfter(run, n)[key].secret)
    ensures key.reference.cacheTtlSeconds > 0
    ensures CacheAfter(run, n)[key].expiresAt == run[j].monotonic + key.reference.cacheTtlSeconds
  {
    hide ValidOwner, Unusable;
    var before, request := CacheAfter(run, n - 1), run[n - 1];
    if request.Invalidate? && key in before {
      DropsExactly(before, request, key);
    }
    if Asks(request, key) && OutcomeAt(run, n - 1).Fetched? {
      j := n - 1;
    } else {
      j := EntriesHaveOrigins(run, n - 1, key);
      assert before[key] == CacheAfter(run, n)[key];
    }
  }

  /** In every run, whatever is handed out for a pair was read from the backend for that very pair:
      now, or by an earlier request less than the reference's time to live ago, which is at most 300
      seconds, with no invalidation or rotation that selects the pair and no later read in between;
      and the reference had not expired. */
  lemma HandedOutSecretsAreFresh(run: seq<Request>, i: nat) returns (j: nat)
    requires i < |run| && WellTimed(run)
    requires OutcomeAt(run, i).FromCache? || OutcomeAt(run, i).Fetched?
    ensures run[i].Resolve? && !Unusable(run[i].owner)
    ensures run[i].reference.expiresAt.Some? ==> run[i].wall < run[i].reference.expiresAt.value
    ensures OutcomeAt(run, i).Fetched? ==> j == i && run[i].answer == Value(OutcomeAt(run, i).secret.value)
    ensures OutcomeAt(run, i).FromCache? ==>
              && Origin(run, j, i, Key(run[i].reference, run[i].owner), OutcomeAt(run, i).secret)
              && run[i].monotonic - run[j].readAt < run[i].reference.cacheTtlSeconds <= 300
    ensures OutcomeAt(run, i).secret.reference == run[i].reference
    ensures OutcomeAt(run, i).secret.owner == run[i].owner
  {
    j := i;
    if run[i].Resolve? {
      UnusableExactly(run[i].owner);
    }
    if OutcomeAt(run, i).FromCache? {
      j := EntriesHaveOrigins(run, i, Key(run[i].reference, run[i].owner));
    }
  }

  lemma InvalidateEverything(cache: Cache)
    ensures Step(cache, Invalidate(None, None)) == (map[], Removed(|cache|))
  {
    assert (set key | key in cache && Selects(None, None, key)) == cache.Keys;
    assert cache - cache.Keys == map[];
  }

  lemma InvalidateReference(cache: Cache, r: Reference)
    ensures Step(cache, Invalidate(Some(r), None)).0 == map key | key in cache && key.reference != r :: cache[key]
  {
  }

  lemma InvalidateOwner(cache: Cache, o: string)
    requires ValidOwner(o)
    ensures Step(cache, Invalidate(None, Some(o))).0 == map key | key in cache && key.owner != o :: cache[key]
  {
    hide ValidOwner;
  }

  lemma InvalidatePair(cache: Cache, r: Reference, o: string)
    requires ValidOwner(o)
    ensures Step(cache, Invalidate(Some(r), Some(o))).0 == cache - {Key(r, o)}
  {
    hide ValidOwner;
  }

  lemma InvalidateUnusable(cache: Cache, reference: Option<Reference>, o: string)
    requires !ValidOwner(o)
    ensures Step(cache, Invalidate(reference, Some(o))) == (cache, Rejected)
  {
  }

  /** Invalidation by nothing, by reference, by owner, or by both removes exactly the entries named, changes
      no other, and reports how many they were; with an unusable owner it is rejected. */
  lemma InvalidationIsExact(cache: Cache, r: Reference, o: string)
    ensures Step(cache, Invalidate(None, None)) == (map[], Removed(|cache|))
    ensures Step(cache, Invalidate(Some(r), None)).0 == map key | key in cache && key.reference != r :: cache[key]
    ensures !Unusable(o) ==>
              Step(cache, Invalidate(None, Some(o))).0 == map key | key in cache && key.owner != o :: cache[key]
    ensures !Unusable(o) ==> Step(cache, Invalidate(Some(r), Some(o))).0 == cache - {Key(r, o)}
    ensures Unusable(o) ==>
              && Step(cache, Invalidate(None, Some(o))) == (cache, Rejected)
              && Step(cache, Invalidate(Some(r), Some(o))) == (cache, Rejected)
  {
    UnusableExactly(o);
    hide ValidOwner, Unusable, Step;
    InvalidateEverything(cache);
    InvalidateReference(cache, r);
    if ValidOwner(o) {
      InvalidateOwner(cache, o);
      InvalidatePair(cache, r, o);
    } else {
      InvalidateUnusable(cache, None, o);
      InvalidateUnusable(cache, Some(r), o);
    }
  }

  /** The count that an accepted invalidation reports is the number of entries that are gone. */
  lemma RemovedIsCounted(cache: Cache, reference: Option<Reference>, owner: Option<string>)
    requires owner.None? || !Unusable(owner.value)
    ensures var (after, outcome) := Step(cache, Invalidate(reference, owner));
            outcome.Removed? && |after| == |cache| - outcome.count
  {
    if owner.Some? {
      UnusableExactly(owner.value);
    }
    var selected := set key | key in cache && Selects(reference, owner, key);
    assert (cache - selected).Keys == cache.Keys - selected;
    assert selected <= cache.Keys;
    assert |cache.Keys - selected| == |cache.Keys| - |selected|;
  }

  /** What a resolution comes to, in terms of the request and of the entry that was there. */
  lemma ResolutionExactly(cache: Cache, request: Request)
    requires request.Resolve?
    ensures var key := Key(request.reference, request.owner);
            var (after, outcome) := Step(cache, request);
            var expired := request.reference.expiresAt.Some? && request.wall >= request.reference.expiresAt.value;
            var live := key in cache && request.monotonic < cache[key].expiresAt;
            && (outcome == Rejected <==> Unusable(request.owner))
            && (outcome.FromCache? <==> !Unusable(request.owner) && !expired && live)
            && (outcome.FromCache? ==> after == cache && outcome.secret == cache[key].secret)
            && (outcome.Fetched? <==> !Unusable(request.owner) && !expired && !live && request.answer.Value?)
            && (outcome.Fetched? && request.reference.cacheTtlSeconds > 0 ==>
                  key in after && after[key].secret == outcome.secret
                  && after[key].expiresAt == request.monotonic + request.reference.cacheTtlSeconds)
            && (outcome.Fetched? && request.reference.cacheTtlSeconds == 0 ==> key !in after)
            && after - {key} == cache - {key}
  {
    UnusableExactly(request.owner);
  }

  /** A failed resolution leaves no entry for its pair, unless it failed before the cache was looked
      at: an expired reference, or an unusable owner, keeps the entry that was there. */
  lemma FailureLeavesNoEntryUnlessUpFront(cache: Cache, request: Request)
    requires request.Resolve?
    requires Step(cache, request).1.Failed? || Step(cache, request).1.Rejected?
    ensures var key := Key(request.reference, request.owner);
            key !in Step(cache, request).0 <==>
              || key !in cache
              || (&& !Unusable(request.owner)
                  && (request.reference.expiresAt.None? || request.wall < request.reference.expiresAt.value))
  {
    UnusableExactly(request.owner);
  }

  /** A rotated secret is read again, or was read after the rotation: never the one from before. */
  lemma RotatedIsReadAgain(run: seq<Request>, k: nat, i: nat) returns (j: nat)
    requires k < i < |run| && WellTimed(run)
    requires run[k].Invalidate? && run[k].selectedOwner.None?
    requires run[i].Resolve? && run[k].selected == Some(run[i].reference)
    requires OutcomeAt(run, i).FromCache? || OutcomeAt(run, i).Fetched?
    ensures k < j <= i && OutcomeAt(run, j).Fetched? && run[j].answer == Value(OutcomeAt(run, i).secret.value)
  {
    assert Drops(run[k], Key(run[i].reference, run[i].owner));
    j := HandedOutSecretsAreFresh(run, i);
  }

  /** So an expired reference can keep its entry: it is not served while it is expired, but it is
      served from the cache again if the wall clock is set back. */
  lemma ExpiredEntryOutlivesItsFailure()
    ensures var r := Reference(Test, "NAME", None, None, Some(10), 300);
            var run := [Resolve(r, "runner", 9, 0, 0, Value("secret")),
                        Resolve(r, "runner", 10, 1, 1, Fails(Missing)),
                        Resolve(r, "runner", 9, 2, 2, Fails(Missing))];
            && OutcomeAt(run, 1) == Failed(Expired)
            && Key(r, "runner") in CacheAfter(run, 2)
            && OutcomeAt(run, 2) == FromCache(Resolved(r, "runner", "secret"))
  {
    var r := Reference(Test, "NAME", None, None, Some(10), 300);
    var run := [Resolve(r, "runner", 9, 0, 0, Value("secret")),
                Resolve(r, "runner", 10, 1, 1, Fails(Missing)),
                Resolve(r, "runner", 9, 2, 2, Fails(Missing))];
    assert 'r' in "runner" by {
      assert "runner"[0] == 'r';
    }
    assert ValidOwner("runner");
    assert CacheAfter(run, 0) == map[];
    assert Key(r, "runner") in CacheAfter(run, 1);
    assert CacheAfter(run, 2) == CacheAfter(run, 1);
  }
}
