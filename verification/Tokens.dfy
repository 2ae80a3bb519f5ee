/** The cache of service account tokens: expiry and refresh under a moving clock. */
module Tokens {
  import opened Common

  /** Nanoseconds. */
  type Nanos = int

  const SECOND: Nanos := 1_000_000_000
  const MAX_TTL: Nanos := 7200 * SECOND
  const MAX_JITTER_SECONDS := 10

  /** A service account, as the cache key spells it out. */
  datatype Account = Account(name: string, namespace: string, uid: string)

  /** A granted request: the lifetime asked for, if stated, and the expiry. */
  datatype TokenRequest = TokenRequest(token: string, expirationSeconds: Option<int>, expiration: Nanos)

  predicate Expired(tr: TokenRequest, now: Nanos) {
    now > tr.expiration
  }

  /** Division that rounds toward zero, as the source's does. */
  function TruncDiv(a: int, b: int): int
    requires b > 0
  {
    if a >= 0 then a / b else -((-a) / b)
  }

  /** Refresh once two hours old, or in the last half of the lifetime; each earlier by the jitter. */
  predicate RequiresRefresh(tr: TokenRequest, now: Nanos, jitterSeconds: nat) {
    tr.expirationSeconds.Some? &&
    var exp := tr.expiration;
    var iat := exp - tr.expirationSeconds.value * SECOND;
    var jitter := jitterSeconds * SECOND;
    || now > iat + (MAX_TTL - jitter)
    || now > exp + (-TruncDiv(tr.expirationSeconds.value * 50, 100) * SECOND - jitter)
  }

  // ---------- bounds ----------

  function Min(a: int, b: int): int {
    if a <= b then a else b
  }

  /** The age up to which a token of lifetime `ttl` seconds is reused, before jitter. */
  function ReuseBound(ttl: int): Nanos {
    Min(MAX_TTL, (ttl - ttl / 2) * SECOND)
  }

  function Age(tr: TokenRequest, now: Nanos): Nanos
    requires tr.expirationSeconds.Some?
  {
    now - (tr.expiration - tr.expirationSeconds.value * SECOND)
  }

  lemma Half(ttl: nat)
    ensures TruncDiv(ttl * 50, 100) == ttl / 2
  {
  }

  /** A token is reused exactly while its age is within the bound, less the jitter. */
  lemma ReusedExactly(tr: TokenRequest, now: Nanos, jitterSeconds: nat)
    requires tr.expirationSeconds.Some? && tr.expirationSeconds.value >= 0
    ensures !RequiresRefresh(tr, now, jitterSeconds)
            <==> Age(tr, now) <= ReuseBound(tr.expirationSeconds.value) - jitterSeconds * SECOND
  {
    var ttl: nat := tr.expirationSeconds.value;
    Half(ttl);
    assert (ttl - ttl / 2) * SECOND == ttl * SECOND - ttl / 2 * SECOND;
  }

  /** Whatever the jitter draw, ten seconds inside the bound a token is reused. */
  lemma ReusedWellInside(tr: TokenRequest, now: Nanos, jitterSeconds: nat)
    requires tr.expirationSeconds.Some? && tr.expirationSeconds.value >= 0 && jitterSeconds < MAX_JITTER_SECONDS
    requires Age(tr, now) <= ReuseBound(tr.expirationSeconds.value) - MAX_JITTER_SECONDS * SECOND
    ensures !RequiresRefresh(tr, now, jitterSeconds)
  {
    ReusedExactly(tr, now, jitterSeconds);
  }

  /** A token with a stated, non-negative lifetime is never reused once expired. */
  lemma ReusedIsLive(tr: TokenRequest, now: Nanos, jitterSeconds: nat)
    requires tr.expirationSeconds.Some? && tr.expirationSeconds.value >= 0
    requires !RequiresRefresh(tr, now, jitterSeconds)
    ensures !Expired(tr, now)
  {
    ReusedExactly(tr, now, jitterSeconds);
    var ttl: nat := tr.expirationSeconds.value;
    assert (ttl - ttl / 2) * SECOND <= ttl * SECOND;
  }

  /**
   For which requests an expired token can be reused without a refresh attempt: those that state no lifetime,
   and those whose stated lifetime is negative by two seconds or more beyond the jitter.
   */
  lemma ReusableWhenExpired(tr: TokenRequest, jitterSeconds: nat)
    ensures (exists now :: Expired(tr, now) && !RequiresRefresh(tr, now, jitterSeconds))
            <==> || tr.expirationSeconds.None?
                 || (tr.expirationSeconds.value < 0
                     && (-tr.expirationSeconds.value) / 2 > jitterSeconds)
  {
    var now := tr.expiration + 1;
    assert Expired(tr, now);
    if tr.expirationSeconds.None? {
      assert !RequiresRefresh(tr, now, jitterSeconds);
    } else if tr.expirationSeconds.value >= 0 {
      forall t | Expired(tr, t) ensures RequiresRefresh(tr, t, jitterSeconds) {
        if !RequiresRefresh(tr, t, jitterSeconds) {
          ReusedIsLive(tr, t, jitterSeconds);
          assert false;
        }
      }
    } else {
      NegativeLifetime(tr, jitterSeconds);
    }
  }

  lemma NegativeLifetime(tr: TokenRequest, jitterSeconds: nat)
    requires tr.expirationSeconds.Some? && tr.expirationSeconds.value < 0
    ensures (exists now :: Expired(tr, now) && !RequiresRefresh(tr, now, jitterSeconds))
            <==> (-tr.expirationSeconds.value) / 2 > jitterSeconds
  {
    var n: nat := -tr.expirationSeconds.value;
    var half := n / 2;
    assert TruncDiv(tr.expirationSeconds.value * 50, 100) == -half;
    var now := tr.expiration + 1;
    if half > jitterSeconds {
      assert (half - jitterSeconds) * SECOND == half * SECOND - jitterSeconds * SECOND;
      assert Expired(tr, now) && !RequiresRefresh(tr, now, jitterSeconds);
    } else {
      forall t | Expired(tr, t) ensures RequiresRefresh(tr, t, jitterSeconds) {
        assert half * SECOND <= jitterSeconds * SECOND;
      }
    }
  }

  // ---------- the manager ----------

  datatype Call =
    | Get(account: Account, now: Nanos, later: Nanos, jitterSeconds: nat, granted: Option<TokenRequest>)
    | Clean(now: Nanos)

  /** The cache after a call. */
  function After(cache: map<Account, TokenRequest>, c: Call): map<Account, TokenRequest> {
    match c
    case Clean(now) => map a | a in cache && !Expired(cache[a], now) :: cache[a]
    case Get(account, now, _, jitter, granted) =>
      if (account !in cache || RequiresRefresh(cache[account], now, jitter)) && granted.Some? then
        cache[account := granted.value]
      else cache
  }

  function AfterAll(cache: map<Account, TokenRequest>, calls: seq<Call>): map<Account, TokenRequest> {
    if calls == [] then cache else After(AfterAll(cache, calls[..|calls| - 1]), calls[|calls| - 1])
  }

  /** The request whose token a Get hands out from the cache, if it does. */
  function FromCache(cache: map<Account, TokenRequest>, c: Call): Option<TokenRequest>
    requires c.Get?
  {
    if c.account !in cache then None
    else if !RequiresRefresh(cache[c.account], c.now, c.jitterSeconds) then Some(cache[c.account])
    else if c.granted.None? && !Expired(cache[c.account], c.later) then Some(cache[c.account])
    else None
  }

  /**
   A token that is granted on a request is handed out again, without asking, for as long as its age is within the bound
   less the jitter, and is forgotten by no other account's request.
   */
  lemma GrantIsReused(cache: map<Account, TokenRequest>, c: Call, between: Call, d: Call)
    requires c.Get? && c.granted.Some? && d.Get? && d.account == c.account
    requires c.account !in cache || RequiresRefresh(cache[c.account], c.now, c.jitterSeconds)
    requires between.Get? ==> between.account != c.account
    requires var tr := c.granted.value;
             && tr.expirationSeconds.Some? && tr.expirationSeconds.value >= 0
             && Age(tr, d.now) <= ReuseBound(tr.expirationSeconds.value) - d.jitterSeconds * SECOND
             && (between.Clean? ==> between.now <= tr.expiration)
    ensures FromCache(After(After(cache, c), between), d) == c.granted
  {
    ReusedExactly(c.granted.value, d.now, d.jitterSeconds);
    hide RequiresRefresh;
  }

  /** A failed refresh is bridged by the old token exactly until that expires. */
  lemma RefusalIsBridged(cache: map<Account, TokenRequest>, c: Call)
    requires c.Get? && c.granted.None? && c.account in cache
    requires RequiresRefresh(cache[c.account], c.now, c.jitterSeconds)
    ensures FromCache(cache, c) == (if c.later <= cache[c.account].expiration then Some(cache[c.account]) else None)
    ensures After(cache, c) == cache
  {
    hide RequiresRefresh;
  }

  datatype Reply = Token(token: string) | Refused

  class Manager {
    var cache: map<Account, TokenRequest>

    constructor (cache: map<Account, TokenRequest>)
      ensures this.cache == cache
    {
      this.cache := cache;
    }

    /**
     `granted` is the API server's answer to a token request, if one is made. The clock is read when a
     refresh is considered and again, later, when a failed refresh falls back on the old token.
     */
    method GetServiceAccountToken(account: Account, now: Nanos, later: Nanos, jitterSeconds: nat,
                                  granted: Option<TokenRequest>)
      returns (reply: Reply, asked: bool)
      modifies this
      ensures asked <==> account !in old(cache) || RequiresRefresh(old(cache[account]), now, jitterSeconds)
      ensures var c := Get(account, now, later, jitterSeconds, granted);
              var held := FromCache(old(cache), c);
              && cache == After(old(cache), c)
              && reply == if held.Some? then Token(held.value.token)
                          else if granted.Some? then Token(granted.value.token)
                          else Refused
    {
      var known := account in cache;
      if known && !RequiresRefresh(cache[account], now, jitterSeconds) {
        return Token(cache[account].token), false;
      }
      asked := true;
      if granted.None? {
        if !known {
          return Refused, asked;
        }
        if Expired(cache[account], later) {
          return Refused, asked;
        }
        return Token(cache[account].token), asked;
      }
      cache := cache[account := granted.value];
      reply := Token(granted.value.token);
    }

    /** Drops exactly the expired tokens, in whatever order the cache is walked. */
    method Cleanup(now: Nanos)
      modifies this
      ensures cache == After(old(cache), Clean(now))
    {
      var remaining := cache.Keys;
      ghost var before := cache;
      while remaining != {}
        invariant remaining <= before.Keys
        invariant cache == map a | a in before && (a in remaining || !Expired(before[a], now)) :: before[a]
        decreases |remaining|
      {
        var a :| a in remaining;
        if Expired(cache[a], now) {
          cache := cache - {a};
        }
        remaining := remaining - {a};
      }
    }
  }

  // ---------- whole histories ----------

  predicate Stated(tr: TokenRequest) {
    tr.expirationSeconds.Some? && tr.expirationSeconds.value >= 0
  }

  lemma {:induction false} CacheStaysStated(cache: map<Account, TokenRequest>, calls: seq<Call>)
    requires forall a :: a in cache ==> Stated(cache[a])
    requires forall i :: 0 <= i < |calls| && calls[i].Get? && calls[i].granted.Some? ==> Stated(calls[i].granted.value)
    ensures forall a :: a in AfterAll(cache, calls) ==> Stated(AfterAll(cache, calls)[a])
  {
    hide RequiresRefresh, Stated;
    if calls != [] {
      CacheStaysStated(cache, calls[..|calls| - 1]);
    }
  }

  /**
   Over any history of calls whose grants state a lifetime, no token is handed out from the cache past
   its expiry, whatever the jitter draws and however refreshes fail.
   */
  lemma {:induction false} NoExpiredTokenFromCache(cache: map<Account, TokenRequest>, calls: seq<Call>, c: Call)
    requires forall a :: a in cache ==> Stated(cache[a])
    requires forall i :: 0 <= i < |calls| && calls[i].Get? && calls[i].granted.Some? ==> Stated(calls[i].granted.value)
    requires c.Get? && c.now <= c.later && FromCache(AfterAll(cache, calls), c).Some?
    ensures var tr := FromCache(AfterAll(cache, calls), c).value;
            !Expired(tr, c.now) && (RequiresRefresh(tr, c.now, c.jitterSeconds) ==> !Expired(tr, c.later))
  {
    hide RequiresRefresh;
    CacheStaysStated(cache, calls);
    var held := AfterAll(cache, calls)[c.account];
    if !RequiresRefresh(held, c.now, c.jitterSeconds) {
      ReusedIsLive(held, c.now, c.jitterSeconds);
    }
  }
}
