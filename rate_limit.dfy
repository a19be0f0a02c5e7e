/**
 * Fixed-window rate limiter (src/lib/rateLimit.ts).
 *
 * The process-wide map from `type:ip` to `{count, resetTime}` is the field
 * `store` of a `RateLimiter` object. The clock is a parameter (`now`, in
 * milliseconds). `Step` and `Sweep` are the pure transitions that the two
 * methods are proved to perform; the lemmas below are about them.
 */
module RateLimit {
  import opened Common
  import SecurityConfig

  /** The two endpoint classes of `rateLimit(type)`. */
  datatype Kind = Api | Auth

  datatype Record = Record(count: int, resetTime: int)

  /** The request headers `getClientIp` reads. */
  datatype RequestHeaders = RequestHeaders(forwardedFor: Option<string>, realIp: Option<string>)

  /** `null` (let the request through) or the HTTP 429 response with its headers. */
  datatype Decision =
    | Allow
    | Deny(status: int, error: string, retryAfter: int, limit: int, remaining: int, reset: int)

  datatype Transition = Transition(decision: Decision, store: map<string, Record>)

  const TooManyRequests := "Too many requests. Please try again later."

  function MaxRequests(kind: Kind): int
  {
    if kind == Auth then SecurityConfig.AuthMaxRequests else SecurityConfig.ApiMaxRequests
  }

  function KindName(kind: Kind): string
  {
    if kind == Auth then "auth" else "api"
  }

  /** The map key `${type}:${ip}`. */
  function Key(kind: Kind, ip: string): string
  {
    KindName(kind) + ":" + ip
  }

  /** The budget that applies to a stored key, read back from its `type:` prefix. */
  function LimitOf(key: string): int
  {
    if StartsWith(key, "auth:") then SecurityConfig.AuthMaxRequests else SecurityConfig.ApiMaxRequests
  }

  lemma LimitOfKey(kind: Kind, ip: string)
    ensures LimitOf(Key(kind, ip)) == MaxRequests(kind)
  {
    var key := Key(kind, ip);
    if kind == Api {
      assert key[1] == 'p';
      assert !StartsWith(key, "auth:");
    } else {
      assert key[..5] == "auth:";
    }
  }

  /** The key carries the endpoint class, so `api` and `auth` counters never share a record. */
  lemma {:induction false} KeysIndependent(ip1: string, ip2: string)
    ensures Key(Api, ip1) != Key(Auth, ip2)
    ensures forall k1, k2: Kind, a, b :: Key(k1, a) == Key(k2, b) ==> k1 == k2 && a == b
  {
    assert Key(Api, ip1)[1] != Key(Auth, ip2)[1];
    forall k1, k2: Kind, a, b | Key(k1, a) == Key(k2, b) ensures k1 == k2 && a == b {
      var n := |KindName(k1)| + 1;
      assert Key(k1, a)[n..] == a;
      assert Key(k2, b)[n..] == b;
    }
  }

  /** `getClientIp`: the first hop of `x-forwarded-for`, else `x-real-ip`, else `'unknown'`. */
  function ClientIp(h: RequestHeaders): (ip: string)
    ensures Truthy(h.forwardedFor) ==> ip == Trim(Split(h.forwardedFor.value, ',')[0])
    ensures !Truthy(h.forwardedFor) && Truthy(h.realIp) ==> ip == h.realIp.value
    ensures !Truthy(h.forwardedFor) && !Truthy(h.realIp) ==> ip == "unknown"
  {
    if Truthy(h.forwardedFor) then Trim(Split(h.forwardedFor.value, ',')[0])
    else if Truthy(h.realIp) then h.realIp.value
    else "unknown"
  }

  /** With a proxy chain `first, rest`, the client is the trimmed first entry and `x-real-ip` is ignored. */
  lemma {:induction false} ClientIpFirstHop(first: string, rest: string, realIp: Option<string>)
    requires ',' !in first
    ensures ClientIp(RequestHeaders(Some(first + "," + rest), realIp)) == Trim(first)
  {
    var f := first + "," + rest;
    assert f == first + [','] + rest;
    SplitCons(first, ',', rest);
    assert Split(f, ',')[0] == first;
    assert Truthy(Some(f));
  }

  /** `Math.ceil((resetTime - now) / 1000)` on integers (Dafny's `/` floors for a positive divisor). */
  function RetryAfter(resetTime: int, now: int): (r: int)
    ensures r * 1000 >= resetTime - now > (r - 1) * 1000
  {
    -((now - resetTime) / 1000)
  }

  /** For a live record, `Retry-After` lies between 0 and the window length in seconds. */
  lemma RetryAfterBounds(resetTime: int, now: int)
    requires now <= resetTime <= now + SecurityConfig.WindowMs
    ensures 0 <= RetryAfter(resetTime, now) <= SecurityConfig.WindowMs / 1000
  {
  }

  /** One request of class `kind` from `ip` at time `now` against the map. */
  function Step(store: map<string, Record>, kind: Kind, ip: string, now: int): (t: Transition)
    ensures t.store.Keys == store.Keys + {Key(kind, ip)}
    ensures forall k | k in store && k != Key(kind, ip) :: t.store[k] == store[k]
    ensures t.decision.Allow? <==>
      (Key(kind, ip) !in store || now > store[Key(kind, ip)].resetTime
       || store[Key(kind, ip)].count < MaxRequests(kind))
    ensures t.decision.Deny? ==> t.store == store && t.decision == Deny(429, TooManyRequests,
      RetryAfter(store[Key(kind, ip)].resetTime, now), MaxRequests(kind), 0, store[Key(kind, ip)].resetTime)
  {
    var key := Key(kind, ip);
    if key !in store || now > store[key].resetTime then
      Transition(Allow, store[key := Record(1, now + SecurityConfig.WindowMs)])
    else if store[key].count >= MaxRequests(kind) then
      var r := store[key];
      Transition(Deny(429, TooManyRequests, RetryAfter(r.resetTime, now), MaxRequests(kind), 0, r.resetTime), store)
    else
      Transition(Allow, store[key := store[key].(count := store[key].count + 1)])
  }

  /** A missing or expired record (`now > resetTime`) is replaced by a fresh window; at `now == resetTime` the old window still applies. */
  lemma StepWindowBoundary(store: map<string, Record>, kind: Kind, ip: string, now: int)
    ensures var key := Key(kind, ip);
      (key !in store || now > store[key].resetTime) ==>
        Step(store, kind, ip, now) == Transition(Allow, store[key := Record(1, now + SecurityConfig.WindowMs)])
    ensures var key := Key(kind, ip);
      (key in store && now == store[key].resetTime && store[key].count < MaxRequests(kind)) ==>
        Step(store, kind, ip, now).store[key] == Record(store[key].count + 1, store[key].resetTime)
  {
  }

  /** Every stored count is at least 1 and at most the budget of its endpoint class. */
  ghost predicate ValidStore(store: map<string, Record>)
  {
    forall key | key in store :: 1 <= store[key].count <= LimitOf(key)
  }

  /** The count bound survives every request: it is incremented only after `count < maxRequests`. */
  lemma {:induction false} StepKeepsCountBound(store: map<string, Record>, kind: Kind, ip: string, now: int)
    requires ValidStore(store)
    ensures ValidStore(Step(store, kind, ip, now).store)
  {
    LimitOfKey(kind, ip);
  }

  /** A record older than `now` (expired) is deleted; every other record is kept as it was. */
  function Sweep(store: map<string, Record>, now: int): (r: map<string, Record>)
    ensures forall k :: k in r <==> k in store && !(now > store[k].resetTime)
    ensures forall k | k in r :: r[k] == store[k]
  {
    map k | k in store && !(now > store[k].resetTime) :: store[k]
  }

  /**
   * The sweep is housekeeping only: a request after a sweep (at `now >= swept`) gets the
   * same answer, and its key the same record, as without the sweep.
   */
  lemma {:induction false} SweepIsTransparent(store: map<string, Record>, swept: int, kind: Kind, ip: string, now: int)
    requires swept <= now
    ensures Step(Sweep(store, swept), kind, ip, now).decision == Step(store, kind, ip, now).decision
    ensures Step(Sweep(store, swept), kind, ip, now).store[Key(kind, ip)] == Step(store, kind, ip, now).store[Key(kind, ip)]
  {
    var key := Key(kind, ip);
    if key in store && !(swept > store[key].resetTime) {
      assert key in Sweep(store, swept);
    }
  }

  /** The decisions for a series of requests from one client at the given times. */
  function Run(store: map<string, Record>, kind: Kind, ip: string, times: seq<int>): (ds: seq<Decision>)
    ensures |ds| == |times|
    decreases |times|
  {
    if times == [] then []
    else
      var t := Step(store, kind, ip, times[0]);
      [t.decision] + Run(t.store, kind, ip, times[1..])
  }

  /** The answer to a request inside a window whose record ends at `reset`. */
  function InWindow(kind: Kind, allowed: bool, reset: int, now: int): Decision
  {
    if allowed then Allow
    else Deny(429, TooManyRequests, RetryAfter(reset, now), MaxRequests(kind), 0, reset)
  }

  lemma {:induction false} RunInsideWindow(store: map<string, Record>, kind: Kind, ip: string, times: seq<int>, c: int)
    requires Key(kind, ip) in store && store[Key(kind, ip)].count == c && 1 <= c <= MaxRequests(kind)
    requires forall i | 0 <= i < |times| :: times[i] <= store[Key(kind, ip)].resetTime
    ensures forall i | 0 <= i < |times| ::
      Run(store, kind, ip, times)[i] == InWindow(kind, c + i < MaxRequests(kind), store[Key(kind, ip)].resetTime, times[i])
    decreases |times|
  {
    if times != [] {
      var key := Key(kind, ip);
      var t := Step(store, kind, ip, times[0]);
      var c' := if c < MaxRequests(kind) then c + 1 else c;
      assert t.store[key] == Record(c', store[key].resetTime);
      RunInsideWindow(t.store, kind, ip, times[1..], c');
      var ds := Run(store, kind, ip, times);
      forall i | 0 <= i < |times|
        ensures ds[i] == InWindow(kind, c + i < MaxRequests(kind), store[key].resetTime, times[i])
      {
        if i > 0 {
          assert ds[i] == Run(t.store, kind, ip, times[1..])[i - 1];
        }
      }
    }
  }

  /**
   * Within one window (every request no later than the first plus `windowMs`), starting
   * from no record or an expired one, the first `maxRequests` requests are allowed and
   * every later one is denied with the reset time of the window the first request opened.
   */
  lemma {:induction false} WindowBudget(store: map<string, Record>, kind: Kind, ip: string, times: seq<int>)
    requires |times| >= 1
    requires Key(kind, ip) !in store || times[0] > store[Key(kind, ip)].resetTime
    requires forall i | 0 <= i < |times| :: times[i] <= times[0] + SecurityConfig.WindowMs
    ensures forall i | 0 <= i < |times| ::
      Run(store, kind, ip, times)[i] == InWindow(kind, i < MaxRequests(kind), times[0] + SecurityConfig.WindowMs, times[i])
  {
    var t := Step(store, kind, ip, times[0]);
    RunInsideWindow(t.store, kind, ip, times[1..], 1);
    var ds := Run(store, kind, ip, times);
    forall i | 0 <= i < |times|
      ensures ds[i] == InWindow(kind, i < MaxRequests(kind), times[0] + SecurityConfig.WindowMs, times[i])
    {
      if i > 0 {
        assert ds[i] == Run(t.store, kind, ip, times[1..])[i - 1];
      }
    }
  }

  /** The `auth` budget: requests 1 to 10 of a window pass, request 11 gets 429 with `Retry-After` at most 60. */
  lemma {:induction false} AuthEleventhRequestDenied(store: map<string, Record>, ip: string, times: seq<int>)
    requires |times| == 11
    requires Key(Auth, ip) !in store || times[0] > store[Key(Auth, ip)].resetTime
    requires forall i | 0 <= i < 11 :: times[0] <= times[i] <= times[0] + SecurityConfig.WindowMs
    ensures forall i | 0 <= i < 10 :: Run(store, Auth, ip, times)[i] == Allow
    ensures var d := Run(store, Auth, ip, times)[10];
      d.Deny? && d.status == 429 && d.limit == 10 && d.remaining == 0 && 0 <= d.retryAfter <= 60
  {
    WindowBudget(store, Auth, ip, times);
    RetryAfterBounds(times[0] + SecurityConfig.WindowMs, times[10]);
  }

  /** The limiter object: one map shared by the `api` and `auth` handlers of the process. */
  class RateLimiter {
    var store: map<string, Record>

    ghost predicate Valid()
      reads this
    {
      ValidStore(store)
    }

    constructor ()
      ensures Valid() && store == map[]
    {
      store := map[];
    }

    /** The handler returned by `rateLimit(kind)`, applied to one request at time `now`. */
    method Check(kind: Kind, headers: RequestHeaders, now: int) returns (d: Decision)
      requires Valid()
      modifies this
      ensures Valid()
      ensures Transition(d, store) == Step(old(store), kind, ClientIp(headers), now)
    {
      var ip := ClientIp(headers);
      var key := Key(kind, ip);
      StepKeepsCountBound(store, kind, ip, now);
      if key !in store || now > store[key].resetTime {
        store := store[key := Record(1, now + SecurityConfig.WindowMs)];
        return Allow;
      }
      var record := store[key];
      if record.count >= MaxRequests(kind) {
        var retryAfter := RetryAfter(record.resetTime, now);
        return Deny(429, TooManyRequests, retryAfter, MaxRequests(kind), 0, record.resetTime);
      }
      store := store[key := record.(count := record.count + 1)];
      return Allow;
    }

    /** `cleanupRateLimitStore`: walk the entries and delete each expired one. */
    method Cleanup(now: int)
      requires Valid()
      modifies this
      ensures Valid()
      ensures store == Sweep(old(store), now)
    {
      var pending := store.Keys;
      while pending != {}
        invariant pending <= old(store).Keys
        invariant store == map k | k in old(store) && (k in pending || !(now > old(store)[k].resetTime)) :: old(store)[k]
        decreases pending
      {
        var key :| key in pending;
        if now > store[key].resetTime {
          store := store - {key};
        }
        pending := pending - {key};
      }
    }
  }
}
