/**
 The two fixed-window rate limiters (`backend/app/rate_limit.py`): one counts allowed requests in
 process memory and forgets old windows, the other counts all requests in expiring Redis keys.
 */
module RateLimit {
  /** The time at which the clock was read, and the key and limit of the request. */
  datatype Request = Request(now: real, key: string, limit: int)

  /** The answer without its reset time. */
  datatype Decision = Decision(allowed: bool, limit: int, remaining: int)

  const MAX_ENTRIES: nat := 10_000

  function Max(a: int, b: int): int {
    if a < b then b else a
  }

  function Window(width: nat, now: real): int
    requires width > 0
  {
    (now / width as real).Floor
  }

  function Ceil(x: real): int {
    -(-x).Floor
  }

  /** Whole seconds to the end of the window, at least one. */
  function ResetAfter(width: nat, now: real): int
    requires width > 0
  {
    Max(1, Ceil(((Window(width, now) + 1) * width) as real - now))
  }

  function Allow(limit: int, count: nat): Decision {
    Decision(true, limit, Max(0, limit - count))
  }

  function Deny(limit: int): Decision {
    Decision(false, limit, 0)
  }

  // ---------------------------------------------------------------- decisions as functions of the past

  predicate SameBucket(width: nat, r: Request, key: string, window: int)
    requires width > 0
  {
    r.key == key && Window(width, r.now) == window
  }

  /** How many requests of a key there were in a window. */
  function Earlier(width: nat, past: seq<Request>, key: string, window: int): (n: nat)
    requires width > 0
  {
    if past == [] then 0
    else
      var last := past[|past| - 1];
      Earlier(width, past[..|past| - 1], key, window) + (if SameBucket(width, last, key, window) then 1 else 0)
  }

  /** How many of them were allowed, when each is allowed as long as fewer than its limit were. */
  function Granted(width: nat, past: seq<Request>, key: string, window: int): (n: nat)
    requires width > 0
  {
    if past == [] then 0
    else
      var last := past[|past| - 1];
      var before := Granted(width, past[..|past| - 1], key, window);
      before + (if SameBucket(width, last, key, window) && before < last.limit then 1 else 0)
  }

  function InMemoryDecision(width: nat, past: seq<Request>, r: Request): Decision
    requires width > 0
  {
    var granted := Granted(width, past, r.key, Window(width, r.now));
    if granted < r.limit then Allow(r.limit, granted + 1) else Deny(r.limit)
  }

  function RedisDecision(width: nat, past: seq<Request>, r: Request): Decision
    requires width > 0
  {
    var count := Earlier(width, past, r.key, Window(width, r.now)) + 1;
    if count > r.limit then Deny(r.limit) else Allow(r.limit, count)
  }

  /** A decision repeats the request's limit, and what remains is what the earlier requests have left. */
  lemma DecisionsSay(width: nat, past: seq<Request>, r: Request)
    requires width > 0
    ensures InMemoryDecision(width, past, r).limit == RedisDecision(width, past, r).limit == r.limit
    ensures var granted := Granted(width, past, r.key, Window(width, r.now));
      var d := InMemoryDecision(width, past, r);
      d.remaining == (if granted < r.limit then r.limit - granted - 1 else 0) && (d.allowed <==> granted < r.limit)
    ensures var earlier := Earlier(width, past, r.key, Window(width, r.now));
      var d := RedisDecision(width, past, r);
      d.remaining == (if earlier < r.limit then r.limit - earlier - 1 else 0) && (d.allowed <==> earlier < r.limit)
  {
    hide Granted, Earlier, Window;
  }

  predicate Nondecreasing(past: seq<Request>) {
    forall i, j | 0 <= i <= j < |past| :: past[i].now <= past[j].now
  }

  /** The request comes no earlier than the last one. */
  predicate Follows(past: seq<Request>, now: real) {
    past == [] || past[|past| - 1].now <= now
  }

  lemma WindowMonotonic(width: nat, a: real, b: real)
    requires width > 0 && a <= b
    ensures Window(width, a) <= Window(width, b)
  {
    assert a / width as real <= b / width as real;
  }

  lemma Scale(a: real, b: real, c: real)
    requires c > 0.0
    ensures a < b ==> a * c < b * c
    ensures a <= b ==> a * c <= b * c
  {
  }

  lemma CastProduct(a: int, b: int)
    ensures (a * b) as real == a as real * b as real
  {
  }

  lemma Quotient(a: real, b: real)
    requires b > 0.0
    ensures (a / b) * b == a
  {
  }

  lemma WindowHolds(width: nat, now: real)
    requires width > 0
    ensures (Window(width, now) * width) as real <= now < ((Window(width, now) + 1) * width) as real
  {
    var q, f := now / width as real, Window(width, now);
    Quotient(now, width as real);
    LowerEdge(f, q, width, now);
    UpperEdge(f + 1, q, width, now);
  }

  lemma LowerEdge(f: int, q: real, width: nat, now: real)
    requires width > 0 && f as real <= q && q * width as real == now
    ensures (f * width) as real <= now
  {
    Scale(f as real, q, width as real);
    CastProduct(f, width);
  }

  lemma UpperEdge(f: int, q: real, width: nat, now: real)
    requires width > 0 && q < f as real && q * width as real == now
    ensures now < (f * width) as real
  {
    Scale(q, f as real, width as real);
    CastProduct(f, width);
  }

  /**
   Waiting out the reset time reaches a later window; without the last second it would not, unless that
   second is the least.
   */
  lemma ResetReachesNextWindow(width: nat, now: real)
    requires width > 0
    ensures var reset := ResetAfter(width, now);
      && Window(width, now + reset as real) > Window(width, now)
      && (reset == 1 || Window(width, now + (reset - 1) as real) == Window(width, now))
  {
    var end := ((Window(width, now) + 1) * width) as real;
    var reset := ResetAfter(width, now);
    WindowHolds(width, now);
    WindowFrom(width, now + reset as real, Window(width, now) + 1);
    if reset > 1 {
      var almost := now + (reset - 1) as real;
      assert almost < end;
      WindowMonotonic(width, now, almost);
      WindowBelow(width, almost, Window(width, now) + 1);
    }
  }

  /** A window starts at its multiple of the width. */
  lemma WindowFrom(width: nat, now: real, window: int)
    requires width > 0 && now >= (window * width) as real
    ensures Window(width, now) >= window
  {
    WindowHolds(width, now);
    if Window(width, now) + 1 <= window {
      MulMonotonic(Window(width, now) + 1, window, width);
    }
  }

  lemma WindowBelow(width: nat, now: real, window: int)
    requires width > 0 && now < (window * width) as real
    ensures Window(width, now) < window
  {
    WindowHolds(width, now);
    if window <= Window(width, now) {
      MulMonotonic(window, Window(width, now), width);
    }
  }

  lemma MulMonotonic(a: int, b: int, c: nat)
    requires a <= b
    ensures a * c <= b * c
  {
  }

  // ---------------------------------------------------------------- process memory

  /** What an entry says of a window: entries of other windows say nothing. */
  function Stored(entries: map<string, (int, nat)>, key: string, window: int): nat {
    if key in entries && entries[key].0 == window then entries[key].1 else 0
  }

  /** For the current and all later windows the entries tell how many requests were allowed. */
  ghost predicate Remembers(width: nat, entries: map<string, (int, nat)>, past: seq<Request>, window: int)
    requires width > 0
  {
    && (forall key | key in entries :: entries[key].0 <= window)
    && (forall key, w | w >= window :: Stored(entries, key, w) == Granted(width, past, key, w))
  }

  lemma GrantedLast(width: nat, past: seq<Request>, r: Request, key: string, window: int)
    requires width > 0
    ensures Granted(width, past + [r], key, window) == Granted(width, past, key, window) +
      (if SameBucket(width, r, key, window) && Granted(width, past, key, window) < r.limit then 1 else 0)
  {
    assert (past + [r])[..|past|] == past;
  }

  lemma EarlierLast(width: nat, past: seq<Request>, r: Request, key: string, window: int)
    requires width > 0
    ensures Earlier(width, past + [r], key, window) ==
      Earlier(width, past, key, window) + (if SameBucket(width, r, key, window) then 1 else 0)
  {
    assert (past + [r])[..|past|] == past;
  }

  lemma RemembersLater(width: nat, entries: map<string, (int, nat)>, past: seq<Request>, window: int, later: int)
    requires width > 0 && Remembers(width, entries, past, window) && window <= later
    ensures Remembers(width, entries, past, later)
  {
  }

  /** A refused request changes nothing, an allowed one its own entry; dropping old windows loses nothing. */
  lemma RemembersStep(
    width: nat, entries: map<string, (int, nat)>, past: seq<Request>, r: Request, after: map<string, (int, nat)>)
    requires width > 0 && Remembers(width, entries, past, Window(width, r.now))
    requires var window := Window(width, r.now);
      var count := Stored(entries, r.key, window);
      var counted := entries[r.key := (window, count + 1)];
      after == if count >= r.limit then entries
               else if |counted| > MAX_ENTRIES then OnlyWindow(counted, window) else counted
    ensures Remembers(width, after, past + [r], Window(width, r.now))
  {
    hide Granted, Window;
    var window := Window(width, r.now);
    forall key, w | w >= window ensures Stored(after, key, w) == Granted(width, past + [r], key, w) {
      GrantedLast(width, past, r, key, w);
    }
  }

  function OnlyWindow(entries: map<string, (int, nat)>, window: int): map<string, (int, nat)> {
    map key | key in entries && entries[key].0 == window :: entries[key]
  }

  class InMemoryFixedWindowRateLimiter {
    var entries: map<string, (int, nat)>
    const width: nat
    ghost var past: seq<Request>

    ghost predicate Valid(now: real)
      reads this
    {
      width > 0 && Follows(past, now) && Remembers(width, entries, past, Window(width, now))
    }

    constructor (width: nat)
      requires width > 0
      ensures this.width == width && past == [] && forall now :: Valid(now)
    {
      this.width := width;
      entries, past := map[], [];
    }

    /** The decision is the one that the past requests call for; old windows are dropped above a size. */
    method Check(now: real, key: string, limit: int) returns (decision: Decision, resetAfter: int)
      requires Valid(now)
      modifies this
      ensures past == old(past) + [Request(now, key, limit)]
      ensures forall later | later >= now :: Valid(later)
      ensures decision == InMemoryDecision(width, old(past), Request(now, key, limit))
      ensures resetAfter == ResetAfter(width, now)
      ensures |entries| > MAX_ENTRIES ==>
        entries == old(entries) || forall k | k in entries :: entries[k].0 == Window(width, now)
    {
      hide Granted, Window, ResetAfter;
      ghost var r, before, was := Request(now, key, limit), past, entries;
      var window := Window(width, now);
      resetAfter := ResetAfter(width, now);
      var entry := if key in entries then entries[key] else (window, 0);
      var count := if entry.0 != window then 0 else entry.1;
      if count >= limit {
        decision := Deny(limit);
      } else {
        count := count + 1;
        entries := entries[key := (window, count)];
        if |entries| > MAX_ENTRIES {
          entries := OnlyWindow(entries, window);
        }
        decision := Allow(limit, count);
      }
      past := past + [r];
      RemembersStep(width, was, before, r, entries);
      forall later | later >= now ensures Valid(later) {
        WindowMonotonic(width, now, later);
        RemembersLater(width, entries, past, window, Window(width, later));
      }
    }
  }

  // ---------------------------------------------------------------- Redis

  datatype Counter = Counter(count: nat, expireAt: real)

  /** What `INCR` finds under a key: an expired counter is gone. */
  function Live(counters: map<(int, string), Counter>, name: (int, string), now: real): nat {
    if name in counters && now < counters[name].expireAt then counters[name].count else 0
  }

  /** For the current and all later windows the counters hold the number of requests and outlast the window. */
  ghost predicate Counts(width: nat, counters: map<(int, string), Counter>, past: seq<Request>, window: int)
    requires width > 0
  {
    forall key, w | w >= window ::
      if (w, key) in counters
      then
        && counters[(w, key)].count == Earlier(width, past, key, w)
        && counters[(w, key)].expireAt >= ((w + 1) * width) as real
      else Earlier(width, past, key, w) == 0
  }

  lemma CountsLater(width: nat, counters: map<(int, string), Counter>, past: seq<Request>, window: int, later: int)
    requires width > 0 && Counts(width, counters, past, window) && window <= later
    ensures Counts(width, counters, past, later)
  {
  }

  /** The counter of the current window has not expired. */
  lemma LiveIsEarlier(width: nat, counters: map<(int, string), Counter>, past: seq<Request>, now: real, key: string)
    requires width > 0 && Counts(width, counters, past, Window(width, now))
    ensures Live(counters, (Window(width, now), key), now) == Earlier(width, past, key, Window(width, now))
  {
    hide Earlier, Window;
    WindowHolds(width, now);
  }

  /** A counter that is created now expires no earlier than its window ends. */
  lemma OutlastsWindow(width: nat, now: real)
    requires width > 0
    ensures now + ResetAfter(width, now) as real >= ((Window(width, now) + 1) * width) as real
  {
  }

  lemma CountsStep(width: nat, counters: map<(int, string), Counter>, past: seq<Request>, r: Request, expireAt: real)
    requires width > 0 && Counts(width, counters, past, Window(width, r.now))
    requires var window := Window(width, r.now);
      expireAt >= ((window + 1) * width) as real
      || ((window, r.key) in counters && expireAt == counters[(window, r.key)].expireAt)
    ensures var window := Window(width, r.now);
      var counter := Counter(Earlier(width, past, r.key, window) + 1, expireAt);
      Counts(width, counters[(window, r.key) := counter], past + [r], window)
  {
    hide Earlier, Window;
    var window := Window(width, r.now);
    var after := counters[(window, r.key) := Counter(Earlier(width, past, r.key, window) + 1, expireAt)];
    forall key, w | w >= window
      ensures if (w, key) in after
        then
          && after[(w, key)].count == Earlier(width, past + [r], key, w)
          && after[(w, key)].expireAt >= ((w + 1) * width) as real
        else Earlier(width, past + [r], key, w) == 0
    {
      EarlierLast(width, past, r, key, w);
    }
  }

  class RedisFixedWindowRateLimiter {
    var counters: map<(int, string), Counter>
    const width: nat
    ghost var past: seq<Request>

    ghost predicate Valid(now: real)
      reads this
    {
      width > 0 && Follows(past, now) && Counts(width, counters, past, Window(width, now))
    }

    constructor (width: nat)
      requires width > 0
      ensures this.width == width && past == [] && forall now :: Valid(now)
    {
      this.width := width;
      counters, past := map[], [];
    }

    /** The script: the counter after one more request; a first request also sets when it expires. */
    method Increment(name: (int, string), now: real, seconds: int) returns (count: nat)
      modifies this`counters
      ensures count == old(Live(counters, name, now)) + 1
      ensures counters == old(counters)[name := Counter(count,
        if count == 1 then now + seconds as real else old(counters)[name].expireAt)]
    {
      count := Live(counters, name, now) + 1;
      var expireAt := if count == 1 then now + seconds as real else counters[name].expireAt;
      counters := counters[name := Counter(count, expireAt)];
    }

    /** `ttl` is the remaining time that the server reports. */
    method Check(now: real, key: string, limit: int, ttl: int) returns (decision: Decision, resetAfter: int)
      requires Valid(now)
      modifies this
      ensures past == old(past) + [Request(now, key, limit)]
      ensures forall later | later >= now :: Valid(later)
      ensures decision == RedisDecision(width, old(past), Request(now, key, limit))
      ensures resetAfter == if ttl > 0 then ttl else ResetAfter(width, now)
    {
      hide Earlier, Window, ResetAfter;
      ghost var r, before := Request(now, key, limit), past;
      var window := Window(width, now);
      resetAfter := ResetAfter(width, now);
      LiveIsEarlier(width, counters, past, now, key);
      OutlastsWindow(width, now);
      CountsStep(width, counters, past, r, now + resetAfter as real);
      if (window, key) in counters {
        CountsStep(width, counters, past, r, counters[(window, key)].expireAt);
      }
      var count := Increment((window, key), now, resetAfter);
      if ttl > 0 {
        resetAfter := ttl;
      }
      decision := if count > limit then Deny(limit) else Allow(limit, count);
      past := past + [r];
      forall later | later >= now ensures Valid(later) {
        WindowMonotonic(width, now, later);
        CountsLater(width, counters, past, window, Window(width, later));
      }
    }
  }

  // ---------------------------------------------------------------- the two schemes agree

  /** Both limiters, each on its own counts, answer every request of a sequence the same way. */
  ghost predicate Agree(width: nat, requests: seq<Request>)
    requires width > 0
  {
    forall i | 0 <= i < |requests| ::
      InMemoryDecision(width, requests[..i], requests[i]) == RedisDecision(width, requests[..i], requests[i])
  }

  function EarlierThan(width: nat, requests: seq<Request>, i: nat): nat
    requires width > 0 && i < |requests|
  {
    Earlier(width, requests[..i], requests[i].key, Window(width, requests[i].now))
  }

  predicate SameBucketAs(width: nat, r: Request, other: Request)
    requires width > 0
  {
    SameBucket(width, r, other.key, Window(width, other.now))
  }

  /**
   Once as many requests of a bucket came as the limit of one of them, no later request of that
   bucket has a limit above that number. Limits that depend on the key alone are like that.
   */
  ghost predicate SteadyLimits(width: nat, requests: seq<Request>)
    requires width > 0
  {
    forall j: nat, i: nat | j < i < |requests| && SameBucketAs(width, requests[j], requests[i]) ::
      requests[j].limit <= EarlierThan(width, requests, j) ==> requests[i].limit <= EarlierThan(width, requests, j)
  }

  lemma {:induction false} EarlierGrows(width: nat, requests: seq<Request>, i: nat, n: nat, key: string, window: int)
    requires width > 0 && i <= n <= |requests|
    ensures Earlier(width, requests[..i], key, window) <= Earlier(width, requests[..n], key, window)
    ensures i < n && SameBucket(width, requests[i], key, window) ==>
      Earlier(width, requests[..i], key, window) < Earlier(width, requests[..n], key, window)
    decreases n - i
  {
    if i < n {
      assert requests[..i + 1] == requests[..i] + [requests[i]];
      EarlierLast(width, requests[..i], requests[i], key, window);
      EarlierGrows(width, requests, i + 1, n, key, window);
    }
  }

  lemma {:induction false} GrantedAtMostEarlier(width: nat, past: seq<Request>, key: string, window: int)
    requires width > 0
    ensures Granted(width, past, key, window) <= Earlier(width, past, key, window)
  {
    if past != [] { GrantedAtMostEarlier(width, past[..|past| - 1], key, window); }
  }

  /** Where the limiters agree, a refusal freezes the number of allowed requests. */
  lemma {:induction false} AgreeFreezes(width: nat, requests: seq<Request>, n: nat, j: nat, key: string, window: int)
    requires width > 0 && Agree(width, requests) && j < n <= |requests|
    requires SameBucket(width, requests[j], key, window)
    requires requests[j].limit <= Earlier(width, requests[..j], key, window)
    ensures Granted(width, requests[..n], key, window) <= Earlier(width, requests[..j], key, window)
  {
    hide Earlier, Granted, Window;
    var i := n - 1;
    assert requests[..n] == requests[..i] + [requests[i]];
    GrantedLast(width, requests[..i], requests[i], key, window);
    GrantedAtMostEarlier(width, requests[..i], key, window);
    assert InMemoryDecision(width, requests[..i], requests[i]) == RedisDecision(width, requests[..i], requests[i]);
    if j < i {
      AgreeFreezes(width, requests, i, j, key, window);
      EarlierGrows(width, requests, j, i, key, window);
    }
  }

  lemma AgreeingLimitsAreSteady(width: nat, requests: seq<Request>)
    requires width > 0 && Agree(width, requests)
    ensures SteadyLimits(width, requests)
  {
    hide Earlier, Granted, Window;
    forall j: nat, i: nat | j < i < |requests| && SameBucketAs(width, requests[j], requests[i])
        && requests[j].limit <= EarlierThan(width, requests, j)
      ensures requests[i].limit <= EarlierThan(width, requests, j)
    {
      var key, window := requests[i].key, Window(width, requests[i].now);
      AgreeFreezes(width, requests, i, j, key, window);
      EarlierGrows(width, requests, j, i, key, window);
      assert InMemoryDecision(width, requests[..i], requests[i]) == RedisDecision(width, requests[..i], requests[i]);
    }
  }

  /** With steady limits all requests of a bucket are allowed up to some refused one, and none after it. */
  lemma {:induction false} SteadyFreezes(width: nat, requests: seq<Request>, n: nat, key: string, window: int)
    requires width > 0 && SteadyLimits(width, requests) && n <= |requests|
    ensures Granted(width, requests[..n], key, window) == Earlier(width, requests[..n], key, window)
      || exists j: nat :: (
        && j < n && SameBucket(width, requests[j], key, window)
        && requests[j].limit <= Earlier(width, requests[..j], key, window)
        && Granted(width, requests[..n], key, window) == Earlier(width, requests[..j], key, window))
  {
    if n > 0 {
      hide Earlier, Granted, Window;
      var i := n - 1;
      SteadyFreezes(width, requests, i, key, window);
      assert requests[..n] == requests[..i] + [requests[i]];
      GrantedLast(width, requests[..i], requests[i], key, window);
      EarlierLast(width, requests[..i], requests[i], key, window);
      if SameBucket(width, requests[i], key, window)
        && Granted(width, requests[..i], key, window) != Earlier(width, requests[..i], key, window) {
        var j: nat :| j < i && SameBucket(width, requests[j], key, window)
          && requests[j].limit <= Earlier(width, requests[..j], key, window)
          && Granted(width, requests[..i], key, window) == Earlier(width, requests[..j], key, window);
        assert requests[j].limit <= EarlierThan(width, requests, j);
      }
    }
  }

  lemma SteadyLimitsAgree(width: nat, requests: seq<Request>)
    requires width > 0 && SteadyLimits(width, requests)
    ensures Agree(width, requests)
  {
    hide Earlier, Granted, Window;
    forall i | 0 <= i < |requests|
      ensures InMemoryDecision(width, requests[..i], requests[i]) == RedisDecision(width, requests[..i], requests[i])
    {
      var key, window := requests[i].key, Window(width, requests[i].now);
      SteadyFreezes(width, requests, i, key, window);
      if Granted(width, requests[..i], key, window) != Earlier(width, requests[..i], key, window) {
        var j: nat :| j < i && SameBucket(width, requests[j], key, window)
          && requests[j].limit <= Earlier(width, requests[..j], key, window)
          && Granted(width, requests[..i], key, window) == Earlier(width, requests[..j], key, window);
        EarlierGrows(width, requests, j, i, key, window);
        assert requests[j].limit <= EarlierThan(width, requests, j);
      }
    }
  }

  /** The limiters agree on a sequence of requests exactly when its limits are steady. */
  lemma LimitersAgreeExactly(width: nat, requests: seq<Request>)
    requires width > 0
    ensures Agree(width, requests) <==> SteadyLimits(width, requests)
  {
    hide Agree, SteadyLimits;
    if Agree(width, requests) { AgreeingLimitsAreSteady(width, requests); }
    if SteadyLimits(width, requests) { SteadyLimitsAgree(width, requests); }
  }

  /** A limit that rises after a refusal: the third of these requests is answered differently. */
  lemma RisingLimitDisagrees() returns (requests: seq<Request>)
    ensures Nondecreasing(requests) && forall i | 0 <= i < |requests| :: requests[i].limit >= 1
    ensures !Agree(60, requests)
  {
    hide Agree;
    requests := [Request(0.0, "k", 1), Request(0.0, "k", 1), Request(0.0, "k", 2)];
    assert SameBucketAs(60, requests[1], requests[2]);
    assert requests[..1] == [requests[0]] && requests[..1][..0] == [];
    assert Earlier(60, [], "k", Window(60, 0.0)) == 0 && EarlierThan(60, requests, 1) == 1;
    assert !SteadyLimits(60, requests);
    LimitersAgreeExactly(60, requests);
  }

  /** The limit depends on the key alone, as the middleware's profiles make it. */
  ghost predicate FixedLimits(requests: seq<Request>, limit: string -> int) {
    forall i | 0 <= i < |requests| :: requests[i].limit == limit(requests[i].key)
  }

  /** Then the limiters agree, and each allows exactly the first `limit` requests of a key and window. */
  lemma FirstRequestsAllowed(width: nat, requests: seq<Request>, limit: string -> int, i: nat)
    requires width > 0 && FixedLimits(requests, limit) && i < |requests|
    ensures Agree(width, requests)
    ensures InMemoryDecision(width, requests[..i], requests[i]).allowed <==>
      EarlierThan(width, requests, i) < limit(requests[i].key)
    ensures RedisDecision(width, requests[..i], requests[i]).allowed <==>
      EarlierThan(width, requests, i) < limit(requests[i].key)
    ensures RedisDecision(width, requests[..i], requests[i]).remaining ==
      Max(0, limit(requests[i].key) - EarlierThan(width, requests, i) - 1)
  {
    hide Earlier, Granted, Window;
    assert SteadyLimits(width, requests);
    SteadyLimitsAgree(width, requests);
    assert InMemoryDecision(width, requests[..i], requests[i]) == RedisDecision(width, requests[..i], requests[i]);
  }

  // ---------------------------------------------------------------- bursts

  /** How many requests of a key the in-memory limiter allowed in a half-open interval of time. */
  function AllowedBetween(width: nat, past: seq<Request>, key: string, from: real, to: real): nat
    requires width > 0
  {
    if past == [] then 0
    else
      var before, last := past[..|past| - 1], past[|past| - 1];
      AllowedBetween(width, before, key, from, to)
      + (if last.key == key && from <= last.now < to && InMemoryDecision(width, before, last).allowed then 1 else 0)
  }

  function AllowedByRedisBetween(width: nat, past: seq<Request>, key: string, from: real, to: real): nat
    requires width > 0
  {
    if past == [] then 0
    else
      var before, last := past[..|past| - 1], past[|past| - 1];
      AllowedByRedisBetween(width, before, key, from, to)
      + (if last.key == key && from <= last.now < to && RedisDecision(width, before, last).allowed then 1 else 0)
  }

  /** An interval as long as a window touches at most two windows. */
  lemma TwoWindows(width: nat, from: real, now: real)
    requires width > 0 && from <= now < from + width as real
    ensures Window(width, now) == Window(width, from) || Window(width, now) == Window(width, from) + 1
  {
    WindowMonotonic(width, from, now);
    WindowHolds(width, from);
    assert (Window(width, from) + 1) * width + width == (Window(width, from) + 2) * width;
    WindowBelow(width, now, Window(width, from) + 2);
  }

  lemma {:induction false} AllowedFromTwoWindows(width: nat, past: seq<Request>, key: string, from: real)
    requires width > 0
    ensures var window := Window(width, from);
      AllowedBetween(width, past, key, from, from + width as real)
        <= Granted(width, past, key, window) + Granted(width, past, key, window + 1)
  {
    hide Window;
    if past != [] {
      AllowedFromTwoWindows(width, past[..|past| - 1], key, from);
      var now := past[|past| - 1].now;
      if from <= now < from + width as real { TwoWindows(width, from, now); }
    }
  }

  lemma {:induction false} GrantedWithinLimit(width: nat, past: seq<Request>, key: string, window: int, limit: nat)
    requires width > 0 && forall i | 0 <= i < |past| && past[i].key == key :: past[i].limit <= limit
    ensures Granted(width, past, key, window) <= limit
  {
    if past != [] { GrantedWithinLimit(width, past[..|past| - 1], key, window, limit); }
  }

  /** Whatever Redis allows, counting every request, the in-memory limiter allows too. */
  lemma {:induction false} RedisIsStricter(width: nat, past: seq<Request>, key: string, from: real, to: real)
    requires width > 0
    ensures AllowedByRedisBetween(width, past, key, from, to) <= AllowedBetween(width, past, key, from, to)
  {
    hide Earlier, Granted, Window;
    if past != [] {
      var before, last := past[..|past| - 1], past[|past| - 1];
      RedisIsStricter(width, before, key, from, to);
      GrantedAtMostEarlier(width, before, last.key, Window(width, last.now));
    }
  }

  /** In any half-open interval of one window length at most twice the limit is allowed. */
  lemma BurstAtMostTwice(width: nat, past: seq<Request>, key: string, from: real, limit: nat)
    requires width > 0 && forall i | 0 <= i < |past| && past[i].key == key :: past[i].limit <= limit
    ensures AllowedBetween(width, past, key, from, from + width as real) <= 2 * limit
    ensures AllowedByRedisBetween(width, past, key, from, from + width as real) <= 2 * limit
  {
    hide AllowedBetween, AllowedByRedisBetween, Granted, Window;
    AllowedFromTwoWindows(width, past, key, from);
    GrantedWithinLimit(width, past, key, Window(width, from), limit);
    GrantedWithinLimit(width, past, key, Window(width, from) + 1, limit);
    RedisIsStricter(width, past, key, from, from + width as real);
  }
}
