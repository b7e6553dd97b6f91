/** What the rate limiter grants, in numbers: the credit buckets decide like a meter that keeps one point in time,
    for every list of request times of an address. */
module RateLimitService {
  import opened RateLimit
  import opened RateLimitBound

  // ----- the numbers -----

  /** One request per this many nanoseconds, and this many at once. */
  function Pace(perMin: nat): int
    requires perMin > 0
  {
    60_000_000_000 / perMin
  }

  function AtOnce(perMin: nat): nat {
    if perMin < 18 then 2 else if perMin >= 120 then 20 else perMin / 6
  }

  lemma NumbersAre(perMin: nat)
    requires perMin > 0
    ensures Interval(perMin) == Pace(perMin) && Burst(perMin) == AtOnce(perMin) >= 2
    ensures Capacity(perMin) == AtOnce(perMin) * Pace(perMin)
    ensures perMin * Interval(perMin) <= 60_000_000_000 < perMin * (Interval(perMin) + 1)
    ensures perMin < 18 ==> Burst(perMin) == 2
    ensures perMin >= 120 ==> Burst(perMin) == 20
    ensures 18 <= perMin < 120 ==> 6 * Burst(perMin) <= perMin < 6 * Burst(perMin) + 6
  {
    Division(60_000_000_000, perMin);
  }

  lemma Division(n: int, d: int)
    requires d > 0
    ensures d * (n / d) <= n < d * (n / d + 1)
  {
  }

  /** A sweep at a time drops exactly the limiters not fetched for more than ten minutes, and no other part of the
      state. */
  lemma SweepInNumbers(w: World, at: int)
    ensures Swept(w, at).buckets == w.buckets && Swept(w, at).pending == w.pending && Swept(w, at).nextId == w.nextId
    ensures forall ip :: ip in Swept(w, at).limiters <==> ip in w.limiters && at - w.limiters[ip].last <= 600_000_000_000
    ensures forall ip :: ip in Swept(w, at).limiters ==> Swept(w, at).limiters[ip] == w.limiters[ip]
  {
  }

  // ----- the meter -----

  function Later(a: int, b: int): int {
    if a < b then b else a
  }

  /** due is when the address will have paid for all requests admitted; a request is admitted when at most the price
      of all but one of those possible at once is then outstanding, and moves due on by one price. */
  function Metered(pace: int, atOnce: nat, due: int, times: seq<int>): seq<bool>
    decreases |times|
  {
    if times == [] then []
    else if due - times[0] <= (atOnce - 1) * pace then
      [true] + Metered(pace, atOnce, Later(due, times[0]) + pace, times[1..])
    else [false] + Metered(pace, atOnce, due, times[1..])
  }

  /** Requests of one address, each asking the limiter as soon as it has fetched it. */
  function Requests(ip: IP, times: seq<int>, first: nat): seq<Event>
    decreases |times|
  {
    if times == [] then [] else [Lookup(first, ip, times[0]), Decide(first, times[0])] + Requests(ip, times[1..], first + 1)
  }

  function Answers(ip: IP, times: seq<int>, oks: seq<bool>): seq<Decision>
    requires |oks| == |times|
  {
    seq(|times|, i requires 0 <= i < |times| => Decision(ip, times[i], oks[i]))
  }

  lemma {:induction false} MeteredLength(pace: int, atOnce: nat, due: int, times: seq<int>)
    ensures |Metered(pace, atOnce, due, times)| == |times|
    decreases |times|
  {
    if times != [] {
      MeteredLength(pace, atOnce, Later(due, times[0]) + pace, times[1..]);
      MeteredLength(pace, atOnce, due, times[1..]);
    }
  }

  ghost predicate Nondecreasing(times: seq<int>) {
    forall i, j :: 0 <= i < j < |times| ==> times[i] <= times[j]
  }

  /** When the bucket will be full. */
  function Due(perMin: nat, b: Bucket): int
    requires perMin > 0
  {
    b.last + Capacity(perMin) - b.credit
  }

  /** One request on a bucket. */
  lemma OneAsked(perMin: nat, b: Bucket, at: int)
    requires perMin > 0 && Sound(Capacity(perMin), b, at)
    ensures Allows(perMin, b, at) <==> Due(perMin, b) - at <= (AtOnce(perMin) - 1) * Pace(perMin)
    ensures Due(perMin, Spend(perMin, b, at)) ==
            if Allows(perMin, b, at) then Later(Due(perMin, b), at) + Pace(perMin) else Due(perMin, b)
    ensures Sound(Capacity(perMin), Spend(perMin, b, at), at)
  {
    NumbersAre(perMin);
    FullWithinTwoMinutes(perMin);
    OneLess(AtOnce(perMin), Pace(perMin));
    hide Interval, Capacity, Burst, AtOnce, Pace;
  }

  lemma OneLess(n: nat, p: int)
    ensures (n - 1) * p == n * p - p
  {
  }

  lemma DecideStep(perMin: nat, w: World, req: nat, at: int, es: seq<Event>)
    requires perMin > 0 && req in w.pending && w.pending[req].id in w.buckets
    ensures Decisions(perMin, w, [Decide(req, at)] + es)
         == [Decision(w.pending[req].ip, at, Allows(perMin, w.buckets[w.pending[req].id], at))]
            + Decisions(perMin, Decided(perMin, w, req, at), es)
  {
    hide Decided, Allows;
    assert ([Decide(req, at)] + es)[1..] == es;
  }

  /** One request, from fetching the limiter to its answer. */
  lemma OneRequest(perMin: nat, w: World, req: nat, ip: IP, at: int, es: seq<Event>) returns (w': World, b: Bucket)
    requires perMin > 0
    requires ip in w.limiters ==> w.limiters[ip].id in w.buckets && Sound(Capacity(perMin), w.buckets[w.limiters[ip].id], at)
    ensures b == if ip in w.limiters then w.buckets[w.limiters[ip].id] else Bucket(Capacity(perMin), at)
    ensures Decisions(perMin, w, [Lookup(req, ip, at), Decide(req, at)] + es)
         == [Decision(ip, at, Allows(perMin, b, at))] + Decisions(perMin, w', es)
    ensures ip in w'.limiters && w'.limiters[ip].id in w'.buckets && w'.buckets[w'.limiters[ip].id] == Spend(perMin, b, at)
  {
    hide Capacity, Allows, Spend, Decisions;
    var mid := Looked(perMin, w, req, ip, at);
    b := if ip in w.limiters then w.buckets[w.limiters[ip].id] else Bucket(Capacity(perMin), at);
    assert [Lookup(req, ip, at), Decide(req, at)] + es == [Lookup(req, ip, at)] + ([Decide(req, at)] + es);
    LookupStep(perMin, w, req, ip, at, [Decide(req, at)] + es);
    DecideStep(perMin, mid, req, at, es);
    w' := Decided(perMin, mid, req, at);
  }

  lemma AnswersHead(ip: IP, t: int, times: seq<int>, ok: bool, oks: seq<bool>)
    requires |oks| == |times|
    ensures Answers(ip, [t] + times, [ok] + oks) == [Decision(ip, t, ok)] + Answers(ip, times, oks)
  {
  }

  /** The meter takes a request like the bucket. */
  lemma MeteredHead(perMin: nat, b: Bucket, t: int, rest: seq<int>)
    requires perMin > 0 && Sound(Capacity(perMin), b, t) && (rest != [] ==> t <= rest[0])
    ensures var b' := Spend(perMin, b, t);
            && Metered(Pace(perMin), AtOnce(perMin), Due(perMin, b), [t] + rest)
            == [Allows(perMin, b, t)] + Metered(Pace(perMin), AtOnce(perMin), Due(perMin, b'), rest)
            && (rest != [] ==> Sound(Capacity(perMin), b', rest[0]))
  {
    OneAsked(perMin, b, t);
    hide Capacity, Allows, Spend, Pace, AtOnce, Sound;
    assert ([t] + rest)[1..] == rest;
    if rest != [] {
      SoundLater(Capacity(perMin), Spend(perMin, b, t), t, rest[0]);
    }
  }

  /** What the middleware has for an address fits a meter due at this time. */
  predicate Fits(perMin: nat, w: World, ip: IP, times: seq<int>, due: int)
    requires perMin > 0
  {
    if ip in w.limiters then
      && w.limiters[ip].id in w.buckets
      && (times != [] ==> Sound(Capacity(perMin), w.buckets[w.limiters[ip].id], times[0]))
      && due == Due(perMin, w.buckets[w.limiters[ip].id])
    else times != [] ==> due == times[0]
  }

  lemma FirstBucket(perMin: nat, w: World, ip: IP, times: seq<int>, due: int)
    requires perMin > 0 && times != [] && Fits(perMin, w, ip, times, due)
    ensures var b := if ip in w.limiters then w.buckets[w.limiters[ip].id] else Bucket(Capacity(perMin), times[0]);
            Sound(Capacity(perMin), b, times[0]) && Due(perMin, b) == due
  {
    FullWithinTwoMinutes(perMin);
    FullBucket(Capacity(perMin), times[0]);
    hide Capacity, Sound;
  }

  lemma {:induction false} MeteredFrom(perMin: nat, w: World, ip: IP, times: seq<int>, first: nat, due: int)
    requires perMin > 0 && Nondecreasing(times) && Fits(perMin, w, ip, times, due)
    ensures |Metered(Pace(perMin), AtOnce(perMin), due, times)| == |times|
    ensures Decisions(perMin, w, Requests(ip, times, first))
         == Answers(ip, times, Metered(Pace(perMin), AtOnce(perMin), due, times))
    decreases |times|
  {
    MeteredLength(Pace(perMin), AtOnce(perMin), due, times);
    if times != [] {
      var t, rest := times[0], times[1..];
      assert times == [t] + rest;
      hide Capacity, Allows, Spend, Decisions, Pace, AtOnce, Interval, Sound, Metered, Due, Answers;
      FirstBucket(perMin, w, ip, times, due);
      var w', b := OneRequest(perMin, w, first, ip, t, Requests(ip, rest, first + 1));
      MeteredHead(perMin, b, t, rest);
      var due' := Due(perMin, Spend(perMin, b, t));
      MeteredFrom(perMin, w', ip, rest, first + 1, due');
      AnswersHead(ip, t, rest, Allows(perMin, b, t), Metered(Pace(perMin), AtOnce(perMin), due', rest));
    }
  }

  lemma SoundLater(cap: int, b: Bucket, now: int, later: int)
    requires Sound(cap, b, now) && now <= later
    ensures Sound(cap, b, later)
  {
  }

  /** Main result: whatever the times at which an address makes its requests, the middleware answers them like the
      meter, with a pace of one request per 60 s / perMin and 2 to 20 requests at once. */
  lemma ServedByTheMeter(perMin: nat, ip: IP, times: seq<int>)
    requires perMin > 0 && Nondecreasing(times) && times != []
    ensures |Metered(Pace(perMin), AtOnce(perMin), times[0], times)| == |times|
    ensures Decisions(perMin, START, Requests(ip, times, 0))
         == Answers(ip, times, Metered(Pace(perMin), AtOnce(perMin), times[0], times))
  {
    MeteredFrom(perMin, START, ip, times, 0, times[0]);
  }

  // ----- bursts and refills -----

  /** n requests at the same time. */
  function Together(n: nat, at: int): (times: seq<int>)
    ensures |times| == n && forall i :: 0 <= i < n ==> times[i] == at
  {
    seq(n, _ => at)
  }

  function FirstOf(n: nat, ok: nat): (oks: seq<bool>)
    ensures |oks| == n
  {
    seq(n, i => i < ok)
  }

  /** The k-th to n-th of n requests at the same time, k having been admitted before. */
  lemma {:induction false} BurstMetered(pace: int, atOnce: nat, at: int, k: nat, n: nat, rest: seq<int>)
    requires pace > 0 && k <= atOnce && atOnce <= k + n
    ensures Metered(pace, atOnce, at + k * pace, Together(n, at) + rest)
         == FirstOf(n, atOnce - k) + Metered(pace, atOnce, at + atOnce * pace, rest)
    decreases n
  {
    if n == 0 {
      assert Together(n, at) + rest == rest && FirstOf(n, 0) == [];
    } else {
      assert Together(n, at) + rest == [at] + (Together(n - 1, at) + rest);
      assert (Together(n, at) + rest)[1..] == Together(n - 1, at) + rest;
      if k < atOnce {
        AtMost(k, atOnce - 1, pace);
        assert (k + 1) * pace == k * pace + pace;
        BurstMetered(pace, atOnce, at, k + 1, n - 1, rest);
        assert FirstOf(n, atOnce - k) == [true] + FirstOf(n - 1, atOnce - (k + 1));
      } else {
        OneLess(atOnce, pace);
        DeniedMetered(pace, atOnce, at, n, rest);
        assert FirstOf(n, 0) == seq(n, _ => false);
      }
    }
  }

  lemma AtMost(k: nat, m: nat, pace: int)
    requires k <= m && pace > 0
    ensures 0 <= k * pace <= m * pace
  {
  }

  lemma {:induction false} DeniedMetered(pace: int, atOnce: nat, at: int, n: nat, rest: seq<int>)
    requires pace > 0
    ensures Metered(pace, atOnce, at + atOnce * pace, Together(n, at) + rest)
         == seq(n, _ => false) + Metered(pace, atOnce, at + atOnce * pace, rest)
    decreases n
  {
    OneLess(atOnce, pace);
    if n == 0 {
      assert Together(n, at) + rest == rest;
    } else {
      assert (Together(n, at) + rest)[1..] == Together(n - 1, at) + rest;
      DeniedMetered(pace, atOnce, at, n - 1, rest);
      assert seq(n, _ => false) == [false] + seq(n - 1, _ => false);
    }
  }

  /** n requests at each of the next times, one pace apart. */
  function Ticks(pace: int, at: int, n: nat, m: nat): seq<int>
    decreases m
  {
    if m == 0 then [] else Together(n, at + pace) + Ticks(pace, at + pace, n, m - 1)
  }

  function OneEach(n: nat, m: nat): seq<bool>
    decreases m
  {
    if m == 0 then [] else FirstOf(n, 1) + OneEach(n, m - 1)
  }

  lemma {:induction false} TicksMetered(pace: int, atOnce: nat, at: int, n: nat, m: nat)
    requires pace > 0 && atOnce > 0 && n > 0
    ensures Metered(pace, atOnce, at + atOnce * pace, Ticks(pace, at, n, m)) == OneEach(n, m)
    decreases m
  {
    if m > 0 {
      var next := at + pace;
      OneLess(atOnce, pace);
      assert at + atOnce * pace == next + (atOnce - 1) * pace;
      BurstMetered(pace, atOnce, next, atOnce - 1, n, Ticks(pace, next, n, m - 1));
      TicksMetered(pace, atOnce, next, n, m - 1);
    }
  }

  /** Main result: of n simultaneous first requests of an address exactly the first 2 to 20 are admitted, as the rate
      says, and of any further requests at every pace after that exactly the first. */
  lemma BurstThenOneEach(perMin: nat, ip: IP, at: int, n: nat, k: nat, m: nat)
    requires 0 < perMin <= 60_000_000_000 && n >= AtOnce(perMin) && k > 0
    ensures var times := Together(n, at) + Ticks(Pace(perMin), at, k, m);
            && |FirstOf(n, AtOnce(perMin)) + OneEach(k, m)| == |times|
            && Decisions(perMin, START, Requests(ip, times, 0)) == Answers(ip, times, FirstOf(n, AtOnce(perMin)) + OneEach(k, m))
  {
    BurstAndTicks(perMin, at, n, k, m);
    hide Pace, AtOnce, Metered, Ticks, Decisions, Requests, OneEach, Together;
    assert Together(n, at) != [] && Together(n, at)[0] == at;
    ServedByTheMeter(perMin, ip, Together(n, at) + Ticks(Pace(perMin), at, k, m));
  }

  lemma PacePositive(perMin: nat)
    requires 0 < perMin <= 60_000_000_000
    ensures Pace(perMin) > 0 && AtOnce(perMin) >= 2
  {
    Division(60_000_000_000, perMin);
  }

  lemma BurstAndTicks(perMin: nat, at: int, n: nat, k: nat, m: nat)
    requires 0 < perMin <= 60_000_000_000 && n >= AtOnce(perMin) && k > 0
    ensures n > 0 && |Together(n, at)| == n && Together(n, at) + Ticks(Pace(perMin), at, k, m) != []
    ensures Nondecreasing(Together(n, at) + Ticks(Pace(perMin), at, k, m))
    ensures Metered(Pace(perMin), AtOnce(perMin), at, Together(n, at) + Ticks(Pace(perMin), at, k, m))
         == FirstOf(n, AtOnce(perMin)) + OneEach(k, m)
  {
    hide Pace, AtOnce, Metered, Ticks, OneEach, FirstOf;
    PacePositive(perMin);
    TicksInOrder(Pace(perMin), at, k, m);
    BurstMetered(Pace(perMin), AtOnce(perMin), at, 0, n, Ticks(Pace(perMin), at, k, m));
    TicksMetered(Pace(perMin), AtOnce(perMin), at, k, m);
    assert at + 0 * Pace(perMin) == at;
  }

  lemma {:induction false} TicksInOrder(pace: int, at: int, n: nat, m: nat)
    requires pace > 0
    ensures Nondecreasing(Ticks(pace, at, n, m)) && forall i :: 0 <= i < |Ticks(pace, at, n, m)| ==> at <= Ticks(pace, at, n, m)[i]
    decreases m
  {
    if m > 0 {
      TicksInOrder(pace, at + pace, n, m - 1);
    }
  }

  /** At 60 a minute three simultaneous first requests are admitted; at 6 a minute the third is not. */
  lemma ThreeAtOnce(ip: IP, at: int)
    ensures Decisions(60, START, Requests(ip, [at, at, at], 0)) == Answers(ip, [at, at, at], [true, true, true])
    ensures Decisions(6, START, Requests(ip, [at, at, at], 0)) == Answers(ip, [at, at, at], [true, true, false])
  {
    hide Decisions, Requests, Answers;
    assert [at, at, at][1..] == [at, at] && [at, at][1..] == [at] && [at][1..] == [];
    MeteredThree(60, at);
    MeteredThree(6, at);
    hide Metered;
    ServedByTheMeter(60, ip, [at, at, at]);
    ServedByTheMeter(6, ip, [at, at, at]);
  }

  lemma MeteredThree(perMin: nat, at: int)
    requires perMin == 60 || perMin == 6
    ensures Metered(Pace(perMin), AtOnce(perMin), at, [at, at, at]) == [true, true, perMin == 60]
  {
    var p, n := Pace(perMin), AtOnce(perMin);
    assert [at, at, at][1..] == [at, at] && [at, at][1..] == [at] && [at][1..] == [];
    assert p == (if perMin == 60 then 1_000_000_000 else 10_000_000_000) && n == if perMin == 60 then 10 else 2;
    var q := (n - 1) * p;
    assert q == if perMin == 60 then 9_000_000_000 else 10_000_000_000;
    assert Metered(p, n, at + p + p, [at]) == [perMin == 60];
    assert Metered(p, n, at + p, [at, at]) == [true] + Metered(p, n, at + p + p, [at]);
  }
}
