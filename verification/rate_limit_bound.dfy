/** How long a request may take between fetching its limiter and asking it: the exact bound up to which eviction is
    invisible, and a run that shows it beyond. */
module RateLimitBound {
  import opened RateLimit

  // ----- a burst of requests -----

  /** n requests fetch the limiter of ip at the same time. */
  function Looks(n: nat, first: nat, ip: IP, at: int): seq<Event> {
    if n == 0 then [] else [Lookup(first, ip, at)] + Looks(n - 1, first + 1, ip, at)
  }

  /** n requests ask at the same time. */
  function Asks(n: nat, first: nat, at: int): seq<Event> {
    if n == 0 then [] else [Decide(first, at)] + Asks(n - 1, first + 1, at)
  }

  function Grants(n: nat, ip: IP, at: int): (ds: seq<Decision>)
    ensures |ds| == n && forall i :: 0 <= i < n ==> ds[i] == Decision(ip, at, true)
  {
    if n == 0 then [] else [Decision(ip, at, true)] + Grants(n - 1, ip, at)
  }

  /** ip's limiter is id, and the n requests from first on hold it. */
  predicate Holding(w: World, n: nat, first: nat, ip: IP, id: nat, at: int) {
    && ip in w.limiters && w.limiters[ip] == Entry(id, at) && id in w.buckets
    && forall q :: first <= q < first + n ==> q in w.pending && w.pending[q].id == id && w.pending[q].ip == ip
  }

  lemma {:induction false} LooksRun(perMin: nat, w: World, done: nat, n: nat, first: nat, ip: IP, id: nat, at: int, es: seq<Event>)
    returns (w': World)
    requires perMin > 0 && Holding(w, done, first, ip, id, at)
    ensures Decisions(perMin, w, Looks(n, first + done, ip, at) + es) == Decisions(perMin, w', es)
    ensures Holding(w', done + n, first, ip, id, at) && w'.buckets == w.buckets && w'.limiters == w.limiters
    decreases n
  {
    if n == 0 {
      assert Looks(n, first + done, ip, at) + es == es;
      w' := w;
    } else {
      var q := first + done;
      var next := Looked(perMin, w, q, ip, at);
      assert next.limiters == w.limiters;
      w' := LooksRun(perMin, next, done + 1, n - 1, first, ip, id, at, es);
      assert (Looks(n, q, ip, at) + es)[1..] == Looks(n - 1, q + 1, ip, at) + es;
    }
  }

  lemma LookupStep(perMin: nat, w: World, req: nat, ip: IP, at: int, es: seq<Event>)
    requires perMin > 0
    ensures Decisions(perMin, w, [Lookup(req, ip, at)] + es) == Decisions(perMin, Looked(perMin, w, req, ip, at), es)
  {
    hide Looked;
    assert ([Lookup(req, ip, at)] + es)[1..] == es;
  }

  lemma FirstLook(perMin: nat, w: World, first: nat, ip: IP, at: int)
    requires perMin > 0 && ip !in w.limiters
    ensures var w' := Looked(perMin, w, first, ip, at);
            && Holding(w', 1, first, ip, w.nextId, at) && w'.buckets[w.nextId] == Bucket(Capacity(perMin), at)
            && w'.limiters == w.limiters[ip := Entry(w.nextId, at)]
  {
    hide Capacity;
  }

  /** The first of them finds no entry and makes a new, full one. */
  lemma BurstLooks(perMin: nat, w: World, n: nat, first: nat, ip: IP, at: int, es: seq<Event>) returns (w': World)
    requires perMin > 0 && n > 0 && ip !in w.limiters
    ensures Decisions(perMin, w, Looks(n, first, ip, at) + es) == Decisions(perMin, w', es)
    ensures Holding(w', n, first, ip, w.nextId, at) && w'.buckets[w.nextId] == Bucket(Capacity(perMin), at)
    ensures ip in w'.limiters && w'.limiters[ip] == Entry(w.nextId, at)
  {
    hide Capacity, Looked, Decisions, Holding;
    var next := Looked(perMin, w, first, ip, at);
    FirstLook(perMin, w, first, ip, at);
    w' := LooksRun(perMin, next, 1, n - 1, first, ip, w.nextId, at, es);
    LookupStep(perMin, w, first, ip, at, Looks(n - 1, first + 1, ip, at) + es);
    assert Looks(n, first, ip, at) + es == [Lookup(first, ip, at)] + (Looks(n - 1, first + 1, ip, at) + es);
  }

  lemma {:induction false} AsksRun(perMin: nat, w: World, n: nat, first: nat, ip: IP, id: nat, at: int, es: seq<Event>)
    returns (w': World)
    requires perMin > 0 && id in w.buckets && Sound(Capacity(perMin), w.buckets[id], at)
    requires forall q :: first <= q < first + n ==> q in w.pending && w.pending[q].id == id && w.pending[q].ip == ip
    requires Level(Capacity(perMin), w.buckets[id], at) >= n * Interval(perMin)
    ensures Decisions(perMin, w, Asks(n, first, at) + es) == Grants(n, ip, at) + Decisions(perMin, w', es)
    ensures w'.limiters == w.limiters
    decreases n
  {
    hide Capacity, Interval;
    if n == 0 {
      assert Asks(n, first, at) + es == es;
      assert Grants(n, ip, at) + Decisions(perMin, w, es) == Decisions(perMin, w, es);
      w' := w;
    } else {
      var next := Decided(perMin, w, first, at);
      Affordable(perMin, w.buckets[id], n, at);
      w' := AsksRun(perMin, next, n - 1, first + 1, ip, id, at, es);
      assert (Asks(n, first, at) + es)[1..] == Asks(n - 1, first + 1, at) + es;
      assert Grants(n, ip, at) + Decisions(perMin, w', es)
          == [Decision(ip, at, true)] + (Grants(n - 1, ip, at) + Decisions(perMin, w', es));
    }
  }

  lemma Affordable(perMin: nat, b: Bucket, n: nat, at: int)
    requires perMin > 0 && n > 0 && Sound(Capacity(perMin), b, at)
    requires Level(Capacity(perMin), b, at) >= n * Interval(perMin)
    ensures Allows(perMin, b, at)
    ensures Sound(Capacity(perMin), Spend(perMin, b, at), at)
    ensures Level(Capacity(perMin), Spend(perMin, b, at), at) >= (n - 1) * Interval(perMin)
  {
    FullWithinTwoMinutes(perMin);
    hide Capacity, Interval;
    assert n * Interval(perMin) == (n - 1) * Interval(perMin) + Interval(perMin);
    NonNegative(n - 1, Interval(perMin));
  }

  lemma NonNegative(n: nat, i: int)
    requires i >= 0
    ensures n * i >= 0
  {
  }

  // ----- the run -----

  /** A burst that asks delay after fetching, the sweep that evicts its limiter, and a second burst at once. */
  function TwoBursts(b: nat, ip: IP, delay: nat): seq<Event> {
    var later := IDLE + 1;
    Looks(b, 0, ip, 0) + (Asks(b, 0, delay) + ([Sweep(later)] + (Looks(b, b, ip, later) + Asks(b, b, later))))
  }

  /** The evicting map admits both bursts in full. */
  lemma BothAdmitted(perMin: nat, ip: IP, delay: nat)
    requires perMin > 0
    ensures var b := Burst(perMin);
            Decisions(perMin, START, TwoBursts(b, ip, delay)) == Grants(b, ip, delay) + Grants(b, ip, IDLE + 1)
  {
    var b, later := Burst(perMin), IDLE + 1;
    FullWithinTwoMinutes(perMin);
    hide Capacity, Interval, Burst, Looked;
    var second := Looks(b, b, ip, later) + Asks(b, b, later);
    var rest := [Sweep(later)] + second;
    var w1 := BurstLooks(perMin, START, b, 0, ip, 0, Asks(b, 0, delay) + rest);
    FullPays(perMin, Bucket(Capacity(perMin), 0), delay);
    var w2 := AsksRun(perMin, w1, b, 0, ip, 0, delay, rest);
    assert rest[1..] == second;
    var w3 := Swept(w2, later);
    assert ip in Idle(w2, later);
    var w4 := BurstLooks(perMin, w3, b, b, ip, later, Asks(b, b, later));
    FullPays(perMin, Bucket(Capacity(perMin), later), later);
    assert Asks(b, b, later) + [] == Asks(b, b, later);
    var w5 := AsksRun(perMin, w4, b, b, ip, w3.nextId, later, []);
    assert Grants(b, ip, later) + [] == Grants(b, ip, later);
  }

  lemma FullPays(perMin: nat, b: Bucket, at: int)
    requires perMin > 0 && b.credit == Capacity(perMin) && b.last <= at
    ensures Sound(Capacity(perMin), b, at) && Level(Capacity(perMin), b, at) >= Burst(perMin) * Interval(perMin)
  {
    FullWithinTwoMinutes(perMin);
  }

  // ----- the run is well-timed -----

  function Fetched(pending: map<nat, Ticket>, n: nat, first: nat, ip: IP, at: int): map<nat, Ticket>
    decreases n
  {
    if n == 0 then pending else Fetched(pending[first := Ticket(0, ip, at)], n - 1, first + 1, ip, at)
  }

  lemma {:induction false} FetchedIs(pending: map<nat, Ticket>, n: nat, first: nat, ip: IP, at: int)
    ensures forall q: nat :: q in Fetched(pending, n, first, ip, at) <==> q in pending || first <= q < first + n
    ensures forall q: nat :: first <= q < first + n ==> Fetched(pending, n, first, ip, at)[q] == Ticket(0, ip, at)
    decreases n
  {
    if n > 0 {
      FetchedIs(pending[first := Ticket(0, ip, at)], n - 1, first + 1, ip, at);
      Untouched(pending[first := Ticket(0, ip, at)], n - 1, first + 1, ip, at, first);
    }
  }

  lemma {:induction false} Untouched(pending: map<nat, Ticket>, n: nat, first: nat, ip: IP, at: int, q: nat)
    requires q in pending && q < first
    ensures q in Fetched(pending, n, first, ip, at) && Fetched(pending, n, first, ip, at)[q] == pending[q]
    decreases n
  {
    if n > 0 {
      Untouched(pending[first := Ticket(0, ip, at)], n - 1, first + 1, ip, at, q);
    }
  }

  function Answered(pending: map<nat, Ticket>, n: nat, first: nat): map<nat, Ticket>
    decreases n
  {
    if n == 0 then pending else Answered(pending - {first}, n - 1, first + 1)
  }

  lemma {:induction false} AnsweredIs(pending: map<nat, Ticket>, n: nat, first: nat)
    ensures forall q: nat :: q in Answered(pending, n, first) <==> q in pending && !(first <= q < first + n)
    decreases n
  {
    if n > 0 {
      AnsweredIs(pending - {first}, n - 1, first + 1);
    }
  }

  lemma EarlierTimed(lag: nat, pending: map<nat, Ticket>, now: int, at: int, es: seq<Event>)
    requires now <= at && WellTimed(lag, pending, at, es)
    ensures WellTimed(lag, pending, now, es)
  {
  }

  lemma LookupTimed(lag: nat, pending: map<nat, Ticket>, now: int, req: nat, ip: IP, at: int, es: seq<Event>)
    requires now <= at && req !in pending && WellTimed(lag, pending[req := Ticket(0, ip, at)], at, es)
    ensures WellTimed(lag, pending, now, [Lookup(req, ip, at)] + es)
  {
    assert ([Lookup(req, ip, at)] + es)[1..] == es;
  }

  lemma DecideTimed(lag: nat, pending: map<nat, Ticket>, now: int, req: nat, at: int, es: seq<Event>)
    requires now <= at && req in pending && at <= pending[req].at + lag && WellTimed(lag, pending - {req}, at, es)
    ensures WellTimed(lag, pending, now, [Decide(req, at)] + es)
  {
    assert ([Decide(req, at)] + es)[1..] == es;
  }

  lemma {:induction false} LooksTimed(lag: nat, pending: map<nat, Ticket>, now: int, n: nat, first: nat, ip: IP, at: int, es: seq<Event>)
    requires now <= at && forall q :: q in pending ==> q < first
    requires WellTimed(lag, Fetched(pending, n, first, ip, at), at, es)
    ensures WellTimed(lag, pending, now, Looks(n, first, ip, at) + es)
    decreases n
  {
    hide WellTimed;
    if n == 0 {
      assert Looks(n, first, ip, at) + es == es;
      EarlierTimed(lag, pending, now, at, es);
    } else {
      LooksTimed(lag, pending[first := Ticket(0, ip, at)], at, n - 1, first + 1, ip, at, es);
      LookupTimed(lag, pending, now, first, ip, at, Looks(n - 1, first + 1, ip, at) + es);
      assert Looks(n, first, ip, at) + es == [Lookup(first, ip, at)] + (Looks(n - 1, first + 1, ip, at) + es);
    }
  }

  lemma {:induction false} AsksTimed(lag: nat, pending: map<nat, Ticket>, now: int, n: nat, first: nat, at: int, es: seq<Event>)
    requires now <= at
    requires forall q: nat :: first <= q < first + n ==> q in pending && at <= pending[q].at + lag
    requires WellTimed(lag, Answered(pending, n, first), at, es)
    ensures WellTimed(lag, pending, now, Asks(n, first, at) + es)
    decreases n
  {
    hide WellTimed;
    if n == 0 {
      assert Asks(n, first, at) + es == es;
      EarlierTimed(lag, pending, now, at, es);
    } else {
      AsksTimed(lag, pending - {first}, at, n - 1, first + 1, at, es);
      DecideTimed(lag, pending, now, first, at, Asks(n - 1, first + 1, at) + es);
      assert Asks(n, first, at) + es == [Decide(first, at)] + (Asks(n - 1, first + 1, at) + es);
    }
  }

  lemma TwoBurstsTimed(lag: nat, b: nat, ip: IP, delay: nat)
    requires delay <= lag && delay <= IDLE + 1
    ensures WellTimed(lag, map[], 0, TwoBursts(b, ip, delay))
  {
    hide WellTimed;
    var later := IDLE + 1;
    var none: map<nat, Ticket> := map[];
    var asks := Asks(b, b, later);
    var second := Looks(b, b, ip, later) + asks;
    FetchedIs(none, b, b, ip, later);
    FetchedIs(none, b, 0, ip, 0);
    var again, fetched := Fetched(none, b, b, ip, later), Fetched(none, b, 0, ip, 0);
    AnsweredIs(again, b, b);
    AnsweredIs(fetched, b, 0);
    assert Answered(again, b, b) == none && Answered(fetched, b, 0) == none;
    NothingTimed(lag, none, later);
    AsksTimed(lag, again, later, b, b, later, []);
    assert asks + [] == asks;
    LooksTimed(lag, none, later, b, b, ip, later, asks);
    SweepTimed(lag, none, delay, later, second);
    AsksTimed(lag, fetched, 0, b, 0, delay, [Sweep(later)] + second);
    LooksTimed(lag, none, 0, b, 0, ip, 0, Asks(b, 0, delay) + ([Sweep(later)] + second));
  }

  lemma NothingTimed(lag: nat, pending: map<nat, Ticket>, now: int)
    ensures WellTimed(lag, pending, now, [])
  {
  }

  lemma SweepTimed(lag: nat, pending: map<nat, Ticket>, now: int, at: int, es: seq<Event>)
    requires now <= at && WellTimed(lag, pending, at, es)
    ensures WellTimed(lag, pending, now, [Sweep(at)] + es)
  {
    assert ([Sweep(at)] + es)[1..] == es;
  }

  // ----- the bound -----

  lemma {:induction false} AdmittedGrants(n: nat, ip: IP, at: int)
    ensures Admitted(Grants(n, ip, at), ip) == n
  {
    if n > 0 {
      AdmittedGrants(n - 1, ip, at);
      assert Grants(n, ip, at)[1..] == Grants(n - 1, ip, at);
    }
  }

  lemma {:induction false} AdmittedConcat(a: seq<Decision>, b: seq<Decision>, ip: IP)
    ensures Admitted(a + b, ip) == Admitted(a, ip) + Admitted(b, ip)
  {
    if a == [] {
      assert a + b == b;
    } else {
      AdmittedConcat(a[1..], b, ip);
      assert (a + b)[1..] == a[1..] + b;
    }
  }

  /** One bucket that is never evicted cannot pay for both bursts, when less than its capacity comes in between. */
  lemma NotBothPaid(perMin: nat, lag: nat, ip: IP, delay: nat)
    requires perMin > 0 && Interval(perMin) > 0
    requires delay <= lag && IDLE + 1 - Capacity(perMin) < delay <= IDLE + 1
    ensures var b := Burst(perMin);
            Ideal(perMin, FRESH, TwoBursts(b, ip, delay)) != Grants(b, ip, delay) + Grants(b, ip, IDLE + 1)
  {
    var b, later := Burst(perMin), IDLE + 1;
    TwoBurstsTimed(lag, b, ip, delay);
    var es := TwoBursts(b, ip, delay);
    var ds := Grants(b, ip, delay) + Grants(b, ip, later);
    hide TwoBursts;
    if Ideal(perMin, FRESH, es) == ds {
      IdealWindow(perMin, lag, FRESH, 0, es, 0, 2 * b, ip);
      assert ds[0..2 * b] == ds;
      AdmittedConcat(Grants(b, ip, delay), Grants(b, ip, later), ip);
      AdmittedGrants(b, ip, delay);
      AdmittedGrants(b, ip, later);
      Twice(b, Interval(perMin));
      assert false;
    }
  }

  lemma Twice(b: nat, i: int)
    ensures (b + b) * i == b * i + b * i
  {
  }

  /** With an interval of zero nothing is ever denied. */
  lemma {:induction false} Unlimited(perMin: nat, lag: nat, w: World, r: Reference, now: int, es: seq<Event>)
    requires perMin > 0 && Interval(perMin) == 0 && WellTimed(lag, r.pending, now, es)
    requires w.pending.Keys == r.pending.Keys
    requires forall q :: q in w.pending ==> w.pending[q].ip == r.pending[q].ip && w.pending[q].id in w.buckets
    requires forall ip :: ip in w.limiters ==> w.limiters[ip].id in w.buckets
    requires forall id :: id in w.buckets ==> Sound(0, w.buckets[id], now)
    requires forall ip :: ip in r.buckets ==> Sound(0, r.buckets[ip], now)
    ensures Decisions(perMin, w, es) == Ideal(perMin, r, es)
    decreases |es|
  {
    if es != [] {
      assert Capacity(perMin) == 0;
      match es[0] {
        case Lookup(req, ip, at) =>
          Unlimited(perMin, lag, Looked(perMin, w, req, ip, at), r.(pending := r.pending[req := Ticket(0, ip, at)]), at, es[1..]);
        case Decide(req, at) =>
          var ip := r.pending[req].ip;
          var b := BucketOf(perMin, r, ip, at);
          Unlimited(perMin, lag, Decided(perMin, w, req, at),
                    Reference(r.buckets[ip := Spend(perMin, b, at)], r.pending - {req}), at, es[1..]);
        case Sweep(at) =>
          Unlimited(perMin, lag, Swept(w, at), r, at, es[1..]);
      }
    }
  }

  /** Main result: eviction changes no decision in any run in which requests ask within lag of fetching their limiter
      exactly when an idle limiter has time to fill up before it can be evicted, or nothing is limited at all. */
  lemma EvictionInvisibleExactly(perMin: nat, lag: nat)
    requires perMin > 0
    ensures (forall now, es :: WellTimed(lag, map[], now, es) ==> Decisions(perMin, START, es) == Ideal(perMin, FRESH, es)) <==>
            Interval(perMin) == 0 || lag <= IDLE + 1 - Capacity(perMin)
  {
    FullWithinTwoMinutes(perMin);
    if Interval(perMin) == 0 || lag <= IDLE + 1 - Capacity(perMin) {
      forall now, es | WellTimed(lag, map[], now, es)
        ensures Decisions(perMin, START, es) == Ideal(perMin, FRESH, es)
      {
        if Interval(perMin) == 0 {
          Unlimited(perMin, lag, START, FRESH, now, es);
        } else {
          CapacityPositive(perMin);
          StartAgrees(perMin, lag, now);
          EvictionInvisible(perMin, lag, START, FRESH, now, es);
        }
      }
    } else {
      var delay := if lag <= IDLE + 1 then lag else IDLE + 1;
      CapacityPositive(perMin);
      BothAdmitted(perMin, "a", delay);
      NotBothPaid(perMin, lag, "a", delay);
      TwoBurstsTimed(lag, Burst(perMin), "a", delay);
      var es := TwoBursts(Burst(perMin), "a", delay);
      assert WellTimed(lag, map[], 0, es) && Decisions(perMin, START, es) != Ideal(perMin, FRESH, es);
    }
  }

  lemma CapacityPositive(perMin: nat)
    requires perMin > 0 && Interval(perMin) > 0
    ensures Capacity(perMin) >= 1
  {
    FullWithinTwoMinutes(perMin);
  }
}
