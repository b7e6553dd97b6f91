/** The per-IP rate limiter: token buckets in a map from which idle entries are evicted, against buckets that
    are never evicted. Token counts are whole nanoseconds of credit; times are nanoseconds. */
module RateLimit {

  const SECOND: int := 1_000_000_000
  const MINUTE: int := 60 * SECOND
  const IDLE: int := 10 * MINUTE

  function Interval(perMin: nat): int
    requires perMin > 0
  {
    MINUTE / perMin
  }

  function Burst(perMin: nat): int {
    var b := perMin / 6;
    if b < 2 then 2 else if b > 20 then 20 else b
  }

  /** The credit of a full bucket. */
  function Capacity(perMin: nat): int
    requires perMin > 0
  {
    Burst(perMin) * Interval(perMin)
  }

  /** For every rate an empty bucket is full again within two minutes. */
  lemma FullWithinTwoMinutes(perMin: nat)
    requires perMin > 0
    ensures 0 <= Interval(perMin) <= Capacity(perMin) <= 2 * MINUTE
  {
    var i, b := Interval(perMin), Burst(perMin);
    Product(i, perMin);
    if perMin < 12 {
      assert b == 2;
    } else {
      assert b <= perMin;
      Monotone(b, perMin, i);
    }
  }

  lemma Product(i: int, perMin: nat)
    requires perMin > 0 && i == MINUTE / perMin
    ensures 0 <= i <= MINUTE && perMin * i <= MINUTE
  {
  }

  lemma Monotone(b: int, c: int, i: int)
    requires 2 <= b <= c && 0 <= i
    ensures i <= b * i <= c * i
  {
  }

  // ----- one bucket -----

  datatype Bucket = Bucket(credit: int, last: int)

  predicate Sound(cap: int, b: Bucket, now: int) {
    0 <= b.credit <= cap && b.last <= now
  }

  function Level(cap: int, b: Bucket, now: int): int {
    var c := b.credit + (now - b.last);
    if c < cap then c else cap
  }

  predicate Allows(perMin: nat, b: Bucket, now: int)
    requires perMin > 0
  {
    Level(Capacity(perMin), b, now) >= Interval(perMin)
  }

  /** A denied request leaves the bucket alone. */
  function Spend(perMin: nat, b: Bucket, now: int): Bucket
    requires perMin > 0
  {
    if Allows(perMin, b, now) then Bucket(Level(Capacity(perMin), b, now) - Interval(perMin), now) else b
  }

  // ----- the middleware's state -----

  type IP = string

  datatype Entry = Entry(id: nat, last: int)

  datatype Ticket = Ticket(id: nat, ip: IP, at: int)

  /** limiters is the map under the mutex; buckets are the limiter objects, which a request that has fetched
      one (pending) can still use after its eviction. */
  datatype World = World(limiters: map<IP, Entry>, buckets: map<nat, Bucket>, pending: map<nat, Ticket>, nextId: nat)

  datatype Event =
    | Lookup(req: nat, ip: IP, at: int)
    | Decide(req: nat, at: int)
    | Sweep(at: int)

  datatype Decision = Decision(ip: IP, at: int, ok: bool)

  function Looked(perMin: nat, w: World, req: nat, ip: IP, at: int): World
    requires perMin > 0
  {
    if ip in w.limiters then
      var id := w.limiters[ip].id;
      w.(limiters := w.limiters[ip := Entry(id, at)], pending := w.pending[req := Ticket(id, ip, at)])
    else
      World(w.limiters[ip := Entry(w.nextId, at)], w.buckets[w.nextId := Bucket(Capacity(perMin), at)],
            w.pending[req := Ticket(w.nextId, ip, at)], w.nextId + 1)
  }

  function Decided(perMin: nat, w: World, req: nat, at: int): World
    requires perMin > 0 && req in w.pending && w.pending[req].id in w.buckets
  {
    var id := w.pending[req].id;
    w.(buckets := w.buckets[id := Spend(perMin, w.buckets[id], at)], pending := w.pending - {req})
  }

  function Idle(w: World, at: int): set<IP> {
    set ip | ip in w.limiters && at - w.limiters[ip].last > IDLE
  }

  function Swept(w: World, at: int): World {
    w.(limiters := w.limiters - Idle(w, at))
  }

  // ----- the reference: one bucket per address, kept for ever -----

  datatype Reference = Reference(buckets: map<IP, Bucket>, pending: map<nat, Ticket>)

  /** An address never seen has a full bucket. */
  function BucketOf(perMin: nat, r: Reference, ip: IP, at: int): Bucket
    requires perMin > 0
  {
    if ip in r.buckets then r.buckets[ip] else Bucket(Capacity(perMin), at)
  }

  // ----- runs -----

  /** Time does not go back, request numbers are fresh, and a request asks its limiter within lag of fetching it. */
  predicate WellTimed(lag: nat, pending: map<nat, Ticket>, now: int, es: seq<Event>)
    decreases |es|
  {
    es == [] ||
    match es[0]
    case Lookup(req, ip, at) => now <= at && req !in pending && WellTimed(lag, pending[req := Ticket(0, ip, at)], at, es[1..])
    case Decide(req, at) => now <= at && req in pending && at <= pending[req].at + lag && WellTimed(lag, pending - {req}, at, es[1..])
    case Sweep(at) => now <= at && WellTimed(lag, pending, at, es[1..])
  }

  /** The decisions of the evicting middleware. */
  function Decisions(perMin: nat, w: World, es: seq<Event>): seq<Decision>
    requires perMin > 0
    decreases |es|
  {
    if es == [] then []
    else match es[0]
      case Lookup(req, ip, at) => Decisions(perMin, Looked(perMin, w, req, ip, at), es[1..])
      case Decide(req, at) =>
        if req in w.pending && w.pending[req].id in w.buckets then
          [Decision(w.pending[req].ip, at, Allows(perMin, w.buckets[w.pending[req].id], at))]
          + Decisions(perMin, Decided(perMin, w, req, at), es[1..])
        else Decisions(perMin, w, es[1..])
      case Sweep(at) => Decisions(perMin, Swept(w, at), es[1..])
  }

  /** The decisions with nothing ever evicted. */
  function Ideal(perMin: nat, r: Reference, es: seq<Event>): seq<Decision>
    requires perMin > 0
    decreases |es|
  {
    if es == [] then []
    else match es[0]
      case Lookup(req, ip, at) => Ideal(perMin, r.(pending := r.pending[req := Ticket(0, ip, at)]), es[1..])
      case Decide(req, at) =>
        if req in r.pending then
          var ip := r.pending[req].ip;
          var b := BucketOf(perMin, r, ip, at);
          [Decision(ip, at, Allows(perMin, b, at))]
          + Ideal(perMin, Reference(r.buckets[ip := Spend(perMin, b, at)], r.pending - {req}), es[1..])
        else Ideal(perMin, r, es[1..])
      case Sweep(_) => Ideal(perMin, r, es[1..])
  }

  /** Requests that ask this soon after fetching their limiter leave an idle one time to fill up. */
  predicate InTime(perMin: nat, lag: nat)
    requires perMin > 0
  {
    lag <= IDLE && lag <= IDLE + 1 - Capacity(perMin)
  }

  // ----- simulation -----

  /** What the two agree on at time now. */
  ghost predicate Agree(perMin: nat, lag: nat, w: World, r: Reference, now: int)
    requires perMin > 0
  {
    var cap := Capacity(perMin);
    && (forall ip :: ip in r.buckets ==> Sound(cap, r.buckets[ip], now))
    && (forall id :: id in w.buckets ==> id < w.nextId && Sound(cap, w.buckets[id], now))
    // an address in the map: same level, last used by the reference at most lag after its last lookup
    && (forall ip :: ip in w.limiters ==> InMap(perMin, lag, w, r, ip, now))
    && (forall ip, ip' :: ip in w.limiters && ip' in w.limiters && ip != ip' ==> w.limiters[ip].id != w.limiters[ip'].id)
    // an address not in the map: full
    && (forall ip :: ip !in w.limiters && ip in r.buckets ==> Level(cap, r.buckets[ip], now) == cap)
    // a request in flight holds the address's current limiter, or is too late to use it
    && w.pending.Keys == r.pending.Keys
    && (forall q :: q in w.pending ==> InFlight(lag, w, r, q, now))
  }

  ghost predicate InMap(perMin: nat, lag: nat, w: World, r: Reference, ip: IP, now: int)
    requires perMin > 0 && ip in w.limiters
  {
    var e := w.limiters[ip];
    && e.last <= now && e.id in w.buckets
    && (ip in r.buckets ==> r.buckets[ip].last <= e.last + lag)
    && Level(Capacity(perMin), w.buckets[e.id], now) == Level(Capacity(perMin), BucketOf(perMin, r, ip, now), now)
  }

  ghost predicate InFlight(lag: nat, w: World, r: Reference, q: nat, now: int)
    requires q in w.pending
  {
    var k := w.pending[q];
    && q in r.pending && r.pending[q].ip == k.ip && r.pending[q].at == k.at && k.at <= now
    && k.id in w.buckets
    && (now > k.at + lag || (k.ip in w.limiters && w.limiters[k.ip].id == k.id && k.at <= w.limiters[k.ip].last))
  }

  /** Levels agreeing now agree at every later time. */
  lemma LevelLater(cap: int, b: Bucket, now: int, later: int)
    requires b.last <= now <= later
    ensures Level(cap, b, later) == var l := Level(cap, b, now) + (later - now); if l < cap then l else cap
  {
  }

  lemma AgreeLater(perMin: nat, lag: nat, w: World, r: Reference, now: int, later: int)
    requires perMin > 0 && Agree(perMin, lag, w, r, now) && now <= later
    ensures Agree(perMin, lag, w, r, later)
  {
    hide Capacity;
    var cap := Capacity(perMin);
    forall ip | ip in w.limiters
      ensures InMap(perMin, lag, w, r, ip, later)
    {
      assert InMap(perMin, lag, w, r, ip, now);
      LevelLater(cap, w.buckets[w.limiters[ip].id], now, later);
      LevelLater(cap, BucketOf(perMin, r, ip, now), now, later);
    }
    forall ip | ip !in w.limiters && ip in r.buckets
      ensures Level(cap, r.buckets[ip], later) == cap
    {
      LevelLater(cap, r.buckets[ip], now, later);
    }
    forall q | q in w.pending
      ensures InFlight(lag, w, r, q, later)
    {
      assert InFlight(lag, w, r, q, now);
    }
  }

  lemma FullBucket(cap: int, at: int)
    requires cap >= 0
    ensures Level(cap, Bucket(cap, at), at) == cap && Sound(cap, Bucket(cap, at), at)
  {
  }

  function Created(perMin: nat, w: World, ip: IP, at: int): World
    requires perMin > 0
  {
    w.(limiters := w.limiters[ip := Entry(w.nextId, at)], buckets := w.buckets[w.nextId := Bucket(Capacity(perMin), at)],
       nextId := w.nextId + 1)
  }

  lemma CreateAgrees(perMin: nat, lag: nat, w: World, r: Reference, ip: IP, at: int)
    requires perMin > 0 && Agree(perMin, lag, w, r, at) && ip !in w.limiters
    ensures Agree(perMin, lag, Created(perMin, w, ip, at), r, at)
  {
    FullWithinTwoMinutes(perMin);
    FullBucket(Capacity(perMin), at);
    hide Capacity, Level;
    var w' := Created(perMin, w, ip, at);
    forall x | x in w'.limiters
      ensures InMap(perMin, lag, w', r, x, at)
      ensures x != ip ==> x in w.limiters && w'.limiters[x].id != w.nextId
    {
      assert x in w.limiters ==> InMap(perMin, lag, w, r, x, at);
    }
    forall q | q in w'.pending
      ensures InFlight(lag, w', r, q, at)
    {
      assert InFlight(lag, w, r, q, at);
    }
  }

  lemma KnownAgrees(perMin: nat, lag: nat, w: World, r: Reference, req: nat, ip: IP, at: int)
    requires perMin > 0 && Agree(perMin, lag, w, r, at) && req !in w.pending && ip in w.limiters
    ensures Agree(perMin, lag, Looked(perMin, w, req, ip, at), r.(pending := r.pending[req := Ticket(0, ip, at)]), at)
  {
    hide Capacity, Level, Sound;
    var w', r' := Looked(perMin, w, req, ip, at), r.(pending := r.pending[req := Ticket(0, ip, at)]);
    forall x | x in w'.limiters
      ensures InMap(perMin, lag, w', r', x, at)
      ensures x in w.limiters && w'.limiters[x].id == w.limiters[x].id
    {
      assert InMap(perMin, lag, w, r, x, at);
    }
    forall q | q in w'.pending
      ensures InFlight(lag, w', r', q, at)
    {
      assert InMap(perMin, lag, w, r, ip, at);
      assert q in w.pending ==> InFlight(lag, w, r, q, at);
    }
  }

  lemma LookupAgrees(perMin: nat, lag: nat, w: World, r: Reference, req: nat, ip: IP, at: int)
    requires perMin > 0 && Agree(perMin, lag, w, r, at) && req !in w.pending
    ensures Agree(perMin, lag, Looked(perMin, w, req, ip, at), r.(pending := r.pending[req := Ticket(0, ip, at)]), at)
  {
    hide Agree;
    if ip in w.limiters {
      KnownAgrees(perMin, lag, w, r, req, ip, at);
    } else {
      CreateAgrees(perMin, lag, w, r, ip, at);
      KnownAgrees(perMin, lag, Created(perMin, w, ip, at), r, req, ip, at);
      assert w.limiters[ip := Entry(w.nextId, at)][ip := Entry(w.nextId, at)] == w.limiters[ip := Entry(w.nextId, at)];
    }
  }

  lemma SpendAgrees(perMin: nat, b: Bucket, c: Bucket, at: int)
    requires perMin > 0 && Level(Capacity(perMin), b, at) == Level(Capacity(perMin), c, at)
    requires Sound(Capacity(perMin), b, at) && Sound(Capacity(perMin), c, at)
    ensures Allows(perMin, b, at) == Allows(perMin, c, at)
    ensures Sound(Capacity(perMin), Spend(perMin, b, at), at) && Sound(Capacity(perMin), Spend(perMin, c, at), at)
    ensures Level(Capacity(perMin), Spend(perMin, b, at), at) == Level(Capacity(perMin), Spend(perMin, c, at), at)
  {
    FullWithinTwoMinutes(perMin);
  }

  /** Both sides may move to a new state of one address's bucket with the same level. */
  lemma UpdateAgrees(perMin: nat, lag: nat, w: World, r: Reference, ip: IP, b: Bucket, c: Bucket, at: int)
    requires perMin > 0 && Agree(perMin, lag, w, r, at) && ip in w.limiters
    requires Sound(Capacity(perMin), b, at) && Sound(Capacity(perMin), c, at)
    requires Level(Capacity(perMin), b, at) == Level(Capacity(perMin), c, at)
    requires c.last <= w.limiters[ip].last + lag
    ensures Agree(perMin, lag, w.(buckets := w.buckets[w.limiters[ip].id := b]), r.(buckets := r.buckets[ip := c]), at)
  {
    hide Capacity, Level, Sound;
    assert InMap(perMin, lag, w, r, ip, at);
    var w', r' := w.(buckets := w.buckets[w.limiters[ip].id := b]), r.(buckets := r.buckets[ip := c]);
    forall x | x in w'.limiters
      ensures InMap(perMin, lag, w', r', x, at)
    {
      assert InMap(perMin, lag, w, r, x, at);
    }
    forall q | q in w'.pending
      ensures InFlight(lag, w', r', q, at)
    {
      assert InFlight(lag, w, r, q, at);
    }
  }

  lemma DropAgrees(perMin: nat, lag: nat, w: World, r: Reference, req: nat, at: int)
    requires perMin > 0 && Agree(perMin, lag, w, r, at)
    ensures Agree(perMin, lag, w.(pending := w.pending - {req}), r.(pending := r.pending - {req}), at)
  {
    hide Capacity, Level, Sound;
    var w', r' := w.(pending := w.pending - {req}), r.(pending := r.pending - {req});
    forall x | x in w'.limiters
      ensures InMap(perMin, lag, w', r', x, at)
    {
      assert InMap(perMin, lag, w, r, x, at);
    }
    forall q | q in w'.pending
      ensures InFlight(lag, w', r', q, at)
    {
      assert InFlight(lag, w, r, q, at);
    }
  }

  /** A timely request holds its address's current limiter, whose level is the reference's. */
  lemma TimelyTicket(perMin: nat, lag: nat, w: World, r: Reference, req: nat, at: int)
    requires perMin > 0 && Agree(perMin, lag, w, r, at)
    requires req in w.pending && at <= w.pending[req].at + lag
    ensures var k := w.pending[req];
            && req in r.pending && r.pending[req].ip == k.ip
            && k.ip in w.limiters && w.limiters[k.ip].id == k.id && k.id in w.buckets
            && at <= w.limiters[k.ip].last + lag
            && Sound(Capacity(perMin), w.buckets[k.id], at)
            && Sound(Capacity(perMin), BucketOf(perMin, r, k.ip, at), at)
            && Level(Capacity(perMin), w.buckets[k.id], at) == Level(Capacity(perMin), BucketOf(perMin, r, k.ip, at), at)
            && BucketOf(perMin, r, k.ip, at).last <= w.limiters[k.ip].last + lag
  {
    FullWithinTwoMinutes(perMin);
    hide Capacity, Level;
    assert InFlight(lag, w, r, req, at);
    assert InMap(perMin, lag, w, r, w.pending[req].ip, at);
  }

  lemma DecideAgrees(perMin: nat, lag: nat, w: World, r: Reference, req: nat, at: int)
    requires perMin > 0 && Agree(perMin, lag, w, r, at)
    requires req in w.pending && at <= w.pending[req].at + lag
    ensures req in r.pending && w.pending[req].id in w.buckets && w.pending[req].ip == r.pending[req].ip
    ensures var ip := r.pending[req].ip;
            var b := BucketOf(perMin, r, ip, at);
            && Allows(perMin, w.buckets[w.pending[req].id], at) == Allows(perMin, b, at)
            && Agree(perMin, lag, Decided(perMin, w, req, at), Reference(r.buckets[ip := Spend(perMin, b, at)], r.pending - {req}), at)
  {
    hide Capacity, Spend, Allows, Level, Agree, Sound, BucketOf;
    TimelyTicket(perMin, lag, w, r, req, at);
    var ip, id := w.pending[req].ip, w.pending[req].id;
    var b := BucketOf(perMin, r, ip, at);
    SpendAgrees(perMin, w.buckets[id], b, at);
    SpendLast(perMin, b, at);
    var b', c' := Spend(perMin, w.buckets[id], at), Spend(perMin, b, at);
    UpdateAgrees(perMin, lag, w, r, ip, b', c', at);
    DropAgrees(perMin, lag, w.(buckets := w.buckets[id := b']), r.(buckets := r.buckets[ip := c']), req, at);
  }

  lemma SpendLast(perMin: nat, b: Bucket, at: int)
    requires perMin > 0
    ensures Spend(perMin, b, at).last == at || Spend(perMin, b, at) == b
  {
  }

  /** Why eviction is invisible: an evicted address was last served long enough ago to be full again, and no
      request in flight can still be in time to use its old limiter. */
  lemma SweepAgrees(perMin: nat, lag: nat, w: World, r: Reference, at: int)
    requires perMin > 0 && Agree(perMin, lag, w, r, at) && InTime(perMin, lag)
    ensures Agree(perMin, lag, Swept(w, at), r, at)
  {
    FullWithinTwoMinutes(perMin);
    hide Capacity;
    var w' := Swept(w, at);
    forall ip | ip in w'.limiters
      ensures InMap(perMin, lag, w', r, ip, at)
    {
      assert InMap(perMin, lag, w, r, ip, at);
    }
    forall ip | ip !in w'.limiters && ip in r.buckets
      ensures Level(Capacity(perMin), r.buckets[ip], at) == Capacity(perMin)
    {
      if ip in w.limiters {
        assert InMap(perMin, lag, w, r, ip, at);
      }
    }
    forall q | q in w'.pending
      ensures InFlight(lag, w', r, q, at)
    {
      assert InFlight(lag, w, r, q, at);
    }
  }

  /** Over every well-timed run the evicting map takes the decisions of one that never evicts. */
  lemma {:induction false} EvictionInvisible(perMin: nat, lag: nat, w: World, r: Reference, now: int, es: seq<Event>)
    requires perMin > 0 && Agree(perMin, lag, w, r, now) && WellTimed(lag, r.pending, now, es) && InTime(perMin, lag)
    ensures Decisions(perMin, w, es) == Ideal(perMin, r, es)
    decreases |es|
  {
    if es != [] {
      hide Agree, Looked, Decided, Swept, Allows, Spend, BucketOf, Capacity, InTime;
      PendingSame(perMin, lag, w, r, now);
      AgreeLater(perMin, lag, w, r, now, es[0].at);
      match es[0] {
        case Lookup(req, ip, at) =>
          LookupAgrees(perMin, lag, w, r, req, ip, at);
          EvictionInvisible(perMin, lag, Looked(perMin, w, req, ip, at), r.(pending := r.pending[req := Ticket(0, ip, at)]), at, es[1..]);
        case Decide(req, at) =>
          DecideAgrees(perMin, lag, w, r, req, at);
          var ip := r.pending[req].ip;
          var b := BucketOf(perMin, r, ip, at);
          EvictionInvisible(perMin, lag, Decided(perMin, w, req, at),
                            Reference(r.buckets[ip := Spend(perMin, b, at)], r.pending - {req}), at, es[1..]);
        case Sweep(at) =>
          SweepAgrees(perMin, lag, w, r, at);
          EvictionInvisible(perMin, lag, Swept(w, at), r, at, es[1..]);
      }
    }
  }

  lemma PendingSame(perMin: nat, lag: nat, w: World, r: Reference, now: int)
    requires perMin > 0 && Agree(perMin, lag, w, r, now)
    ensures w.pending.Keys == r.pending.Keys
    ensures forall q :: q in w.pending ==> w.pending[q].at == r.pending[q].at
  {
    forall q | q in w.pending
      ensures w.pending[q].at == r.pending[q].at
    {
      assert InFlight(lag, w, r, q, now);
    }
  }

  const START := World(map[], map[], map[], 0)
  const FRESH := Reference(map[], map[])

  lemma StartAgrees(perMin: nat, lag: nat, now: int)
    requires perMin > 0
    ensures Agree(perMin, lag, START, FRESH, now)
  {
  }

  // ----- the admitted rate -----

  /** Admissions of one address among some decisions. */
  function Admitted(ds: seq<Decision>, ip: IP): nat {
    if ds == [] then 0
    else (if ds[0].ip == ip && ds[0].ok then 1 else 0) + Admitted(ds[1..], ip)
  }

  /** Time the reference's decisions may still take, starting now. */
  predicate Ordered(ds: seq<Decision>, now: int) {
    ds == [] || (now <= ds[0].at && Ordered(ds[1..], ds[0].at))
  }

  lemma {:induction false} IdealOrdered(perMin: nat, lag: nat, r: Reference, now: int, es: seq<Event>)
    requires perMin > 0 && WellTimed(lag, r.pending, now, es)
    ensures Ordered(Ideal(perMin, r, es), now)
    decreases |es|
  {
    if es != [] {
      hide Allows, Spend, BucketOf;
      match es[0] {
        case Lookup(req, ip, at) =>
          IdealOrdered(perMin, lag, r.(pending := r.pending[req := Ticket(0, ip, at)]), at, es[1..]);
          OrderedEarlier(Ideal(perMin, r, es), now, at);
        case Decide(req, at) =>
          var ip := r.pending[req].ip;
          var r' := Reference(r.buckets[ip := Spend(perMin, BucketOf(perMin, r, ip, at), at)], r.pending - {req});
          IdealOrdered(perMin, lag, r', at, es[1..]);
          assert Ideal(perMin, r, es)[1..] == Ideal(perMin, r', es[1..]);
        case Sweep(at) =>
          IdealOrdered(perMin, lag, r, at, es[1..]);
          OrderedEarlier(Ideal(perMin, r, es), now, at);
      }
    }
  }

  lemma OrderedEarlier(ds: seq<Decision>, now: int, at: int)
    requires Ordered(ds, at) && now <= at
    ensures Ordered(ds, now)
  {
  }

  /** One decision: what the rest costs plus this one is covered by the level before it. */
  lemma PayOne(perMin: nat, r: Reference, x: IP, ip: IP, at: int, rest: nat, slack: int)
    requires perMin > 0
    requires forall y :: y in r.buckets ==> Sound(Capacity(perMin), r.buckets[y], at)
    requires var r' := r.(buckets := r.buckets[x := Spend(perMin, BucketOf(perMin, r, x, at), at)]);
             rest * Interval(perMin) <= Level(Capacity(perMin), BucketOf(perMin, r', ip, at), at) + slack
    ensures var b := BucketOf(perMin, r, x, at);
            (rest + if x == ip && Allows(perMin, b, at) then 1 else 0) * Interval(perMin)
            <= Level(Capacity(perMin), BucketOf(perMin, r, ip, at), at) + slack
  {
    FullWithinTwoMinutes(perMin);
    hide Capacity, Interval;
    assert (rest + 1) * Interval(perMin) == rest * Interval(perMin) + Interval(perMin);
  }

  /** Each admission is paid for with one interval of credit: what is admitted up to a time `until` is covered
      by the level now and the time that passes. */
  lemma {:induction false} AdmissionsArePaid(perMin: nat, lag: nat, r: Reference, now: int, until: int, es: seq<Event>, n: nat, ip: IP)
    requires perMin > 0 && WellTimed(lag, r.pending, now, es)
    requires forall x :: x in r.buckets ==> Sound(Capacity(perMin), r.buckets[x], now)
    requires now <= until && n <= |Ideal(perMin, r, es)|
    requires forall k :: 0 <= k < n ==> Ideal(perMin, r, es)[k].at <= until
    ensures Admitted(Ideal(perMin, r, es)[..n], ip) * Interval(perMin)
         <= Level(Capacity(perMin), BucketOf(perMin, r, ip, now), now) + (until - now)
    decreases |es|
  {
    var ds := Ideal(perMin, r, es);
    if n == 0 {
      FullWithinTwoMinutes(perMin);
      assert ds[..n] == [];
    } else {
      hide Capacity, Interval, Level, Allows, Spend, BucketOf;
      IdealOrdered(perMin, lag, r, now, es);
      LevelGrows(perMin, r, ip, now, es[0].at);
      match es[0] {
        case Lookup(req, x, at) =>
          var r' := r.(pending := r.pending[req := Ticket(0, x, at)]);
          IdealOrdered(perMin, lag, r', at, es[1..]);
          assert at <= ds[0].at <= until;
          SamePendingOnly(perMin, r, r', ip, at);
          AdmissionsArePaid(perMin, lag, r', at, until, es[1..], n, ip);
        case Decide(req, at) =>
          assert ds[0].at == at;
          var x := r.pending[req].ip;
          var b := BucketOf(perMin, r, x, at);
          var r' := Reference(r.buckets[x := Spend(perMin, b, at)], r.pending - {req});
          SpendSound(perMin, r, x, at);
          assert ds[1..] == Ideal(perMin, r', es[1..]);
          AdmissionsArePaid(perMin, lag, r', at, until, es[1..], n - 1, ip);
          assert ds[..n][1..] == ds[1..][..n - 1];
          SamePendingOnly(perMin, r.(buckets := r'.buckets), r', ip, at);
          PayOne(perMin, r, x, ip, at, Admitted(ds[1..][..n - 1], ip), until - at);
        case Sweep(at) =>
          IdealOrdered(perMin, lag, r, at, es[1..]);
          assert at <= ds[0].at <= until;
          AdmissionsArePaid(perMin, lag, r, at, until, es[1..], n, ip);
      }
    }
  }

  lemma SamePendingOnly(perMin: nat, r: Reference, r': Reference, ip: IP, at: int)
    requires perMin > 0 && r.buckets == r'.buckets
    ensures BucketOf(perMin, r, ip, at) == BucketOf(perMin, r', ip, at)
  {
  }

  lemma SpendSound(perMin: nat, r: Reference, x: IP, at: int)
    requires perMin > 0
    requires forall y :: y in r.buckets ==> Sound(Capacity(perMin), r.buckets[y], at)
    ensures Sound(Capacity(perMin), Spend(perMin, BucketOf(perMin, r, x, at), at), at)
  {
    FullWithinTwoMinutes(perMin);
    hide Capacity, Interval;
  }

  lemma LevelGrows(perMin: nat, r: Reference, ip: IP, now: int, at: int)
    requires perMin > 0 && now <= at
    ensures Level(Capacity(perMin), BucketOf(perMin, r, ip, at), at)
         <= Level(Capacity(perMin), BucketOf(perMin, r, ip, now), now) + (at - now)
  {
  }

  lemma {:induction false} IdealWindow(perMin: nat, lag: nat, r: Reference, now: int, es: seq<Event>, i: nat, j: nat, ip: IP)
    requires perMin > 0 && WellTimed(lag, r.pending, now, es)
    requires forall x :: x in r.buckets ==> Sound(Capacity(perMin), r.buckets[x], now)
    requires i < j <= |Ideal(perMin, r, es)|
    ensures var ds := Ideal(perMin, r, es);
            Admitted(ds[i..j], ip) * Interval(perMin) <= Capacity(perMin) + (ds[j - 1].at - ds[i].at)
    decreases |es|
  {
    FullWithinTwoMinutes(perMin);
    hide Capacity, Interval;
    var ds := Ideal(perMin, r, es);
    match es[0] {
      case Lookup(req, x, at) =>
        IdealWindow(perMin, lag, r.(pending := r.pending[req := Ticket(0, x, at)]), at, es[1..], i, j, ip);
      case Sweep(at) =>
        IdealWindow(perMin, lag, r, at, es[1..], i, j, ip);
      case Decide(req, at) =>
        if i == 0 {
          assert ds[0].at == at && ds[0..j] == ds[..j];
          IdealOrdered(perMin, lag, r, at, es);
          OrderedAtMost(ds, at, j);
          AdmissionsArePaid(perMin, lag, r, at, ds[j - 1].at, es, j, ip);
        } else {
          var x := r.pending[req].ip;
          var b := BucketOf(perMin, r, x, at);
          var r' := Reference(r.buckets[x := Spend(perMin, b, at)], r.pending - {req});
          SpendAgrees(perMin, b, b, at);
          assert ds[1..] == Ideal(perMin, r', es[1..]);
          IdealWindow(perMin, lag, r', at, es[1..], i - 1, j - 1, ip);
          assert ds[i..j] == ds[1..][i - 1..j - 1];
        }
    }
  }

  lemma {:induction false} OrderedAtMost(ds: seq<Decision>, now: int, j: nat)
    requires Ordered(ds, now) && 0 < j <= |ds|
    ensures now <= ds[j - 1].at && forall k :: 0 <= k < j ==> ds[k].at <= ds[j - 1].at
  {
    if j > 1 {
      OrderedAtMost(ds[1..], ds[0].at, j - 1);
      assert forall k :: 1 <= k < j ==> ds[k] == ds[1..][k - 1];
    }
  }

  /** Main result: in any stretch of decisions an address is admitted at most as often as its burst and the
      time that passes pay for, evictions or not. */
  lemma WindowBound(perMin: nat, lag: nat, now: int, es: seq<Event>, i: nat, j: nat, ip: IP)
    requires perMin > 0 && WellTimed(lag, map[], now, es) && InTime(perMin, lag)
    requires i < j <= |Decisions(perMin, START, es)|
    ensures var ds := Decisions(perMin, START, es);
            Admitted(ds[i..j], ip) * Interval(perMin) <= Burst(perMin) * Interval(perMin) + (ds[j - 1].at - ds[i].at)
  {
    StartAgrees(perMin, lag, now);
    EvictionInvisible(perMin, lag, START, FRESH, now, es);
    IdealWindow(perMin, lag, FRESH, now, es, i, j, ip);
  }

  // ----- the middleware -----

  class Middleware {
    const perMin: nat
    var limiters: map<IP, Entry>
    var buckets: map<nat, Bucket>
    var pending: map<nat, Ticket>
    var nextId: nat

    function View(): World
      reads this
    {
      World(limiters, buckets, pending, nextId)
    }

    constructor (perMin: nat)
      requires perMin > 0
      ensures this.perMin == perMin && View() == START
    {
      this.perMin := perMin;
      limiters, buckets, pending, nextId := map[], map[], map[], 0;
    }

    /** The part of a request under the mutex: fetch or create the limiter and note the time. */
    method Lookup(req: nat, ip: IP, at: int)
      requires perMin > 0
      modifies this
      ensures View() == Looked(perMin, old(View()), req, ip, at)
    {
      if ip !in limiters {
        limiters := limiters[ip := Entry(nextId, at)];
        buckets := buckets[nextId := Bucket(Capacity(perMin), at)];
        nextId := nextId + 1;
      }
      limiters := limiters[ip := Entry(limiters[ip].id, at)];
      pending := pending[req := Ticket(limiters[ip].id, ip, at)];
    }

    /** The rest of the request, without the mutex. */
    method Decide(req: nat, at: int) returns (ok: bool)
      requires perMin > 0 && req in pending && pending[req].id in buckets
      modifies this
      ensures ok == Allows(perMin, old(buckets[pending[req].id]), at)
      ensures View() == Decided(perMin, old(View()), req, at)
    {
      var id := pending[req].id;
      ok := Allows(perMin, buckets[id], at);
      buckets := buckets[id := Spend(perMin, buckets[id], at)];
      pending := pending - {req};
    }

    /** The cleanup pass: look at every entry and delete the idle ones. */
    method Sweep(at: int)
      modifies this`limiters
      ensures View() == Swept(old(View()), at)
    {
      var rest := limiters.Keys;
      ghost var idle := Idle(View(), at);
      while rest != {}
        invariant rest <= limiters.Keys <= old(limiters).Keys
        invariant limiters == old(limiters) - (idle - rest)
        decreases |rest|
      {
        var ip :| ip in rest;
        if at - limiters[ip].last > IDLE {
          limiters := limiters - {ip};
        }
        rest := rest - {ip};
      }
      assert idle - {} == idle;
    }
  }
}
