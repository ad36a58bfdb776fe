/**
 When is eviction invisible? Exactly when a bucket left alone for the TTL, less the time a request
 may take between its two steps, is full again.
 */
module RateLimitEviction {
  import opened RateLimitModel

  // ---------- Levels ----------

  lemma InflowAdds(p: Policy, a: real, b: real)
    ensures Inflow(p, a + b) == Inflow(p, a) + Inflow(p, b)
  {
  }

  lemma InflowGrows(p: Policy, a: real, b: real)
    requires p.Valid() && a <= b
    ensures Inflow(p, a) <= Inflow(p, b)
  {
    InflowAdds(p, a, b - a);
    assert p.rps * (b - a) >= 0.0;
  }

  lemma InflowNonNegative(p: Policy, a: real)
    requires p.Valid() && a >= 0.0
    ensures Inflow(p, a) >= 0.0
  {
  }

  /** Tokens flow in at `rps`. */
  lemma InflowIs(p: Policy, dt: real)
    ensures Inflow(p, dt) == p.rps * dt
  {
  }

  lemma InflowZero(p: Policy)
    ensures Inflow(p, 0.0) == 0.0
  {
  }

  /** A bucket's level later is its level now plus the inflow, capped. */
  lemma LevelFlow(p: Policy, b: Bucket, at: real, later: real)
    requires p.Valid() && at <= later
    ensures Level(p, b, later) == Capped(p, Level(p, b, at) + Inflow(p, later - at))
  {
    InflowAdds(p, at - b.last, later - at);
    assert (at - b.last) + (later - at) == later - b.last;
    InflowNonNegative(p, later - at);
  }

  /** The bucket is in range and was last touched no later than `at`. */
  predicate BucketOk(p: Policy, b: Bucket, at: real) {
    0.0 <= b.tokens <= p.burst as real && b.last <= at
  }

  lemma LevelRange(p: Policy, b: Bucket, at: real)
    requires p.Valid() && BucketOk(p, b, at)
    ensures 0.0 <= Level(p, b, at) <= p.burst as real
  {
    InflowNonNegative(p, at - b.last);
  }

  lemma SpendOk(p: Policy, b: Bucket, at: real)
    requires p.Valid() && BucketOk(p, b, at)
    ensures BucketOk(p, Spend(p, b, at), at)
    ensures Level(p, Spend(p, b, at), at) == Level(p, b, at) - if Admits(p, b, at) then 1.0 else 0.0
  {
    LevelRange(p, b, at);
    assert Inflow(p, at - at) == 0.0;
  }

  lemma FullLevel(p: Policy, b: Bucket, at: real, rest: real)
    requires p.Valid() && BucketOk(p, b, at) && rest <= at - b.last && Inflow(p, rest) >= p.burst as real
    ensures Level(p, b, at) == p.burst as real
  {
    InflowGrows(p, rest, at - b.last);
  }

  /** How long a visitor's bucket has at least been left alone when the visitor is evicted. */
  function Rest(p: Policy, gap: real): real {
    if gap < p.ttl then p.ttl - gap else 0.0
  }

  /** Left alone for the TTL, less the time between the two steps of a request, a bucket is full again. */
  predicate Refills(p: Policy, gap: real) {
    p.rps * Rest(p, gap) >= p.burst as real
  }

  // ---------- The simulation ----------

  function BucketOf(s: State, ip: Ip): Bucket
    requires ip in s.table.visitors && s.table.visitors[ip].lim < |s.table.Made(ip)|
  {
    s.table.Made(ip)[s.table.visitors[ip].lim]
  }

  /** Every limiter a visitor or a request names exists, and every bucket is in range. */
  ghost predicate Sound(p: Policy, s: State) {
    && (forall ip :: ip in s.table.visitors ==> s.table.visitors[ip].lim < |s.table.Made(ip)|)
    && (forall r :: r in s.pending ==> s.pending[r].lim < |s.table.Made(s.pending[r].ip)|)
    && (forall ip, k :: 0 <= k < |s.table.Made(ip)| ==> BucketOk(p, s.table.Made(ip)[k], s.now))
  }

  lemma StepSound(p: Policy, gap: real, s: State, e: Event)
    requires p.Valid() && Sound(p, s) && Enabled(gap, s, e)
    ensures Sound(p, Next(p, gap, s, e))
  {
    var s' := Next(p, gap, s, e);
    forall ip, k | 0 <= k < |s'.table.Made(ip)|
      ensures BucketOk(p, s'.table.Made(ip)[k], s'.now)
    {
      if k < |s.table.Made(ip)| {
        assert BucketOk(p, s.table.Made(ip)[k], s.now);
        SpendOk(p, s.table.Made(ip)[k], s'.now);
      }
    }
  }

  /** A request that may still draw on its limiter holds the one its visitor names, seen since. */
  ghost predicate PendingLive(gap: real, s: State) {
    && (forall r :: r in s.pending ==> s.pending[r].got <= s.now)
    && (forall r :: r in s.pending && s.now <= s.pending[r].got + gap ==>
          var q := s.pending[r];
          q.ip in s.table.visitors && q.lim == s.table.visitors[q.ip].lim && q.got <= s.table.visitors[q.ip].lastSeen)
  }

  /** No bucket was touched later than `gap` after its visitor was last seen. */
  ghost predicate TouchedSoon(gap: real, s: State)
    requires forall ip :: ip in s.table.visitors ==> s.table.visitors[ip].lim < |s.table.Made(ip)|
  {
    forall ip :: ip in s.table.visitors ==> BucketOf(s, ip).last <= s.table.visitors[ip].lastSeen + gap
  }

  /** Without evictions every request holds its visitor's limiter. */
  ghost predicate NeverEvicted(s: State) {
    forall r :: r in s.pending ==>
      s.pending[r].ip in s.table.visitors && s.pending[r].lim == s.table.visitors[s.pending[r].ip].lim
  }

  /** What a request from `ip` would find: its bucket's level, or that of a new bucket. */
  function LevelOf(p: Policy, s: State, ip: Ip): real
    requires ip in s.table.visitors ==> s.table.visitors[ip].lim < |s.table.Made(ip)|
  {
    if ip in s.table.visitors then Level(p, BucketOf(s, ip), s.now) else p.burst as real
  }

  /** The same requests are open and were decided alike. */
  ghost predicate SameRequests(s: State, n: State) {
    && s.trace == n.trace && s.pending.Keys == n.pending.Keys
    && (forall r :: r in s.pending ==> s.pending[r].ip == n.pending[r].ip && s.pending[r].got == n.pending[r].got)
    && (forall ip :: ip in s.table.visitors ==> ip in n.table.visitors)
  }

  ghost predicate SameLevels(p: Policy, s: State, n: State)
    requires Sound(p, s) && Sound(p, n)
  {
    forall ip :: LevelOf(p, s, ip) == LevelOf(p, n.(now := s.now), ip)
  }

  /** `n` ran the same requests as `s`, without the sweeps. */
  ghost predicate Simulates(p: Policy, gap: real, s: State, n: State) {
    && Sound(p, s) && Sound(p, n) && PendingLive(gap, s) && TouchedSoon(gap, s) && NeverEvicted(n)
    && n.now <= s.now && SameRequests(s, n) && SameLevels(p, s, n)
  }

  lemma LevelOfLater(p: Policy, s: State, ip: Ip, later: real)
    requires p.Valid() && s.now <= later
    requires ip in s.table.visitors ==> s.table.visitors[ip].lim < |s.table.Made(ip)|
    ensures LevelOf(p, s.(now := later), ip) == Capped(p, LevelOf(p, s, ip) + Inflow(p, later - s.now))
  {
    if ip in s.table.visitors {
      LevelFlow(p, BucketOf(s, ip), s.now, later);
    } else {
      InflowNonNegative(p, later - s.now);
    }
  }

  lemma SimulationWaits(p: Policy, gap: real, s: State, n: State, later: real)
    requires p.Valid() && Simulates(p, gap, s, n) && s.now <= later
    ensures forall ip :: LevelOf(p, s.(now := later), ip) == LevelOf(p, n.(now := later), ip)
  {
    forall ip
      ensures LevelOf(p, s.(now := later), ip) == LevelOf(p, n.(now := later), ip)
    {
      LevelOfLater(p, s, ip, later);
      LevelOfLater(p, n.(now := s.now), ip, later);
    }
  }

  /** Looking a limiter up changes no level: a new bucket is as full as an absent one counts. */
  lemma LookupKeepsLevels(p: Policy, gap: real, s: State, e: Event, ip: Ip)
    requires p.Valid() && Sound(p, s) && e.Get? && Enabled(gap, s, e)
    ensures Sound(p, Next(p, gap, s, e))
    ensures LevelOf(p, Next(p, gap, s, e), ip) == LevelOf(p, s.(now := e.at), ip)
  {
    StepSound(p, gap, s, e);
    assert Inflow(p, e.at - e.at) == 0.0;
  }

  lemma GetTouchedSoon(p: Policy, gap: real, s: State, e: Event)
    requires p.Valid() && gap >= 0.0 && e.Get? && Enabled(gap, s, e)
    requires Sound(p, s) && TouchedSoon(gap, s)
    ensures Sound(p, Next(p, gap, s, e)) && TouchedSoon(gap, Next(p, gap, s, e))
  {
    StepSound(p, gap, s, e);
    var s' := Next(p, gap, s, e);
    forall ip | ip in s'.table.visitors
      ensures BucketOf(s', ip).last <= s'.table.visitors[ip].lastSeen + gap
    {
      if ip in s.table.visitors {
        assert BucketOf(s', ip) == BucketOf(s, ip);
      }
    }
  }

  lemma GetPendingLive(p: Policy, gap: real, s: State, e: Event)
    requires e.Get? && Enabled(gap, s, e)
    ensures PendingLive(gap, s) ==> PendingLive(gap, Next(p, gap, s, e))
    ensures NeverEvicted(s) ==> NeverEvicted(Next(p, gap, s, e))
  {
  }

  lemma GetKeepsLevels(p: Policy, gap: real, s: State, n: State, e: Event)
    requires p.Valid() && Simulates(p, gap, s, n) && e.Get? && Enabled(gap, s, e)
    ensures Enabled(gap, n, e) && Sound(p, Next(p, gap, s, e)) && Sound(p, Next(p, gap, n, e))
    ensures SameLevels(p, Next(p, gap, s, e), Next(p, gap, n, e))
  {
    StepSound(p, gap, s, e);
    StepSound(p, gap, n, e);
    SimulationWaits(p, gap, s, n, e.at);
    forall ip
      ensures LevelOf(p, Next(p, gap, s, e), ip) == LevelOf(p, Next(p, gap, n, e), ip)
    {
      LookupKeepsLevels(p, gap, s, e, ip);
      LookupKeepsLevels(p, gap, n, e, ip);
    }
  }

  lemma GetSameRequests(p: Policy, gap: real, s: State, n: State, e: Event)
    requires e.Get? && Enabled(gap, s, e) && Enabled(gap, n, e) && SameRequests(s, n)
    ensures SameRequests(Next(p, gap, s, e), Next(p, gap, n, e))
  {
  }

  lemma GetSimulates(p: Policy, gap: real, s: State, n: State, e: Event)
    requires p.Valid() && gap >= 0.0 && Simulates(p, gap, s, n) && e.Get? && Enabled(gap, s, e)
    ensures Enabled(gap, n, e) && Simulates(p, gap, Next(p, gap, s, e), Next(p, gap, n, e))
  {
    GetKeepsLevels(p, gap, s, n, e);
    GetTouchedSoon(p, gap, s, e);
    GetPendingLive(p, gap, s, e);
    GetPendingLive(p, gap, n, e);
    GetSameRequests(p, gap, s, n, e);
  }

  /** The request draws on the same level in both, so it is decided alike and leaves the same level. */
  lemma UseKeepsLevels(p: Policy, gap: real, s: State, n: State, e: Event)
    requires p.Valid() && Simulates(p, gap, s, n) && e.Use? && Enabled(gap, s, e)
    ensures Enabled(gap, n, e) && Sound(p, Next(p, gap, s, e)) && Sound(p, Next(p, gap, n, e))
    ensures SameLevels(p, Next(p, gap, s, e), Next(p, gap, n, e))
    ensures Next(p, gap, s, e).trace == Next(p, gap, n, e).trace
  {
    hide Inflow, Capped;
    var s', n' := Next(p, gap, s, e), Next(p, gap, n, e);
    StepSound(p, gap, s, e);
    StepSound(p, gap, n, e);
    SimulationWaits(p, gap, s, n, e.at);
    assert LevelOf(p, s.(now := e.at), e.ip) == LevelOf(p, n.(now := e.at), e.ip);
    SpendOk(p, BucketOf(s, e.ip), e.at);
    SpendOk(p, BucketOf(n, e.ip), e.at);
    forall ip
      ensures LevelOf(p, s', ip) == LevelOf(p, n', ip)
    {
      assert LevelOf(p, s.(now := e.at), ip) == LevelOf(p, n.(now := e.at), ip);
    }
  }

  lemma UseTouchedSoon(p: Policy, gap: real, s: State, e: Event)
    requires e.Use? && Enabled(gap, s, e) && Sound(p, s) && PendingLive(gap, s) && TouchedSoon(gap, s)
    ensures PendingLive(gap, Next(p, gap, s, e))
    ensures Sound(p, Next(p, gap, s, e)) ==> TouchedSoon(gap, Next(p, gap, s, e))
  {
    hide Inflow, Capped, Level, Admits, BucketOk;
  }

  lemma UseSameRequests(p: Policy, gap: real, s: State, n: State, e: Event)
    requires e.Use? && Enabled(gap, s, e) && Enabled(gap, n, e) && SameRequests(s, n)
    requires Next(p, gap, s, e).trace == Next(p, gap, n, e).trace
    ensures SameRequests(Next(p, gap, s, e), Next(p, gap, n, e))
    ensures NeverEvicted(n) ==> NeverEvicted(Next(p, gap, n, e))
  {
    hide Inflow, Capped, Level, Admits, Spend;
  }

  lemma UseSimulates(p: Policy, gap: real, s: State, n: State, e: Event)
    requires p.Valid() && gap >= 0.0 && Simulates(p, gap, s, n) && e.Use? && Enabled(gap, s, e)
    ensures Enabled(gap, n, e) && Simulates(p, gap, Next(p, gap, s, e), Next(p, gap, n, e))
  {
    hide Inflow, Level, SameLevels, SameRequests, TouchedSoon, PendingLive, NeverEvicted;
    UseKeepsLevels(p, gap, s, n, e);
    UseTouchedSoon(p, gap, s, e);
    UseSameRequests(p, gap, s, n, e);
  }

  lemma SweepSimulates(p: Policy, gap: real, s: State, n: State, e: Event)
    requires p.Valid() && 0.0 <= gap <= p.ttl && Refills(p, gap)
    requires Simulates(p, gap, s, n) && e.Sweep? && Enabled(gap, s, e)
    ensures Simulates(p, gap, Next(p, gap, s, e), n)
  {
    var s' := Next(p, gap, s, e);
    StepSound(p, gap, s, e);
    SimulationWaits(p, gap, s, n, e.at);
    forall ip
      ensures LevelOf(p, s', ip) == LevelOf(p, n.(now := e.at), ip)
    {
      assert LevelOf(p, s.(now := e.at), ip) == LevelOf(p, n.(now := e.at), ip);
      if ip in s.table.visitors && ip !in s'.table.visitors {
        FullLevel(p, BucketOf(s, ip), e.at, Rest(p, gap));
      }
    }
  }

  lemma {:induction false} RunsSimulate(p: Policy, gap: real, s: State, n: State, es: seq<Event>)
    requires p.Valid() && 0.0 <= gap <= p.ttl && Refills(p, gap)
    requires Simulates(p, gap, s, n) && Runnable(p, gap, s, es)
    ensures Runnable(p, gap, n, WithoutSweeps(es))
    ensures Run(p, gap, s, es).trace == Run(p, gap, n, WithoutSweeps(es)).trace
    decreases |es|
  {
    if es != [] {
      var e, s' := es[0], Next(p, gap, s, es[0]);
      if e.Sweep? {
        SweepSimulates(p, gap, s, n, e);
        RunsSimulate(p, gap, s', n, es[1..]);
        assert WithoutSweeps(es) == WithoutSweeps(es[1..]);
      } else {
        if e.Get? {
          GetSimulates(p, gap, s, n, e);
        } else {
          UseSimulates(p, gap, s, n, e);
        }
        RunsSimulate(p, gap, s', Next(p, gap, n, e), es[1..]);
        assert WithoutSweeps(es) == [e] + WithoutSweeps(es[1..]);
        assert WithoutSweeps(es)[1..] == WithoutSweeps(es[1..]);
      }
    }
  }

  /** Every decision of the run equals that of the limiter that never evicts. */
  ghost predicate SameDecisions(p: Policy, gap: real, es: seq<Event>)
    requires Runnable(p, gap, INITIAL, es)
  {
    && Runnable(p, gap, INITIAL, WithoutSweeps(es))
    && Run(p, gap, INITIAL, es).trace == Run(p, gap, INITIAL, WithoutSweeps(es)).trace
  }

  ghost predicate EvictionInvisible(p: Policy, gap: real) {
    forall es :: Runnable(p, gap, INITIAL, es) ==> SameDecisions(p, gap, es)
  }

  // ---------- Requests that outlast the TTL ----------

  /** Without a burst nothing is ever admitted, so `n` may hold other buckets than `s`. */
  ghost predicate Shadows(p: Policy, s: State, n: State) {
    Sound(p, s) && Sound(p, n) && n.now <= s.now && SameRequests(s, n)
  }

  lemma UseShadows(p: Policy, gap: real, s: State, n: State, e: Event)
    requires p.Valid() && p.burst == 0 && Shadows(p, s, n) && e.Use? && Enabled(gap, s, e)
    ensures Enabled(gap, n, e) && Shadows(p, Next(p, gap, s, e), Next(p, gap, n, e))
  {
    StepSound(p, gap, s, e);
    StepSound(p, gap, n, e);
    var b, c := s.table.Made(e.ip)[s.pending[e.req].lim], n.table.Made(e.ip)[n.pending[e.req].lim];
    assert BucketOk(p, b, s.now) && BucketOk(p, c, n.now);
    LevelRange(p, b, e.at);
    LevelRange(p, c, e.at);
    assert !Admits(p, b, e.at) && !Admits(p, c, e.at);
  }

  lemma {:induction false} RunsShadow(p: Policy, gap: real, s: State, n: State, es: seq<Event>)
    requires p.Valid() && p.burst == 0 && Shadows(p, s, n) && Runnable(p, gap, s, es)
    ensures Runnable(p, gap, n, WithoutSweeps(es))
    ensures Run(p, gap, s, es).trace == Run(p, gap, n, WithoutSweeps(es)).trace
    decreases |es|
  {
    if es != [] {
      var e, s' := es[0], Next(p, gap, s, es[0]);
      StepSound(p, gap, s, e);
      if e.Sweep? {
        RunsShadow(p, gap, s', n, es[1..]);
        assert WithoutSweeps(es) == WithoutSweeps(es[1..]);
      } else {
        if e.Get? {
          StepSound(p, gap, n, e);
          GetSameRequests(p, gap, s, n, e);
        } else {
          UseShadows(p, gap, s, n, e);
        }
        RunsShadow(p, gap, s', Next(p, gap, n, e), es[1..]);
        assert WithoutSweeps(es) == [e] + WithoutSweeps(es[1..]);
        assert WithoutSweeps(es)[1..] == WithoutSweeps(es[1..]);
      }
    }
  }

  /** If a bucket refills, the run is decided like the same requests without the sweeps. */
  lemma RefilledRun(p: Policy, gap: real, es: seq<Event>)
    requires p.Valid() && gap >= 0.0 && Refills(p, gap)
    requires Runnable(p, gap, INITIAL, es)
    ensures SameDecisions(p, gap, es)
  {
    if gap <= p.ttl {
      assert Simulates(p, gap, INITIAL, INITIAL);
      RunsSimulate(p, gap, INITIAL, INITIAL, es);
    } else {
      InflowZero(p);
      RunsShadow(p, gap, INITIAL, INITIAL, es);
    }
  }
}
