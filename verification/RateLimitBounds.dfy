/**
 How many requests of one IP get through: at most the burst plus what flows in over the window. From
 that bound it also follows that the condition for invisible eviction is exact.
 */
module RateLimitBounds {
  import opened RateLimitModel
  import opened RateLimitEviction

  /** Requests of `ip` that were admitted. */
  function Admitted(trace: seq<Verdict>, ip: Ip): nat {
    if trace == [] then 0
    else
      var v := trace[|trace| - 1];
      Admitted(trace[..|trace| - 1], ip) + if v.ip == ip && v.admitted then 1 else 0
  }

  lemma AdmittedAppend(trace: seq<Verdict>, v: Verdict, ip: Ip)
    ensures Admitted(trace + [v], ip) == Admitted(trace, ip) + if v.ip == ip && v.admitted then 1 else 0
  {
    assert (trace + [v])[..|trace|] == trace;
  }

  lemma EmptyAdmitted(ip: Ip)
    ensures Admitted([], ip) == 0
  {
  }

  // ---------- The window bound, without evictions ----------

  /** From verdict `i` to verdict `j` no more is admitted than the burst and the rate allow. */
  predicate Window(p: Policy, trace: seq<Verdict>, ip: Ip, i: nat, j: nat)
    requires i <= j < |trace|
  {
    Admitted(trace[i..j + 1], ip) as real <= p.burst as real + p.rps * (trace[j].time - trace[i].time)
  }

  ghost predicate Windows(p: Policy, trace: seq<Verdict>, ip: Ip) {
    forall i, j :: 0 <= i <= j < |trace| ==> Window(p, trace, ip, i, j)
  }

  /** What was admitted since verdict `i`, and what the bucket still holds, is within the allowance. */
  ghost predicate CreditAt(p: Policy, trace: seq<Verdict>, ip: Ip, level: real, now: real) {
    forall i :: 0 <= i < |trace| ==>
      Admitted(trace[i..], ip) as real + level <= p.burst as real + Inflow(p, now - trace[i].time)
  }

  ghost predicate Credit(p: Policy, s: State, ip: Ip)
    requires Sound(p, s)
  {
    CreditAt(p, s.trace, ip, LevelOf(p, s, ip), s.now)
  }

  lemma CreditAppend(p: Policy, trace: seq<Verdict>, v: Verdict, ip: Ip, level: real)
    requires CreditAt(p, trace, ip, level, v.time) && level <= p.burst as real
    ensures CreditAt(p, trace + [v], ip, level - (if v.ip == ip && v.admitted then 1.0 else 0.0), v.time)
  {
    hide Inflow, Admitted;
    var after := trace + [v];
    InflowZero(p);
    assert v.time - v.time == 0.0;
    assert trace[|trace|..] == [];
    EmptyAdmitted(ip);
    forall i | 0 <= i < |after|
      ensures Admitted(after[i..], ip) as real + level - (if v.ip == ip && v.admitted then 1.0 else 0.0)
           <= p.burst as real + Inflow(p, v.time - after[i].time)
    {
      assert after[i..] == trace[i..] + [v];
      AdmittedAppend(trace[i..], v, ip);
    }
  }

  lemma WindowsAppend(p: Policy, trace: seq<Verdict>, v: Verdict, ip: Ip, level: real)
    requires Windows(p, trace, ip) && CreditAt(p, trace + [v], ip, level, v.time) && level >= 0.0
    ensures Windows(p, trace + [v], ip)
  {
    hide Window, CreditAt;
    var after := trace + [v];
    forall i, j | 0 <= i <= j < |after|
      ensures Window(p, after, ip, i, j)
    {
      if j < |trace| {
        WindowBefore(p, trace, v, ip, i, j);
      } else {
        WindowUpTo(p, trace, v, ip, level, i);
      }
    }
  }

  lemma WindowBefore(p: Policy, trace: seq<Verdict>, v: Verdict, ip: Ip, i: nat, j: nat)
    requires i <= j < |trace| && Window(p, trace, ip, i, j)
    ensures Window(p, trace + [v], ip, i, j)
  {
    hide Admitted;
    assert (trace + [v])[i..j + 1] == trace[i..j + 1];
  }

  lemma WindowUpTo(p: Policy, trace: seq<Verdict>, v: Verdict, ip: Ip, level: real, i: nat)
    requires i <= |trace| && CreditAt(p, trace + [v], ip, level, v.time) && level >= 0.0
    ensures Window(p, trace + [v], ip, i, |trace|)
  {
    hide Inflow, Admitted, CreditAt;
    var after := trace + [v];
    assert after[i..|trace| + 1] == after[i..] && after[|trace|] == v;
    CreditSince(p, after, ip, level, v.time, i);
    InflowIs(p, v.time - after[i].time);
  }

  lemma CreditSince(p: Policy, trace: seq<Verdict>, ip: Ip, level: real, now: real, i: nat)
    requires CreditAt(p, trace, ip, level, now) && i < |trace|
    ensures Admitted(trace[i..], ip) as real + level <= p.burst as real + Inflow(p, now - trace[i].time)
  {
    hide Inflow, Admitted;
  }

  lemma LevelOfRange(p: Policy, s: State, ip: Ip)
    requires p.Valid() && Sound(p, s)
    ensures 0.0 <= LevelOf(p, s, ip) <= p.burst as real
  {
    if ip in s.table.visitors {
      LevelRange(p, BucketOf(s, ip), s.now);
    }
  }

  lemma CreditWaits(p: Policy, s: State, ip: Ip, later: real)
    requires p.Valid() && Sound(p, s) && Credit(p, s, ip) && s.now <= later
    ensures CreditAt(p, s.trace, ip, LevelOf(p, s.(now := later), ip), later)
    ensures LevelOf(p, s.(now := later), ip) <= p.burst as real
  {
    LevelOfLater(p, s, ip, later);
    forall i | 0 <= i < |s.trace|
      ensures Admitted(s.trace[i..], ip) as real + LevelOf(p, s.(now := later), ip)
           <= p.burst as real + Inflow(p, later - s.trace[i].time)
    {
      InflowAdds(p, s.now - s.trace[i].time, later - s.now);
      assert (s.now - s.trace[i].time) + (later - s.now) == later - s.trace[i].time;
    }
  }

  /** A draw lowers the level of its own IP by what it admits, and of no other. */
  lemma UseLevels(p: Policy, gap: real, s: State, e: Event, ip: Ip)
    requires p.Valid() && Sound(p, s) && NeverEvicted(s) && e.Use? && Enabled(gap, s, e)
    ensures Sound(p, Next(p, gap, s, e))
    ensures var s', v := Next(p, gap, s, e), Next(p, gap, s, e).trace[|s.trace|];
      LevelOf(p, s', ip) == LevelOf(p, s.(now := e.at), ip) - (if v.ip == ip && v.admitted then 1.0 else 0.0)
  {
    StepSound(p, gap, s, e);
    SpendOk(p, BucketOf(s, e.ip), e.at);
  }

  lemma UseCredit(p: Policy, gap: real, s: State, e: Event, ip: Ip)
    requires p.Valid() && Sound(p, s) && NeverEvicted(s) && Credit(p, s, ip) && Windows(p, s.trace, ip)
    requires e.Use? && Enabled(gap, s, e)
    ensures Sound(p, Next(p, gap, s, e)) && Credit(p, Next(p, gap, s, e), ip)
    ensures Windows(p, Next(p, gap, s, e).trace, ip)
  {
    var s' := Next(p, gap, s, e);
    var v := s'.trace[|s.trace|];
    UseLevels(p, gap, s, e, ip);
    CreditWaits(p, s, ip, e.at);
    CreditAppend(p, s.trace, v, ip, LevelOf(p, s.(now := e.at), ip));
    LevelOfRange(p, s', ip);
    WindowsAppend(p, s.trace, v, ip, LevelOf(p, s', ip));
  }

  lemma GetCredit(p: Policy, gap: real, s: State, e: Event, ip: Ip)
    requires p.Valid() && Sound(p, s) && Credit(p, s, ip) && e.Get? && Enabled(gap, s, e)
    ensures Sound(p, Next(p, gap, s, e)) && Credit(p, Next(p, gap, s, e), ip)
  {
    LookupKeepsLevels(p, gap, s, e, ip);
    CreditWaits(p, s, ip, e.at);
  }

  lemma {:induction false} UnsweptWindows(p: Policy, gap: real, s: State, es: seq<Event>, ip: Ip)
    requires p.Valid() && Sound(p, s) && NeverEvicted(s) && Credit(p, s, ip) && Windows(p, s.trace, ip)
    requires Runnable(p, gap, s, es) && WithoutSweeps(es) == es
    ensures Windows(p, Run(p, gap, s, es).trace, ip)
    decreases |es|
  {
    if es != [] {
      var e, s' := es[0], Next(p, gap, s, es[0]);
      SweepsFirst(es);
      if e.Get? {
        GetCredit(p, gap, s, e, ip);
        GetPendingLive(p, gap, s, e);
      } else {
        UseCredit(p, gap, s, e, ip);
      }
      UnsweptWindows(p, gap, s', es[1..], ip);
    }
  }

  lemma {:induction false} WithoutSweepsShorter(es: seq<Event>)
    ensures |WithoutSweeps(es)| <= |es|
    ensures WithoutSweeps(WithoutSweeps(es)) == WithoutSweeps(es)
  {
    if es != [] {
      WithoutSweepsShorter(es[1..]);
      if es[0].Sweep? {
        assert WithoutSweeps(es) == WithoutSweeps(es[1..]);
      } else {
        assert WithoutSweeps(es)[1..] == WithoutSweeps(es[1..]);
      }
    }
  }

  lemma SweepsFirst(es: seq<Event>)
    requires es != [] && WithoutSweeps(es) == es
    ensures !es[0].Sweep? && WithoutSweeps(es[1..]) == es[1..]
  {
    WithoutSweepsShorter(es[1..]);
    if !es[0].Sweep? {
      assert es[1..] == ([es[0]] + WithoutSweeps(es[1..]))[1..];
    }
  }

  lemma UnsweptFromStart(p: Policy, gap: real, es: seq<Event>, ip: Ip)
    requires p.Valid() && Runnable(p, gap, INITIAL, WithoutSweeps(es))
    ensures Windows(p, Run(p, gap, INITIAL, WithoutSweeps(es)).trace, ip)
  {
    WithoutSweepsShorter(es);
    UnsweptWindows(p, gap, INITIAL, WithoutSweeps(es), ip);
  }

  lemma WindowAt(p: Policy, trace: seq<Verdict>, ip: Ip, i: nat, j: nat)
    requires Windows(p, trace, ip) && i <= j < |trace|
    ensures Admitted(trace[i..j + 1], ip) as real <= p.burst as real + p.rps * (trace[j].time - trace[i].time)
  {
    assert Window(p, trace, ip, i, j);
  }

  /**
   Over any run, with any sweeps in it, an IP is admitted at most burst + rps * T times in any window
   of length T, provided an idle bucket refills within the TTL.
   */
  lemma AdmissionBound(p: Policy, gap: real, es: seq<Event>, ip: Ip, i: nat, j: nat)
    requires p.Valid() && gap >= 0.0 && Refills(p, gap)
    requires Runnable(p, gap, INITIAL, es)
    requires i <= j < |Run(p, gap, INITIAL, es).trace|
    ensures var trace := Run(p, gap, INITIAL, es).trace;
      Admitted(trace[i..j + 1], ip) as real <= p.burst as real + p.rps * (trace[j].time - trace[i].time)
  {
    hide Inflow, Admitted;
    RefilledRun(p, gap, es);
    UnsweptFromStart(p, gap, es, ip);
    WindowAt(p, Run(p, gap, INITIAL, es).trace, ip, i, j);
  }

  // ---------- The condition is exact ----------

  function Gets(ip: Ip, from: nat, n: nat, at: real): seq<Event> {
    seq(n, k requires 0 <= k < n => Get(from + k, ip, at))
  }

  function Uses(ip: Ip, from: nat, n: nat, at: real): seq<Event> {
    seq(n, k requires 0 <= k < n => Use(from + k, ip, at))
  }

  ghost predicate PendingIs(pending: map<nat, Pending>, from: nat, to: nat, q: Pending) {
    && (forall r: nat :: r in pending <==> from <= r < to)
    && (forall r: nat :: r in pending ==> pending[r] == q)
  }

  /** Requests `from` up to `to` of `ip` hold its limiter since `at`; nobody else is waiting. */
  ghost predicate Holding(s: State, ip: Ip, from: nat, to: nat, at: real) {
    && ip in s.table.visitors && s.table.visitors[ip].lastSeen == at
    && s.table.visitors[ip].lim < |s.table.Made(ip)|
    && PendingIs(s.pending, from, to, Pending(ip, s.table.visitors[ip].lim, at))
  }

  lemma {:induction false} GetsHold(p: Policy, gap: real, s: State, ip: Ip, from: nat, to: nat, n: nat, at: real)
    requires p.Valid() && Sound(p, s) && s.now == at && from <= to && Holding(s, ip, from, to, at)
    ensures var es := Gets(ip, to, n, at);
      && Runnable(p, gap, s, es)
      && var s' := Run(p, gap, s, es);
        && Sound(p, s') && s'.now == at && Holding(s', ip, from, to + n, at)
        && s'.trace == s.trace && BucketOf(s', ip) == BucketOf(s, ip)
    decreases n
  {
    hide Level, Inflow, BucketOk, Evict, Draw, Sound, Admits, FullBucket;
    if n > 0 {
      var e := Get(to, ip, at);
      var s' := Next(p, gap, s, e);
      StepSound(p, gap, s, e);
      assert Gets(ip, to, n, at)[1..] == Gets(ip, to + 1, n - 1, at);
      GetsHold(p, gap, s', ip, from, to + 1, n - 1, at);
    }
  }

  lemma {:induction false} UsesAdmitted(p: Policy, gap: real, s: State, ip: Ip, from: nat, n: nat, got: real, at: real)
    requires p.Valid() && Sound(p, s) && s.now <= at <= got + gap && Holding(s, ip, from, from + n, got)
    requires Level(p, BucketOf(s, ip), at) >= n as real
    ensures var es := Uses(ip, from, n, at);
      && Runnable(p, gap, s, es)
      && var s' := Run(p, gap, s, es);
        && Sound(p, s') && (n > 0 ==> s'.now == at) && s'.pending == map[]
        && s'.table.visitors == s.table.visitors
        && |s'.trace| == |s.trace| + n && s.trace <= s'.trace
        && Admitted(s'.trace, ip) == Admitted(s.trace, ip) + n
        && forall k :: |s.trace| <= k < |s'.trace| ==> s'.trace[k].time == at
    decreases n
  {
    hide Level, Inflow, BucketOk, Evict, Lookup, Draw, Admitted, Sound, BucketOf;
    if n > 0 {
      var e := Use(from, ip, at);
      var s' := Next(p, gap, s, e);
      UseAdmitted(p, gap, s, ip, from, n, got, at);
      assert Uses(ip, from, n, at)[1..] == Uses(ip, from + 1, n - 1, at);
      UsesAdmitted(p, gap, s', ip, from + 1, n - 1, got, at);
    }
  }

  /** One of them is admitted and leaves enough for the others. */
  lemma UseAdmitted(p: Policy, gap: real, s: State, ip: Ip, from: nat, n: nat, got: real, at: real)
    requires p.Valid() && Sound(p, s) && s.now <= at <= got + gap && Holding(s, ip, from, from + n, got) && n > 0
    requires Level(p, BucketOf(s, ip), at) >= n as real
    ensures Enabled(gap, s, Use(from, ip, at))
    ensures var s' := Next(p, gap, s, Use(from, ip, at));
      && Sound(p, s') && s'.now == at && Holding(s', ip, from + 1, from + n, got)
      && s'.table.visitors == s.table.visitors
      && s'.trace == s.trace + [Verdict(from, ip, at, true)]
      && Admitted(s'.trace, ip) == Admitted(s.trace, ip) + 1
      && Level(p, BucketOf(s', ip), at) >= (n - 1) as real
  {
    hide Level, Inflow, BucketOk, Evict, Lookup, Admitted, Sound;
    var e := Use(from, ip, at);
    BucketAt(p, s, ip, at);
    StepSound(p, gap, s, e);
    SpendOk(p, BucketOf(s, ip), at);
    AdmittedAppend(s.trace, Verdict(from, ip, at, true), ip);
  }

  lemma BucketAt(p: Policy, s: State, ip: Ip, at: real)
    requires Sound(p, s) && ip in s.table.visitors && s.now <= at
    ensures BucketOk(p, BucketOf(s, ip), at)
  {
    assert BucketOk(p, BucketOf(s, ip), s.now);
  }

  /** `n` requests look their limiter up at `got` and draw on it at `at`. */
  function Volley(ip: Ip, from: nat, n: nat, got: real, at: real): seq<Event> {
    Gets(ip, from, n, got) + Uses(ip, from, n, at)
  }

  /** An IP without a visitor gets its whole burst. */
  lemma VolleyAdmitted(p: Policy, gap: real, s: State, ip: Ip, from: nat, got: real, at: real)
    requires p.Valid() && Sound(p, s) && s.now <= got <= at <= got + gap && p.burst > 0
    requires s.pending == map[] && ip !in s.table.visitors
    ensures var es := Volley(ip, from, p.burst, got, at);
      && Runnable(p, gap, s, es)
      && var s' := Run(p, gap, s, es);
        && Sound(p, s') && s'.now == at && s'.pending == map[]
        && ip in s'.table.visitors && s'.table.visitors[ip].lastSeen == got
        && |s'.trace| == |s.trace| + p.burst && s.trace <= s'.trace
        && Admitted(s'.trace, ip) == Admitted(s.trace, ip) + p.burst
        && forall k :: |s.trace| <= k < |s'.trace| ==> s'.trace[k].time == at
  {
    var n, e := p.burst, Get(from, ip, got);
    var s1 := Next(p, gap, s, e);
    StepSound(p, gap, s, e);
    GetsHold(p, gap, s1, ip, from, from + 1, n - 1, got);
    assert Gets(ip, from, n, got)[1..] == Gets(ip, from + 1, n - 1, got);
    var s2 := Run(p, gap, s, Gets(ip, from, n, got));
    InflowNonNegative(p, at - got);
    UsesAdmitted(p, gap, s2, ip, from, n, got, at);
    RunAppend(p, gap, s, Gets(ip, from, n, got), Uses(ip, from, n, at));
  }

  /** A burst, a wait just longer than the TTL, a sweep, and another burst: all of it is admitted. */
  function LateBurst(p: Policy, gap: real, late: real): seq<Event> {
    Volley("a", 0, p.burst, 0.0, gap) + ([Sweep(late)] + Volley("a", p.burst, p.burst, late, late))
  }

  lemma LateBurstAdmitsTwice(p: Policy, gap: real, late: real)
    requires p.Valid() && p.burst > 0 && 0.0 <= gap <= p.ttl < late
    ensures Runnable(p, gap, INITIAL, LateBurst(p, gap, late))
    ensures var trace := Run(p, gap, INITIAL, LateBurst(p, gap, late)).trace;
      && |trace| == 2 * p.burst && Admitted(trace, "a") == 2 * p.burst
      && trace[0].time == gap && trace[|trace| - 1].time == late
  {
    var first, second := Volley("a", 0, p.burst, 0.0, gap), Volley("a", p.burst, p.burst, late, late);
    VolleyAdmitted(p, gap, INITIAL, "a", 0, 0.0, gap);
    var s1 := Run(p, gap, INITIAL, first);
    StepSound(p, gap, s1, Sweep(late));
    var s2 := Next(p, gap, s1, Sweep(late));
    VolleyAdmitted(p, gap, s2, "a", p.burst, late, late);
    assert ([Sweep(late)] + second)[1..] == second;
    RunAppend(p, gap, INITIAL, first, [Sweep(late)] + second);
  }

  lemma PositiveFactor(x: real, d: real)
    requires d > 0.0 && x * d > 0.0
    ensures x > 0.0
  {
  }

  lemma SmallStep(rate: real, spare: real)
    requires rate >= 0.0 && spare > 0.0
    ensures 0.0 < spare / (2.0 * (rate + 1.0))
    ensures rate * (spare / (2.0 * (rate + 1.0))) < spare
  {
    var d := 2.0 * (rate + 1.0);
    var x := spare / d;
    assert x * d == spare;
    PositiveFactor(x, d);
    assert x * d == 2.0 * (rate * x) + 2.0 * x;
    assert rate * x >= 0.0;
  }

  /** A moment after the TTL at which the bucket is still not full. */
  lemma LateTime(p: Policy, gap: real) returns (late: real)
    requires p.Valid() && 0.0 <= gap <= p.ttl && !Refills(p, gap)
    ensures late > p.ttl && Inflow(p, late - gap) < p.burst as real && p.burst > 0
  {
    assert p.rps * (p.ttl - gap) >= 0.0;
    var spare := p.burst as real - p.rps * (p.ttl - gap);
    var wait := spare / (2.0 * (p.rps + 1.0));
    SmallStep(p.rps, spare);
    InflowAdds(p, p.ttl - gap, wait);
    late := p.ttl + wait;
    assert p.ttl - gap + wait == late - gap;
  }

  lemma TwoBurstsTooMany(p: Policy, trace: seq<Verdict>, gap: real, late: real)
    requires |trace| == 2 * p.burst && Admitted(trace, "a") == 2 * p.burst && p.burst > 0
    requires trace[0].time == gap && trace[|trace| - 1].time == late
    requires Inflow(p, late - gap) < p.burst as real
    ensures !Windows(p, trace, "a")
  {
    hide Inflow, Admitted;
    assert trace[0..|trace| - 1 + 1] == trace;
    if Windows(p, trace, "a") {
      WindowAt(p, trace, "a", 0, |trace| - 1);
      InflowIs(p, late - gap);
    }
  }

  /** A wider gap allows every run that a narrower one does. */
  lemma {:induction false} WiderGap(p: Policy, gap: real, wider: real, s: State, es: seq<Event>)
    requires gap <= wider && Runnable(p, gap, s, es)
    ensures Runnable(p, wider, s, es) && Run(p, wider, s, es) == Run(p, gap, s, es)
    decreases |es|
  {
    if es != [] {
      WiderGap(p, gap, wider, Next(p, gap, s, es[0]), es[1..]);
    }
  }

  /** If a bucket does not refill, some run exceeds the bound. */
  lemma TooSlowExceeds(p: Policy, gap: real) returns (es: seq<Event>)
    requires p.Valid() && gap >= 0.0 && !Refills(p, gap)
    ensures Runnable(p, gap, INITIAL, es) && !Windows(p, Run(p, gap, INITIAL, es).trace, "a")
  {
    hide Inflow, Windows, Admitted, Run, Runnable;
    var g := if gap < p.ttl then gap else p.ttl;
    var late := LateTime(p, g);
    es := LateBurst(p, g, late);
    LateBurstAdmitsTwice(p, g, late);
    TwoBurstsTooMany(p, Run(p, g, INITIAL, es).trace, g, late);
    WiderGap(p, g, gap, INITIAL, es);
  }

  /**
   Cleanup changes no admission decision if and only if an idle bucket refills within the TTL, less the
   pause of a request between look-up and draw. For requests that may pause for the TTL or longer that is
   only so if the burst is 0 and nothing is ever admitted.
   */
  lemma InvisibleExactlyWhenRefilled(p: Policy, gap: real)
    requires p.Valid() && gap >= 0.0
    ensures EvictionInvisible(p, gap) <==>
      if gap < p.ttl then p.rps * (p.ttl - gap) >= p.burst as real else p.burst == 0
  {
    hide Windows;
    InflowZero(p);
    if Refills(p, gap) {
      forall es | Runnable(p, gap, INITIAL, es)
        ensures SameDecisions(p, gap, es)
      {
        RefilledRun(p, gap, es);
      }
    } else {
      var es := TooSlowExceeds(p, gap);
      if EvictionInvisible(p, gap) {
        assert SameDecisions(p, gap, es);
        UnsweptFromStart(p, gap, es, "a");
      }
    }
  }

  /** The admission bound, for every run, IP and window. */
  ghost predicate Bounded(p: Policy, gap: real) {
    forall es, ip :: Runnable(p, gap, INITIAL, es) ==> Windows(p, Run(p, gap, INITIAL, es).trace, ip)
  }

  /** The bound holds in all runs if and only if an idle bucket refills within the TTL. */
  lemma BoundedExactlyWhenRefilled(p: Policy, gap: real)
    requires p.Valid() && gap >= 0.0
    ensures Bounded(p, gap) <==> if gap < p.ttl then p.rps * (p.ttl - gap) >= p.burst as real else p.burst == 0
  {
    hide Windows;
    InflowZero(p);
    if Refills(p, gap) {
      forall es, ip | Runnable(p, gap, INITIAL, es)
        ensures Windows(p, Run(p, gap, INITIAL, es).trace, ip)
      {
        RefilledRun(p, gap, es);
        UnsweptFromStart(p, gap, es, ip);
      }
    } else {
      var es := TooSlowExceeds(p, gap);
    }
  }
}
