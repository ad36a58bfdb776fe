/**
 Which requests get through, said without buckets: those, and only those, that keep the admission
 bound. And whatever is evicted, who has waited long enough for one token gets through.
 */
module RateLimitDecisions {
  import opened RateLimitModel
  import opened RateLimitEviction
  import opened RateLimitBounds

  // ---------- Exactly the requests that keep the bound ----------

  /** Admitting one more request of `ip` at `at` keeps the bound in every window that ends there. */
  ghost predicate Allowed(p: Policy, trace: seq<Verdict>, ip: Ip, at: real) {
    && p.burst >= 1
    && forall i :: 0 <= i < |trace| ==>
         Admitted(trace[i..], ip) as real + 1.0 <= p.burst as real + p.rps * (at - trace[i].time)
  }

  /** The level is the burst, or what the history since some verdict leaves of burst and inflow. */
  ghost predicate TightAt(p: Policy, trace: seq<Verdict>, ip: Ip, level: real, now: real) {
    level == p.burst as real || exists i :: 0 <= i < |trace| && UsedUp(p, trace, ip, level, now, i)
  }

  predicate UsedUp(p: Policy, trace: seq<Verdict>, ip: Ip, level: real, now: real, i: nat)
    requires i < |trace|
  {
    Admitted(trace[i..], ip) as real + level == p.burst as real + Inflow(p, now - trace[i].time)
  }

  ghost predicate Exact(p: Policy, s: State, ip: Ip)
    requires Sound(p, s)
  {
    Credit(p, s, ip) && TightAt(p, s.trace, ip, LevelOf(p, s, ip), s.now)
  }

  lemma TightWaits(p: Policy, s: State, ip: Ip, later: real)
    requires p.Valid() && Sound(p, s) && s.now <= later && TightAt(p, s.trace, ip, LevelOf(p, s, ip), s.now)
    ensures TightAt(p, s.trace, ip, LevelOf(p, s.(now := later), ip), later)
  {
    var level, inflow := LevelOf(p, s, ip), Inflow(p, later - s.now);
    LevelOfLater(p, s, ip, later);
    InflowNonNegative(p, later - s.now);
    if level + inflow < p.burst as real {
      var i :| 0 <= i < |s.trace| && UsedUp(p, s.trace, ip, level, s.now, i);
      InflowAdds(p, s.now - s.trace[i].time, later - s.now);
      assert (s.now - s.trace[i].time) + (later - s.now) == later - s.trace[i].time;
      assert UsedUp(p, s.trace, ip, level + inflow, later, i);
    }
  }

  lemma TightAppend(p: Policy, trace: seq<Verdict>, v: Verdict, ip: Ip, level: real)
    requires TightAt(p, trace, ip, level, v.time)
    ensures TightAt(p, trace + [v], ip, level - (if v.ip == ip && v.admitted then 1.0 else 0.0), v.time)
  {
    hide Inflow, Admitted;
    var after, spent := trace + [v], if v.ip == ip && v.admitted then 1.0 else 0.0;
    if i :| 0 <= i < |trace| && UsedUp(p, trace, ip, level, v.time, i) {
      assert after[i..] == trace[i..] + [v];
      AdmittedAppend(trace[i..], v, ip);
      assert UsedUp(p, after, ip, level - spent, v.time, i);
    } else {
      assert after[|trace|..] == [] + [v];
      AdmittedAppend([], v, ip);
      EmptyAdmitted(ip);
      InflowZero(p);
      assert v.time - v.time == 0.0;
      assert UsedUp(p, after, ip, level - spent, v.time, |trace|);
    }
  }

  /** With exact credit, one token is there exactly if the bound leaves room for one more. */
  lemma TokenIffAllowed(p: Policy, trace: seq<Verdict>, ip: Ip, level: real, at: real)
    requires CreditAt(p, trace, ip, level, at) && TightAt(p, trace, ip, level, at) && level <= p.burst as real
    ensures level >= 1.0 <==> Allowed(p, trace, ip, at)
  {
    hide Inflow, Admitted, CreditAt;
    if level >= 1.0 {
      forall i | 0 <= i < |trace|
        ensures Admitted(trace[i..], ip) as real + 1.0 <= p.burst as real + p.rps * (at - trace[i].time)
      {
        CreditSince(p, trace, ip, level, at, i);
        InflowIs(p, at - trace[i].time);
      }
    } else if Allowed(p, trace, ip, at) {
      var i :| 0 <= i < |trace| && UsedUp(p, trace, ip, level, at, i);
      InflowIs(p, at - trace[i].time);
    }
  }

  lemma UseExact(p: Policy, gap: real, s: State, e: Event, ip: Ip)
    requires p.Valid() && Sound(p, s) && NeverEvicted(s) && Exact(p, s, ip)
    requires e.Use? && Enabled(gap, s, e)
    ensures Sound(p, Next(p, gap, s, e)) && Exact(p, Next(p, gap, s, e), ip)
    ensures e.ip == ip ==> (Next(p, gap, s, e).trace[|s.trace|].admitted <==> Allowed(p, s.trace, ip, e.at))
  {
    hide Inflow, Admitted, CreditAt, TightAt, Allowed;
    var s' := Next(p, gap, s, e);
    var v, level := s'.trace[|s.trace|], LevelOf(p, s.(now := e.at), ip);
    UseLevels(p, gap, s, e, ip);
    CreditWaits(p, s, ip, e.at);
    TightWaits(p, s, ip, e.at);
    CreditAppend(p, s.trace, v, ip, level);
    TightAppend(p, s.trace, v, ip, level);
    TokenIffAllowed(p, s.trace, ip, level, e.at);
  }

  lemma GetExact(p: Policy, gap: real, s: State, e: Event, ip: Ip)
    requires p.Valid() && Sound(p, s) && Exact(p, s, ip) && e.Get? && Enabled(gap, s, e)
    ensures Sound(p, Next(p, gap, s, e)) && Exact(p, Next(p, gap, s, e), ip)
  {
    hide Inflow, Admitted, CreditAt, TightAt;
    LookupKeepsLevels(p, gap, s, e, ip);
    CreditWaits(p, s, ip, e.at);
    TightWaits(p, s, ip, e.at);
  }

  /** Every verdict about `ip` in the trace is what the verdicts before it allow. */
  ghost predicate Decided(p: Policy, trace: seq<Verdict>, ip: Ip) {
    forall k :: 0 <= k < |trace| && trace[k].ip == ip ==>
      (trace[k].admitted <==> Allowed(p, trace[..k], ip, trace[k].time))
  }

  lemma DecidedAppend(p: Policy, trace: seq<Verdict>, v: Verdict, ip: Ip)
    requires Decided(p, trace, ip)
    requires v.ip == ip ==> (v.admitted <==> Allowed(p, trace, ip, v.time))
    ensures Decided(p, trace + [v], ip)
  {
    hide Allowed;
    var after := trace + [v];
    forall k | 0 <= k < |after| && after[k].ip == ip
      ensures after[k].admitted <==> Allowed(p, after[..k], ip, after[k].time)
    {
      if k < |trace| {
        assert after[..k] == trace[..k] && after[k] == trace[k];
      } else {
        assert after[..k] == trace;
      }
    }
  }

  lemma {:induction false} UnsweptDecided(p: Policy, gap: real, s: State, es: seq<Event>, ip: Ip)
    requires p.Valid() && Sound(p, s) && NeverEvicted(s) && Exact(p, s, ip) && Decided(p, s.trace, ip)
    requires Runnable(p, gap, s, es) && WithoutSweeps(es) == es
    ensures Decided(p, Run(p, gap, s, es).trace, ip)
    decreases |es|
  {
    hide Exact, Decided, Sound, Allowed, WithoutSweeps;
    if es != [] {
      var e, s' := es[0], Next(p, gap, s, es[0]);
      SweepsFirst(es);
      if e.Get? {
        GetExact(p, gap, s, e, ip);
        GetPendingLive(p, gap, s, e);
      } else {
        UseExact(p, gap, s, e, ip);
        DecidedAppend(p, s.trace, s'.trace[|s.trace|], ip);
      }
      UnsweptDecided(p, gap, s', es[1..], ip);
    }
  }

  /**
   Provided an idle bucket refills within the TTL, request `k` is admitted if and only if admitting it
   keeps its IP within burst + rps * T in every window that ends with it, with any sweeps in the run.
   */
  lemma DecidedByHistory(p: Policy, gap: real, es: seq<Event>, k: nat)
    requires p.Valid() && gap >= 0.0 && Refills(p, gap)
    requires Runnable(p, gap, INITIAL, es) && k < |Run(p, gap, INITIAL, es).trace|
    ensures var trace := Run(p, gap, INITIAL, es).trace;
      trace[k].admitted <==>
        && p.burst >= 1
        && forall i :: 0 <= i < k ==>
             Admitted(trace[i..k], trace[k].ip) as real + 1.0
             <= p.burst as real + p.rps * (trace[k].time - trace[i].time)
  {
    hide Admitted, Run;
    var trace := Run(p, gap, INITIAL, es).trace;
    RefilledRun(p, gap, es);
    WithoutSweepsShorter(es);
    UnsweptDecided(p, gap, INITIAL, WithoutSweeps(es), trace[k].ip);
    assert forall i :: 0 <= i < k ==> trace[..k][i..] == trace[i..k] && trace[..k][i] == trace[i];
  }

  // ---------- Who has waited is admitted ----------

  /** A bucket that is not full was last drawn on by an admitted request of its IP. */
  predicate Drawn(p: Policy, trace: seq<Verdict>, ip: Ip, b: Bucket) {
    b.tokens == p.burst as real || exists j :: 0 <= j < |trace| && DrewAt(trace, ip, b, j)
  }

  predicate DrewAt(trace: seq<Verdict>, ip: Ip, b: Bucket, j: nat)
    requires j < |trace|
  {
    trace[j].ip == ip && trace[j].admitted && trace[j].time == b.last
  }

  ghost predicate AllDrawn(p: Policy, s: State) {
    forall ip, k :: 0 <= k < |s.table.Made(ip)| ==> Drawn(p, s.trace, ip, s.table.Made(ip)[k])
  }

  lemma DrawnLater(p: Policy, trace: seq<Verdict>, v: Verdict, ip: Ip, b: Bucket)
    requires Drawn(p, trace, ip, b)
    ensures Drawn(p, trace + [v], ip, b)
  {
    if j :| 0 <= j < |trace| && DrewAt(trace, ip, b, j) {
      assert DrewAt(trace + [v], ip, b, j);
    }
  }

  lemma UseDrawn(p: Policy, gap: real, s: State, e: Event)
    requires AllDrawn(p, s) && e.Use? && Enabled(gap, s, e)
    ensures AllDrawn(p, Next(p, gap, s, e))
  {
    hide Drawn, Level, Admits;
    var s' := Next(p, gap, s, e);
    var lim, v := s.pending[e.req].lim, s'.trace[|s.trace|];
    forall ip, k | 0 <= k < |s'.table.Made(ip)|
      ensures Drawn(p, s'.trace, ip, s'.table.Made(ip)[k])
    {
      DrawnLater(p, s.trace, v, ip, s.table.Made(ip)[k]);
      if ip == e.ip && k == lim && v.admitted {
        JustDrawn(p, s.trace, v, ip, s'.table.Made(ip)[k]);
      }
    }
  }

  lemma JustDrawn(p: Policy, trace: seq<Verdict>, v: Verdict, ip: Ip, b: Bucket)
    requires v.ip == ip && v.admitted && v.time == b.last
    ensures Drawn(p, trace + [v], ip, b)
  {
    assert DrewAt(trace + [v], ip, b, |trace|);
  }

  lemma StepDrawn(p: Policy, gap: real, s: State, e: Event)
    requires AllDrawn(p, s) && Enabled(gap, s, e)
    ensures AllDrawn(p, Next(p, gap, s, e))
  {
    if e.Use? {
      UseDrawn(p, gap, s, e);
    } else {
      var s' := Next(p, gap, s, e);
      forall ip, k | 0 <= k < |s'.table.Made(ip)|
        ensures Drawn(p, s'.trace, ip, s'.table.Made(ip)[k])
      {
        assert k < |s.table.Made(ip)| ==> Drawn(p, s.trace, ip, s.table.Made(ip)[k]);
      }
    }
  }

  lemma {:induction false} RunDrawn(p: Policy, gap: real, s: State, es: seq<Event>)
    requires p.Valid() && Sound(p, s) && AllDrawn(p, s) && Runnable(p, gap, s, es)
    ensures Sound(p, Run(p, gap, s, es)) && AllDrawn(p, Run(p, gap, s, es))
    decreases |es|
  {
    hide Sound, AllDrawn, Next, Enabled;
    if es != [] {
      StepSound(p, gap, s, es[0]);
      StepDrawn(p, gap, s, es[0]);
      RunDrawn(p, gap, Next(p, gap, s, es[0]), es[1..]);
    }
  }

  /** A bucket that holds, or has been filled up to, one token admits. */
  lemma FilledAdmits(p: Policy, b: Bucket, at: real)
    ensures Admits(p, b, at) <==> p.burst >= 1 && b.tokens + p.rps * (at - b.last) >= 1.0
  {
    hide Inflow;
    InflowIs(p, at - b.last);
    assert p.burst >= 1 <==> p.burst as real >= 1.0;
    assert Level(p, b, at) == Capped(p, b.tokens + p.rps * (at - b.last));
  }

  /**
   Whatever was swept and however long requests pause: if every request of the IP that was admitted so
   far was decided at least `wait` ago, and `wait` is worth a token, the next one is admitted.
   */
  lemma RestedIsAdmitted(p: Policy, gap: real, es: seq<Event>, e: Event, wait: real)
    requires p.Valid() && p.burst >= 1 && p.rps * wait >= 1.0
    requires Runnable(p, gap, INITIAL, es) && e.Use? && Enabled(gap, Run(p, gap, INITIAL, es), e)
    requires var trace := Run(p, gap, INITIAL, es).trace;
      forall j :: 0 <= j < |trace| && trace[j].ip == e.ip && trace[j].admitted ==> trace[j].time + wait <= e.at
    ensures var s := Run(p, gap, INITIAL, es);
      Next(p, gap, s, e).trace == s.trace + [Verdict(e.req, e.ip, e.at, true)]
  {
    hide Run, Runnable, Level, Inflow, Admits, Spend;
    assert Sound(p, INITIAL) && AllDrawn(p, INITIAL);
    RunDrawn(p, gap, INITIAL, es);
    var s := Run(p, gap, INITIAL, es);
    var b := s.table.Made(e.ip)[s.pending[e.req].lim];
    assert BucketOk(p, b, s.now) && Drawn(p, s.trace, e.ip, b);
    FilledAdmits(p, b, e.at);
    Waited(p, b, e.at - b.last, wait);
  }

  lemma Waited(p: Policy, b: Bucket, rest: real, wait: real)
    requires p.Valid() && p.burst >= 1 && p.rps * wait >= 1.0 && b.tokens >= 0.0 && rest >= 0.0
    requires b.tokens == p.burst as real || rest >= wait
    ensures b.tokens + p.rps * rest >= 1.0
  {
    assert p.rps * rest >= 0.0;
    if rest >= wait {
      assert p.rps * rest == p.rps * wait + p.rps * (rest - wait);
      assert p.rps * (rest - wait) >= 0.0;
    }
  }
}
