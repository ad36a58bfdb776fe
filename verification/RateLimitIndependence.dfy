/**
 One IP's requests never change another IP's decisions: leave out everybody else's requests and the
 decisions for this IP stay the same, whatever the sweeps evict.
 */
module RateLimitIndependence {
  import opened RateLimitModel

  predicate Concerns(e: Event, ip: Ip) {
    e.Sweep? || e.ip == ip
  }

  /** The sweeps and the requests of `ip`. */
  function Only(es: seq<Event>, ip: Ip): seq<Event> {
    if es == [] then [] else (if Concerns(es[0], ip) then [es[0]] else []) + Only(es[1..], ip)
  }

  /** The decisions about `ip`. */
  function About(trace: seq<Verdict>, ip: Ip): seq<Verdict> {
    if trace == [] then []
    else
      var last := trace[|trace| - 1];
      About(trace[..|trace| - 1], ip) + if last.ip == ip then [last] else []
  }

  lemma AboutAppend(trace: seq<Verdict>, v: Verdict, ip: Ip)
    ensures About(trace + [v], ip) == About(trace, ip) + if v.ip == ip then [v] else []
  {
    assert (trace + [v])[..|trace|] == trace;
  }

  ghost predicate SameTable(s: State, own: State, ip: Ip) {
    && own.table.Made(ip) == s.table.Made(ip)
    && (ip in own.table.visitors <==> ip in s.table.visitors)
    && (ip in s.table.visitors ==> own.table.visitors[ip] == s.table.visitors[ip])
  }

  ghost predicate SamePending(s: State, own: State, ip: Ip) {
    && (forall r :: r in own.pending ==> r in s.pending && own.pending[r] == s.pending[r])
    && (forall r :: r in s.pending && s.pending[r].ip == ip ==> r in own.pending)
    && (forall r :: r in own.pending ==> own.pending[r].ip == ip)
  }

  /** `own` ran only the requests of `ip`, `s` ran everybody's. */
  ghost predicate Projects(s: State, own: State, ip: Ip) {
    && SameTable(s, own, ip) && SamePending(s, own, ip)
    && own.now <= s.now && own.trace == About(s.trace, ip)
  }

  lemma OwnEnabled(gap: real, s: State, own: State, e: Event, ip: Ip)
    requires Projects(s, own, ip) && Enabled(gap, s, e) && Concerns(e, ip)
    ensures Enabled(gap, own, e)
  {
    hide About;
  }

  lemma OwnTable(p: Policy, gap: real, s: State, own: State, e: Event, ip: Ip)
    requires Projects(s, own, ip) && Enabled(gap, s, e) && Enabled(gap, own, e) && Concerns(e, ip)
    ensures SameTable(Next(p, gap, s, e), Next(p, gap, own, e), ip)
  {
    hide Level, Spend, Admits, FullBucket, Stale, About;
  }

  lemma OwnPending(p: Policy, gap: real, s: State, own: State, e: Event, ip: Ip)
    requires Projects(s, own, ip) && Enabled(gap, s, e) && Enabled(gap, own, e) && Concerns(e, ip)
    ensures SamePending(Next(p, gap, s, e), Next(p, gap, own, e), ip)
  {
    hide Level, Spend, Admits, FullBucket, Stale, About;
  }

  lemma OwnStep(p: Policy, gap: real, s: State, own: State, e: Event, ip: Ip)
    requires Projects(s, own, ip) && Enabled(gap, s, e) && Concerns(e, ip)
    ensures Enabled(gap, own, e)
    ensures Projects(Next(p, gap, s, e), Next(p, gap, own, e), ip)
  {
    hide Level, Spend, Admits, FullBucket, Stale, About, Lookup, Draw, Evict;
    OwnEnabled(gap, s, own, e, ip);
    OwnTable(p, gap, s, own, e, ip);
    OwnPending(p, gap, s, own, e, ip);
    if e.Use? {
      AboutAppend(s.trace, Next(p, gap, s, e).trace[|s.trace|], ip);
    }
  }

  lemma OtherStep(p: Policy, gap: real, s: State, own: State, e: Event, ip: Ip)
    requires Projects(s, own, ip) && Enabled(gap, s, e) && !Concerns(e, ip)
    ensures Projects(Next(p, gap, s, e), own, ip)
  {
    hide Level, Spend, Admits, FullBucket, Stale, About;
    if e.Use? {
      AboutAppend(s.trace, Next(p, gap, s, e).trace[|s.trace|], ip);
    }
  }

  lemma {:induction false} RunsProject(p: Policy, gap: real, s: State, own: State, es: seq<Event>, ip: Ip)
    requires Projects(s, own, ip) && Runnable(p, gap, s, es)
    ensures Runnable(p, gap, own, Only(es, ip))
    ensures Run(p, gap, own, Only(es, ip)).trace == About(Run(p, gap, s, es).trace, ip)
    decreases |es|
  {
    hide Next, Enabled;
    if es != [] {
      var e, s' := es[0], Next(p, gap, s, es[0]);
      if Concerns(e, ip) {
        OwnStep(p, gap, s, own, e, ip);
        RunsProject(p, gap, s', Next(p, gap, own, e), es[1..], ip);
        assert Only(es, ip)[1..] == Only(es[1..], ip);
      } else {
        OtherStep(p, gap, s, own, e, ip);
        RunsProject(p, gap, s', own, es[1..], ip);
        assert Only(es, ip) == Only(es[1..], ip);
      }
    }
  }

  /** Every decision about `ip` is the one it would get if nobody else sent requests. */
  lemma OthersDoNotMatter(p: Policy, gap: real, es: seq<Event>, ip: Ip)
    requires Runnable(p, gap, INITIAL, es)
    ensures Runnable(p, gap, INITIAL, Only(es, ip))
    ensures About(Run(p, gap, INITIAL, es).trace, ip) == Run(p, gap, INITIAL, Only(es, ip)).trace
  {
    RunsProject(p, gap, INITIAL, INITIAL, es, ip);
  }
}
